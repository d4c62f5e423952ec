/** The generator of the per-task codel tables (src/execTaskGen.c) and the code
    that dispatches through them (execTaskCallUserFunc in canvas/server/execTask.c). */
module CodelTables {
  import opened Activities
  import opened Wrappers

  datatype Kind = ControlRqst | ExecRqst | InitRqst

  /** The interrupt_activity attribute as written in the description. */
  datatype Interrupts = Nothing | Everything | Named(names: seq<string>)

  /** RQST_STR, reduced to what the runtime depends on. A request's number is its
      position in the list (resolveRequests). */
  datatype Request = Request(
    name: string, kind: Kind, task: Option<nat>, interrupts: Interrupts,
    codelStart: Option<string>, codelMain: Option<string>, codelEnd: Option<string>,
    codelFail: Option<string>, codelInter: Option<string>)

  /** The codel a request declares for a state. */
  function Declared(r: Request, state: State): Option<string> {
    match state
    case Start => r.codelStart
    case Exec => r.codelMain
    case End => r.codelEnd
    case Fail => r.codelFail
    case Inter => r.codelInter
    case _ => None
  }

  /** Entry k of a table is request k's codel for that state, if task t owns request k. */
  predicate Emitted(table: seq<Option<string>>, requests: seq<Request>, t: nat, state: State) {
    && |table| == |requests| + 1
    && forall k :: 0 <= k < |requests| ==>
         table[k] == if requests[k].task == Some(t) then Declared(requests[k], state) else None
  }

  /** One emission loop of execTaskGen: an entry per request, then a closing NULL. */
  method EmitTable(requests: seq<Request>, t: nat, state: State) returns (table: seq<Option<string>>)
    ensures Emitted(table, requests, t, state) && table[|requests|] == None
  {
    table := [];
    var k := 0;
    while k < |requests|
      invariant k <= |requests| && |table| == k
      invariant forall j :: 0 <= j < k ==>
                  table[j] == if requests[j].task == Some(t) then Declared(requests[j], state) else None
    {
      var codel := Declared(requests[k], state);
      if codel != None && requests[k].task == Some(t) {
        table := table + [codel];
      } else {
        table := table + [None];
      }
      k := k + 1;
    }
    table := table + [None];
  }

  datatype Tables = Tables(
    exec: seq<Option<string>>, start: seq<Option<string>>, end: seq<Option<string>>,
    fail: seq<Option<string>>, inter: seq<Option<string>>)

  predicate Sized(tb: Tables, nbRqst: nat) {
    |tb.exec| == |tb.start| == |tb.end| == |tb.fail| == |tb.inter| == nbRqst + 1
  }

  predicate Generated(tb: Tables, requests: seq<Request>, t: nat) {
    && Emitted(tb.exec, requests, t, Exec)
    && Emitted(tb.start, requests, t, Start)
    && Emitted(tb.end, requests, t, End)
    && Emitted(tb.fail, requests, t, Fail)
    && Emitted(tb.inter, requests, t, Inter)
  }

  /** The five tables of one execution task. */
  method GenTables(requests: seq<Request>, t: nat) returns (tb: Tables)
    ensures Sized(tb, |requests|) && Generated(tb, requests, t)
  {
    var exec := EmitTable(requests, t, Exec);
    var start := EmitTable(requests, t, Start);
    var end := EmitTable(requests, t, End);
    var fail := EmitTable(requests, t, Fail);
    var inter := EmitTable(requests, t, Inter);
    tb := Tables(exec, start, end, fail, inter);
  }

  /** The same tables as a value. */
  function TableOf(requests: seq<Request>, t: nat, state: State): seq<Option<string>> {
    seq(|requests| + 1, k requires 0 <= k <= |requests| =>
      if k < |requests| && requests[k].task == Some(t) then Declared(requests[k], state) else None)
  }

  function TablesOf(requests: seq<Request>, t: nat): (tb: Tables)
    ensures Sized(tb, |requests|) && Generated(tb, requests, t)
  {
    Tables(TableOf(requests, t, Exec), TableOf(requests, t, Start), TableOf(requests, t, End),
           TableOf(requests, t, Fail), TableOf(requests, t, Inter))
  }

  /** What execTaskCallUserFunc does: call a codel, or return a default event. */
  datatype Action = CallCodel(codel: string) | Default(evn: State)

  function Lookup(table: seq<Option<string>>, k: nat, default: State): Action
    requires k < |table|
  {
    match table[k]
    case Some(c) => CallCodel(c)
    case None => Default(default)
  }

  /** The switch of execTaskCallUserFunc. */
  function Dispatch(tb: Tables, state: State, rqst: nat): Action
    requires ForExecTask(state)
    requires rqst < |tb.exec| && rqst < |tb.start| && rqst < |tb.end|
    requires rqst < |tb.fail| && rqst < |tb.inter|
  {
    match state
    case Start => Lookup(tb.start, rqst, Exec)
    case Exec => Lookup(tb.exec, rqst, End)
    case End => Lookup(tb.end, rqst, Ether)
    case Fail => Lookup(tb.fail, rqst, Zombie)
    case _ => Lookup(tb.inter, rqst, Ether)
  }

  /** What codels return: one arbitrary answer per codel and table slot. */
  type Oracle = (string, nat) -> State

  function UserFunc(tb: Tables, state: State, rqst: nat, slot: nat, codels: Oracle): State
    requires ForExecTask(state)
    requires rqst < |tb.exec| && rqst < |tb.start| && rqst < |tb.end|
    requires rqst < |tb.fail| && rqst < |tb.inter|
  {
    match Dispatch(tb, state, rqst)
    case CallCodel(c) => codels(c, slot)
    case Default(e) => e
  }

  /** The compiled dispatch means what the description says: the declared codel is
      called exactly when the task owns the request and declares one for the state;
      in every other case the default event is one filterAndSendEvn permits. */
  lemma DispatchMeansDeclaration(requests: seq<Request>, t: nat, tb: Tables, state: State, k: nat, c: string)
    requires Generated(tb, requests, t) && k < |requests| && ForExecTask(state)
    ensures Dispatch(tb, state, k) == CallCodel(c) <==>
            requests[k].task == Some(t) && Declared(requests[k], state) == Some(c)
    ensures Dispatch(tb, state, k).Default? ==> Permitted(state, Dispatch(tb, state, k).evn)
    ensures Dispatch(tb, state, k).Default? <==>
            requests[k].task != Some(t) || Declared(requests[k], state) == None
  {
    match state
    case Start => assert Emitted(tb.start, requests, t, Start);
    case Exec => assert Emitted(tb.exec, requests, t, Exec);
    case End => assert Emitted(tb.end, requests, t, End);
    case Fail => assert Emitted(tb.fail, requests, t, Fail);
    case Inter => assert Emitted(tb.inter, requests, t, Inter);
  }
}

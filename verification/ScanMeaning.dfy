/** What an iteration of an execution task does, told by the description, the slots and the answers of
    the codels alone: which activities it dispatches, for which state, what becomes of them, when the
    task is suspended and who is signalled. */
module ScanMeaning {
  import opened Wrappers
  import opened Activities
  import opened CodelTables
  import opened ControlTask
  import opened ExecTask
  import opened ActivityLife

  /** There is something to do for the activity: one of the five events, or it sleeps. */
  predicate Due(a: Activity) {
    a.evn in {Start, Exec, End, Fail, Inter} || (a.status == Sleep && a.evn == NoEvent)
  }

  /** A sleeper is run, any other activity goes on with its event. */
  function StateDue(a: Activity): State {
    if a.evn == NoEvent then Exec else a.evn
  }

  /** The answer of the codel that request r declares for a state, or what an activity without that
      codel does: start running, end, finish, become a zombie, finish. */
  function Answer(r: Request, t: nat, state: State, slot: nat, codels: Oracle): State {
    if r.task != Some(t) then DefaultFor(state)
    else match state
         case Start => if r.codelStart.Some? then codels(r.codelStart.value, slot) else Exec
         case Exec => if r.codelMain.Some? then codels(r.codelMain.value, slot) else End
         case End => if r.codelEnd.Some? then codels(r.codelEnd.value, slot) else Ether
         case Fail => if r.codelFail.Some? then codels(r.codelFail.value, slot) else Zombie
         case _ => if r.codelInter.Some? then codels(r.codelInter.value, slot) else Ether
  }

  function DefaultFor(state: State): State {
    match state
    case Start => Exec
    case Exec => End
    case Fail => Zombie
    case _ => Ether
  }

  /** A section about to scan: the requests, the task, its tables and the codels, the table. */
  ghost predicate Ready(c: Config, st: Store, t: nat, p: Program) {
    && ValidConfig(c) && StoreOk(c, st) && t < |c.periodic|
    && Generated(p.tables, c.requests, t) && Covered(st.acts, t, p)
  }

  function AnswerAt(c: Config, st: Store, t: nat, p: Program, i: nat): State
    requires i < |st.acts| && 0 <= st.acts[i].rqst < |c.requests|
  {
    Answer(c.requests[st.acts[i].rqst], t, StateDue(st.acts[i]), i, p.codels)
  }

  /** Slot i of the task suspends it: an event that does not exist, or an answer out of order. */
  ghost predicate Halts(c: Config, st: Store, t: nat, p: Program, i: nat)
    requires Ready(c, st, t, p) && i < |st.acts|
  {
    var a := st.acts[i];
    a.task == t && (a.evn.Unknown? || (Due(a) && !Legal(StateDue(a), AnswerAt(c, st, t, p, i))))
  }

  /** The activity in slot i is dispatched in the iteration: it is the task's, something is due, and
      nothing has suspended the task before the scan comes to it. */
  ghost predicate Runs(c: Config, st: Store, t: nat, p: Program, o: Outcome, i: int)
    requires Ready(c, st, t, p)
  {
    && o.main1Ok && 0 <= i < |st.acts| && st.acts[i].task == t && Due(st.acts[i])
    && forall j :: 0 <= j < i ==> !Halts(c, st, t, p, j)
  }

  // ----- one slot

  /** Stepping a slot makes exactly one call if something is due, and none otherwise. */
  lemma DispatchMeans(c: Config, st: Store, t: nat, p: Program, i: nat)
    requires Ready(c, st, t, p) && i < |st.acts| && st.acts[i].task == t
    ensures var a, s, r := st.acts[i], StateDue(st.acts[i]), AnswerAt(c, st, t, p, i);
            && Stepped(a, i, p) == (if Due(a) then a.(status := s, evn := r, calls := a.calls + [Call(s, r)]) else a)
            && (Suspending(a, i, p) <==> Halts(c, st, t, p, i))
            && (Transition(a, i, p) <==> Due(a) && Legal(s, r) && s != r)
            && (RunsAgain(a, i, p) <==> Due(a) && Legal(s, r) && r != Sleep)
  {
    var a := st.acts[i];
    assert SlotOk(a, |st.acts|, |c.periodic|, |c.requests|);
    if Due(a) {
      AnswerMeans(c.requests, t, p, StateDue(a), a.rqst, i);
      PermittedIsLegal(StateDue(a), AnswerAt(c, st, t, p, i));
    }
  }

  /** Calling through the generated tables gives the answer the description says. */
  lemma AnswerMeans(requests: seq<Request>, t: nat, p: Program, state: State, k: nat, slot: nat)
    requires Generated(p.tables, requests, t) && k < |requests| && state in {Start, Exec, End, Fail, Inter}
    ensures Sized(p.tables, |requests|) && ForExecTask(state)
    ensures UserFunc(p.tables, state, k, slot, p.codels) == Answer(requests[k], t, state, slot, p.codels)
  {
  }

  // ----- the scan

  lemma ScanEndMeans(c: Config, st: Store, t: nat, p: Program, i: nat)
    requires Ready(c, st, t, p) && i < |st.acts|
    ensures i < ScanEnd(st.acts, t, p) <==> forall j :: 0 <= j < i ==> !Halts(c, st, t, p, j)
  {
    var k := FirstSuspension(st.acts, t, p, 0);
    forall j | 0 <= j < |st.acts| ensures SuspendsAt(st.acts, t, p, j) <==> Halts(c, st, t, p, j) {
      if st.acts[j].task == t {
        DispatchMeans(c, st, t, p, j);
      }
    }
  }

  lemma SuspendsMeans(c: Config, st: Store, t: nat, p: Program)
    requires Ready(c, st, t, p)
    ensures ScanSuspends(st.acts, t, p) <==> exists j :: 0 <= j < |st.acts| && Halts(c, st, t, p, j)
  {
    forall j | 0 <= j < |st.acts| ensures SuspendsAt(st.acts, t, p, j) <==> Halts(c, st, t, p, j) {
      if st.acts[j].task == t {
        DispatchMeans(c, st, t, p, j);
      }
    }
  }

  // ----- the iteration

  /** What becomes of each slot: if its activity is dispatched, exactly one more call, with the state it
      is in now and the answer as its new event; nothing at all otherwise. */
  lemma IterationRuns(c: Config, st: Store, t: nat, p: Program, o: Outcome, flags: seq<bool>, i: nat)
    requires Ready(c, st, t, p) && i < |st.acts|
    ensures var st' := AfterIteration(st, c.periodic, flags, t, p, o).0;
            && |st'.acts| == |st.acts| && st'.lastId == st.lastId && st'.lastNum == st.lastNum
            && st'.acts[i] ==
                 if Runs(c, st, t, p, o, i) then
                   var s, r := StateDue(st.acts[i]), AnswerAt(c, st, t, p, i);
                   st.acts[i].(status := s, evn := r, calls := st.acts[i].calls + [Call(s, r)])
                 else st.acts[i]
  {
    ScanEndMeans(c, st, t, p, i);
    if st.acts[i].task == t {
      DispatchMeans(c, st, t, p, i);
    }
  }

  /** The task is suspended exactly if a permanent codel fails or a slot suspends it; then its status is
      ERROR and the control task is signalled, and otherwise no status changes. */
  lemma IterationSuspends(c: Config, st: Store, t: nat, p: Program, o: Outcome, flags: seq<bool>)
    requires Ready(c, st, t, p)
    ensures var (st', suspended) := AfterIteration(st, c.periodic, flags, t, p, o);
            && (suspended <==>
                  || !o.main1Ok || !o.main2Ok
                  || exists j :: 0 <= j < |st.acts| && Halts(c, st, t, p, j))
            && st'.failed == st.failed + (if suspended then {t} else {})
            && (suspended ==> |c.periodic| in st'.pending)
  {
    SuspendsMeans(c, st, t, p);
  }

  /** The codel of slot i answers something permitted other than its state; other than SLEEP. */
  predicate Moves(c: Config, st: Store, t: nat, p: Program, i: nat)
    requires i < |st.acts| && 0 <= st.acts[i].rqst < |c.requests|
  {
    var s, r := StateDue(st.acts[i]), AnswerAt(c, st, t, p, i);
    Due(st.acts[i]) && Legal(s, r) && r != s
  }

  predicate GoesOnAt(c: Config, st: Store, t: nat, p: Program, i: nat)
    requires i < |st.acts| && 0 <= st.acts[i].rqst < |c.requests|
  {
    var s, r := StateDue(st.acts[i]), AnswerAt(c, st, t, p, i);
    Due(st.acts[i]) && Legal(s, r) && r != Sleep
  }

  /** Some activity dispatched in the iteration leaves its state; some one is to be run again. */
  ghost predicate SomeMoves(c: Config, st: Store, t: nat, p: Program, o: Outcome)
    requires Ready(c, st, t, p)
  {
    exists i :: Runs(c, st, t, p, o, i) && Moves(c, st, t, p, i)
  }

  ghost predicate SomeGoesOn(c: Config, st: Store, t: nat, p: Program, o: Outcome)
    requires Ready(c, st, t, p)
  {
    exists i :: Runs(c, st, t, p, o, i) && GoesOnAt(c, st, t, p, i)
  }

  lemma MovesMeans(c: Config, st: Store, t: nat, p: Program, o: Outcome)
    requires Ready(c, st, t, p) && o.main1Ok
    ensures AnyTransition(st.acts, t, p, ScanEnd(st.acts, t, p)) <==> SomeMoves(c, st, t, p, o)
    ensures AnyRunsAgain(st.acts, t, p, ScanEnd(st.acts, t, p)) <==> SomeGoesOn(c, st, t, p, o)
  {
    var end := ScanEnd(st.acts, t, p);
    AnyMeansExists(st.acts, t, p, end);
    forall i | 0 <= i < |st.acts| && st.acts[i].task == t
      ensures (i < end && Due(st.acts[i])) <==> Runs(c, st, t, p, o, i)
      ensures Transition(st.acts[i], i, p) <==> Moves(c, st, t, p, i)
      ensures RunsAgain(st.acts[i], i, p) <==> GoesOnAt(c, st, t, p, i)
    {
      ScanEndMeans(c, st, t, p, i);
      DispatchMeans(c, st, t, p, i);
    }
  }

  /** Exactly these are signalled by an iteration: an aperiodic task itself if some activity goes on; the
      control task if the iteration suspends, some activity has left its state or the task's report has
      changed; and, unless the iteration suspends, the tasks whose wake-up flags are raised. */
  lemma IterationSignalled(c: Config, st: Store, t: nat, p: Program, o: Outcome, flags: seq<bool>, u: int)
    requires Ready(c, st, t, p) && |flags| == |c.periodic|
    ensures var (st', suspended) := AfterIteration(st, c.periodic, flags, t, p, o);
            u in st'.pending <==>
              || u in st.pending
              || (u == t && !c.periodic[t] && SomeGoesOn(c, st, t, p, o))
              || (u == |c.periodic| && (suspended || SomeMoves(c, st, t, p, o) || o.reportChanged))
              || (0 <= u < |flags| && flags[u] && !suspended)
  {
    if o.main1Ok {
      MovesMeans(c, st, t, p, o);
    }
  }
}

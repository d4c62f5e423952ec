/** No wake-up is lost: whenever an activity holds an event for a task that sleeps until it is
    signalled, that task's signal is pending. */
module Wakeups {
  import opened Activities
  import opened CodelTables
  import opened ControlTask
  import opened ExecTask
  import opened TableInvariants

  /** Aperiodic tasks with something to dispatch are signalled, except the excused ones. */
  ghost predicate TasksAlerted(c: Config, acts: seq<Activity>, pending: set<int>, excused: set<int>) {
    forall i :: 0 <= i < |acts| ==> TaskAlerted(c, acts[i], pending, excused)
  }

  ghost predicate TaskAlerted(c: Config, a: Activity, pending: set<int>, excused: set<int>) {
    Live(a) && ForExecTask(a.evn) && 0 <= a.task < |c.periodic| && !c.periodic[a.task] && a.task !in excused ==>
      a.task in pending
  }

  /** With something to acknowledge, the control task is signalled. */
  ghost predicate ControlAlerted(c: Config, acts: seq<Activity>, pending: set<int>) {
    NothingToAcknowledge(acts) || |c.periodic| in pending
  }

  lemma {:induction false} AbortSignalsHas(acts: seq<Activity>, who: int, compat: seq<int>, n: nat,
                                           periodic: seq<bool>, i: nat)
    requires n <= |acts| && Indexable(acts, compat) && i < n
    requires forall j :: 0 <= j < |acts| && Live(acts[j]) ==> 0 <= acts[j].task < |periodic|
    requires Hit(acts[i], i, who, compat) && AsksInter(acts[i]) && !periodic[acts[i].task]
    ensures acts[i].task in AbortSignals(acts, who, compat, n, periodic)
  {
    if i < n - 1 {
      AbortSignalsHas(acts, who, compat, n - 1, periodic, i);
    }
  }

  lemma {:induction false} SpawnSignalsHas(acts: seq<Activity>, n: nat, periodic: seq<bool>, i: nat)
    requires n <= |acts| && i < n
    requires forall j :: 0 <= j < |acts| ==> SlotNumbers(acts[j].incomp, |acts|)
    requires forall j :: 0 <= j < |acts| && Live(acts[j]) ==> 0 <= acts[j].task < |periodic|
    requires Live(acts[i]) && Starts(acts, acts[i]) && !periodic[acts[i].task]
    ensures acts[i].task in SpawnSignals(acts, n, periodic)
  {
    if i < n - 1 {
      SpawnSignalsHas(acts, n - 1, periodic, i);
    }
  }

  lemma AbortHitsAlert(c: Config, acts: seq<Activity>, who: int, compat: seq<int>, pending: set<int>, excused: set<int>)
    requires TableOk(acts, |c.periodic|, |compat|) && TasksAlerted(c, acts, pending, excused)
    ensures TasksAlerted(c, AbortHits(acts, who, compat),
                         pending + AbortSignals(acts, who, compat, |acts|, c.periodic), excused)
  {
    var pending' := pending + AbortSignals(acts, who, compat, |acts|, c.periodic);
    forall i | 0 <= i < |acts|
      ensures TaskAlerted(c, AbortHits(acts, who, compat)[i], pending', excused)
    {
      assert TaskAlerted(c, acts[i], pending, excused);
      if Hit(acts[i], i, who, compat) && AsksInter(acts[i]) && !c.periodic[acts[i].task] {
        AbortSignalsHas(acts, who, compat, |acts|, c.periodic, i);
      }
    }
  }

  lemma EventAlerts(c: Config, st: Store, e: Event, excused: set<int>)
    requires ValidConfig(c) && StoreOk(c, st) && ServableEvent(c, e)
    requires TasksAlerted(c, st.acts, st.pending, excused)
    ensures TasksAlerted(c, AfterEvent(c, st, e).acts, AfterEvent(c, st, e).pending, excused)
  {
    match e {
      case Execution(r, accepted, codelOk) => ExecutionAlerts(c, st, r, accepted, codelOk, excused);
      case Control(r) => AbortHitsAlert(c, st.acts, -1, c.compat[r], st.pending, excused);
      case Abort(number) => AbortAlerts(c, st, number, excused);
    }
  }

  lemma AbortAlerts(c: Config, st: Store, number: int, excused: set<int>)
    requires ValidConfig(c) && StoreOk(c, st) && TasksAlerted(c, st.acts, st.pending, excused)
    ensures TasksAlerted(c, AfterAbort(c, st, number).acts, AfterAbort(c, st, number).pending, excused)
  {
    var st' := AfterAbort(c, st, number);
    forall j | 0 <= j < |st.acts| ensures TaskAlerted(c, st'.acts[j], st'.pending, excused) {
      assert TaskAlerted(c, st.acts[j], st.pending, excused);
    }
  }

  lemma ExecutionAlerts(c: Config, st: Store, r: nat, accepted: bool, codelOk: bool, excused: set<int>)
    requires ValidConfig(c) && StoreOk(c, st)
    requires r < |c.requests| && c.requests[r].kind != ControlRqst
    requires TasksAlerted(c, st.acts, st.pending, excused)
    ensures TasksAlerted(c, AfterExecution(c, st, r, accepted, codelOk).acts,
                         AfterExecution(c, st, r, accepted, codelOk).pending, excused)
  {
    var k := AllocResult(st.acts, st.lastNum);
    var st' := AfterExecution(c, st, r, accepted, codelOk);
    if !Accepts(c, st, r, accepted) || k == -1 {
      assert st' == st;
    } else {
      var a := NewActivity(r, st.lastId + 1, c.requests[r].task.value);
      if codelOk {
        AdmissionAlerts(c, st, r, k, a, excused);
      } else {
        RefusalAlerts(c, st, k, a, excused);
      }
    }
  }

  lemma AdmissionAlerts(c: Config, st: Store, r: nat, k: nat, a: Activity, excused: set<int>)
    requires ValidConfig(c) && StoreOk(c, st) && r < |c.requests| && k < |st.acts|
    requires Waiting(a) && a.rqst == r && 0 <= a.task < |c.periodic| && a.incomp == []
    requires TasksAlerted(c, st.acts, st.pending, excused)
    ensures TableOk(st.acts[k := a], |c.periodic|, |c.requests|)
    ensures var acts := st.acts[k := a];
            TasksAlerted(c, Interrupted(acts, k, c.compat[r]),
                         st.pending + AbortSignals(acts, k, c.compat[r], |acts|, c.periodic), excused)
  {
    var acts := st.acts[k := a];
    assert TableOk(acts, |c.periodic|, |c.requests|);
    forall i | 0 <= i < |acts| ensures TaskAlerted(c, acts[i], st.pending, excused) {
      assert i != k ==> TaskAlerted(c, st.acts[i], st.pending, excused);
    }
    AbortHitsAlert(c, acts, k, c.compat[r], st.pending, excused);
  }

  lemma RefusalAlerts(c: Config, st: Store, k: nat, a: Activity, excused: set<int>)
    requires k < |st.acts| && TasksAlerted(c, st.acts, st.pending, excused)
    ensures TasksAlerted(c, st.acts[k := a][k := Freed(a)], st.pending, excused)
  {
    var freed := st.acts[k := a][k := Freed(a)];
    forall i | 0 <= i < |freed| ensures TaskAlerted(c, freed[i], st.pending, excused) {
      assert i != k ==> TaskAlerted(c, st.acts[i], st.pending, excused);
    }
  }

  lemma SpawnAlerts(c: Config, st: Store, excused: set<int>)
    requires ValidConfig(c) && StoreOk(c, st) && TasksAlerted(c, st.acts, st.pending, excused)
    ensures TasksAlerted(c, SpawnAll(st.acts), st.pending + SpawnSignals(st.acts, |st.acts|, c.periodic), excused)
  {
    forall i | 0 <= i < |st.acts|
      ensures TaskAlerted(c, SpawnAll(st.acts)[i], st.pending + SpawnSignals(st.acts, |st.acts|, c.periodic), excused)
    {
      assert TaskAlerted(c, st.acts[i], st.pending, excused);
      if Starts(st.acts, st.acts[i]) && !c.periodic[st.acts[i].task] {
        SpawnSignalsHas(st.acts, |st.acts|, c.periodic, i);
      }
    }
  }

  /** An iteration consumes the signals that started it, yet leaves its task alerted again. */
  lemma IterationAlerts(c: Config, st: Store, flags: seq<bool>, t: nat, p: Program, o: Outcome, excused: set<int>)
    requires ValidConfig(c) && StoreOk(c, st) && t < |c.periodic| && Covered(st.acts, t, p)
    requires TasksAlerted(c, st.acts, st.pending, excused + {t})
    ensures var (st', suspended) := AfterIteration(st, c.periodic, flags, t, p, o);
            TasksAlerted(c, st'.acts, st'.pending, if suspended then excused + {t} else excused - {t})
  {
    var (st', suspended) := AfterIteration(st, c.periodic, flags, t, p, o);
    var excused' := if suspended then excused + {t} else excused - {t};
    var end := ScanEnd(st.acts, t, p);
    AnyMeansExists(st.acts, t, p, end);
    forall i | 0 <= i < |st.acts|
      ensures TaskAlerted(c, st'.acts[i], st'.pending, excused')
    {
      assert TaskAlerted(c, st.acts[i], st.pending, excused + {t});
      if st.acts[i].task == t && !suspended {
        assert !SuspendsAt(st.acts, t, p, i);
        assert st'.acts[i] == Stepped(st.acts[i], i, p);
      }
    }
  }

  lemma IterationAlertsControl(c: Config, st: Store, flags: seq<bool>, t: nat, p: Program, o: Outcome)
    requires ValidConfig(c) && StoreOk(c, st) && t < |c.periodic| && Covered(st.acts, t, p)
    requires ControlAlerted(c, st.acts, st.pending)
    ensures ControlAlerted(c, AfterIteration(st, c.periodic, flags, t, p, o).0.acts,
                           AfterIteration(st, c.periodic, flags, t, p, o).0.pending)
  {
    var (st', suspended) := AfterIteration(st, c.periodic, flags, t, p, o);
    AnyMeansExists(st.acts, t, p, ScanEnd(st.acts, t, p));
    if |c.periodic| !in st'.pending {
      assert NothingToAcknowledge(st.acts) && !suspended;
      forall i | 0 <= i < |st.acts| ensures !ForControlTask(st'.acts[i].evn) {
        assert !SuspendsAt(st.acts, t, p, i);
      }
    }
  }

  /** Some codel called in this iteration made a transition; some one answered other than SLEEP. */
  ghost predicate MadeTransition(acts: seq<Activity>, t: nat, p: Program)
    requires Covered(acts, t, p)
  {
    exists i :: 0 <= i < |acts| && acts[i].task == t && Transition(acts[i], i, p)
  }

  ghost predicate AsksToGoOn(acts: seq<Activity>, t: nat, p: Program)
    requires Covered(acts, t, p)
  {
    exists i :: 0 <= i < |acts| && acts[i].task == t && RunsAgain(acts[i], i, p)
  }

  /** After an unsuspended iteration exactly these have been signalled: the control task iff a
      dispatched activity returned an event different from its state or the task report changed;
      an aperiodic execution task itself iff an activity it dispatched returned something other than
      SLEEP; every task whose wake-up flag was raised. */
  lemma IterationSignals(st: Store, periodic: seq<bool>, flags: seq<bool>, t: nat, p: Program, o: Outcome, u: int)
    requires Covered(st.acts, t, p) && t < |periodic| && |flags| == |periodic|
    requires !AfterIteration(st, periodic, flags, t, p, o).1
    ensures u in AfterIteration(st, periodic, flags, t, p, o).0.pending <==>
              || u in st.pending
              || (u == |periodic| && (MadeTransition(st.acts, t, p) || o.reportChanged))
              || (u == t && !periodic[t] && AsksToGoOn(st.acts, t, p))
              || (0 <= u < |flags| && flags[u])
  {
    AnyMeansExists(st.acts, t, p, |st.acts|);
  }
}

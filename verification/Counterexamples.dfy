/** Runs that show where the theorems end: resuming a task inside its section breaks mutual exclusion,
    and the exclusion of activities is one-sided. */
module Counterexamples {
  import opened Wrappers
  import opened Activities
  import opened CodelTables
  import opened Compatibility
  import opened ControlTask
  import opened ControlMeaning
  import opened ExecTask
  import opened Machine
  import opened Safety
  import opened Theorems

  ghost predicate Known(c: Config, s: Sys)
    requires ValidConfig(c)
  {
    StoreOk(c, s.store) && Reachable(c, s)
  }

  lemma Do(c: Config, s: Sys, l: Step, s': Sys)
    requires ValidConfig(c) && Known(c, s) && Next(c, s, l, s')
    ensures Known(c, s')
    ensures CleanlyReachable(c, s) && Clean(c, s, l) ==> CleanlyReachable(c, s')
  {
    OneStepMore(c, s, l, s');
    if CleanlyReachable(c, s) && Clean(c, s, l) {
      OneCleanStepMore(c, s, l, s');
    }
    StoreKept(c, s, l, s');
  }

  // ----- a resume request

  /** Waking up and taking both locks. */
  lemma Enters(c: Config, s: Sys, p: nat) returns (s': Sys)
    requires ValidConfig(c) && Known(c, s) && At(s, p, Idle) && s.ctl == None && s.fun == None
    requires TimerDriven(c, p) || p in s.store.pending
    ensures Known(c, s') && s'.pcs == s.pcs[p := InSection] && s'.ctl == s'.fun == Some(p)
    ensures s'.store == s.store.(pending := s'.store.pending)
    ensures CleanlyReachable(c, s) ==> CleanlyReachable(c, s')
  {
    var st := s.store.(pending := if TimerDriven(c, p) then s.store.pending else s.store.pending - {p});
    var s1 := Goto(s, p, WantsControl).(store := st);
    Do(c, s, Wake(p), s1);
    var s2 := Goto(s1, p, WantsFunctional).(ctl := Some(p));
    Do(c, s1, TakeControl(p), s2);
    s' := Goto(s2, p, InSection).(fun := Some(p));
    Do(c, s2, TakeFunctional(p), s');
    assert s'.pcs == s.pcs[p := InSection];
  }

  /** Giving both locks back. */
  lemma Leaves(c: Config, s: Sys, p: nat, goal: Option<Place>) returns (s': Sys)
    requires ValidConfig(c) && Known(c, s) && At(s, p, GivesFunctional(goal))
    ensures Known(c, s') && s'.ctl == s'.fun == None && s'.store == s.store
    ensures s'.pcs == s.pcs[p := if goal.Some? then AboutToSuspend(goal.value) else Idle]
    ensures CleanlyReachable(c, s) ==> CleanlyReachable(c, s')
  {
    var s1 := Goto(s, p, GivesControl(goal)).(fun := None);
    Do(c, s, GiveFunctional(p), s1);
    var end := if goal.Some? then AboutToSuspend(goal.value) else Idle;
    s' := Goto(s1, p, end).(ctl := None);
    Do(c, s1, GiveControl(p), s');
    assert s'.pcs == s.pcs[p := end];
  }

  /** The first permanent codel of task t fails: the task is about to be suspended inside its section. */
  lemma Fails(c: Config, s: Sys, t: nat) returns (s': Sys)
    requires ValidConfig(c) && Known(c, s) && At(s, t, Idle) && s.ctl == None && s.fun == None
    requires t < |c.periodic| && c.periodic[t]
    ensures Known(c, s') && s'.ctl == s'.fun == None
    ensures s'.pcs == s.pcs[t := AboutToSuspend(BeforeScan)] && |c.periodic| in s'.store.pending
    ensures t in s'.store.failed
    ensures CleanlyReachable(c, s) ==> CleanlyReachable(c, s')
  {
    var s1 := Enters(c, s, t);
    var prog := Program(TablesOf(c.requests, t), (name: string, slot: nat) => Ether);
    var o := Outcome(false, true, false);
    var flags := seq(|c.periodic|, i => false);
    GeneratedCovers(c, s1.store, t, prog);
    var st := AfterIteration(s1.store, c.periodic, flags, t, prog, o).0;
    var s2 := Goto(s1, t, GivesFunctional(Some(BeforeScan))).(store := st);
    Do(c, s1, Iteration(t, prog, o, flags), s2);
    s' := Leaves(c, s2, t, Some(BeforeScan));
    assert s'.pcs == s.pcs[t := AboutToSuspend(BeforeScan)];
  }

  /** It is suspended. */
  lemma GoesDown(c: Config, s: Sys, t: nat, place: Place) returns (s': Sys)
    requires ValidConfig(c) && Known(c, s) && At(s, t, AboutToSuspend(place))
    ensures Known(c, s') && s' == Goto(s, t, Suspended(place))
    ensures CleanlyReachable(c, s) ==> CleanlyReachable(c, s')
  {
    s' := Goto(s, t, Suspended(place));
    Do(c, s, TaskSuspend(t), s');
  }

  /** The control task serves one resume request. */
  lemma ServesResume(c: Config, s: Sys) returns (s': Sys)
    requires ValidConfig(c) && Known(c, s) && s.ctl == None && s.fun == None
    requires At(s, |c.periodic|, Idle) && |c.periodic| in s.store.pending
    ensures Known(c, s') && s'.ctl == s'.fun == None
    ensures s'.pcs == Resumed(c, s.pcs) && s'.store.failed == {}
    ensures CleanlyReachable(c, s) && Clean(c, s, ControlTurn([Abort(RESUME_EXEC_TASK)])) ==> CleanlyReachable(c, s')
  {
    var n := |c.periodic|;
    var s1 := Enters(c, s, n);
    var es := [Abort(RESUME_EXEC_TASK)];
    assert es[0] in es && ServableEvents(c, es) && GoesOn(c, s1.store, es);
    FailedAfter(c, s1.store.(acts := AcknowledgeAll(s1.store.acts)), es, 1);
    assert es[..1] == es;
    var s2 := s1.(store := AfterSection(c, s1.store, es), pcs := Resumed(c, s1.pcs)[n := GivesFunctional(None)]);
    Do(c, s1, ControlTurn(es), s2);
    s' := Leaves(c, s2, n, None);
    assert s'.pcs == Resumed(c, s.pcs);
  }

  /** In every module with two periodic execution tasks this run is possible: the permanent codel of
      one fails, a resume request is served, the other one wakes up; both are then inside their sections. */
  lemma ResumeBreaksExclusion(c: Config, s: Sys) returns (s': Sys)
    requires ValidConfig(c) && Initial(c, s)
    requires |c.periodic| >= 2 && c.periodic[0] && c.periodic[1]
    ensures Reachable(c, s') && At(s', 0, Stray(BeforeScan)) && At(s', 1, InSection)
    ensures s'.ctl == s'.fun == Some(1)
  {
    InitiallyReachable(c, s);
    var s0 := Fails(c, s, 0);
    var s1 := GoesDown(c, s0, 0, BeforeScan);
    var s2 := ServesResume(c, s1);
    assert s2.pcs[0] == Stray(BeforeScan) && s2.pcs[1] == Idle;
    s' := Enters(c, s2, 1);
  }

  /** A resume request can come too early: in every module with a periodic execution task there is a run,
      and a clean one, in which the permanent codel fails and the request is served after the task has set
      its status but before it suspends itself. The task is then suspended inside its section, and yet
      no task is in error. */
  lemma ResumeComesTooEarly(c: Config, s: Sys) returns (s': Sys)
    requires ValidConfig(c) && Initial(c, s) && |c.periodic| >= 1 && c.periodic[0]
    ensures CleanlyReachable(c, s') && At(s', 0, Suspended(BeforeScan)) && s'.store.failed == {}
  {
    InitiallyReachable(c, s);
    var s1 := Fails(c, s, 0);
    assert s1.pcs[|c.periodic|] == Idle;
    var s2 := ServesResume(c, s1);
    assert s2.pcs[0] == AboutToSuspend(BeforeScan);
    s' := GoesDown(c, s2, 0, BeforeScan);
  }

  // ----- one-sided exclusion

  /** An admission that interrupts nobody. */
  lemma NoHits(acts: seq<Activity>, who: nat, compat: seq<int>, n: nat, periodic: seq<bool>)
    requires n <= |acts| && who < |acts| && Indexable(acts, compat)
    requires forall i :: 0 <= i < |acts| && Live(acts[i]) ==> 0 <= acts[i].task < |periodic|
    requires forall i :: 0 <= i < |acts| ==> !Hit(acts[i], i, who, compat)
    ensures Recorded(acts, who, compat, n) == [] && AbortSignals(acts, who, compat, n, periodic) == {}
  {
    if n > 0 {
      NoHits(acts, who, compat, n - 1, periodic);
    }
  }

  lemma Admitted(c: Config, st: Store, r: nat, k: nat)
    requires ValidConfig(c) && StoreOk(c, st) && r < |c.requests| && c.requests[r].kind == ExecRqst
    requires st.failed == {} && AllocResult(st.acts, st.lastNum) == k && k < |st.acts|
    requires forall i :: 0 <= i < |st.acts| && i != k && Live(st.acts[i]) ==>
               !Interrupting(c.requests, r, st.acts[i].rqst)
    ensures var a := NewActivity(r, st.lastId + 1, c.requests[r].task.value);
            AfterExecution(c, st, r, true, true)
              == st.(acts := st.acts[k := a], lastNum := k, lastId := st.lastId + 1)
  {
    AdmitsMeans(c, st, r, true);
    var i := AdmittedIs(c, st, r, true);
    var acts := WithNew(c, st, r, k);
    NobodyHit(c, st, r, k);
    NoHits(acts, k, c.compat[r], |acts|, c.periodic);
    NothingInterrupted(acts, k, c.compat[r]);
  }

  lemma NobodyHit(c: Config, st: Store, r: nat, k: nat)
    requires ValidConfig(c) && StoreOk(c, st) && r < |c.requests| && c.requests[r].kind == ExecRqst && k < |st.acts|
    requires forall i :: 0 <= i < |st.acts| && i != k && Live(st.acts[i]) ==>
               !Interrupting(c.requests, r, st.acts[i].rqst)
    ensures var acts := WithNew(c, st, r, k);
            Indexable(acts, c.compat[r]) && forall i :: 0 <= i < |acts| ==> !Hit(acts[i], i, k, c.compat[r])
  {
    var acts := WithNew(c, st, r, k);
    forall i | 0 <= i < |acts| ensures !Hit(acts[i], i, k, c.compat[r]) {
      HitMeans(c, acts, r, k, i);
    }
  }

  lemma NothingInterrupted(acts: seq<Activity>, who: nat, compat: seq<int>)
    requires who < |acts| && Indexable(acts, compat)
    requires forall i :: 0 <= i < |acts| ==> !Hit(acts[i], i, who, compat)
    requires acts[who].incomp == Recorded(acts, who, compat, |acts|) == []
    ensures Interrupted(acts, who, compat) == acts
  {
  }

  /** Two requests that can be admitted into a table without live activities, none in error; q, the
      second one, does not interrupt r. */
  ghost predicate Admissible(c: Config, st: Store, r: nat, q: nat) {
    && ValidConfig(c) && StoreOk(c, st) && |st.acts| >= 2 && NobodyLive(st.acts) && st.failed == {}
    && r < |c.requests| && q < |c.requests|
    && c.requests[r].kind == ExecRqst && c.requests[q].kind == ExecRqst
    && !Interrupting(c.requests, q, r)
  }

  /** The slots the next two activities get. */
  function FirstSlot(st: Store): (i: nat)
    requires |st.acts| >= 2
    ensures i < |st.acts|
  {
    (st.lastNum + 1) % |st.acts|
  }

  function SecondSlot(st: Store): (j: nat)
    requires |st.acts| >= 2
    ensures j < |st.acts| && j != FirstSlot(st)
  {
    var i := FirstSlot(st);
    if i + 1 < |st.acts| then i + 1 else 0
  }

  function Both(r: nat, q: nat): seq<Event> {
    [Execution(r, true, true), Execution(q, true, true)]
  }

  lemma BothServed(c: Config, st: Store, r: nat, q: nat)
    requires Admissible(c, st, r, q)
    ensures ServableEvents(c, Both(r, q))
    ensures AfterEvents(c, st, Both(r, q), 2)
              == AfterExecution(c, AfterExecution(c, st, r, true, true), q, true, true)
  {
    var es := Both(r, q);
    assert forall e :: e in es ==> e == es[0] || e == es[1];
    assert AfterEvents(c, st, es, 1) == AfterEvent(c, AfterEvents(c, st, es, 0), es[0]);
    assert AfterEvents(c, st, es, 2) == AfterEvent(c, AfterEvents(c, st, es, 1), es[1]);
  }

  /** The turn that admits requests r and q, in this order. */
  lemma TwoAdmissions(c: Config, st: Store, r: nat, q: nat)
    requires Admissible(c, st, r, q)
    ensures ServableEvents(c, Both(r, q))
    ensures AfterEvents(c, st, Both(r, q), 2).acts
              == st.acts[FirstSlot(st) := NewActivity(r, st.lastId + 1, c.requests[r].task.value)]
                        [SecondSlot(st) := NewActivity(q, st.lastId + 2, c.requests[q].task.value)]
  {
    BothServed(c, st, r, q);
    FirstAdmission(c, st, r, q);
    SecondAdmission(c, st, WithFirst(c, st, r), r, q);
  }

  lemma FirstAdmission(c: Config, st: Store, r: nat, q: nat)
    requires Admissible(c, st, r, q)
    ensures AfterExecution(c, st, r, true, true) == WithFirst(c, st, r)
  {
    assert FreeSlot(st.acts, st.lastNum, 0) == Some(FirstSlot(st));
    Admitted(c, st, r, FirstSlot(st));
  }

  ghost function WithFirst(c: Config, st: Store, r: nat): Store
    requires |st.acts| >= 2 && r < |c.requests| && c.requests[r].task.Some?
  {
    st.(acts := st.acts[FirstSlot(st) := NewActivity(r, st.lastId + 1, c.requests[r].task.value)],
        lastNum := FirstSlot(st), lastId := st.lastId + 1)
  }

  lemma SecondAdmission(c: Config, st: Store, st1: Store, r: nat, q: nat)
    requires Admissible(c, st, r, q) && StoreOk(c, st1) && st1 == WithFirst(c, st, r)
    ensures AfterExecution(c, st1, q, true, true).acts
              == st1.acts[SecondSlot(st) := NewActivity(q, st.lastId + 2, c.requests[q].task.value)]
  {
    NextSlot(st.acts, FirstSlot(st), SecondSlot(st), NewActivity(r, st.lastId + 1, c.requests[r].task.value));
    Admitted(c, st1, q, SecondSlot(st));
  }

  lemma NextSlot(acts: seq<Activity>, i: nat, j: nat, a: Activity)
    requires i < |acts| && |acts| >= 2 && j == (if i + 1 < |acts| then i + 1 else 0) && NobodyLive(acts)
    requires a.status != Zombie
    ensures AllocResult(acts[i := a], i) == j
  {
    Wraps(j, |acts|);
    assert FreeSlot(acts[i := a], i, 0) == Some(j);
  }

  /** Exclusion is one-sided, for every pair of requests: if request q does not interrupt request r, a
      module at rest can reach a state in which a newer activity of q and an older one of r have both
      been told to start, whether or not r interrupts q. */
  lemma OneSided(c: Config, s: Sys, r: nat, q: nat) returns (s': Sys, i: nat, j: nat)
    requires ValidConfig(c) && CleanlyReachable(c, s)
    requires At(s, |c.periodic|, Idle) && s.ctl == None && s.fun == None
    requires Admissible(c, s.store, r, q)
    ensures CleanlyReachable(c, s') && i < |s'.store.acts| && j < |s'.store.acts|
    ensures var older, newer := s'.store.acts[i], s'.store.acts[j];
            && Started(older) && Started(newer) && older.id < newer.id
            && older.status != Zombie && newer.status != Zombie && older.rqst == r && newer.rqst == q
  {
    CleanIsReachable(c, s);
    ReachableSafe(c, s);
    var n := |c.periodic|;
    var s0 := s.(store := s.store.(pending := s.store.pending + {n}));
    Do(c, s, Signal(n), s0);
    var s1 := Enters(c, s0, n);
    s' := AdmitsBoth(c, s1, r, q);
    i, j := FirstSlot(s1.store), SecondSlot(s1.store);
  }

  /** The control task's section. */
  lemma AdmitsBoth(c: Config, s: Sys, r: nat, q: nat) returns (s': Sys)
    requires ValidConfig(c) && Known(c, s) && CleanlyReachable(c, s) && At(s, |c.periodic|, InSection)
    requires Admissible(c, s.store, r, q)
    ensures CleanlyReachable(c, s') && |s'.store.acts| == |s.store.acts|
    ensures var i, j := FirstSlot(s.store), SecondSlot(s.store);
            && s'.store.acts[i] == NewActivity(r, s.store.lastId + 1, c.requests[r].task.value).(evn := Start)
            && s'.store.acts[j] == NewActivity(q, s.store.lastId + 2, c.requests[q].task.value).(evn := Start)
  {
    var es := Both(r, q);
    BothSpawned(c, s.store, r, q);
    s' := s.(store := AfterSection(c, s.store, es), pcs := s.pcs[|c.periodic| := GivesFunctional(None)]);
    Do(c, s, ControlTurn(es), s');
  }

  lemma NothingAcknowledged(c: Config, st: Store)
    requires ValidConfig(c) && StoreOk(c, st) && NobodyLive(st.acts)
    ensures AcknowledgeAll(st.acts) == st.acts && st.(acts := AcknowledgeAll(st.acts)) == st
  {
    forall i | 0 <= i < |st.acts| ensures Acknowledged(st.acts[i]) == st.acts[i] {
      assert SlotOk(st.acts[i], |st.acts|, |c.periodic|, |c.requests|);
    }
  }

  lemma BothSpawned(c: Config, st: Store, r: nat, q: nat)
    requires Admissible(c, st, r, q)
    ensures ServableEvents(c, Both(r, q))
    ensures var acts := AfterSection(c, st, Both(r, q)).acts;
            && |acts| == |st.acts|
            && acts[FirstSlot(st)] == NewActivity(r, st.lastId + 1, c.requests[r].task.value).(evn := Start)
            && acts[SecondSlot(st)] == NewActivity(q, st.lastId + 2, c.requests[q].task.value).(evn := Start)
  {
    NothingAcknowledged(c, st);
    TwoAdmissions(c, st, r, q);
    var acts, i, j := Served(c, st, Both(r, q), 2).acts, FirstSlot(st), SecondSlot(st);
    assert Spawned(acts, acts[i]) == acts[i].(evn := Start) && Spawned(acts, acts[j]) == acts[j].(evn := Start);
  }
}

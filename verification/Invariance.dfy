/** What every clean step of the machine keeps besides, and the one kind of step that breaks it. */
module Invariance {
  import opened Wrappers
  import opened Activities
  import opened ControlTask
  import opened ExecTask
  import opened TableInvariants
  import opened Wakeups
  import opened Machine
  import opened Safety

  // ----- the locks

  ghost predicate LocksOk(s: Sys) {
    forall p :: 0 <= p < |s.pcs| ==>
      && (s.ctl == Some(p) <==> HoldsControl(s.pcs[p]))
      && (s.fun == Some(p) <==> HoldsFunctional(s.pcs[p]))
  }

  ghost predicate NoStrays(s: Sys) {
    forall p :: 0 <= p < |s.pcs| ==> !s.pcs[p].Stray?
  }

  // ----- the invariant

  predicate OnItsWay(pc: Pc) {
    pc == WantsControl || pc == WantsFunctional || pc == InSection
  }

  /** In trouble inside its section. */
  predicate Broken(pc: Pc) {
    || ((pc.AboutToSuspend? || pc.Suspended?) && !pc.place.Outside?)
    || ((pc.GivesFunctional? || pc.GivesControl?) && pc.goal.Some? && !pc.goal.value.Outside?)
  }

  /** Execution tasks suspended inside their sections. */
  ghost function SuspendedTasks(c: Config, s: Sys): set<int>
    requires |c.periodic| < |s.pcs|
  {
    set t | 0 <= t < |c.periodic| && Broken(s.pcs[t])
  }

  /** Processes that will examine the table anyway, or not of their own accord. */
  predicate Excuse(pc: Pc) {
    OnItsWay(pc) || Broken(pc) || pc == Stopped
  }

  ghost function Excused(c: Config, s: Sys): set<int>
    requires |c.periodic| < |s.pcs|
  {
    set t | 0 <= t < |c.periodic| && Excuse(s.pcs[t])
  }

  ghost predicate AlertInv(c: Config, s: Sys)
    requires |c.periodic| < |s.pcs|
  {
    && TasksAlerted(c, s.store.acts, s.store.pending, Excused(c, s))
    && (ControlAlerted(c, s.store.acts, s.store.pending) || Excuse(s.pcs[|c.periodic|]))
  }

  /** Every activity's calls are a history, in step with its slot unless its task is suspended in its section. */
  ghost predicate LifeInv(c: Config, s: Sys)
    requires |c.periodic| < |s.pcs|
  {
    Living(s.store.acts, SuspendedTasks(c, s))
  }

  ghost predicate Inv(c: Config, s: Sys)
    requires ValidConfig(c)
  {
    Safe(c, s) && LocksOk(s) && NoStrays(s) && LifeInv(c, s) && AlertInv(c, s)
  }

  lemma InitialInv(c: Config, s: Sys)
    requires ValidConfig(c) && Initial(c, s)
    ensures Inv(c, s)
  {
    InitialSafe(c, s);
  }

  // ----- single steps: the locks

  /** Steps that neither resume tasks nor touch the table. */
  predicate IsMove(l: Step) {
    l.Signal? || l.Wake? || l.TakeControl? || l.TakeFunctional? || l.Use? || l.GiveFunctional? || l.GiveControl?
    || l.TaskSuspend? || l.SuspendIdle? || l.Stop?
  }

  /** Without a suspended task inside its section, resuming only lets tasks wait or try again. */
  lemma ResumedMildly(c: Config, s: Sys, l: Step, p: nat)
    requires |c.periodic| < |s.pcs| && Clean(c, s, l) && Resumes(l) && NoStrays(s) && p < |s.pcs|
    ensures var pc, pc' := s.pcs[p], Resumed(c, s.pcs)[p];
            pc' == pc || (pc.Suspended? && pc.place.Outside? && pc' == if pc.place.awake then WantsControl else Idle)
  {
  }

  /** A process that neither takes nor gives a lock keeps what it holds. */
  lemma StayKeepsLocks(s: Sys, p: nat, pc: Pc, s': Sys)
    requires LocksOk(s) && NoStrays(s) && p < |s.pcs|
    requires s'.pcs == s.pcs[p := pc] && s'.ctl == s.ctl && s'.fun == s.fun && !pc.Stray?
    requires HoldsControl(pc) == HoldsControl(s.pcs[p]) && HoldsFunctional(pc) == HoldsFunctional(s.pcs[p])
    ensures LocksOk(s') && NoStrays(s') && |s'.pcs| == |s.pcs|
  {
  }

  lemma TakeKeepsLocks(c: Config, s: Sys, l: Step, s': Sys)
    requires ValidConfig(c) && Inv(c, s) && Next(c, s, l, s') && (l.TakeControl? || l.TakeFunctional?)
    ensures LocksOk(s') && NoStrays(s') && |s'.pcs| == |s.pcs|
  {
  }

  lemma GiveKeepsLocks(c: Config, s: Sys, l: Step, s': Sys)
    requires ValidConfig(c) && Inv(c, s) && Next(c, s, l, s') && (l.GiveFunctional? || l.GiveControl?)
    ensures LocksOk(s') && NoStrays(s') && |s'.pcs| == |s.pcs|
  {
  }

  lemma MoveKeepsLocks(c: Config, s: Sys, l: Step, s': Sys)
    requires ValidConfig(c) && Inv(c, s) && Next(c, s, l, s') && (IsMove(l) || l.Iteration?)
    ensures LocksOk(s') && NoStrays(s') && |s'.pcs| == |s.pcs|
  {
    if l.TakeControl? || l.TakeFunctional? {
      TakeKeepsLocks(c, s, l, s');
    } else if l.GiveFunctional? || l.GiveControl? {
      GiveKeepsLocks(c, s, l, s');
    } else if !l.Signal? {
      var p := Mover(c, l).value;
      StayKeepsLocks(s, p, s'.pcs[p], s');
    }
  }

  lemma TurnKeepsLocks(c: Config, s: Sys, l: Step, s': Sys)
    requires ValidConfig(c) && Inv(c, s) && Next(c, s, l, s') && IsTurn(l) && Clean(c, s, l)
    ensures LocksOk(s') && NoStrays(s') && |s'.pcs| == |s.pcs|
  {
    var n := |c.periodic|;
    forall p | 0 <= p < |s.pcs|
      ensures !s'.pcs[p].Stray?
      ensures p != n ==> (HoldsControl(s'.pcs[p]) <==> HoldsControl(s.pcs[p]))
      ensures p != n ==> (HoldsFunctional(s'.pcs[p]) <==> HoldsFunctional(s.pcs[p]))
    {
      if Resumes(l) {
        ResumedMildly(c, s, l, p);
      }
    }
  }

  // ----- single steps: the table

  lemma AcknowledgeKeeps(c: Config, st: Store, susp: set<int>, exc: set<int>)
    requires ValidConfig(c) && StoreOk(c, st) && Living(st.acts, susp) && TasksAlerted(c, st.acts, st.pending, exc)
    ensures Living(AcknowledgeAll(st.acts), susp) && NothingToAcknowledge(AcknowledgeAll(st.acts))
    ensures TasksAlerted(c, AcknowledgeAll(st.acts), st.pending, exc)
  {
    AcknowledgeLives(c, st, susp);
    AcknowledgeKeepsAlerts(c, st, exc);
  }

  lemma AcknowledgeKeepsAlerts(c: Config, st: Store, exc: set<int>)
    requires ValidConfig(c) && StoreOk(c, st) && TasksAlerted(c, st.acts, st.pending, exc)
    ensures TasksAlerted(c, AcknowledgeAll(st.acts), st.pending, exc)
  {
    forall i | 0 <= i < |st.acts| ensures TaskAlerted(c, AcknowledgeAll(st.acts)[i], st.pending, exc) {
      assert TaskAlerted(c, st.acts[i], st.pending, exc);
    }
  }

  lemma SpawningKeeps(c: Config, st: Store, susp: set<int>, exc: set<int>)
    requires ValidConfig(c) && StoreOk(c, st) && Living(st.acts, susp) && NothingToAcknowledge(st.acts)
    requires TasksAlerted(c, st.acts, st.pending, exc)
    ensures Living(SpawnAll(st.acts), susp) && NothingToAcknowledge(SpawnAll(st.acts))
    ensures TasksAlerted(c, SpawnAll(st.acts), st.pending + SpawnSignals(st.acts, |st.acts|, c.periodic), exc)
  {
    SpawnLives(c, st, susp);
    SpawnAlerts(c, st, exc);
  }

  lemma SectionKeeps(c: Config, st: Store, es: seq<Event>, susp: set<int>, exc: set<int>)
    requires ValidConfig(c) && StoreOk(c, st) && Living(st.acts, susp) && TasksAlerted(c, st.acts, st.pending, exc)
    requires ServableEvents(c, es)
    ensures Living(AfterSection(c, st, es).acts, susp)
    ensures TasksAlerted(c, AfterSection(c, st, es).acts, AfterSection(c, st, es).pending, exc)
    ensures NothingToAcknowledge(AfterSection(c, st, es).acts)
  {
    AcknowledgeKeeps(c, st, susp, exc);
    var st1 := st.(acts := AcknowledgeAll(st.acts));
    EventsKeep(c, st1, es, |es|, susp, exc);
    var st2 := AfterEvents(c, st1, es, |es|);
    var st3 := if es == [] then st2 else st2.(pending := st2.pending + Aperiodic(c.periodic));
    forall i | 0 <= i < |st2.acts| ensures TaskAlerted(c, st3.acts[i], st3.pending, exc) {
      assert TaskAlerted(c, st2.acts[i], st2.pending, exc);
    }
    SpawningKeeps(c, st3, susp, exc);
  }

  lemma {:induction false} EventsKeep(c: Config, st: Store, es: seq<Event>, n: nat, susp: set<int>, exc: set<int>)
    requires ValidConfig(c) && StoreOk(c, st) && ServableEvents(c, es) && n <= |es|
    requires Living(st.acts, susp) && NothingToAcknowledge(st.acts)
    requires TasksAlerted(c, st.acts, st.pending, exc)
    ensures Living(AfterEvents(c, st, es, n).acts, susp) && NothingToAcknowledge(AfterEvents(c, st, es, n).acts)
    ensures TasksAlerted(c, AfterEvents(c, st, es, n).acts, AfterEvents(c, st, es, n).pending, exc)
  {
    if n > 0 {
      EventsKeep(c, st, es, n - 1, susp, exc);
      var before := AfterEvents(c, st, es, n - 1);
      assert es[n-1] in es;
      EventLives(c, before, es[n-1], susp);
      EventAlerts(c, before, es[n-1], exc);
    }
  }

  lemma IterationLives(c: Config, st: Store, t: nat, p: Program, o: Outcome, flags: seq<bool>, susp: set<int>)
    requires ValidConfig(c) && StoreOk(c, st) && Living(st.acts, susp)
    requires t < |c.periodic| && Covered(st.acts, t, p) && t !in susp
    ensures var (st', suspended) := AfterIteration(st, c.periodic, flags, t, p, o);
            Living(st'.acts, if suspended then susp + {t} else susp)
  {
    var (st', suspended) := AfterIteration(st, c.periodic, flags, t, p, o);
    var k := if o.main1Ok then ScanEnd(st.acts, t, p) else 0;
    IterationScans(st, c.periodic, t, p, o, flags);
    ScanLives(c, st, t, p, susp, k);
    assert !suspended ==> NoSuspension(st.acts, t, p, k);
  }

  // ----- single steps: an iteration

  /** Where the sets of suspended and of excused tasks go when task t leaves its section. */
  lemma LeavingSection(c: Config, s: Sys, t: nat, goal: Option<Place>, s': Sys)
    requires |c.periodic| < |s.pcs| && t < |c.periodic| && s.pcs[t] == InSection
    requires s'.pcs == s.pcs[t := GivesFunctional(goal)] && (goal.Some? ==> !goal.value.Outside?)
    ensures SuspendedTasks(c, s') == if goal.Some? then SuspendedTasks(c, s) + {t} else SuspendedTasks(c, s)
    ensures Excused(c, s') == if goal.Some? then Excused(c, s) + {t} else Excused(c, s) - {t}
    ensures t in Excused(c, s) && t !in SuspendedTasks(c, s)
  {
  }

  ghost function GoalOf(s: Sys, periodic: seq<bool>, flags: seq<bool>, t: nat, p: Program, o: Outcome)
    : (goal: Option<Place>)
    requires Covered(s.store.acts, t, p) && t < |periodic|
    ensures goal.Some? ==> !goal.value.Outside?
  {
    if AfterIteration(s.store, periodic, flags, t, p, o).1 then Some(PlaceOf(s.store.acts, t, p, o)) else None
  }

  lemma IterationKeepsLives(c: Config, s: Sys, t: nat, p: Program, o: Outcome, flags: seq<bool>, s': Sys)
    requires ValidConfig(c) && Inv(c, s) && Next(c, s, Iteration(t, p, o, flags), s')
    ensures |c.periodic| < |s'.pcs| && LifeInv(c, s')
  {
    GeneratedCovers(c, s.store, t, p);
    LeavingSection(c, s, t, GoalOf(s, c.periodic, flags, t, p, o), s');
    IterationLives(c, s.store, t, p, o, flags, SuspendedTasks(c, s));
  }

  lemma IterationKeepsAlerts(c: Config, s: Sys, t: nat, p: Program, o: Outcome, flags: seq<bool>, s': Sys)
    requires ValidConfig(c) && Inv(c, s) && Next(c, s, Iteration(t, p, o, flags), s')
    ensures |c.periodic| < |s'.pcs| && AlertInv(c, s')
  {
    IterationKeepsTaskAlerts(c, s, t, p, o, flags, s');
    GeneratedCovers(c, s.store, t, p);
    if ControlAlerted(c, s.store.acts, s.store.pending) {
      IterationAlertsControl(c, s.store, flags, t, p, o);
    }
  }

  lemma IterationKeepsTaskAlerts(c: Config, s: Sys, t: nat, p: Program, o: Outcome, flags: seq<bool>, s': Sys)
    requires ValidConfig(c) && StoreOk(c, s.store) && |c.periodic| < |s.pcs|
    requires TasksAlerted(c, s.store.acts, s.store.pending, Excused(c, s))
    requires Next(c, s, Iteration(t, p, o, flags), s')
    ensures |c.periodic| < |s'.pcs| && TasksAlerted(c, s'.store.acts, s'.store.pending, Excused(c, s'))
  {
    GeneratedCovers(c, s.store, t, p);
    var exc := Excused(c, s);
    LeavingSection(c, s, t, GoalOf(s, c.periodic, flags, t, p, o), s');
    assert TasksAlerted(c, s'.store.acts, s'.store.pending, Excused(c, s')) by {
      assert exc + {t} == exc;
      IterationAlerts(c, s.store, flags, t, p, o, exc);
    }
  }

  // ----- single steps: a turn of the control task

  /** Resuming tasks that are suspended outside their sections, and the control task leaving its own. */
  lemma TurnMoves(c: Config, s: Sys, l: Step, s': Sys)
    requires ValidConfig(c) && Inv(c, s) && Next(c, s, l, s') && IsTurn(l) && Clean(c, s, l)
    ensures |s'.pcs| == |s.pcs|
    ensures SuspendedTasks(c, s') == SuspendedTasks(c, s) && Excused(c, s) <= Excused(c, s')
    ensures !Resumes(l) ==> forall t :: 0 <= t < |c.periodic| ==> s'.pcs[t] == s.pcs[t]
  {
    forall t | 0 <= t < |c.periodic|
      ensures Broken(s'.pcs[t]) == Broken(s.pcs[t]) && (Excuse(s.pcs[t]) ==> Excuse(s'.pcs[t]))
      ensures !Resumes(l) ==> s'.pcs[t] == s.pcs[t]
    {
      if Resumes(l) {
        ResumedMildly(c, s, l, t);
      }
    }
  }

  lemma ControlTurnKeeps(c: Config, s: Sys, es: seq<Event>, s': Sys)
    requires ValidConfig(c) && Inv(c, s) && Next(c, s, ControlTurn(es), s') && Clean(c, s, ControlTurn(es))
    ensures |c.periodic| < |s'.pcs| && LifeInv(c, s') && AlertInv(c, s')
  {
    SectionKeeps(c, s.store, es, SuspendedTasks(c, s), Excused(c, s));
    TurnMoves(c, s, ControlTurn(es), s');
    MoreExcused(c, s'.store, Excused(c, s), Excused(c, s'));
  }

  lemma MoreExcused(c: Config, st: Store, exc: set<int>, exc': set<int>)
    requires TasksAlerted(c, st.acts, st.pending, exc) && exc <= exc'
    ensures TasksAlerted(c, st.acts, st.pending, exc')
  {
    forall i | 0 <= i < |st.acts| ensures TaskAlerted(c, st.acts[i], st.pending, exc') {
      assert TaskAlerted(c, st.acts[i], st.pending, exc);
    }
  }

  lemma EndKeeps(c: Config, s: Sys, es: seq<Event>, s': Sys)
    requires ValidConfig(c) && Inv(c, s) && Next(c, s, EndModule(es), s') && Clean(c, s, EndModule(es))
    ensures |c.periodic| < |s'.pcs| && LifeInv(c, s') && AlertInv(c, s')
  {
    AcknowledgeKeeps(c, s.store, SuspendedTasks(c, s), Excused(c, s));
    EventsKeep(c, s.store.(acts := AcknowledgeAll(s.store.acts)), es, |es|, SuspendedTasks(c, s), Excused(c, s));
    TurnMoves(c, s, EndModule(es), s');
  }

  /** SIGTERM ends the module before anything is acknowledged. */
  lemma SignalEndKeeps(c: Config, s: Sys, s': Sys)
    requires ValidConfig(c) && Inv(c, s) && Next(c, s, SignalEnd, s') && Clean(c, s, SignalEnd)
    ensures |c.periodic| < |s'.pcs| && LifeInv(c, s') && AlertInv(c, s')
  {
    TurnMoves(c, s, SignalEnd, s');
    forall i | 0 <= i < |s.store.acts| ensures TaskAlerted(c, s'.store.acts[i], s'.store.pending, Excused(c, s')) {
      assert TaskAlerted(c, s.store.acts[i], s.store.pending, Excused(c, s));
    }
  }

  // ----- single steps: moves

  lemma MoveKeeps(c: Config, s: Sys, l: Step, s': Sys)
    requires ValidConfig(c) && Inv(c, s) && Next(c, s, l, s') && IsMove(l)
    ensures |c.periodic| < |s'.pcs| && LifeInv(c, s')
  {
    assert SuspendedTasks(c, s) <= SuspendedTasks(c, s');
    TableLeft(c, s, l, s');
  }

  /** A process once on its way or broken stays so under such steps, and a signal is only taken by
      a process that sets out. */
  lemma MoveProceeds(c: Config, s: Sys, l: Step, s': Sys, q: nat)
    requires ValidConfig(c) && Inv(c, s) && Next(c, s, l, s') && IsMove(l)
    requires q <= |c.periodic| && |s'.pcs| == |s.pcs|
    ensures Excuse(s.pcs[q]) ==> Excuse(s'.pcs[q])
    ensures q in s.store.pending ==> q in s'.store.pending || OnItsWay(s'.pcs[q])
    ensures s'.store.acts == s.store.acts
  {
  }

  lemma MoveKeepsAlerts(c: Config, s: Sys, l: Step, s': Sys)
    requires ValidConfig(c) && Inv(c, s) && Next(c, s, l, s') && IsMove(l)
    requires |s'.pcs| == |s.pcs|
    ensures AlertInv(c, s')
  {
    forall i | 0 <= i < |s.store.acts|
      ensures TaskAlerted(c, s'.store.acts[i], s'.store.pending, Excused(c, s'))
    {
      assert TaskAlerted(c, s.store.acts[i], s.store.pending, Excused(c, s));
      var t := s.store.acts[i].task;
      if 0 <= t < |c.periodic| {
        MoveProceeds(c, s, l, s', t);
      } else {
        MoveProceeds(c, s, l, s', 0);
      }
    }
    MoveProceeds(c, s, l, s', |c.periodic|);
  }

  // ----- all steps

  lemma IterationKeeps(c: Config, s: Sys, t: nat, p: Program, o: Outcome, flags: seq<bool>, s': Sys)
    requires ValidConfig(c) && Inv(c, s) && Next(c, s, Iteration(t, p, o, flags), s')
    ensures Inv(c, s')
  {
    SafeKept(c, s, Iteration(t, p, o, flags), s');
    MoveKeepsLocks(c, s, Iteration(t, p, o, flags), s');
    IterationKeepsLives(c, s, t, p, o, flags, s');
    IterationKeepsAlerts(c, s, t, p, o, flags, s');
  }

  lemma TurnKeeps(c: Config, s: Sys, l: Step, s': Sys)
    requires ValidConfig(c) && Inv(c, s) && Next(c, s, l, s') && IsTurn(l) && Clean(c, s, l)
    ensures Inv(c, s')
  {
    SafeKept(c, s, l, s');
    TurnKeepsLocks(c, s, l, s');
    match l {
      case ControlTurn(es) => ControlTurnKeeps(c, s, es, s');
      case EndModule(es) => EndKeeps(c, s, es, s');
      case SignalEnd => SignalEndKeeps(c, s, s');
    }
  }

  /** Every clean step of every process keeps the invariant. */
  lemma InvKept(c: Config, s: Sys, l: Step, s': Sys)
    requires ValidConfig(c) && Inv(c, s) && Next(c, s, l, s') && Clean(c, s, l)
    ensures Inv(c, s')
  {
    if l.Iteration? {
      IterationKeeps(c, s, l.t, l.prog, l.outcome, l.flags, s');
    } else if IsTurn(l) {
      TurnKeeps(c, s, l, s');
    } else if IsMove(l) {
      SafeKept(c, s, l, s');
      MoveKeepsLocks(c, s, l, s');
      MoveKeeps(c, s, l, s');
      MoveKeepsAlerts(c, s, l, s');
    } else {
      NoStrayStep(c, s, l, s');
    }
  }

  lemma NoStrayStep(c: Config, s: Sys, l: Step, s': Sys)
    requires ValidConfig(c) && Inv(c, s) && Next(c, s, l, s')
    ensures !IsStray(l)
  {
  }

  /** A step that is not clean breaks it at once: the resumed task is back inside its section while the
      control task holds both locks, or has given them back to end the module. */
  lemma UncleanBreaks(c: Config, s: Sys, l: Step, s': Sys) returns (t: nat)
    requires ValidConfig(c) && Inv(c, s) && Next(c, s, l, s') && !Clean(c, s, l)
    ensures t < |c.periodic| < |s'.pcs| && s'.pcs[t].Stray? && !Inv(c, s')
    ensures s'.ctl != Some(t) && s'.fun != Some(t)
    ensures l.ControlTurn? ==> s'.ctl == s'.fun == Some(|c.periodic|)
  {
    t :| 0 <= t < |c.periodic| && t < |s.pcs| && s.pcs[t].Suspended? && !s.pcs[t].place.Outside?;
    assert s'.pcs[t] == ResumedPc(s.pcs[t]);
    assert !HoldsControl(s.pcs[t]);
  }

  // ----- runs

  lemma {:induction false} RunInv(c: Config, states: seq<Sys>, steps: seq<Step>, k: nat)
    requires ValidConfig(c) && IsCleanRun(c, states, steps) && k < |states|
    ensures Inv(c, states[k])
  {
    if k == 0 {
      InitialInv(c, states[0]);
    } else {
      RunInv(c, states, steps, k - 1);
      InvKept(c, states[k-1], steps[k-1], states[k]);
    }
  }

  /** In a run the invariant holds throughout exactly if no task is resumed inside its section. */
  lemma RunExact(c: Config, states: seq<Sys>, steps: seq<Step>)
    requires ValidConfig(c) && IsRun(c, states, steps)
    ensures (forall k :: 0 <= k < |states| ==> Inv(c, states[k])) <==>
              forall k :: 0 <= k < |steps| ==> Clean(c, states[k], steps[k])
  {
    if forall k :: 0 <= k < |steps| ==> Clean(c, states[k], steps[k]) {
      forall k | 0 <= k < |states| ensures Inv(c, states[k]) {
        RunInv(c, states, steps, k);
      }
    }
    if forall k :: 0 <= k < |states| ==> Inv(c, states[k]) {
      forall k | 0 <= k < |steps| ensures Clean(c, states[k], steps[k]) {
        if !Clean(c, states[k], steps[k]) {
          var t := UncleanBreaks(c, states[k], steps[k], states[k+1]);
        }
      }
    }
  }

  lemma ReachableInv(c: Config, s: Sys)
    requires ValidConfig(c) && CleanlyReachable(c, s)
    ensures Inv(c, s)
  {
    var states, steps :| IsCleanRun(c, states, steps) && states[|states|-1] == s;
    RunInv(c, states, steps, |states| - 1);
  }
}

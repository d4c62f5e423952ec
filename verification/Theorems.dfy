/** What holds in every state of every run of a module. */
module Theorems {
  import opened Wrappers
  import opened Activities
  import opened CodelTables
  import opened Compatibility
  import opened ControlTask
  import opened ExecTask
  import opened ActivityLife
  import opened TableInvariants
  import opened Wakeups
  import opened Machine
  import opened Safety
  import opened Invariance

  // ----- the locks, in clean runs

  /** Inside a section, with the locks or without. */
  predicate Inside(pc: Pc) {
    pc == InSection || pc.Stray?
  }

  /** The functional lock is only held together with the control lock, and whoever is inside its section
      holds both. */
  ghost predicate Disciplined(s: Sys) {
    && (s.fun.Some? ==> s.ctl == s.fun)
    && forall p: nat :: p < |s.pcs| && Inside(s.pcs[p]) ==> s.ctl == s.fun == Some(p)
  }

  lemma InvDisciplines(c: Config, s: Sys)
    requires ValidConfig(c) && Inv(c, s)
    ensures Disciplined(s)
  {
    forall p: nat | p < |s.pcs| && Inside(s.pcs[p]) ensures s.ctl == s.fun == Some(p) {
      assert s.pcs[p] == InSection;
    }
  }

  /** The functional lock is only held together with the control lock, one process at most is inside its
      section and holds both, and whoever sleeps, is suspended or has stopped holds neither lock. */
  lemma LockDiscipline(c: Config, s: Sys)
    requires ValidConfig(c) && CleanlyReachable(c, s)
    ensures Disciplined(s)
    ensures forall p: nat, q: nat :: p < |s.pcs| && q < |s.pcs| && Inside(s.pcs[p]) && Inside(s.pcs[q]) ==> p == q
    ensures forall p: nat :: p < |s.pcs| && (s.pcs[p] == Idle || s.pcs[p].Suspended? || s.pcs[p] == Stopped) ==>
              s.ctl != Some(p) && s.fun != Some(p)
  {
    ReachableInv(c, s);
    InvDisciplines(c, s);
  }

  /** As long as a run is disciplined, its steps are clean and the whole invariant holds. */
  lemma {:induction false} DisciplinedSoFar(c: Config, states: seq<Sys>, steps: seq<Step>, k: nat)
    requires ValidConfig(c) && IsRun(c, states, steps) && k < |states|
    requires forall i :: 0 <= i <= k ==> Disciplined(states[i])
    ensures Inv(c, states[k]) && forall i :: 0 <= i < k ==> Clean(c, states[i], steps[i])
  {
    if k == 0 {
      InitialInv(c, states[0]);
    } else {
      DisciplinedSoFar(c, states, steps, k - 1);
      if Clean(c, states[k-1], steps[k-1]) {
        InvKept(c, states[k-1], steps[k-1], states[k]);
      } else {
        var t := UncleanBreaks(c, states[k-1], steps[k-1], states[k]);
        assert Inside(states[k].pcs[t]);
      }
    }
  }

  /** A run keeps the discipline throughout exactly if no task is resumed inside its section. */
  lemma DisciplineExact(c: Config, states: seq<Sys>, steps: seq<Step>)
    requires ValidConfig(c) && IsRun(c, states, steps)
    ensures (forall k :: 0 <= k < |states| ==> Disciplined(states[k])) <==>
              forall k :: 0 <= k < |steps| ==> Clean(c, states[k], steps[k])
  {
    if forall k :: 0 <= k < |steps| ==> Clean(c, states[k], steps[k]) {
      forall k | 0 <= k < |states| ensures Disciplined(states[k]) {
        RunInv(c, states, steps, k);
        InvDisciplines(c, states[k]);
      }
    }
    if forall k :: 0 <= k < |states| ==> Disciplined(states[k]) {
      DisciplinedSoFar(c, states, steps, |steps|);
    }
  }

  // ----- no deadlock, in any run

  /** Busy: between waking up and sleeping again. */
  predicate Busy(pc: Pc) {
    pc != Idle && !pc.Suspended? && pc != Stopped
  }

  ghost predicate CanMove(c: Config, s: Sys, p: nat)
    requires ValidConfig(c) && StoreOk(c, s.store)
  {
    exists l, s' :: Next(c, s, l, s') && Mover(c, l) == Some(p)
  }

  /** Waiting for a lock that is taken. */
  predicate Blocked(s: Sys, p: nat)
    requires p < |s.pcs|
  {
    (s.pcs[p] == WantsControl && s.ctl.Some?) || (s.pcs[p] == WantsFunctional && s.fun.Some?)
  }

  /** No deadlock, in any run: a process underway can move unless it waits for a lock that is taken; the
      holder of the functional lock can always move, and so can that of the control lock while the
      functional one is free; so some process underway can move. */
  lemma NoDeadlock(c: Config, s: Sys, p: nat)
    requires ValidConfig(c) && Reachable(c, s)
    requires p < |s.pcs| && Busy(s.pcs[p])
    ensures StoreOk(c, s.store)
    ensures Blocked(s, p) || CanMove(c, s, p)
    ensures s.fun.Some? ==> CanMove(c, s, s.fun.value)
    ensures s.ctl.Some? && s.fun.None? ==> CanMove(c, s, s.ctl.value)
    ensures exists q: nat :: q < |s.pcs| && Busy(s.pcs[q]) && CanMove(c, s, q)
  {
    ReachableSafe(c, s);
    if !Blocked(s, p) {
      Proceeds(c, s, p);
    }
    if s.fun.Some? {
      Proceeds(c, s, s.fun.value);
    } else if s.ctl.Some? {
      Proceeds(c, s, s.ctl.value);
    }
  }

  lemma Proceeds(c: Config, s: Sys, p: nat)
    requires ValidConfig(c) && Safe(c, s) && p < |s.pcs| && Busy(s.pcs[p]) && !Blocked(s, p)
    ensures CanMove(c, s, p)
  {
    match s.pcs[p] {
      case WantsControl =>
        assert Next(c, s, TakeControl(p), Goto(s, p, WantsFunctional).(ctl := Some(p)));
      case WantsFunctional =>
        assert Next(c, s, TakeFunctional(p), Goto(s, p, InSection).(fun := Some(p)));
      case InSection =>
        SectionPossible(c, s, p);
      case GivesFunctional(goal) =>
        assert Next(c, s, GiveFunctional(p), Goto(s, p, GivesControl(goal)).(fun := None));
      case GivesControl(goal) =>
        assert Next(c, s, GiveControl(p),
                    Goto(s, p, if goal.Some? then AboutToSuspend(goal.value) else Idle).(ctl := None));
      case AboutToSuspend(place) =>
        assert Next(c, s, TaskSuspend(p), Goto(s, p, Suspended(place)));
      case Stray(place) =>
        StrayMoves(c, s, p);
    }
  }

  lemma SectionPossible(c: Config, s: Sys, p: nat)
    requires ValidConfig(c) && Safe(c, s) && At(s, p, InSection)
    ensures CanMove(c, s, p)
  {
    var n := |c.periodic|;
    if p < n {
      IterationPossible(c, s, p);
    } else if p == n {
      var es: seq<Event> := [];
      assert Next(c, s, ControlTurn(es),
                  s.(store := AfterSection(c, s.store, es), pcs := s.pcs[n := GivesFunctional(None)]));
    } else {
      assert Next(c, s, Use(p), Goto(s, p, GivesFunctional(None)));
    }
  }

  /** A task that has been resumed inside its section goes on without the locks. */
  lemma StrayMoves(c: Config, s: Sys, t: nat)
    requires ValidConfig(c) && Safe(c, s) && t < |s.pcs| && s.pcs[t].Stray?
    ensures CanMove(c, s, t)
  {
    match s.pcs[t].place {
      case BeforeScan =>
        assert Next(c, s, StrayScan(t), Goto(s, t, Stray(InScan(0, Total(s.store.acts, OwnedBy(t)), false))));
      case InScan(next, left, wake) =>
        if left == 0 || next >= |s.store.acts| {
          assert Next(c, s, StrayMain(t, true), Goto(s, t, Stray(BeforeEnd(wake))));
        } else {
          VisitPossible(c, s, t);
        }
      case BeforeEnd(wake) =>
        var flags := seq(|c.periodic|, i => false);
        var st := s.store.(pending := s.store.pending + Raised(flags) + if wake then {|c.periodic|} else {});
        assert Next(c, s, StrayEnd(t, false, flags, 2), Goto(s, t, Idle).(store := st, fun := None, ctl := None));
    }
  }

  lemma VisitPossible(c: Config, s: Sys, t: nat)
    requires ValidConfig(c) && Safe(c, s) && t < |s.pcs| && s.pcs[t].Stray? && s.pcs[t].place.InScan?
    requires s.pcs[t].place.left > 0 && s.pcs[t].place.next < |s.store.acts|
    ensures CanMove(c, s, t)
  {
    var prog := Program(TablesOf(c.requests, t), (name: string, slot: nat) => Ether);
    GeneratedCovers(c, s.store, t, prog);
    var s' := VisitLeads(c, s, t, prog);
    assert Next(c, s, StrayVisit(t, prog), s');
  }

  lemma VisitLeads(c: Config, s: Sys, t: nat, prog: Program) returns (s': Sys)
    requires ValidConfig(c) && StoreOk(c, s.store) && t < |c.periodic| && t < |s.pcs|
    requires s.pcs[t].Stray? && s.pcs[t].place.InScan?
    requires s.pcs[t].place.left > 0 && s.pcs[t].place.next < |s.store.acts|
    requires Generated(prog.tables, c.requests, t)
    ensures StrayVisits(c, s, t, prog, s')
  {
    GeneratedCovers(c, s.store, t, prog);
    var i, left, wake := s.pcs[t].place.next, s.pcs[t].place.left, s.pcs[t].place.wake;
    var a := s.store.acts[i];
    if a.task != t {
      s' := Goto(s, t, Stray(InScan(i + 1, left, wake)));
    } else {
      var st := s.store.(acts := s.store.acts[i := Stepped(a, i, prog)],
                         pending := s.store.pending + if !c.periodic[t] && RunsAgain(a, i, prog) then {t} else {});
      if Suspending(a, i, prog) {
        s' := SuspendedAgain(c, s.(store := st), t, InScan(i + 1, left - 1, wake));
      } else {
        s' := Goto(s, t, Stray(InScan(i + 1, left - 1, wake || Transition(a, i, prog)))).(store := st);
      }
    }
  }

  lemma IterationPossible(c: Config, s: Sys, t: nat)
    requires ValidConfig(c) && StoreOk(c, s.store) && t < |c.periodic| && At(s, t, InSection)
    ensures CanMove(c, s, t)
  {
    var prog := Program(TablesOf(c.requests, t), (name: string, slot: nat) => Ether);
    var o := Outcome(true, true, false);
    var flags := seq(|c.periodic|, i => false);
    var s' := IterationLeads(c, s, t, prog, o, flags);
    assert Mover(c, Iteration(t, prog, o, flags)) == Some(t);
  }

  /** Whatever the codels answer, there is a state that the iteration leads to. */
  lemma IterationLeads(c: Config, s: Sys, t: nat, p: Program, o: Outcome, flags: seq<bool>) returns (s': Sys)
    requires ValidConfig(c) && StoreOk(c, s.store) && t < |c.periodic| && At(s, t, InSection)
    requires |flags| == |c.periodic| && Generated(p.tables, c.requests, t)
    ensures Next(c, s, Iteration(t, p, o, flags), s')
  {
    GeneratedCovers(c, s.store, t, p);
    var st' := AfterIteration(s.store, c.periodic, flags, t, p, o).0;
    s' := Goto(s, t, GivesFunctional(GoalOf(s, c.periodic, flags, t, p, o))).(store := st');
  }

  /** A process that sleeps can wake up when its timer fires, when it is a user, or when it has been
      signalled. */
  lemma SleeperWakes(c: Config, s: Sys, p: nat)
    requires ValidConfig(c) && StoreOk(c, s.store) && At(s, p, Idle)
    requires p in s.store.pending || p > |c.periodic| || (p < |c.periodic| && c.periodic[p])
    ensures exists s' :: Next(c, s, Wake(p), s') && At(s', p, WantsControl) && s'.store.acts == s.store.acts
  {
    var pending := if TimerDriven(c, p) then s.store.pending else s.store.pending - {p};
    assert Next(c, s, Wake(p), Goto(s, p, WantsControl).(store := s.store.(pending := pending)));
  }

  // ----- the activities, in any run

  /** An activity that has been told to start. */
  predicate Started(a: Activity) {
    Live(a) && !Waiting(a)
  }

  /** Incompatible activities exclude each other: once an activity has been told to start, every
      older live activity its request interrupts is a zombie; it runs no more. */
  lemma IncompatibleExclude(c: Config, s: Sys, i: nat, j: nat)
    requires ValidConfig(c) && Reachable(c, s)
    requires i < |s.store.acts| && j < |s.store.acts| && i != j
    requires Started(s.store.acts[i]) && Live(s.store.acts[j])
    ensures 0 <= s.store.acts[i].rqst < |c.requests| && 0 <= s.store.acts[j].rqst < |c.requests|
    ensures s.store.acts[j].id < s.store.acts[i].id
            && Interrupting(c.requests, s.store.acts[i].rqst, s.store.acts[j].rqst)
            ==> s.store.acts[j].status == Zombie
  {
    ReachableSafe(c, s);
    assert !MustAwait(c, s.store.acts, i, j);
  }

  /** Requests that interrupt each other never have two started activities, unless one is a zombie. */
  lemma MutuallyIncompatible(c: Config, s: Sys, i: nat, j: nat)
    requires ValidConfig(c) && Reachable(c, s)
    requires i < |s.store.acts| && j < |s.store.acts| && i != j
    requires Started(s.store.acts[i]) && Started(s.store.acts[j])
    requires 0 <= s.store.acts[i].rqst < |c.requests| && 0 <= s.store.acts[j].rqst < |c.requests|
    requires Interrupting(c.requests, s.store.acts[i].rqst, s.store.acts[j].rqst)
    requires Interrupting(c.requests, s.store.acts[j].rqst, s.store.acts[i].rqst)
    ensures s.store.acts[i].status == Zombie || s.store.acts[j].status == Zombie
  {
    IncompatibleExclude(c, s, i, j);
    IncompatibleExclude(c, s, j, i);
    ReachableSafe(c, s);
  }

  /** Waiting is never circular: as long as an activity waits, some activity that has been told
      to start is still running (it is live and not a zombie). */
  lemma WaitingMakesSense(c: Config, s: Sys, i: nat)
    requires ValidConfig(c) && Reachable(c, s)
    requires i < |s.store.acts| && Waiting(s.store.acts[i])
    ensures exists j :: 0 <= j < |s.store.acts| && Started(s.store.acts[j])
              && s.store.acts[j].status != Zombie
  {
    ReachableSafe(c, s);
    var j := EndOfChain(c, s.store, i);
  }

  /** Follow the lists from slot i: each waiting activity waits for a started one or a newer one. */
  lemma EndOfChain(c: Config, st: Store, i: nat) returns (j: nat)
    requires ValidConfig(c) && TableSafe(c, st) && i < |st.acts| && Waiting(st.acts[i])
    ensures j < |st.acts| && Started(st.acts[j]) && st.acts[j].status != Zombie
    decreases st.lastId - st.acts[i].id
  {
    var acts := st.acts;
    var x := acts[i].incomp[0];
    assert x in acts[i].incomp && !Over(acts, x);
    if Waiting(acts[x]) {
      assert acts[i].id < acts[x].id <= st.lastId;
      j := EndOfChain(c, st, x);
    } else {
      j := x;
    }
  }

  /** Abort requests reach whom they name: in any run, an activity number stands for the live activity
      that has it, whatever the memory of the table held before and whatever finished activities left. */
  lemma AbortReaches(c: Config, s: Sys, number: int, i: nat)
    requires ValidConfig(c) && Reachable(c, s) && i < |s.store.acts|
    ensures AbortTarget(s.store, number) == Some(i) <==>
              Live(s.store.acts[i]) && s.store.acts[i].id == number
  {
    ReachableSafe(c, s);
    NumberedFinds(s.store, number, i);
  }

  /** As long as the module has not been ended, an execution task whose status is ERROR, so that
      ordinary requests are refused, is suspended or about to be. */
  lemma ErrorMeansTrouble(c: Config, s: Sys, t: int)
    requires ValidConfig(c) && Reachable(c, s) && t in s.store.failed
    ensures |c.periodic| < |s.pcs|
    ensures s.pcs[|c.periodic|] == Stopped || (0 <= t < |c.periodic| && InTrouble(s.pcs[t]))
  {
    ReachableSafe(c, s);
  }

  // ----- lives and signals, in clean runs

  /** The life of every activity, whatever the codels answer and whenever it is interrupted:
      its codels are called for a word of START* EXEC* END* INTER* FAIL?, at most five times
      plus once per "stay" or SLEEP, and after a forbidden answer its task is suspended. */
  lemma EveryLife(c: Config, s: Sys, i: nat)
    requires ValidConfig(c) && CleanlyReachable(c, s) && i < |s.store.acts|
    ensures LifeWord(States(s.store.acts[i].calls))
    ensures |s.store.acts[i].calls| <= Stays(s.store.acts[i].calls) + 5
    ensures |c.periodic| < |s.pcs|
    ensures var a := s.store.acts[i];
            Live(a) && a.calls != [] && !Permitted(a.calls[|a.calls|-1].state, a.calls[|a.calls|-1].result) ==>
              a.task in SuspendedTasks(c, s)
  {
    ReachableInv(c, s);
    HistoryIsLifeWord(s.store.acts[i].calls);
    CallsBounded(s.store.acts[i].calls);
  }

  /** An activity that is over cannot be missed: once a live activity with at most n stays has been
      dispatched n + 5 times by an execution task that is not suspended, its last answer was ETHER or
      ZOMBIE. */
  lemma LifeEnds(c: Config, s: Sys, i: nat, n: nat)
    requires ValidConfig(c) && CleanlyReachable(c, s) && i < |s.store.acts| && Live(s.store.acts[i])
    requires |c.periodic| < |s.pcs| && s.store.acts[i].task !in SuspendedTasks(c, s)
    requires Stays(s.store.acts[i].calls) <= n && |s.store.acts[i].calls| >= n + 5
    ensures var calls := s.store.acts[i].calls;
            calls[|calls|-1].result == Ether || calls[|calls|-1].result == Zombie
  {
    ReachableInv(c, s);
    EndsWithinBudget(s.store.acts[i].calls, n);
  }

  /** No lost wake-up: a sleeping aperiodic task with an event to dispatch can wake up, and so can
      the sleeping control task when there is an event to acknowledge. */
  lemma NoLostWakeup(c: Config, s: Sys, i: nat)
    requires ValidConfig(c) && CleanlyReachable(c, s) && i < |s.store.acts|
    ensures |c.periodic| < |s.pcs|
    ensures var a := s.store.acts[i];
            Live(a) && ForExecTask(a.evn) ==>
              0 <= a.task < |c.periodic| &&
              (!c.periodic[a.task] && s.pcs[a.task] == Idle ==> a.task in s.store.pending)
    ensures ForControlTask(s.store.acts[i].evn) && s.pcs[|c.periodic|] == Idle ==>
              |c.periodic| in s.store.pending
  {
    ReachableInv(c, s);
    assert TaskAlerted(c, s.store.acts[i], s.store.pending, Excused(c, s));
  }
}

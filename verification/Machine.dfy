/** A whole module at work: any number of execution tasks, the control task and other users of
    genomTakeSDIs, interleaved at every lock operation, and what holds in every run. */
module Machine {
  import opened Wrappers
  import opened Activities
  import opened CodelTables
  import opened ControlTask
  import opened ExecTask

  /** Where a suspended task goes on when it is resumed: outside its section, with the wait for its
      timer or event still to come or just over; or inside, before the scan, in the scan with slots
      left to visit, or before the end. `wake` remembers that the control task is to be woken up. */
  datatype Place =
    | Outside(awake: bool)
    | BeforeScan
    | InScan(next: nat, left: nat, wake: bool)
    | BeforeEnd(wake: bool)

  /** Where a process is. A section runs with both locks held and ends with giving them, to sleep
      again or, through Suspend(TRUE), to be suspended; AboutToSuspend is just before taskSuspend. A stray
      task is one that was suspended inside its section and has been resumed: back inside, without
      the locks. */
  datatype Pc =
    | Idle | WantsControl | WantsFunctional | InSection
    | GivesFunctional(goal: Option<Place>) | GivesControl(goal: Option<Place>)
    | AboutToSuspend(place: Place) | Suspended(place: Place) | Stray(place: Place) | Stopped

  /** Process t < |periodic| is an execution task, |periodic| the control task, the rest users.
      ctl and fun are the holders of the control and the functional data structure. */
  datatype Sys = Sys(store: Store, pcs: seq<Pc>, ctl: Option<nat>, fun: Option<nat>)

  datatype Step =
    | Signal(p: nat)
    | Wake(p: nat)
    | TakeControl(p: nat)
    | TakeFunctional(p: nat)
    | Iteration(t: nat, prog: Program, outcome: Outcome, flags: seq<bool>)
    | ControlTurn(events: seq<Event>)
    | EndModule(events: seq<Event>)
    | SignalEnd
    | Use(p: nat)
    | GiveFunctional(p: nat)
    | GiveControl(p: nat)
    | TaskSuspend(p: nat)
    | SuspendIdle(p: nat, awake: bool)
    | Stop(t: nat)
    | StrayScan(t: nat)
    | StrayVisit(t: nat, prog: Program)
    | StrayMain(t: nat, ok: bool)
    | StrayEnd(t: nat, reportChanged: bool, flags: seq<bool>, given: nat)

  /** Processes woken by a timer or on their own account; the others wait for their event. */
  predicate TimerDriven(c: Config, p: nat) {
    p > |c.periodic| || (p < |c.periodic| && c.periodic[p])
  }

  predicate At(s: Sys, p: nat, pc: Pc) {
    p < |s.pcs| && s.pcs[p] == pc
  }

  function Goto(s: Sys, p: nat, pc: Pc): Sys
    requires p < |s.pcs|
  {
    s.(pcs := s.pcs[p := pc])
  }

  /** The generated tables are indexed within bounds by whatever the table holds. */
  lemma GeneratedCovers(c: Config, st: Store, t: nat, p: Program)
    requires ValidConfig(c) && StoreOk(c, st) && Generated(p.tables, c.requests, t)
    ensures Covered(st.acts, t, p)
  {
  }

  // ----- suspension and resumption

  /** The place in its section at which an iteration suspends its task. */
  ghost function PlaceOf(acts: seq<Activity>, t: nat, p: Program, o: Outcome): Place
    requires Covered(acts, t, p)
  {
    var end := ScanEnd(acts, t, p);
    var visited, owned := Count(acts, OwnedBy(t), end), Total(acts, OwnedBy(t));
    if !o.main1Ok then BeforeScan
    else if ScanSuspends(acts, t, p) then
      InScan(end, if visited < owned then owned - visited else 0, AnyTransition(acts, t, p, end))
    else BeforeEnd(AnyTransition(acts, t, p, end))
  }

  /** taskResume. */
  function ResumedPc(pc: Pc): Pc {
    if !pc.Suspended? then pc
    else match pc.place
         case Outside(awake) => if awake then WantsControl else Idle
         case _ => Stray(pc.place)
  }

  /** taskResume on every execution task. */
  function Resumed(c: Config, pcs: seq<Pc>): seq<Pc> {
    seq(|pcs|, p requires 0 <= p < |pcs| => if p < |c.periodic| then ResumedPc(pcs[p]) else pcs[p])
  }

  /** The steps that resume the execution tasks: the request to resume, the request that ends the module,
      and the end of the module by SIGTERM. */
  predicate Resumes(l: Step) {
    match l
    case ControlTurn(es) => Abort(RESUME_EXEC_TASK) in es
    case EndModule(_) => true
    case SignalEnd => true
    case _ => false
  }

  /** The process that takes a step; a signal comes from outside. */
  function Mover(c: Config, l: Step): Option<nat> {
    match l
    case Signal(_) => None
    case Wake(p) => Some(p)
    case TakeControl(p) => Some(p)
    case TakeFunctional(p) => Some(p)
    case Iteration(t, _, _, _) => Some(t)
    case ControlTurn(_) => Some(|c.periodic|)
    case EndModule(_) => Some(|c.periodic|)
    case SignalEnd => Some(|c.periodic|)
    case Use(p) => Some(p)
    case GiveFunctional(p) => Some(p)
    case GiveControl(p) => Some(p)
    case TaskSuspend(p) => Some(p)
    case SuspendIdle(p, _) => Some(p)
    case Stop(t) => Some(t)
    case StrayScan(t) => Some(t)
    case StrayVisit(t, _) => Some(t)
    case StrayMain(t, _) => Some(t)
    case StrayEnd(t, _, _, _) => Some(t)
  }

  // ----- the steps

  /** The control task stops: it has given both locks, resumed the execution tasks and signalled the
      aperiodic ones. */
  function Ended(c: Config, s: Sys, st: Store): Sys
    requires |c.periodic| < |s.pcs|
  {
    Sys(st.(pending := st.pending + Aperiodic(c.periodic)), Resumed(c, s.pcs)[|c.periodic| := Stopped], None, None)
  }

  /** Signal is an event raised from outside, as by a client's request or by SIGTERM. */

  ghost predicate Next(c: Config, s: Sys, l: Step, s': Sys)
    requires ValidConfig(c) && StoreOk(c, s.store)
  {
    match l
    case Signal(p) =>
      p <= |c.periodic| && s' == s.(store := s.store.(pending := s.store.pending + {p}))
    case Wake(p) =>
      && At(s, p, Idle) && (TimerDriven(c, p) || p in s.store.pending)
      && s' == Goto(s, p, WantsControl).(store :=
           s.store.(pending := if TimerDriven(c, p) then s.store.pending else s.store.pending - {p}))
    case TakeControl(p) =>
      At(s, p, WantsControl) && s.ctl == None && s' == Goto(s, p, WantsFunctional).(ctl := Some(p))
    case TakeFunctional(p) =>
      At(s, p, WantsFunctional) && s.fun == None && s' == Goto(s, p, InSection).(fun := Some(p))
    case Iteration(t, prog, outcome, flags) =>
      && t < |c.periodic| && At(s, t, InSection) && |flags| == |c.periodic|
      && Generated(prog.tables, c.requests, t)
      && (GeneratedCovers(c, s.store, t, prog);
          var (st', suspended) := AfterIteration(s.store, c.periodic, flags, t, prog, outcome);
          var goal := if suspended then Some(PlaceOf(s.store.acts, t, prog, outcome)) else None;
            s' == Goto(s, t, GivesFunctional(goal)).(store := st'))
    case ControlTurn(es) =>
      var n := |c.periodic|;
      && At(s, n, InSection) && ServableEvents(c, es) && GoesOn(c, s.store, es)
      && s' == s.(store := AfterSection(c, s.store, es),
                  pcs := (if Resumes(l) then Resumed(c, s.pcs) else s.pcs)[n := GivesFunctional(None)])
    case EndModule(es) =>
      && At(s, |c.periodic|, InSection) && ServableEvents(c, es) && GoesOn(c, s.store, es)
      && var st := Served(c, s.store, es, |es|);
         NobodyLive(st.acts) && s' == Ended(c, s, st)
    case SignalEnd =>
      At(s, |c.periodic|, InSection) && s' == Ended(c, s, s.store)
    case Use(p) =>
      p > |c.periodic| && At(s, p, InSection) && s' == Goto(s, p, GivesFunctional(None))
    case GiveFunctional(p) =>
      && p < |s.pcs| && s.pcs[p].GivesFunctional?
      && s' == Goto(s, p, GivesControl(s.pcs[p].goal)).(fun := None)
    case GiveControl(p) =>
      && p < |s.pcs| && s.pcs[p].GivesControl?
      && s' == Goto(s, p, if s.pcs[p].goal.Some? then AboutToSuspend(s.pcs[p].goal.value) else Idle).(ctl := None)
    case TaskSuspend(p) =>
      p < |s.pcs| && s.pcs[p].AboutToSuspend? && s' == Goto(s, p, Suspended(s.pcs[p].place))
    case SuspendIdle(p, awake) =>
      && p <= |c.periodic| && At(s, p, Idle)
      && s' == Goto(s, p, AboutToSuspend(Outside(awake))).(store :=
           if p < |c.periodic| then Failing(s.store, p, |c.periodic|) else s.store)
    case Stop(t) =>
      t < |c.periodic| && At(s, t, WantsControl) && At(s, |c.periodic|, Stopped)
      && s' == Goto(s, t, Stopped).(store := s.store.(pending := s.store.pending + {|c.periodic|}))
    case StrayScan(t) =>
      && t < |c.periodic| && At(s, t, Stray(BeforeScan))
      && s' == Goto(s, t, Stray(InScan(0, Total(s.store.acts, OwnedBy(t)), false)))
    case StrayVisit(t, prog) => StrayVisits(c, s, t, prog, s')
    case StrayMain(t, ok) =>
      && t < |c.periodic| && t < |s.pcs| && s.pcs[t].Stray? && s.pcs[t].place.InScan?
      && (s.pcs[t].place.left == 0 || s.pcs[t].place.next >= |s.store.acts|)
      && var place := BeforeEnd(s.pcs[t].place.wake);
         s' == if ok then Goto(s, t, Stray(place)) else SuspendedAgain(c, s, t, place)
    case StrayEnd(t, reportChanged, flags, given) =>
      && t < |c.periodic| && t < |s.pcs| && s.pcs[t].Stray? && s.pcs[t].place.BeforeEnd? && |flags| == |c.periodic|
      && var st := s.store.(pending := s.store.pending + Raised(flags)
                              + if s.pcs[t].place.wake || reportChanged then {|c.periodic|} else {});
         s' == Goto(s, t, if given >= 2 then Idle else AboutToSuspend(Outside(false)))
                 .(store := if given >= 2 then st else Failing(st, t, |c.periodic|),
                   fun := if given >= 1 then None else s.fun,
                   ctl := if given >= 2 then None else s.ctl)
  }

  /** What Suspend does to the store. */
  function Failing(st: Store, t: nat, control: nat): Store {
    st.(pending := st.pending + {control}, failed := st.failed + {t})
  }

  /** Suspend(TRUE) by a stray task: it gives locks that it does not hold. */
  function SuspendedAgain(c: Config, s: Sys, t: nat, place: Place): Sys
    requires t < |s.pcs|
  {
    Goto(s, t, AboutToSuspend(place)).(store := Failing(s.store, t, |c.periodic|), ctl := None, fun := None)
  }

  /** A stray task comes to the next slot of its scan. */
  ghost predicate StrayVisits(c: Config, s: Sys, t: nat, prog: Program, s': Sys)
    requires ValidConfig(c) && StoreOk(c, s.store)
  {
    && t < |c.periodic| && t < |s.pcs| && s.pcs[t].Stray? && s.pcs[t].place.InScan?
    && s.pcs[t].place.left > 0 && s.pcs[t].place.next < |s.store.acts|
    && Generated(prog.tables, c.requests, t)
    && (GeneratedCovers(c, s.store, t, prog);
        var i, left, wake := s.pcs[t].place.next, s.pcs[t].place.left, s.pcs[t].place.wake;
        var a := s.store.acts[i];
        if a.task != t then s' == Goto(s, t, Stray(InScan(i + 1, left, wake)))
        else
          var st := s.store.(acts := s.store.acts[i := Stepped(a, i, prog)],
                             pending := s.store.pending
                               + if !c.periodic[t] && RunsAgain(a, i, prog) then {t} else {});
          if Suspending(a, i, prog) then
            s' == SuspendedAgain(c, s.(store := st), t, InScan(i + 1, left - 1, wake))
          else
            s' == Goto(s, t, Stray(InScan(i + 1, left - 1, wake || Transition(a, i, prog)))).(store := st))
  }

  ghost predicate Initial(c: Config, s: Sys) {
    && StoreOk(c, s.store) && s.store.lastId == -1 && s.store.lastNum == -1 && s.store.failed == {}
    && (forall i :: 0 <= i < |s.store.acts| ==>
          !Live(s.store.acts[i]) && s.store.acts[i].calls == [])
    && |s.pcs| > |c.periodic| && (forall p :: 0 <= p < |s.pcs| ==> s.pcs[p] == Idle)
    && s.ctl == None && s.fun == None
  }

  /** Resuming tasks, but none that is suspended inside its section. */
  ghost predicate Clean(c: Config, s: Sys, l: Step) {
    Resumes(l) ==>
      forall t :: 0 <= t < |c.periodic| && t < |s.pcs| && s.pcs[t].Suspended? ==> s.pcs[t].place.Outside?
  }

  // ----- runs

  ghost predicate IsRun(c: Config, states: seq<Sys>, steps: seq<Step>)
    requires ValidConfig(c)
  {
    && |states| == |steps| + 1 && Initial(c, states[0])
    && forall k :: 0 <= k < |steps| ==>
         StoreOk(c, states[k].store) && Next(c, states[k], steps[k], states[k+1])
  }

  ghost predicate IsCleanRun(c: Config, states: seq<Sys>, steps: seq<Step>)
    requires ValidConfig(c)
  {
    IsRun(c, states, steps) && forall k :: 0 <= k < |steps| ==> Clean(c, states[k], steps[k])
  }

  /** The states of all runs, and of those in which no task is resumed inside its section. */
  ghost predicate Reachable(c: Config, s: Sys)
    requires ValidConfig(c)
  {
    exists states, steps :: IsRun(c, states, steps) && states[|states|-1] == s
  }

  ghost predicate CleanlyReachable(c: Config, s: Sys)
    requires ValidConfig(c)
  {
    exists states, steps :: IsCleanRun(c, states, steps) && states[|states|-1] == s
  }

  lemma InitiallyReachable(c: Config, s: Sys)
    requires ValidConfig(c) && Initial(c, s)
    ensures Reachable(c, s) && CleanlyReachable(c, s)
  {
    assert IsCleanRun(c, [s], []);
  }

  lemma CleanIsReachable(c: Config, s: Sys)
    requires ValidConfig(c) && CleanlyReachable(c, s)
    ensures Reachable(c, s)
  {
    var states, steps :| IsCleanRun(c, states, steps) && states[|states|-1] == s;
  }

  lemma OneStepMore(c: Config, s: Sys, l: Step, s': Sys)
    requires ValidConfig(c) && StoreOk(c, s.store) && Next(c, s, l, s') && Reachable(c, s)
    ensures Reachable(c, s')
  {
    var states, steps :| IsRun(c, states, steps) && states[|states|-1] == s;
    LongerRun(c, states, steps, l, s');
  }

  lemma OneCleanStepMore(c: Config, s: Sys, l: Step, s': Sys)
    requires ValidConfig(c) && StoreOk(c, s.store) && Next(c, s, l, s') && CleanlyReachable(c, s) && Clean(c, s, l)
    ensures CleanlyReachable(c, s')
  {
    var states, steps :| IsCleanRun(c, states, steps) && states[|states|-1] == s;
    LongerRun(c, states, steps, l, s');
    LongerCleanRun(c, states, steps, l, s');
  }

  lemma LongerCleanRun(c: Config, states: seq<Sys>, steps: seq<Step>, l: Step, s': Sys)
    requires ValidConfig(c) && IsCleanRun(c, states, steps) && Clean(c, states[|states|-1], l)
    requires IsRun(c, states + [s'], steps + [l])
    ensures IsCleanRun(c, states + [s'], steps + [l])
  {
  }

  lemma LongerRun(c: Config, states: seq<Sys>, steps: seq<Step>, l: Step, s': Sys)
    requires ValidConfig(c) && IsRun(c, states, steps)
    requires StoreOk(c, states[|states|-1].store) && Next(c, states[|states|-1], l, s')
    ensures IsRun(c, states + [s'], steps + [l]) && (states + [s'])[|states|] == s'
  {
  }
}

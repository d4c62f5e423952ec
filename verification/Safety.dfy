/** What every step of every run keeps, the steps of tasks resumed inside their sections included. */
module Safety {
  import opened Wrappers
  import opened Activities
  import opened ControlTask
  import opened ControlMeaning
  import opened ExecTask
  import opened TableInvariants
  import opened Machine

  // ----- the table

  ghost predicate Sound(c: Config, st: Store)
    requires ValidConfig(c)
  {
    && StoreOk(c, st) && Numbered(st)
    && Identified(c, st.acts, st.lastId) && Excluding(c, st.acts)
  }

  /** The table between the sections of the control task. */
  ghost predicate TableSafe(c: Config, st: Store)
    requires ValidConfig(c)
  {
    Sound(c, st) && WaitsForSomeone(st.acts)
  }

  /** Changes that start, admit and renumber nobody. */
  lemma MildKeeps(c: Config, st: Store, st': Store)
    requires ValidConfig(c) && Sound(c, st) && StoreOk(c, st')
    requires AllBenign(st.acts, st'.acts) && SameNumbers(st.acts, st'.acts)
    requires st'.lastId == st.lastId && st'.lastNum == st.lastNum
    ensures Sound(c, st')
  {
    BenignKeeps(c, st.acts, st'.acts, st.lastId);
    SameNumbersKeep(st, st');
  }

  /** Whoever waits waited before, with the same list, and nobody has come back to life. */
  lemma StillWaiting(acts: seq<Activity>, acts': seq<Activity>)
    requires |acts'| == |acts| && WaitsForSomeone(acts)
    requires forall i :: 0 <= i < |acts| ==> Over(acts', i) == Over(acts, i)
    requires forall i :: 0 <= i < |acts| && Waiting(acts'[i]) ==> acts'[i] == acts[i]
    ensures WaitsForSomeone(acts')
  {
  }

  // ----- a turn of the control task

  lemma AcknowledgeSound(c: Config, st: Store)
    requires ValidConfig(c) && Sound(c, st)
    ensures Sound(c, st.(acts := AcknowledgeAll(st.acts)))
  {
    AcknowledgeIsBenign(c, st);
    MildKeeps(c, st, st.(acts := AcknowledgeAll(st.acts)));
  }

  lemma EventSound(c: Config, st: Store, e: Event)
    requires ValidConfig(c) && Sound(c, st) && ServableEvent(c, e)
    ensures Sound(c, AfterEvent(c, st, e))
  {
    EventNumbers(c, st, e);
    match e {
      case Execution(r, accepted, codelOk) => ExecutionKeeps(c, st, r, accepted, codelOk);
      case Control(r) => ControlKeeps(c, st, r);
      case Abort(number) => AbortKeeps(c, st, number);
    }
  }

  lemma {:induction false} EventsSound(c: Config, st: Store, es: seq<Event>, n: nat)
    requires ValidConfig(c) && Sound(c, st) && ServableEvents(c, es) && n <= |es|
    ensures Sound(c, AfterEvents(c, st, es, n))
  {
    if n > 0 {
      EventsSound(c, st, es, n - 1);
      assert es[n-1] in es;
      EventSound(c, AfterEvents(c, st, es, n - 1), es[n-1]);
    }
  }

  lemma ServedSound(c: Config, st: Store, es: seq<Event>)
    requires ValidConfig(c) && Sound(c, st) && ServableEvents(c, es)
    ensures Sound(c, Served(c, st, es, |es|))
  {
    AcknowledgeSound(c, st);
    EventsSound(c, st.(acts := AcknowledgeAll(st.acts)), es, |es|);
  }

  lemma SpawnSafe(c: Config, st: Store, st': Store)
    requires ValidConfig(c) && Sound(c, st)
    requires st' == st.(acts := SpawnAll(st.acts), pending := st'.pending)
    ensures TableSafe(c, st')
  {
    SpawnKeeps(c, st);
    SpawnKeepsNumbers(c, st);
    SameNumbersKeep(st, st');
  }

  lemma SpawnKeepsNumbers(c: Config, st: Store)
    requires ValidConfig(c) && StoreOk(c, st)
    ensures SameNumbers(st.acts, SpawnAll(st.acts))
  {
    forall i | 0 <= i < |st.acts|
      ensures SpawnAll(st.acts)[i].id == st.acts[i].id && Live(SpawnAll(st.acts)[i]) == Live(st.acts[i])
    {
      SpawnedIs(st.acts, st.acts[i], |st.acts|, |c.periodic|, |c.requests|);
    }
  }

  /** A whole section, whatever requests it serves, keeps the table safe. */
  lemma SectionSafe(c: Config, st: Store, es: seq<Event>)
    requires ValidConfig(c) && Sound(c, st) && ServableEvents(c, es)
    ensures TableSafe(c, AfterSection(c, st, es))
  {
    ServedSound(c, st, es);
    var st2 := Served(c, st, es, |es|);
    SpawnSafe(c, st2, AfterSection(c, st, es));
  }

  // ----- an iteration of an execution task, and the steps of a stray one

  lemma ScanSafe(c: Config, st: Store, t: nat, p: Program, k: nat, st': Store)
    requires ValidConfig(c) && TableSafe(c, st) && Covered(st.acts, t, p)
    requires st'.acts == StepUpTo(st.acts, t, p, k) && st'.lastNum == st.lastNum && st'.lastId == st.lastId
    ensures TableSafe(c, st')
  {
    ScanIsBenign(c, st, t, p, k);
    ScanKeepsSlots(c, st, t, p, k);
    MildKeeps(c, st, st');
    StillWaiting(st.acts, st'.acts);
  }

  lemma ScanKeepsSlots(c: Config, st: Store, t: nat, p: Program, k: nat)
    requires ValidConfig(c) && StoreOk(c, st) && Covered(st.acts, t, p)
    ensures TableOk(StepUpTo(st.acts, t, p, k), |c.periodic|, |c.requests|)
  {
    var acts' := StepUpTo(st.acts, t, p, k);
    forall i | 0 <= i < |st.acts| ensures SlotOk(acts'[i], |st.acts|, |c.periodic|, |c.requests|) {
      assert SlotOk(st.acts[i], |st.acts|, |c.periodic|, |c.requests|);
    }
  }

  lemma IterationScans(st: Store, periodic: seq<bool>, t: nat, p: Program, o: Outcome, flags: seq<bool>)
    requires t < |periodic| && Covered(st.acts, t, p)
    ensures var st' := AfterIteration(st, periodic, flags, t, p, o).0;
            st' == st.(acts := StepUpTo(st.acts, t, p, if o.main1Ok then ScanEnd(st.acts, t, p) else 0),
                       pending := st'.pending, failed := st'.failed)
  {
    assert StepUpTo(st.acts, t, p, 0) == st.acts;
  }

  lemma IterationSafe(c: Config, st: Store, t: nat, p: Program, o: Outcome, flags: seq<bool>)
    requires ValidConfig(c) && TableSafe(c, st) && t < |c.periodic| && Covered(st.acts, t, p)
    ensures TableSafe(c, AfterIteration(st, c.periodic, flags, t, p, o).0)
  {
    var k := if o.main1Ok then ScanEnd(st.acts, t, p) else 0;
    var st' := AfterIteration(st, c.periodic, flags, t, p, o).0;
    IterationScans(st, c.periodic, t, p, o, flags);
    ScanSafe(c, st, t, p, k, st');
  }

  /** The dispatch of a single slot. */
  lemma SteppedSafe(c: Config, st: Store, i: nat, p: Program)
    requires ValidConfig(c) && TableSafe(c, st) && i < |st.acts| && Fits(st.acts[i], p)
    ensures TableSafe(c, st.(acts := st.acts[i := Stepped(st.acts[i], i, p)]))
  {
    var st' := st.(acts := st.acts[i := Stepped(st.acts[i], i, p)]);
    assert SlotOk(st.acts[i], |st.acts|, |c.periodic|, |c.requests|);
    MildKeeps(c, st, st');
    StillWaiting(st.acts, st'.acts);
  }

  lemma StraySafe(c: Config, s: Sys, t: nat, prog: Program, s': Sys)
    requires ValidConfig(c) && TableSafe(c, s.store) && StrayVisits(c, s, t, prog, s')
    ensures TableSafe(c, s'.store)
  {
    var i := s.pcs[t].place.next;
    if s.store.acts[i].task == t {
      GeneratedCovers(c, s.store, t, prog);
      SteppedSafe(c, s.store, i, prog);
    }
  }

  /** A table in which nobody is live is a safe one. */
  lemma NobodyWaits(acts: seq<Activity>)
    requires NobodyLive(acts)
    ensures WaitsForSomeone(acts)
  {
  }

  lemma IterationStepSafe(c: Config, s: Sys, l: Step, s': Sys)
    requires ValidConfig(c) && TableSafe(c, s.store) && Next(c, s, l, s') && l.Iteration?
    ensures TableSafe(c, s'.store)
  {
    GeneratedCovers(c, s.store, l.t, l.prog);
    IterationSafe(c, s.store, l.t, l.prog, l.outcome, l.flags);
  }

  lemma EndSafe(c: Config, s: Sys, es: seq<Event>, s': Sys)
    requires ValidConfig(c) && TableSafe(c, s.store) && Next(c, s, EndModule(es), s')
    ensures TableSafe(c, s'.store)
  {
    ServedSound(c, s.store, es);
    NobodyWaits(s'.store.acts);
  }

  /** The steps that leave the table alone. */
  predicate LeavesTable(l: Step) {
    !l.Iteration? && !l.ControlTurn? && !l.EndModule? && !l.StrayVisit?
  }

  lemma TableLeft(c: Config, s: Sys, l: Step, s': Sys)
    requires ValidConfig(c) && StoreOk(c, s.store) && Next(c, s, l, s') && LeavesTable(l)
    ensures s'.store == s.store.(pending := s'.store.pending, failed := s'.store.failed)
  {
  }

  lemma TableSafeKept(c: Config, s: Sys, l: Step, s': Sys)
    requires ValidConfig(c) && TableSafe(c, s.store) && Next(c, s, l, s')
    ensures TableSafe(c, s'.store)
  {
    if l.Iteration? {
      IterationStepSafe(c, s, l, s');
    } else if l.ControlTurn? {
      SectionSafe(c, s.store, l.events);
    } else if l.EndModule? {
      EndSafe(c, s, l.events, s');
    } else if l.StrayVisit? {
      StraySafe(c, s, l.t, l.prog, s');
    } else {
      TableLeft(c, s, l, s');
    }
  }

  // ----- the table stays well-formed in every run, clean or not

  lemma SpawnKeepsSlots(c: Config, st: Store)
    requires ValidConfig(c) && StoreOk(c, st)
    ensures TableOk(SpawnAll(st.acts), |c.periodic|, |c.requests|)
  {
    forall i | 0 <= i < |st.acts| ensures SlotOk(SpawnAll(st.acts)[i], |st.acts|, |c.periodic|, |c.requests|) {
      SpawnedIs(st.acts, st.acts[i], |st.acts|, |c.periodic|, |c.requests|);
    }
  }

  lemma StoreKept(c: Config, s: Sys, l: Step, s': Sys)
    requires ValidConfig(c) && StoreOk(c, s.store) && Next(c, s, l, s')
    ensures StoreOk(c, s'.store)
  {
    if l.Iteration? {
      GeneratedCovers(c, s.store, l.t, l.prog);
      ScanKeepsSlots(c, s.store, l.t, l.prog, ScanEnd(s.store.acts, l.t, l.prog));
    } else if l.ControlTurn? {
      SpawnKeepsSlots(c, Served(c, s.store, l.events, |l.events|));
    } else if l.StrayVisit? {
      StrayKeepsSlots(c, s, l.t, l.prog, s');
    }
  }

  lemma StrayKeepsSlots(c: Config, s: Sys, t: nat, prog: Program, s': Sys)
    requires ValidConfig(c) && StoreOk(c, s.store) && StrayVisits(c, s, t, prog, s')
    ensures StoreOk(c, s'.store)
  {
    var i := s.pcs[t].place.next;
    assert SlotOk(s.store.acts[i], |s.store.acts|, |c.periodic|, |c.requests|);
  }

  // ----- the locks

  predicate HoldsControl(pc: Pc) {
    pc == WantsFunctional || pc == InSection || pc.GivesFunctional? || pc.GivesControl?
  }

  predicate HoldsFunctional(pc: Pc) {
    pc == InSection || pc.GivesFunctional?
  }

  /** Whoever is recorded as the holder of a lock is still to give it, and only execution tasks go astray. */
  ghost predicate OwnersOk(c: Config, s: Sys) {
    && |c.periodic| < |s.pcs|
    && (s.ctl.Some? ==> s.ctl.value < |s.pcs| && HoldsControl(s.pcs[s.ctl.value]))
    && (s.fun.Some? ==> s.fun.value < |s.pcs| && HoldsFunctional(s.pcs[s.fun.value]))
    && forall p :: 0 <= p < |s.pcs| && s.pcs[p].Stray? ==> p < |c.periodic| && !s.pcs[p].place.Outside?
  }

  /** The steps of the control task that may resume others. */
  predicate IsTurn(l: Step) {
    l.ControlTurn? || l.EndModule? || l.SignalEnd?
  }

  predicate IsStray(l: Step) {
    l.StrayScan? || l.StrayVisit? || l.StrayMain? || l.StrayEnd?
  }

  /** taskResume leaves the holder of a lock alone, and leads astray inside a section only. */
  lemma TurnKeepsOwners(c: Config, s: Sys, l: Step, s': Sys)
    requires ValidConfig(c) && StoreOk(c, s.store) && OwnersOk(c, s) && Next(c, s, l, s') && IsTurn(l)
    ensures OwnersOk(c, s')
  {
    forall p | 0 <= p < |s'.pcs|
      ensures HoldsControl(s.pcs[p]) ==> HoldsControl(s'.pcs[p]) || s'.pcs[p] == Stopped
      ensures s'.pcs[p].Stray? ==> p < |c.periodic| && !s'.pcs[p].place.Outside?
    {
      assert Resumed(c, s.pcs)[p] == if p < |c.periodic| then ResumedPc(s.pcs[p]) else s.pcs[p];
    }
  }

  /** A step of process p that records at most p as a holder, and leads astray inside a section only. */
  lemma MoveKeepsOwners(c: Config, s: Sys, p: nat, s': Sys)
    requires OwnersOk(c, s) && p < |s.pcs| == |s'.pcs| && s'.pcs == s.pcs[p := s'.pcs[p]]
    requires s'.pcs[p].Stray? ==> p < |c.periodic| && !s'.pcs[p].place.Outside?
    requires s'.ctl == s.ctl || s'.ctl == None || s'.ctl == Some(p)
    requires s'.fun == s.fun || s'.fun == None || s'.fun == Some(p)
    requires s'.ctl == Some(p) ==> HoldsControl(s'.pcs[p])
    requires s'.fun == Some(p) ==> HoldsFunctional(s'.pcs[p])
    ensures OwnersOk(c, s')
  {
  }

  lemma StrayKeepsOwners(c: Config, s: Sys, l: Step, s': Sys)
    requires ValidConfig(c) && StoreOk(c, s.store) && OwnersOk(c, s) && Next(c, s, l, s') && IsStray(l)
    ensures OwnersOk(c, s')
  {
    MoveKeepsOwners(c, s, Mover(c, l).value, s');
  }

  lemma OwnersKept(c: Config, s: Sys, l: Step, s': Sys)
    requires ValidConfig(c) && StoreOk(c, s.store) && OwnersOk(c, s) && Next(c, s, l, s')
    ensures OwnersOk(c, s')
  {
    if IsTurn(l) {
      TurnKeepsOwners(c, s, l, s');
    } else if IsStray(l) {
      StrayKeepsOwners(c, s, l, s');
    } else if !l.Signal? {
      MoveKeepsOwners(c, s, Mover(c, l).value, s');
    }
  }

  /** In every run, a lock goes to a process only when nobody is recorded as its holder, and to one that was
      waiting for it. */
  lemma TakenWhenFree(c: Config, s: Sys, l: Step, s': Sys, p: nat)
    requires ValidConfig(c) && StoreOk(c, s.store) && Next(c, s, l, s')
    ensures s'.ctl == Some(p) && s.ctl != Some(p) ==> s.ctl == None && At(s, p, WantsControl)
    ensures s'.fun == Some(p) && s.fun != Some(p) ==> s.fun == None && At(s, p, WantsFunctional)
  {
  }

  // ----- the signals

  /** In every run, a pending signal is taken only by the process it is for, waking up. */
  lemma SignalTaken(c: Config, s: Sys, l: Step, s': Sys, u: nat)
    requires ValidConfig(c) && StoreOk(c, s.store) && Next(c, s, l, s')
    requires u in s.store.pending && u !in s'.store.pending
    ensures l == Wake(u) && At(s, u, Idle) && At(s', u, WantsControl)
  {
    if IsTurn(l) {
      TurnTakesNone(c, s, l, s', u);
      assert false;
    } else if IsStray(l) {
      StrayTakesNone(c, s, l, s', u);
      assert false;
    }
  }

  lemma TurnTakesNone(c: Config, s: Sys, l: Step, s': Sys, u: nat)
    requires ValidConfig(c) && StoreOk(c, s.store) && Next(c, s, l, s') && IsTurn(l)
    ensures u in s.store.pending ==> u in s'.store.pending
  {
    if l.ControlTurn? {
      TurnSignals(c, s.store, l.events, u);
    } else if l.EndModule? {
      SignalsStay(c, s.store.(acts := AcknowledgeAll(s.store.acts)), l.events, |l.events|, u);
    }
  }

  lemma StrayTakesNone(c: Config, s: Sys, l: Step, s': Sys, u: nat)
    requires ValidConfig(c) && StoreOk(c, s.store) && Next(c, s, l, s') && IsStray(l)
    ensures u in s.store.pending ==> u in s'.store.pending
  {
  }

  /** Ending the module, in either way, signals every aperiodic task. */
  lemma EndSignals(c: Config, s: Sys, l: Step, s': Sys, t: nat)
    requires ValidConfig(c) && StoreOk(c, s.store) && Next(c, s, l, s') && (l.EndModule? || l.SignalEnd?)
    requires t < |c.periodic| && !c.periodic[t]
    ensures t in s'.store.pending
  {
  }

  // ----- the error status

  /** Suspended, or about to be, by Suspend or by the failure of a wait. */
  predicate InTrouble(pc: Pc) {
    pc.AboutToSuspend? || pc.Suspended? || ((pc.GivesFunctional? || pc.GivesControl?) && pc.goal.Some?)
  }

  /** As long as the module has not been ended, only a task in trouble has the status ERROR. */
  ghost predicate StatusOk(c: Config, s: Sys)
    requires |c.periodic| < |s.pcs|
  {
    s.pcs[|c.periodic|] == Stopped ||
    forall t :: t in s.store.failed ==> 0 <= t < |c.periodic| && InTrouble(s.pcs[t])
  }

  lemma TurnKeepsStatus(c: Config, s: Sys, es: seq<Event>, s': Sys)
    requires ValidConfig(c) && StoreOk(c, s.store) && OwnersOk(c, s) && StatusOk(c, s)
    requires Next(c, s, ControlTurn(es), s')
    ensures |c.periodic| < |s'.pcs| && StatusOk(c, s')
  {
    FailedAfter(c, s.store.(acts := AcknowledgeAll(s.store.acts)), es, |es|);
    assert es[..|es|] == es;
  }

  lemma IterationKeepsStatus(c: Config, s: Sys, l: Step, s': Sys)
    requires ValidConfig(c) && StoreOk(c, s.store) && OwnersOk(c, s) && StatusOk(c, s)
    requires Next(c, s, l, s') && l.Iteration?
    ensures |c.periodic| < |s'.pcs| && StatusOk(c, s')
  {
    GeneratedCovers(c, s.store, l.t, l.prog);
    var (st', suspended) := AfterIteration(s.store, c.periodic, l.flags, l.t, l.prog, l.outcome);
    assert st'.failed == if suspended then s.store.failed + {l.t} else s.store.failed;
  }

  /** A step of task t after which t is in trouble if it is in error. */
  lemma AloneKeepsStatus(c: Config, s: Sys, t: nat, s': Sys)
    requires |c.periodic| < |s.pcs| == |s'.pcs| && t < |c.periodic| && StatusOk(c, s)
    requires s'.pcs == s.pcs[t := s'.pcs[t]] && s'.store.failed <= s.store.failed + {t}
    requires t in s'.store.failed ==> InTrouble(s'.pcs[t]) || (t in s.store.failed && !InTrouble(s.pcs[t]))
    ensures StatusOk(c, s')
  {
  }

  lemma StrayKeepsStatus(c: Config, s: Sys, l: Step, s': Sys)
    requires ValidConfig(c) && StoreOk(c, s.store) && OwnersOk(c, s) && StatusOk(c, s)
    requires Next(c, s, l, s') && IsStray(l)
    ensures |c.periodic| < |s'.pcs| && StatusOk(c, s')
  {
    AloneKeepsStatus(c, s, Mover(c, l).value, s');
  }

  lemma StatusKept(c: Config, s: Sys, l: Step, s': Sys)
    requires ValidConfig(c) && StoreOk(c, s.store) && OwnersOk(c, s) && StatusOk(c, s) && Next(c, s, l, s')
    ensures |c.periodic| < |s'.pcs| && StatusOk(c, s')
  {
    if l.ControlTurn? {
      TurnKeepsStatus(c, s, l.events, s');
    } else if l.Iteration? {
      IterationKeepsStatus(c, s, l, s');
    } else if IsStray(l) {
      StrayKeepsStatus(c, s, l, s');
    }
  }

  /** Whatever step brings an execution task into trouble gives it the status ERROR and signals the control
      task. */
  lemma TroubleSetsError(c: Config, s: Sys, l: Step, s': Sys, t: nat)
    requires ValidConfig(c) && StoreOk(c, s.store) && Next(c, s, l, s') && t < |c.periodic|
    requires t < |s.pcs| && t < |s'.pcs| && !InTrouble(s.pcs[t]) && InTrouble(s'.pcs[t])
    ensures t in s'.store.failed && |c.periodic| in s'.store.pending
  {
    if l.Iteration? {
      GeneratedCovers(c, s.store, l.t, l.prog);
    }
  }

  /** Only a turn that serves a resume request takes the status ERROR back. */
  lemma ErrorStays(c: Config, s: Sys, l: Step, s': Sys, t: int)
    requires ValidConfig(c) && StoreOk(c, s.store) && Next(c, s, l, s')
    requires t in s.store.failed
    requires l.ControlTurn? || l.EndModule? ==> Abort(-88) !in l.events
    ensures t in s'.store.failed
  {
    if l.ControlTurn? || l.EndModule? {
      FailedAfter(c, s.store.(acts := AcknowledgeAll(s.store.acts)), l.events, |l.events|);
      assert l.events[..|l.events|] == l.events;
    } else if l.Iteration? {
      GeneratedCovers(c, s.store, l.t, l.prog);
    }
  }

  // ----- all of it, in every run

  ghost predicate Safe(c: Config, s: Sys)
    requires ValidConfig(c)
  {
    TableSafe(c, s.store) && OwnersOk(c, s) && StatusOk(c, s)
  }

  lemma InitialSafe(c: Config, s: Sys)
    requires ValidConfig(c) && Initial(c, s)
    ensures Safe(c, s)
  {
  }

  /** Every step of every process keeps it, clean or not. */
  lemma SafeKept(c: Config, s: Sys, l: Step, s': Sys)
    requires ValidConfig(c) && Safe(c, s) && Next(c, s, l, s')
    ensures Safe(c, s')
  {
    TableSafeKept(c, s, l, s');
    OwnersKept(c, s, l, s');
    StatusKept(c, s, l, s');
  }

  lemma {:induction false} RunSafe(c: Config, states: seq<Sys>, steps: seq<Step>, k: nat)
    requires ValidConfig(c) && IsRun(c, states, steps) && k < |states|
    ensures Safe(c, states[k])
  {
    if k == 0 {
      InitialSafe(c, states[0]);
    } else {
      RunSafe(c, states, steps, k - 1);
      SafeKept(c, states[k-1], steps[k-1], states[k]);
    }
  }

  lemma ReachableSafe(c: Config, s: Sys)
    requires ValidConfig(c) && Reachable(c, s)
    ensures Safe(c, s)
  {
    var states, steps :| IsRun(c, states, steps) && states[|states|-1] == s;
    RunSafe(c, states, steps, |states| - 1);
  }
}

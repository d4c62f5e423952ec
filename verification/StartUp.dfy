/** The start-up handshake (TaskInit in canvas/server/moduleInit.c): tasks are spawned one by one,
    each releasing an initialization semaphore. Task 0 is the control task, task k the execution
    task k - 1; any system call may fail, and the tasks run concurrently. */
module StartUp {

  /** What TaskInit is about to do for task k. */
  datatype Phase = CreateSem | SpawnTask | TakeSem | DeleteSem | CheckStatus

  /** Clean(j): the error path, about to look at the semaphore of task j (task 0 comes last). */
  datatype Pc = Prepare | At(k: nat, phase: Phase) | Clean(j: nat) | Returned(ok: bool)

  /** A global semaphore variable and how often it was created and deleted. */
  datatype Sem = Sem(alive: bool, token: bool, created: nat, deleted: nat)

  datatype Life = NotSpawned | Initializing | Initialized | Released

  /** A task: its progress, the result of its init function, and its status variable. */
  datatype Task = Task(life: Life, initOk: bool, status: bool)

  datatype Sys = Sys(pc: Pc, sems: seq<Sem>, tasks: seq<Task>)

  datatype Step =
    | Init(works: bool)      // the next action of TaskInit succeeds or fails
    | Initialize(k: nat, ok: bool)
    | Release(k: nat)
    | Break(k: nat)          // a started task suspends itself later on

  ghost predicate Initial(s: Sys) {
    && s.pc == Prepare && |s.sems| == |s.tasks| > 0
    && (forall k :: 0 <= k < |s.sems| ==> s.sems[k] == Sem(false, false, 0, 0))
    && (forall k :: 0 <= k < |s.tasks| ==> s.tasks[k].life == NotSpawned)
  }

  function Created(m: Sem): Sem { Sem(true, false, m.created + 1, m.deleted) }

  function Deleted(m: Sem): Sem { Sem(false, false, m.created, m.deleted + 1) }

  /** goto error: the clean-up begins with the first execution task. */
  function Fail(s: Sys): Sys { s.(pc := Clean(1)) }

  /** One action of TaskInit. It blocks in TakeSem until the semaphore is given or the call fails. */
  ghost predicate InitStep(s: Sys, works: bool, s': Sys) {
    match s.pc
    case Prepare =>
      s' == if works then s.(pc := At(0, CreateSem)) else Fail(s)
    case At(k, phase) =>
      k < |s.sems| && k < |s.tasks| &&
      (match phase
       case CreateSem =>
         s' == if works then s.(pc := At(k, SpawnTask), sems := s.sems[k := Created(s.sems[k])]) else Fail(s)
       case SpawnTask =>
         s' == if works then s.(pc := At(k, TakeSem), tasks := s.tasks[k := s.tasks[k].(life := Initializing)])
               else Fail(s)
       case TakeSem =>
         if works then
           s.sems[k].token && s' == s.(pc := At(k, DeleteSem), sems := s.sems[k := s.sems[k].(token := false)])
         else s' == Fail(s)
       case DeleteSem =>
         s' == s.(pc := At(k, CheckStatus), sems := s.sems[k := Deleted(s.sems[k])])
       case CheckStatus =>
         s' == if !s.tasks[k].status then Fail(s)
               else if k + 1 < |s.tasks| then s.(pc := At(k + 1, CreateSem))
               else s.(pc := Returned(true)))
    case Clean(j) =>
      var k := if j < |s.sems| then j else 0;
      |s.sems| > 0 &&
      s' == s.(sems := if s.sems[k].alive then s.sems[k := Deleted(s.sems[k])] else s.sems,
               pc := if j < |s.sems| then Clean(j + 1) else Returned(false))
    case Returned(_) => false
  }

  ghost predicate Next(s: Sys, l: Step, s': Sys) {
    match l
    case Init(works) => InitStep(s, works, s')
    case Initialize(k, ok) =>
      && k < |s.tasks| && s.tasks[k].life == Initializing
      && s' == s.(tasks := s.tasks[k := Task(Initialized, ok, ok)])
    case Release(k) =>
      && k < |s.tasks| && k < |s.sems| && s.tasks[k].life == Initialized
      && s' == s.(tasks := s.tasks[k := s.tasks[k].(life := Released)],
                  sems := if s.sems[k].alive then s.sems[k := s.sems[k].(token := true)] else s.sems)
    case Break(k) =>
      && k < |s.tasks| && s.tasks[k].life == Released
      && s' == s.(tasks := s.tasks[k := s.tasks[k].(status := false)])
  }

  // ----- the invariant

  /** Never created, created and alive, or created and deleted: each at most once. */
  predicate SemOk(m: Sem) {
    if m.alive then m.created == 1 && m.deleted == 0 else m.created == m.deleted <= 1
  }

  predicate Untouched(m: Sem, t: Task) {
    !m.alive && m.created == 0 && t.life == NotSpawned
  }

  predicate Finished(m: Sem, t: Task) {
    !m.alive && m.created == 1 && t.life == Released
  }

  predicate InPhase(phase: Phase, m: Sem, t: Task) {
    match phase
    case CreateSem => Untouched(m, t)
    case SpawnTask => m.alive && !m.token && t.life == NotSpawned
    case TakeSem => m.alive && t.life != NotSpawned && (m.token <==> t.life == Released)
    case DeleteSem => m.alive && t.life == Released
    case CheckStatus => Finished(m, t)
  }

  ghost predicate Inv(s: Sys) {
    |s.sems| == |s.tasks| > 0 && Histories(s) && Progress(s)
  }

  ghost predicate Histories(s: Sys) {
    && (forall k :: 0 <= k < |s.sems| ==> SemOk(s.sems[k]))
    && (forall k :: 0 <= k < |s.tasks| && s.tasks[k].life in {Initialized, Released} && s.tasks[k].status ==>
          s.tasks[k].initOk)
    && (forall i, j :: 0 <= j < i < |s.tasks| && s.tasks[i].life != NotSpawned ==>
          s.tasks[j].life == Released && s.tasks[j].initOk)
  }

  ghost predicate Progress(s: Sys)
    requires |s.sems| == |s.tasks|
  {
    match s.pc
    case Prepare => forall k :: 0 <= k < |s.sems| ==> Untouched(s.sems[k], s.tasks[k])
    case At(i, phase) =>
      && i < |s.sems| && InPhase(phase, s.sems[i], s.tasks[i])
      && (forall k :: 0 <= k < i ==> Finished(s.sems[k], s.tasks[k]) && s.tasks[k].initOk)
      && (forall k :: i < k < |s.sems| ==> Untouched(s.sems[k], s.tasks[k]))
    case Clean(j) => 1 <= j <= |s.sems| && forall k :: 1 <= k < j ==> !s.sems[k].alive
    case Returned(ok) =>
      && (forall k :: 0 <= k < |s.sems| ==> !s.sems[k].alive)
      && (ok ==> forall k :: 0 <= k < |s.tasks| ==> Finished(s.sems[k], s.tasks[k]) && s.tasks[k].initOk)
  }

  lemma InitKeeps(s: Sys, works: bool, s': Sys)
    requires Inv(s) && InitStep(s, works, s') && !s.pc.At?
    ensures Inv(s')
  {
  }

  lemma HandshakeKeepsHistories(s: Sys, works: bool, s': Sys)
    requires Inv(s) && InitStep(s, works, s') && s.pc.At?
    ensures Histories(s')
  {
  }

  lemma HandshakeProgresses(s: Sys, works: bool, s': Sys)
    requires Inv(s) && InitStep(s, works, s') && s.pc.At?
    ensures |s'.sems| == |s'.tasks| > 0 && Progress(s')
  {
  }

  lemma TaskKeepsHistories(s: Sys, l: Step, s': Sys)
    requires Inv(s) && Next(s, l, s') && !l.Init?
    ensures Histories(s')
  {
  }

  /** A task's own step moves only that task, and its semaphore only when it releases it. */
  lemma TaskKeepsProgress(s: Sys, l: Step, s': Sys)
    requires Inv(s) && Next(s, l, s') && !l.Init?
    ensures |s'.sems| == |s'.tasks| > 0 && Progress(s')
  {
  }

  lemma InvKept(s: Sys, l: Step, s': Sys)
    requires Inv(s) && Next(s, l, s')
    ensures Inv(s')
  {
    match l {
      case Init(works) =>
        if s.pc.At? {
          HandshakeKeepsHistories(s, works, s');
          HandshakeProgresses(s, works, s');
        } else {
          InitKeeps(s, works, s');
        }
      case _ =>
        TaskKeepsHistories(s, l, s');
        TaskKeepsProgress(s, l, s');
    }
  }

  ghost predicate IsRun(states: seq<Sys>, steps: seq<Step>) {
    && |states| == |steps| + 1 && Initial(states[0])
    && forall k :: 0 <= k < |steps| ==> Next(states[k], steps[k], states[k+1])
  }

  lemma {:induction false} RunInv(states: seq<Sys>, steps: seq<Step>, k: nat)
    requires IsRun(states, steps) && k < |states|
    ensures Inv(states[k])
  {
    if k > 0 {
      RunInv(states, steps, k - 1);
      InvKept(states[k-1], steps[k-1], states[k]);
    }
  }

  /** A task other than the first is only ever spawned after every earlier one has run its init
      function successfully and released its semaphore. */
  lemma OneByOne(states: seq<Sys>, steps: seq<Step>, k: nat, i: nat, j: nat)
    requires IsRun(states, steps) && k < |states| && j < i < |states[k].tasks|
    requires states[k].tasks[i].life != NotSpawned
    ensures states[k].tasks[j].life == Released && states[k].tasks[j].initOk
  {
    RunInv(states, steps, k);
  }

  /** TaskInit returns OK only if every task's init function succeeded and was waited for. On
      either return every semaphore ever created has been deleted, exactly once. */
  lemma AtReturn(states: seq<Sys>, steps: seq<Step>, k: nat)
    requires IsRun(states, steps) && k < |states| && states[k].pc.Returned?
    ensures states[k].pc.ok ==> forall i :: 0 <= i < |states[k].tasks| ==>
              states[k].tasks[i].life == Released && states[k].tasks[i].initOk
    ensures forall i :: 0 <= i < |states[k].sems| ==>
              && states[k].sems[i].deleted == states[k].sems[i].created <= 1
              && (states[k].pc.ok ==> states[k].sems[i].created == 1)
  {
    RunInv(states, steps, k);
  }

  /** TaskInit meets a failure: a call that does not work (deleting a semaphore cannot fail), or a task
      that is in error when its status is checked. */
  predicate Fails(s: Sys, l: Step) {
    l.Init? &&
    match s.pc
    case Prepare => !l.works
    case At(k, CheckStatus) => k < |s.tasks| && !s.tasks[k].status
    case At(_, phase) => phase != DeleteSem && !l.works
    case _ => false
  }

  /** The clean-up is under way, or over. */
  predicate GivesUp(s: Sys) {
    s.pc.Clean? || s.pc == Returned(false)
  }

  /** TaskInit gives up exactly if it has met a failure. */
  lemma {:induction false} GivesUpExactly(states: seq<Sys>, steps: seq<Step>, k: nat)
    requires IsRun(states, steps) && k < |states|
    ensures GivesUp(states[k]) <==> exists i :: 0 <= i < k && Fails(states[i], steps[i])
  {
    if k > 0 {
      GivesUpExactly(states, steps, k - 1);
      RunInv(states, steps, k - 1);
      assert Next(states[k-1], steps[k-1], states[k]);
      assert GivesUp(states[k]) <==> GivesUp(states[k-1]) || Fails(states[k-1], steps[k-1]);
    }
  }

  /** If TaskInit gives up, a call has failed or a task that it had spawned was in error. */
  lemma NotWithoutCause(states: seq<Sys>, steps: seq<Step>, k: nat)
    requires IsRun(states, steps) && k < |states| && GivesUp(states[k])
    ensures exists i :: 0 <= i < k && (steps[i] == Init(false) || SomeInError(states[i]))
  {
    GivesUpExactly(states, steps, k);
    var i :| 0 <= i < k && Fails(states[i], steps[i]);
    RunInv(states, steps, i);
    if steps[i] != Init(false) {
      var j := states[i].pc.k;
      assert states[i].tasks[j].life != NotSpawned && !states[i].tasks[j].status;
    }
  }

  ghost predicate SomeInError(s: Sys) {
    exists j :: 0 <= j < |s.tasks| && s.tasks[j].life != NotSpawned && !s.tasks[j].status
  }

  /** Every call works, every init function succeeds, and no task breaks later on. */
  ghost predicate AllGoesWell(steps: seq<Step>) {
    forall i :: 0 <= i < |steps| ==>
      match steps[i]
      case Init(works) => works
      case Initialize(_, ok) => ok
      case Release(_) => true
      case Break(_) => false
  }

  lemma {:induction false} NobodyInError(states: seq<Sys>, steps: seq<Step>, k: nat)
    requires IsRun(states, steps) && AllGoesWell(steps) && k < |states|
    ensures forall j :: 0 <= j < |states[k].tasks| && states[k].tasks[j].life in {Initialized, Released} ==>
              states[k].tasks[j].status
  {
    if k > 0 {
      NobodyInError(states, steps, k - 1);
      assert Next(states[k-1], steps[k-1], states[k]);
    }
  }

  /** Then TaskInit never gives up: if it returns, it returns OK. */
  lemma WellMeansOk(states: seq<Sys>, steps: seq<Step>, k: nat)
    requires IsRun(states, steps) && AllGoesWell(steps) && k < |states|
    ensures !GivesUp(states[k])
    ensures states[k].pc.Returned? ==> states[k].pc.ok
  {
    GivesUpExactly(states, steps, k);
    if GivesUp(states[k]) {
      var i :| 0 <= i < k && Fails(states[i], steps[i]);
      RunInv(states, steps, i);
      NobodyInError(states, steps, i);
      assert false;
    }
  }

  /** Start-up never hangs on its own: until TaskInit returns, it can act, or the task it waits
      for still has its initialization to do. */
  lemma NeverHangs(states: seq<Sys>, steps: seq<Step>, k: nat)
    requires IsRun(states, steps) && k < |states| && !states[k].pc.Returned?
    ensures (exists s' :: Next(states[k], Init(true), s'))
            || (&& states[k].pc.At? && states[k].pc.k < |states[k].tasks|
                && states[k].tasks[states[k].pc.k].life in {Initializing, Initialized})
  {
    RunInv(states, steps, k);
    var s := states[k];
    match s.pc {
      case Prepare => assert Next(s, Init(true), s.(pc := At(0, CreateSem)));
      case Clean(j) =>
        var i := if j < |s.sems| then j else 0;
        assert Next(s, Init(true),
          s.(sems := if s.sems[i].alive then s.sems[i := Deleted(s.sems[i])] else s.sems,
             pc := if j < |s.sems| then Clean(j + 1) else Returned(false)));
      case At(i, phase) =>
        match phase {
          case CreateSem =>
            assert Next(s, Init(true), s.(pc := At(i, SpawnTask), sems := s.sems[i := Created(s.sems[i])]));
          case SpawnTask =>
            assert Next(s, Init(true), s.(pc := At(i, TakeSem),
                                          tasks := s.tasks[i := s.tasks[i].(life := Initializing)]));
          case TakeSem =>
            if s.sems[i].token {
              assert Next(s, Init(true), s.(pc := At(i, DeleteSem),
                                            sems := s.sems[i := s.sems[i].(token := false)]));
            }
          case DeleteSem =>
            assert Next(s, Init(true), s.(pc := At(i, CheckStatus), sems := s.sems[i := Deleted(s.sems[i])]));
          case CheckStatus =>
            assert Next(s, Init(true),
              if !s.tasks[i].status then Fail(s)
              else if i + 1 < |s.tasks| then s.(pc := At(i + 1, CreateSem)) else s.(pc := Returned(true)));
        }
    }
  }
}

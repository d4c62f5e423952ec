/** What every operation on the activity table keeps: unique identities, exclusion of
    incompatible activities, the order in which activities wait, the life of each activity. */
module TableInvariants {
  import opened Wrappers
  import opened Activities
  import opened CodelTables
  import opened Compatibility
  import opened ControlTask
  import opened ExecTask
  import opened ActivityLife

  /** Live activities have distinct identities, none above lastId, and run requests of their task. */
  ghost predicate Identified(c: Config, acts: seq<Activity>, lastId: int) {
    && (forall i :: 0 <= i < |acts| && Live(acts[i]) ==>
          && acts[i].id <= lastId && 0 <= acts[i].rqst < |c.requests|
          && c.requests[acts[i].rqst].task == Some(acts[i].task))
    && forall i, j :: 0 <= i < |acts| && 0 <= j < |acts| && i != j && Live(acts[i]) && Live(acts[j]) ==>
         acts[i].id != acts[j].id
  }

  /** The activity in slot i must not run before the older one in slot j is over. */
  ghost predicate MustAwait(c: Config, acts: seq<Activity>, i: nat, j: nat)
    requires i < |acts| && j < |acts|
  {
    && i != j && Live(acts[i]) && Live(acts[j])
    && 0 <= acts[i].rqst < |c.requests| && 0 <= acts[j].rqst < |c.requests|
    && acts[j].id < acts[i].id
    && Interrupting(c.requests, acts[i].rqst, acts[j].rqst)
    && acts[j].status != Zombie
  }

  /** Every older incompatible activity that is not over is on the list; only waiting
      activities have a list; nobody waits for itself; an activity that is itself yet to
      start is only waited for by older ones. */
  ghost predicate Excluding(c: Config, acts: seq<Activity>) {
    && (forall i, j :: 0 <= i < |acts| && 0 <= j < |acts| && MustAwait(c, acts, i, j) ==> j in acts[i].incomp)
    && (forall i :: 0 <= i < |acts| && Live(acts[i]) && !Waiting(acts[i]) ==> acts[i].incomp == [])
    && (forall i, j :: 0 <= i < |acts| && Waiting(acts[i]) && j in acts[i].incomp && 0 <= j < |acts| ==>
          j != i && (acts[j].status == Init ==> acts[i].id < acts[j].id))
  }

  /** The activity stays the same one, or its slot is freed; nothing about its list or its
      being a zombie or yet to start is undone. */
  ghost predicate Benign(a: Activity, b: Activity) {
    Live(b) ==>
      && Live(a) && b.id == a.id && b.rqst == a.rqst && b.task == a.task && b.incomp == a.incomp
      && (Waiting(b) <==> Waiting(a))
      && (a.status == Zombie ==> b.status == Zombie)
      && (b.status == Init ==> a.status == Init)
  }

  ghost predicate AllBenign(acts: seq<Activity>, acts': seq<Activity>) {
    |acts| == |acts'| && forall i :: 0 <= i < |acts| ==> Benign(acts[i], acts'[i])
  }

  lemma BenignKeeps(c: Config, acts: seq<Activity>, acts': seq<Activity>, lastId: int)
    requires AllBenign(acts, acts') && Identified(c, acts, lastId) && Excluding(c, acts)
    ensures Identified(c, acts', lastId) && Excluding(c, acts')
  {
    forall i, j | 0 <= i < |acts| && 0 <= j < |acts| && MustAwait(c, acts', i, j)
      ensures j in acts'[i].incomp
    {
      assert Benign(acts[i], acts'[i]) && Benign(acts[j], acts'[j]);
      assert MustAwait(c, acts, i, j);
    }
    forall i, j | 0 <= i < |acts| && Waiting(acts'[i]) && j in acts'[i].incomp && 0 <= j < |acts|
      ensures j != i && (acts'[j].status == Init ==> acts'[i].id < acts'[j].id)
    {
      assert Benign(acts[i], acts'[i]) && Benign(acts[j], acts'[j]);
    }
  }

  // ----- each operation

  lemma AcknowledgeIsBenign(c: Config, st: Store)
    requires ValidConfig(c) && StoreOk(c, st)
    ensures AllBenign(st.acts, AcknowledgeAll(st.acts))
  {
  }

  lemma AbortedIsBenign(a: Activity, max: nat, nbTask: nat, nbRqst: nat)
    requires SlotOk(a, max, nbTask, nbRqst)
    ensures Benign(a, Aborted(a))
  {
  }

  lemma ScanIsBenign(c: Config, st: Store, t: nat, p: Program, k: nat)
    requires ValidConfig(c) && StoreOk(c, st) && Covered(st.acts, t, p)
    ensures AllBenign(st.acts, StepUpTo(st.acts, t, p, k))
  {
  }

  lemma AbortHitsIsBenign(c: Config, st: Store, who: int, compat: seq<int>)
    requires ValidConfig(c) && StoreOk(c, st) && |compat| == |c.requests|
    ensures AllBenign(st.acts, AbortHits(st.acts, who, compat))
  {
    forall i | 0 <= i < |st.acts| ensures Benign(st.acts[i], AbortHits(st.acts, who, compat)[i]) {
      AbortedIsBenign(st.acts[i], |st.acts|, |c.periodic|, |c.requests|);
    }
  }

  /** A new activity in a free slot, before the interruption loop: nothing older is listed yet. */
  lemma AllocationKeeps(c: Config, acts: seq<Activity>, lastId: int, k: nat, a: Activity, rec: seq<int>)
    requires Identified(c, acts, lastId) && Excluding(c, acts)
    requires k < |acts| && a.id == lastId + 1 && Waiting(a)
    requires 0 <= a.rqst < |c.requests| && c.requests[a.rqst].task == Some(a.task)
    requires a.incomp == rec
    requires !Live(acts[k])
    requires forall j :: j in rec && 0 <= j < |acts| ==> j != k && acts[j].status != Init
    requires forall j :: (&& 0 <= j < |acts| && Live(acts[j]) && acts[j].status != Zombie && j != k
                          && 0 <= acts[j].rqst < |c.requests| && Interrupting(c.requests, a.rqst, acts[j].rqst))
                         ==> j in rec
    ensures Identified(c, acts[k := a], lastId + 1) && Excluding(c, acts[k := a])
  {
    var acts' := acts[k := a];
    forall i, j | 0 <= i < |acts| && 0 <= j < |acts| && MustAwait(c, acts', i, j)
      ensures j in acts'[i].incomp
    {
      if i != k && j != k {
        assert MustAwait(c, acts, i, j);
      }
    }
  }

  /** The other slots after the interruption loop of a new activity in slot k: benign changes only. */
  lemma OthersBenign(c: Config, st: Store, r: nat, k: nat, a: Activity)
    requires ValidConfig(c) && StoreOk(c, st) && r < |c.requests| && k < |st.acts|
    requires a.rqst == r && SlotOk(a, |st.acts|, |c.periodic|, |c.requests|)
    ensures TableOk(st.acts[k := a], |c.periodic|, |c.requests|)
    ensures AllBenign(st.acts, AbortHits(st.acts[k := a], k, c.compat[r])[k := st.acts[k]])
  {
    forall i | 0 <= i < |st.acts| ensures Benign(st.acts[i], Aborted(st.acts[i])) {
      AbortedIsBenign(st.acts[i], |st.acts|, |c.periodic|, |c.requests|);
    }
  }

  /** The interruption loop of a new activity a in slot k: on the other slots it is benign, and
      its list holds every live incompatible activity that is not over. */
  lemma InterruptionRecords(c: Config, st: Store, r: nat, k: nat, a: Activity)
    requires ValidConfig(c) && StoreOk(c, st) && r < |c.requests| && k < |st.acts|
    requires Waiting(a) && a.rqst == r && 0 <= a.task < |c.periodic| && a.incomp == []
    ensures TableOk(st.acts[k := a], |c.periodic|, |c.requests|)
    ensures var acts := st.acts[k := a];
            var others := AbortHits(acts, k, c.compat[r])[k := st.acts[k]];
            var rec := Recorded(acts, k, c.compat[r], |acts|);
            && AllBenign(st.acts, others)
            && (forall j :: j in rec && 0 <= j < |acts| ==> j != k && others[j].status != Init)
            && (forall j :: (&& 0 <= j < |acts| && Live(others[j]) && others[j].status != Zombie && j != k
                             && 0 <= others[j].rqst < |c.requests| && Interrupting(c.requests, r, others[j].rqst))
                            ==> j in rec)
  {
    OthersBenign(c, st, r, k, a);
    RecordedIs(st.acts[k := a], k, c.compat[r], |st.acts|);
  }

  lemma ExecutionKeeps(c: Config, st: Store, r: nat, accepted: bool, codelOk: bool)
    requires ValidConfig(c) && StoreOk(c, st)
    requires r < |c.requests| && c.requests[r].kind != ControlRqst
    requires Identified(c, st.acts, st.lastId) && Excluding(c, st.acts)
    ensures Identified(c, AfterExecution(c, st, r, accepted, codelOk).acts,
                       AfterExecution(c, st, r, accepted, codelOk).lastId)
    ensures Excluding(c, AfterExecution(c, st, r, accepted, codelOk).acts)
  {
    var st' := AfterExecution(c, st, r, accepted, codelOk);
    var k := AllocResult(st.acts, st.lastNum);
    if Accepts(c, st, r, accepted) && k != -1 {
      var a := NewActivity(r, st.lastId + 1, c.requests[r].task.value);
      if codelOk {
        assert st'.acts == Interrupted(st.acts[k := a], k, c.compat[r]) && st'.lastId == st.lastId + 1;
        AdmissionKeeps(c, st, r, k, a);
      } else {
        assert st'.acts == st.acts[k := a][k := Freed(a)] && st'.lastId == st.lastId + 1;
        RefusalKeeps(c, st, k, a);
      }
    } else {
      assert st' == st;
    }
  }

  lemma RefusalKeeps(c: Config, st: Store, k: nat, a: Activity)
    requires k < |st.acts| && !Live(st.acts[k])
    requires Identified(c, st.acts, st.lastId) && Excluding(c, st.acts)
    ensures Identified(c, st.acts[k := a][k := Freed(a)], st.lastId + 1)
    ensures Excluding(c, st.acts[k := a][k := Freed(a)])
  {
    var freed := st.acts[k := a][k := Freed(a)];
    assert AllBenign(st.acts, freed);
    BenignKeeps(c, st.acts, freed, st.lastId);
  }

  lemma AdmissionKeeps(c: Config, st: Store, r: nat, k: nat, a: Activity)
    requires ValidConfig(c) && StoreOk(c, st) && r < |c.requests| && k < |st.acts| && !Live(st.acts[k])
    requires Identified(c, st.acts, st.lastId) && Excluding(c, st.acts)
    requires Waiting(a) && a.incomp == [] && a.id == st.lastId + 1 && a.rqst == r
    requires 0 <= a.task < |c.periodic| && c.requests[r].task == Some(a.task)
    ensures TableOk(st.acts[k := a], |c.periodic|, |c.requests|)
    ensures Identified(c, Interrupted(st.acts[k := a], k, c.compat[r]), st.lastId + 1)
    ensures Excluding(c, Interrupted(st.acts[k := a], k, c.compat[r]))
  {
    InterruptionRecords(c, st, r, k, a);
    var acts := st.acts[k := a];
    var rec := Recorded(acts, k, c.compat[r], |acts|);
    var others := AbortHits(acts, k, c.compat[r])[k := st.acts[k]];
    BenignKeeps(c, st.acts, others, st.lastId);
    AllocationKeeps(c, others, st.lastId, k, a.(incomp := rec), rec);
    assert others[k := a.(incomp := rec)] == Interrupted(acts, k, c.compat[r]);
  }

  lemma ControlKeeps(c: Config, st: Store, r: nat)
    requires ValidConfig(c) && StoreOk(c, st) && r < |c.requests|
    requires Identified(c, st.acts, st.lastId) && Excluding(c, st.acts)
    ensures var st' := AfterControl(c, st, r);
            Identified(c, st'.acts, st'.lastId) && Excluding(c, st'.acts)
  {
    if st.failed == {} {
      AbortHitsIsBenign(c, st, -1, c.compat[r]);
      BenignKeeps(c, st.acts, AbortHits(st.acts, -1, c.compat[r]), st.lastId);
    }
  }

  lemma AbortKeeps(c: Config, st: Store, number: int)
    requires ValidConfig(c) && StoreOk(c, st)
    requires Identified(c, st.acts, st.lastId) && Excluding(c, st.acts)
    ensures var st' := AfterAbort(c, st, number);
            Identified(c, st'.acts, st'.lastId) && Excluding(c, st'.acts)
  {
    var k := AbortTarget(st, number);
    if k.Some? {
      AbortedIsBenign(st.acts[k.value], |st.acts|, |c.periodic|, |c.requests|);
      BenignKeeps(c, st.acts, st.acts[k.value := Aborted(st.acts[k.value])], st.lastId);
    }
  }

  /** After SpawnActivities, whoever still waits has someone to wait for. */
  ghost predicate WaitsForSomeone(acts: seq<Activity>) {
    forall i :: 0 <= i < |acts| && Waiting(acts[i]) ==>
      acts[i].incomp != [] && forall x :: x in acts[i].incomp ==> 0 <= x < |acts| && !Over(acts, x)
  }

  lemma SpawnedIs(acts: seq<Activity>, a: Activity, max: nat, nbTask: nat, nbRqst: nat)
    requires SlotOk(a, max, nbTask, nbRqst) && max == |acts|
    ensures var b := Spawned(acts, a);
            && SlotOk(b, max, nbTask, nbRqst)
            && b == a.(evn := b.evn, incomp := b.incomp) && (!Waiting(a) ==> b == a)
            && (forall x :: x in b.incomp ==> x in a.incomp)
            && (forall x :: x in a.incomp && 0 <= x < |acts| && !Over(acts, x) ==> x in b.incomp)
            && (Waiting(a) && !Waiting(b) ==> b.incomp == [] && b.evn == Start)
            && (Waiting(b) ==> Waiting(a) && b.incomp != [])
            && (Waiting(b) ==> forall x :: x in b.incomp ==> 0 <= x < |acts| && !Over(acts, x))
  {
    StillThereIs(acts, a.incomp, |a.incomp|);
    assert a.incomp[..|a.incomp|] == a.incomp;
    var left := StillThere(acts, a.incomp, |a.incomp|);
    assert Waiting(a) ==> left == Spawned(acts, a).incomp;
  }

  lemma SpawnKeeps(c: Config, st: Store)
    requires ValidConfig(c) && StoreOk(c, st)
    requires Identified(c, st.acts, st.lastId) && Excluding(c, st.acts)
    ensures TableOk(SpawnAll(st.acts), |c.periodic|, |c.requests|)
    ensures Identified(c, SpawnAll(st.acts), st.lastId) && Excluding(c, SpawnAll(st.acts))
    ensures WaitsForSomeone(SpawnAll(st.acts))
  {
    var acts, acts' := st.acts, SpawnAll(st.acts);
    forall i | 0 <= i < |acts|
      ensures SlotOk(acts'[i], |acts|, |c.periodic|, |c.requests|)
      ensures acts'[i] == acts[i].(evn := acts'[i].evn, incomp := acts'[i].incomp)
    {
      SpawnedIs(acts, acts[i], |acts|, |c.periodic|, |c.requests|);
    }
    forall i, j | 0 <= i < |acts| && 0 <= j < |acts| && MustAwait(c, acts', i, j)
      ensures j in acts'[i].incomp
    {
      SpawnedIs(acts, acts[i], |acts|, |c.periodic|, |c.requests|);
      assert MustAwait(c, acts, i, j);
    }
    forall i | 0 <= i < |acts|
      ensures Live(acts'[i]) && !Waiting(acts'[i]) ==> acts'[i].incomp == []
      ensures Waiting(acts'[i]) ==> Waiting(acts[i]) && acts'[i].incomp != []
      ensures Waiting(acts'[i]) ==>
                forall x :: x in acts'[i].incomp ==> x in acts[i].incomp && 0 <= x < |acts| && !Over(acts, x)
    {
      SpawnedIs(acts, acts[i], |acts|, |c.periodic|, |c.requests|);
    }
    assert forall x :: 0 <= x < |acts| ==> Over(acts', x) == Over(acts, x);
  }

  // ----- the numbers kept in the slots

  /** How many slots have ever been used: until the table is full they are taken in order. */
  ghost function Used(st: Store): int {
    if st.lastId + 1 < |st.acts| then st.lastId + 1 else |st.acts|
  }

  /** The used slots keep different activity numbers, those of finished activities included; the others
      hold whatever the memory held. */
  ghost predicate Numbered(st: Store) {
    && st.lastId >= -1
    && (forall i :: 0 <= i < Used(st) ==> 0 <= st.acts[i].id <= st.lastId)
    && (forall i, j :: 0 <= i < j < Used(st) ==> st.acts[i].id != st.acts[j].id)
    && (forall i :: Used(st) <= i < |st.acts| ==> !Live(st.acts[i]))
    && (Used(st) < |st.acts| ==> st.lastNum == st.lastId)
  }

  /** Slots keep their numbers and none is taken. */
  ghost predicate SameNumbers(acts: seq<Activity>, acts': seq<Activity>) {
    && |acts| == |acts'|
    && forall i :: 0 <= i < |acts| ==> acts'[i].id == acts[i].id && (Live(acts'[i]) ==> Live(acts[i]))
  }

  lemma SameNumbersKeep(st: Store, st': Store)
    requires Numbered(st) && SameNumbers(st.acts, st'.acts)
    requires st'.lastId == st.lastId && st'.lastNum == st.lastNum
    ensures Numbered(st')
  {
  }

  /** allocActivity takes the first unused slot as long as there is one, and then any free one. */
  lemma AllocationNumbers(st: Store, k: nat, a: Activity)
    requires Numbered(st) && -1 <= st.lastNum < |st.acts|
    requires AllocResult(st.acts, st.lastNum) == k && a.id == st.lastId + 1
    ensures k < |st.acts| && Numbered(st.(acts := st.acts[k := a], lastNum := k, lastId := st.lastId + 1))
  {
    if Used(st) < |st.acts| {
      Wraps(Used(st), |st.acts|);
      assert FreeSlot(st.acts, st.lastNum, 0) == Some(Used(st));
    }
  }

  lemma ExecutionNumbers(c: Config, st: Store, r: nat, accepted: bool, codelOk: bool)
    requires ValidConfig(c) && StoreOk(c, st) && Numbered(st)
    requires r < |c.requests| && c.requests[r].kind != ControlRqst
    ensures Numbered(AfterExecution(c, st, r, accepted, codelOk))
  {
    var k := AllocResult(st.acts, st.lastNum);
    if Accepts(c, st, r, accepted) && k != -1 {
      var a := NewActivity(r, st.lastId + 1, c.requests[r].task.value);
      AllocationNumbers(st, k, a);
      SameNumbersKeep(st.(acts := st.acts[k := a], lastNum := k, lastId := st.lastId + 1),
                      AfterExecution(c, st, r, accepted, codelOk));
    }
  }

  lemma EventNumbers(c: Config, st: Store, e: Event)
    requires ValidConfig(c) && StoreOk(c, st) && ServableEvent(c, e) && Numbered(st)
    ensures Numbered(AfterEvent(c, st, e))
  {
    match e {
      case Execution(r, accepted, codelOk) => ExecutionNumbers(c, st, r, accepted, codelOk);
      case Control(_) => SameNumbersKeep(st, AfterEvent(c, st, e));
      case Abort(_) => SameNumbersKeep(st, AfterEvent(c, st, e));
    }
  }

  /** With such numbers an abort request finds exactly the live activity of that number. */
  lemma NumberedFinds(st: Store, number: int, i: nat)
    requires Numbered(st) && i < |st.acts|
    ensures AbortTarget(st, number) == Some(i) <==> Live(st.acts[i]) && st.acts[i].id == number
  {
    if Live(st.acts[i]) && st.acts[i].id == number {
      AbortFinds(st, i);
    }
  }

  // ----- events for the control task, and the lives of activities

  /** No event is left for the control task to acknowledge. */
  ghost predicate NothingToAcknowledge(acts: seq<Activity>) {
    forall i :: 0 <= i < |acts| ==> !ForControlTask(acts[i].evn)
  }

  /** Every slot's calls form a history; slots of tasks that are not suspended are in step. */
  ghost predicate Living(acts: seq<Activity>, suspended: set<int>) {
    forall i :: 0 <= i < |acts| ==>
      && History(acts[i].calls)
      && (Live(acts[i]) && acts[i].task !in suspended ==> InStep(acts[i]))
  }

  lemma AcknowledgeLives(c: Config, st: Store, suspended: set<int>)
    requires ValidConfig(c) && StoreOk(c, st) && Living(st.acts, suspended)
    ensures Living(AcknowledgeAll(st.acts), suspended)
    ensures NothingToAcknowledge(AcknowledgeAll(st.acts))
  {
  }

  lemma AbortedLives(a: Activity, max: nat, nbTask: nat, nbRqst: nat)
    requires SlotOk(a, max, nbTask, nbRqst) && !ForControlTask(a.evn)
    ensures !ForControlTask(Aborted(a).evn) && Aborted(a).calls == a.calls
    ensures Live(Aborted(a)) ==> Aborted(a).task == a.task
    ensures Live(Aborted(a)) && InStep(a) ==> InStep(Aborted(a))
  {
  }

  /** Slots that are aborted, left alone or newly allocated. */
  ghost predicate AbortedOrSame(a: Activity, b: Activity) {
    b == a || b == Aborted(a) || (b.calls == [] && (b.status == Init || b.status == Ether) && !ForControlTask(b.evn))
  }

  lemma AbortedOrSameLives(c: Config, st: Store, acts': seq<Activity>, suspended: set<int>)
    requires ValidConfig(c) && StoreOk(c, st) && |acts'| == |st.acts|
    requires Living(st.acts, suspended) && NothingToAcknowledge(st.acts)
    requires forall i :: 0 <= i < |acts'| ==> AbortedOrSame(st.acts[i], acts'[i])
    ensures Living(acts', suspended) && NothingToAcknowledge(acts')
  {
    forall i | 0 <= i < |acts'|
      ensures History(acts'[i].calls) && !ForControlTask(acts'[i].evn)
      ensures Live(acts'[i]) && acts'[i].task !in suspended ==> InStep(acts'[i])
    {
      assert AbortedOrSame(st.acts[i], acts'[i]);
      AbortedLives(st.acts[i], |st.acts|, |c.periodic|, |c.requests|);
    }
  }

  lemma EventLives(c: Config, st: Store, e: Event, suspended: set<int>)
    requires ValidConfig(c) && StoreOk(c, st) && ServableEvent(c, e)
    requires Living(st.acts, suspended) && NothingToAcknowledge(st.acts)
    ensures Living(AfterEvent(c, st, e).acts, suspended) && NothingToAcknowledge(AfterEvent(c, st, e).acts)
  {
    var acts' := AfterEvent(c, st, e).acts;
    forall i | 0 <= i < |acts'| ensures AbortedOrSame(st.acts[i], acts'[i]) {
    }
    AbortedOrSameLives(c, st, acts', suspended);
  }

  lemma SpawnLives(c: Config, st: Store, suspended: set<int>)
    requires ValidConfig(c) && StoreOk(c, st)
    requires Living(st.acts, suspended) && NothingToAcknowledge(st.acts)
    ensures Living(SpawnAll(st.acts), suspended) && NothingToAcknowledge(SpawnAll(st.acts))
  {
  }

  /** A dispatched slot of a running task extends its history by a legal call. */
  lemma SteppedLives(a: Activity, i: nat, p: Program, max: nat, nbTask: nat, nbRqst: nat)
    requires SlotOk(a, max, nbTask, nbRqst) && Fits(a, p) && Live(a)
    requires History(a.calls) && InStep(a)
    ensures History(Stepped(a, i, p).calls)
    ensures !Suspending(a, i, p) ==> InStep(Stepped(a, i, p))
  {
    if Dispatched(a) && a.calls != [] {
      var last := a.calls[|a.calls|-1];
      assert Follows(last.result, Considered(a));
    }
  }

  lemma ScanLives(c: Config, st: Store, t: nat, p: Program, suspended: set<int>, k: nat)
    requires ValidConfig(c) && StoreOk(c, st) && Covered(st.acts, t, p) && k <= |st.acts|
    requires Living(st.acts, suspended) && t !in suspended
    ensures Living(StepUpTo(st.acts, t, p, k), suspended + {t})
    ensures NoSuspension(st.acts, t, p, k) ==> Living(StepUpTo(st.acts, t, p, k), suspended)
  {
    forall i | 0 <= i < k && st.acts[i].task == t
      ensures History(Stepped(st.acts[i], i, p).calls)
      ensures !SuspendsAt(st.acts, t, p, i) ==> InStep(Stepped(st.acts[i], i, p))
    {
      SteppedLives(st.acts[i], i, p, |st.acts|, |c.periodic|, |c.requests|);
    }
  }
}

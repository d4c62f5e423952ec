/** What the operations of the control task do, told by statuses, events and the description alone. */
module ControlMeaning {
  import opened Wrappers
  import opened Activities
  import opened CodelTables
  import opened Compatibility
  import opened ControlTask
  import opened TableInvariants

  // ----- one slot

  /** Two states of a slot with the same activity: only status, event, owner and list may differ. */
  predicate SameActivity(a: Activity, b: Activity) {
    b.id == a.id && b.rqst == a.rqst && b.calls == a.calls
  }

  /** Acknowledging frees a slot exactly if its activity answered ETHER, makes it a zombie exactly if it
      answered ZOMBIE, puts it to sleep exactly if it answered SLEEP; these events are consumed, any
      other one stays, and so does everything else. */
  lemma AcknowledgeMeans(acts: seq<Activity>, i: nat)
    requires i < |acts|
    ensures |AcknowledgeAll(acts)| == |acts| && SameActivity(acts[i], AcknowledgeAll(acts)[i])
    ensures var a, b := acts[i], AcknowledgeAll(acts)[i];
            && (Live(b) <==> (Live(a) && a.evn != Ether) || a.evn in {Zombie, Sleep})
            && (b.status == Zombie <==> a.evn == Zombie || (a.status == Zombie && a.evn !in {Ether, Sleep}))
            && (b.status == Sleep <==> a.evn == Sleep || (a.status == Sleep && a.evn !in {Ether, Zombie}))
            && (b.status !in {Ether, Zombie, Sleep} ==> b.status == a.status)
            && b.evn == (if a.evn in {Ether, Zombie, Sleep} then NoEvent else a.evn)
            && b.task == (if a.evn == Ether then -1 else a.task) && b.incomp == a.incomp
  {
  }

  /** Aborting frees an activity that has not been dispatched, is a zombie, or has just finished; a
      sleeping or running one keeps its state and is told INTER, unless it is already about to fail. */
  lemma AbortMeans(a: Activity, max: nat, nbTask: nat, nbRqst: nat)
    requires SlotOk(a, max, nbTask, nbRqst) && Live(a)
    ensures SameActivity(a, Aborted(a)) && Aborted(a).incomp == a.incomp
    ensures Live(Aborted(a)) <==> a.status !in {Init, Zombie} && a.evn != Ether
    ensures Live(Aborted(a)) ==>
              && Aborted(a).status == a.status && Aborted(a).task == a.task
              && Aborted(a).evn == if a.evn == Fail then Fail else Inter
    ensures !Live(Aborted(a)) ==> Aborted(a).evn == NoEvent && Aborted(a).task == -1
    ensures EndsAtOnce(a) <==> !Live(Aborted(a))
    ensures AsksInter(a) <==> Live(Aborted(a)) && (a.status == Sleep || a.evn !in {Fail, Inter})
  {
  }

  // ----- interruption

  /** The activity in slot x is one that an accepted request r interrupts. */
  ghost predicate Interrupts(c: Config, acts: seq<Activity>, r: nat, x: int)
    requires r < |c.requests|
  {
    && 0 <= x < |acts| && Live(acts[x]) && 0 <= acts[x].rqst < |c.requests|
    && Interrupting(c.requests, r, acts[x].rqst)
  }

  /** The activity is asked for its interruption, and its task must be woken for it. */
  predicate NeedsSignal(c: Config, a: Activity) {
    && a.status !in {Ether, Init, Zombie} && a.evn != Ether && (a.status == Sleep || a.evn !in {Fail, Inter})
    && 0 <= a.task < |c.periodic| && !c.periodic[a.task]
  }

  /** Request r asks the activity in slot x for its interruption, and u is its aperiodic task. */
  ghost predicate Asks(c: Config, acts: seq<Activity>, r: nat, x: int, u: int)
    requires r < |c.requests|
  {
    Interrupts(c, acts, r, x) && NeedsSignal(c, acts[x]) && acts[x].task == u
  }

  lemma HitMeans(c: Config, acts: seq<Activity>, r: nat, who: int, x: nat)
    requires ValidConfig(c) && r < |c.requests| && TableOk(acts, |c.periodic|, |c.requests|) && x < |acts|
    ensures Hit(acts[x], x, who, c.compat[r]) <==> x != who && Interrupts(c, acts, r, x)
    ensures Live(acts[x]) && AsksInter(acts[x]) && !c.periodic[acts[x].task] <==> NeedsSignal(c, acts[x])
  {
    assert SlotOk(acts[x], |acts|, |c.periodic|, |c.requests|);
    assert CompatOf(c.compat[r], c.requests, r);
  }

  lemma SignalMeans(c: Config, acts: seq<Activity>, r: nat, who: int, x: nat, u: int)
    requires ValidConfig(c) && r < |c.requests| && TableOk(acts, |c.periodic|, |c.requests|) && x < |acts|
    ensures u in SignalOf(acts[x], x, who, c.compat[r], c.periodic) <==> x != who && Asks(c, acts, r, x, u)
  {
    HitMeans(c, acts, r, who, x);
  }

  lemma {:induction false} SignalsMean(c: Config, acts: seq<Activity>, r: nat, who: int, n: nat, u: int)
    requires ValidConfig(c) && r < |c.requests| && TableOk(acts, |c.periodic|, |c.requests|) && n <= |acts|
    ensures u in AbortSignals(acts, who, c.compat[r], n, c.periodic) <==>
              exists x :: 0 <= x < n && x != who && Asks(c, acts, r, x, u)
  {
    if n > 0 {
      SignalsMean(c, acts, r, who, n - 1, u);
      SignalMeans(c, acts, r, who, n - 1, u);
    }
  }

  /** An accepted control request aborts exactly the live activities its request interrupts, and signals
      exactly the aperiodic tasks of those that are asked for their interruption; while a task is in
      error it does nothing. */
  lemma ControlRequestMeans(c: Config, st: Store, r: nat, x: nat)
    requires ValidConfig(c) && StoreOk(c, st) && r < |c.requests| && x < |st.acts|
    ensures st.failed != {} ==> AfterControl(c, st, r) == st
    ensures st.failed == {} ==>
              var st' := AfterControl(c, st, r);
              && st' == st.(acts := st'.acts, pending := st'.pending)
              && st'.acts[x] == if Interrupts(c, st.acts, r, x) then Aborted(st.acts[x]) else st.acts[x]
  {
    HitMeans(c, st.acts, r, -1, x);
  }

  lemma ControlRequestSignals(c: Config, st: Store, r: nat, u: int)
    requires ValidConfig(c) && StoreOk(c, st) && r < |c.requests| && st.failed == {}
    ensures u in AfterControl(c, st, r).pending <==>
              || u in st.pending
              || exists x :: 0 <= x < |st.acts| && Asks(c, st.acts, r, x, u)
  {
    SignalsMean(c, st.acts, r, -1, |st.acts|, u);
  }

  // ----- execution requests

  /** The slot that is d + 1 places after the last one taken, going round the table. */
  function RoundTo(acts: seq<Activity>, lastNum: int, d: nat): int
    requires acts != []
  {
    (lastNum + 1 + d) % |acts|
  }

  /** Slot k is the first free one, going round the table from the one after the last one taken. */
  ghost predicate NextFree(acts: seq<Activity>, lastNum: int, k: int)
    requires -1 <= lastNum
  {
    exists d: nat :: FreeAfter(acts, lastNum, k, d)
  }

  ghost predicate FreeAfter(acts: seq<Activity>, lastNum: int, k: int, d: nat)
    requires -1 <= lastNum
  {
    && d < |acts| && k == RoundTo(acts, lastNum, d) && !Live(acts[k])
    && forall e :: 0 <= e < d ==> Live(acts[RoundTo(acts, lastNum, e)])
  }

  lemma {:induction false} FreeSlotIsNext(acts: seq<Activity>, lastNum: int, i: nat)
    requires -1 <= lastNum < |acts| && i <= |acts|
    requires forall e :: 0 <= e < i ==> Live(acts[RoundTo(acts, lastNum, e)])
    ensures var k := FreeSlot(acts, lastNum, i); k.Some? ==> NextFree(acts, lastNum, k.value)
    decreases |acts| - i
  {
    if i < |acts| {
      var k := RoundTo(acts, lastNum, i);
      if !Live(acts[k]) {
        assert FreeAfter(acts, lastNum, k, i);
      } else {
        FreeSlotIsNext(acts, lastNum, i + 1);
      }
    }
  }

  /** When an execution request leads to a new activity: it is the init request, or accepted with no task
      in error; there is no zombie; and there is a free slot. */
  ghost predicate Admits(c: Config, st: Store, r: nat, accepted: bool)
    requires r < |c.requests|
  {
    && (c.requests[r].kind == InitRqst || (accepted && st.failed == {}))
    && (forall i :: 0 <= i < |st.acts| ==> st.acts[i].status != Zombie)
    && exists i :: 0 <= i < |st.acts| && !Live(st.acts[i])
  }

  lemma AdmitsMeans(c: Config, st: Store, r: nat, accepted: bool)
    requires ValidConfig(c) && StoreOk(c, st) && r < |c.requests|
    ensures var k := AllocResult(st.acts, st.lastNum);
            && (Admits(c, st, r, accepted) <==> Accepts(c, st, r, accepted) && k != -1)
            && (k != -1 ==> 0 <= k < |st.acts| && NextFree(st.acts, st.lastNum, k))
  {
    if exists i :: 0 <= i < |st.acts| && !Live(st.acts[i]) {
      var i :| 0 <= i < |st.acts| && !Live(st.acts[i]);
      FreeSlotComplete(st.acts, st.lastNum, i);
    }
    FreeSlotIsNext(st.acts, st.lastNum, 0);
  }

  /** A refused request changes nothing. An admitted one takes the next free slot and the next number; if
      its control codel fails the slot is free again and nothing else has happened. */
  lemma ExecutionRequestMeans(c: Config, st: Store, r: nat, accepted: bool, codelOk: bool)
    requires ValidConfig(c) && StoreOk(c, st) && r < |c.requests| && c.requests[r].kind != ControlRqst
    ensures var st' := AfterExecution(c, st, r, accepted, codelOk);
            && st'.failed == st.failed
            && (!Admits(c, st, r, accepted) ==> st' == st)
            && (Admits(c, st, r, accepted) ==>
                  && 0 <= st'.lastNum < |st.acts| && NextFree(st.acts, st.lastNum, st'.lastNum)
                  && st'.lastId == st.lastId + 1 && st'.acts[st'.lastNum].id == st'.lastId
                  && (!codelOk ==> !Live(st'.acts[st'.lastNum]) && st'.pending == st.pending))
            && forall x :: 0 <= x < |st.acts| && !codelOk && x != st'.lastNum ==> st'.acts[x] == st.acts[x]
  {
    AdmitsMeans(c, st, r, accepted);
  }

  /** The table in which the interruption loop of an admitted request works. */
  ghost function WithNew(c: Config, st: Store, r: nat, k: nat): (acts: seq<Activity>)
    requires ValidConfig(c) && StoreOk(c, st) && r < |c.requests| && c.requests[r].kind != ControlRqst
    requires k < |st.acts|
    ensures |acts| == |st.acts| && TableOk(acts, |c.periodic|, |c.requests|)
    ensures forall x :: 0 <= x < |acts| && x != k ==> acts[x] == st.acts[x]
  {
    st.acts[k := NewActivity(r, st.lastId + 1, c.requests[r].task.value)]
  }

  lemma AdmittedIs(c: Config, st: Store, r: nat, accepted: bool) returns (k: nat)
    requires ValidConfig(c) && StoreOk(c, st) && r < |c.requests| && c.requests[r].kind != ControlRqst
    requires Admits(c, st, r, accepted)
    ensures k == AllocResult(st.acts, st.lastNum) && k < |st.acts| && !Live(st.acts[k])
    ensures var acts := WithNew(c, st, r, k);
            AfterExecution(c, st, r, accepted, true)
              == st.(acts := Interrupted(acts, k, c.compat[r]), lastNum := k, lastId := st.lastId + 1,
                     pending := st.pending + AbortSignals(acts, k, c.compat[r], |acts|, c.periodic))
  {
    AdmitsMeans(c, st, r, accepted);
    k := AllocResult(st.acts, st.lastNum);
  }

  /** With its control codel's consent the new activity waits in that slot, having called no codel yet; its
      list holds exactly the other activities its request interrupts that do not end at once; these and
      those that do are aborted, and every other slot is left alone. */
  lemma AdmissionMeans(c: Config, st: Store, r: nat, accepted: bool, x: nat)
    requires ValidConfig(c) && StoreOk(c, st) && r < |c.requests| && c.requests[r].kind != ControlRqst
    requires Admits(c, st, r, accepted) && x < |st.acts|
    ensures var st' := AfterExecution(c, st, r, accepted, true);
            var k := st'.lastNum;
            && 0 <= k < |st.acts|
            && var a := st'.acts[k];
            && a.status == Init && a.evn == NoEvent && a.rqst == r && c.requests[r].task == Some(a.task)
            && a.calls == []
            && (x in a.incomp <==> x != k && Interrupts(c, st.acts, r, x) && EndsLater(st.acts[x]))
            && (x != k ==>
                  st'.acts[x] == if Interrupts(c, st.acts, r, x) then Aborted(st.acts[x]) else st.acts[x])
  {
    var k := AdmittedIs(c, st, r, accepted);
    var acts := WithNew(c, st, r, k);
    RecordedMeans(c, acts, r, k, x);
    HitMeans(c, acts, r, k, x);
  }

  /** An activity that has been dispatched, is no zombie and has not just finished. */
  predicate EndsLater(a: Activity) {
    a.status !in {Ether, Init, Zombie} && a.evn != Ether
  }

  lemma RecordedMeans(c: Config, acts: seq<Activity>, r: nat, k: nat, x: nat)
    requires ValidConfig(c) && r < |c.requests| && TableOk(acts, |c.periodic|, |c.requests|)
    requires k < |acts| && x < |acts|
    ensures x in Recorded(acts, k, c.compat[r], |acts|) <==> x != k && Interrupts(c, acts, r, x) && EndsLater(acts[x])
  {
    RecordedIs(acts, k, c.compat[r], |acts|);
    HitMeans(c, acts, r, k, x);
    assert SlotOk(acts[x], |acts|, |c.periodic|, |c.requests|);
  }

  lemma AdmissionSignals(c: Config, st: Store, r: nat, accepted: bool, u: int)
    requires ValidConfig(c) && StoreOk(c, st) && r < |c.requests| && c.requests[r].kind != ControlRqst
    requires Admits(c, st, r, accepted)
    ensures u in AfterExecution(c, st, r, accepted, true).pending <==>
              || u in st.pending
              || exists x :: 0 <= x < |st.acts| && Asks(c, st.acts, r, x, u)
  {
    var k := AdmittedIs(c, st, r, accepted);
    var acts := WithNew(c, st, r, k);
    SignalsMean(c, acts, r, k, |acts|, u);
    assert forall x :: 0 <= x < |acts| && x != k ==> (Asks(c, acts, r, x, u) <==> Asks(c, st.acts, r, x, u));
    assert !Asks(c, st.acts, r, k, u);
  }

  // ----- abort requests

  /** The abort request: -88 clears the error states; a number from 0 on aborts the live activity that has
      it, if there is one; any other number changes nothing. */
  lemma AbortRequestMeans(c: Config, st: Store, number: int, x: nat)
    requires StoreOk(c, st) && Numbered(st) && x < |st.acts|
    ensures var st' := AfterAbort(c, st, number);
            && st'.lastId == st.lastId && st'.lastNum == st.lastNum
            && st'.failed == (if number == -88 then {} else st.failed)
            && st'.acts[x] == if Live(st.acts[x]) && st.acts[x].id == number then Aborted(st.acts[x]) else st.acts[x]
  {
    NumberedFinds(st, number, x);
  }

  lemma AbortRequestSignals(c: Config, st: Store, number: int, u: int)
    requires StoreOk(c, st) && Numbered(st)
    ensures u in AfterAbort(c, st, number).pending <==>
              || u in st.pending
              || exists x :: 0 <= x < |st.acts| && Live(st.acts[x]) && st.acts[x].id == number
                             && NeedsSignal(c, st.acts[x]) && st.acts[x].task == u
  {
    forall x | 0 <= x < |st.acts|
      ensures AbortTarget(st, number) == Some(x) <==> Live(st.acts[x]) && st.acts[x].id == number
      ensures Live(st.acts[x]) ==>
                (AsksInter(st.acts[x]) && !c.periodic[st.acts[x].task] <==> NeedsSignal(c, st.acts[x]))
    {
      assert SlotOk(st.acts[x], |st.acts|, |c.periodic|, |c.requests|);
      NumberedFinds(st, number, x);
    }
  }

  /** The command that ends the module is -99, and is granted exactly if no activity is live. */
  lemma EndMeans(c: Config, st: Store, es: seq<Event>, n: nat)
    requires ValidConfig(c) && StoreOk(c, st) && ServableEvents(c, es) && n < |es|
    ensures Ends(c, st, es, n) <==> es[n] == Abort(-99) && AllFree(AfterEvents(c, st, es, n).acts)
  {
    var acts := AfterEvents(c, st, es, n).acts;
    assert AllFree(acts) <==> forall i :: 0 <= i < |acts| ==> !Live(acts[i]);
  }

  predicate AllFree(acts: seq<Activity>) {
    forall i :: 0 <= i < |acts| ==> acts[i].status == Ether
  }

  // ----- spawning, and a turn as a whole

  /** Every activity on the list has finished, or is a zombie. */
  predicate AllOver(acts: seq<Activity>, list: seq<int>) {
    forall x :: x in list && 0 <= x < |acts| ==> acts[x].status in {Ether, Zombie}
  }

  /** Spawning starts a waiting activity exactly if everyone it waits for is over; those who go on waiting
      lose exactly the entries that are over, and nothing else changes. */
  lemma SpawnMeans(c: Config, st: Store, i: nat)
    requires ValidConfig(c) && StoreOk(c, st) && i < |st.acts|
    ensures var a, b := st.acts[i], SpawnAll(st.acts)[i];
            && (b.evn == Start <==> a.evn == Start || (Waiting(a) && AllOver(st.acts, a.incomp)))
            && b == a.(evn := b.evn, incomp := b.incomp) && (b.evn != a.evn ==> b.evn == Start)
            && (!Waiting(a) ==> b == a)
            && (Waiting(a) ==> KeepsWaitedFor(st.acts, a.incomp, b.incomp))
  {
    var a := st.acts[i];
    assert SlotOk(a, |st.acts|, |c.periodic|, |c.requests|);
    if Waiting(a) {
      LeftMeans(st.acts, a.incomp);
      assert SpawnAll(st.acts)[i].incomp == StillThere(st.acts, a.incomp, |a.incomp|);
    }
  }

  /** The second list holds exactly the entries of the first whose activities are not over. */
  ghost predicate KeepsWaitedFor(acts: seq<Activity>, list: seq<int>, left: seq<int>) {
    forall x :: x in left <==> x in list && 0 <= x < |acts| && acts[x].status !in {Ether, Zombie}
  }

  lemma LeftMeans(acts: seq<Activity>, list: seq<int>)
    requires SlotNumbers(list, |acts|)
    ensures KeepsWaitedFor(acts, list, StillThere(acts, list, |list|))
    ensures StillThere(acts, list, |list|) == [] <==> AllOver(acts, list)
  {
    var left := StillThere(acts, list, |list|);
    StillThereIs(acts, list, |list|);
    assert list[..|list|] == list;
    assert left != [] ==> left[0] in left;
  }

  lemma SpawnSignalMeans(c: Config, st: Store, i: nat, u: int)
    requires ValidConfig(c) && StoreOk(c, st) && i < |st.acts|
    ensures u in SpawnSignal(st.acts, st.acts[i], c.periodic) <==> SignalsFor(c, st.acts, i, u)
  {
    assert SlotOk(st.acts[i], |st.acts|, |c.periodic|, |c.requests|);
    LeftMeans(st.acts, st.acts[i].incomp);
  }

  lemma {:induction false} SpawnSignalsMean(c: Config, st: Store, n: nat, u: int)
    requires ValidConfig(c) && StoreOk(c, st) && n <= |st.acts|
    ensures u in SpawnSignals(st.acts, n, c.periodic) <==>
              exists i :: 0 <= i < n && SignalsFor(c, st.acts, i, u)
  {
    if n > 0 {
      SpawnSignalsMean(c, st, n - 1, u);
      SpawnSignalMeans(c, st, n - 1, u);
    }
  }

  /** The activity in slot i is started by spawning, and u is its aperiodic task. */
  predicate SignalsFor(c: Config, acts: seq<Activity>, i: int, u: int)
    requires 0 <= i < |acts|
  {
    && Waiting(acts[i]) && AllOver(acts, acts[i].incomp)
    && acts[i].task == u && 0 <= u < |c.periodic| && !c.periodic[u]
  }

  /** Requests are served one after the other, the first one first. */
  lemma {:induction false} ServedInOrder(c: Config, st: Store, e: Event, es: seq<Event>, n: nat)
    requires ValidConfig(c) && StoreOk(c, st) && ServableEvent(c, e) && ServableEvents(c, es) && n <= |es|
    ensures ServableEvents(c, [e] + es)
    ensures AfterEvents(c, st, [e] + es, n + 1) == AfterEvents(c, AfterEvent(c, st, e), es, n)
  {
    var all := [e] + es;
    assert AfterEvents(c, st, all, 0) == st;
    if n == 0 {
      assert AfterEvents(c, st, all, 1) == AfterEvent(c, AfterEvents(c, st, all, 0), all[0]);
    } else {
      ServedInOrder(c, st, e, es, n - 1);
      assert all[n] == es[n-1];
      assert AfterEvents(c, st, all, n + 1) == AfterEvent(c, AfterEvents(c, st, all, n), all[n]);
    }
  }

  /** A turn that serves any request signals every aperiodic task, and no turn takes a signal away. */
  lemma TurnSignals(c: Config, st: Store, es: seq<Event>, t: nat)
    requires ValidConfig(c) && StoreOk(c, st) && ServableEvents(c, es)
    ensures t in st.pending ==> t in AfterSection(c, st, es).pending
    ensures es != [] && t < |c.periodic| && !c.periodic[t] ==> t in AfterSection(c, st, es).pending
  {
    SignalsStay(c, st.(acts := AcknowledgeAll(st.acts)), es, |es|, t);
  }

  lemma {:induction false} SignalsStay(c: Config, st: Store, es: seq<Event>, n: nat, t: nat)
    requires ValidConfig(c) && StoreOk(c, st) && ServableEvents(c, es) && n <= |es|
    ensures t in st.pending ==> t in AfterEvents(c, st, es, n).pending
  {
    if n > 0 {
      SignalsStay(c, st, es, n - 1, t);
    }
  }
}

/** The control task's operations on the activity table (canvas/server/cntrlTask.c)
    and the handlers of execution and control requests (requestExec.c, requestCntrl.c).
    Each operation has a slot-by-slot specification; the methods work in place. */
module ControlTask {
  import opened Wrappers
  import opened Activities
  import opened ControlBase
  import opened CodelTables
  import opened Compatibility

  // ----- slot-by-slot specifications

  /** CntrlIntEvnExec on one slot. */
  function Acknowledged(a: Activity): Activity {
    match a.evn
    case Ether => Freed(a)
    case Zombie => a.(status := Zombie, evn := NoEvent)
    case Sleep => a.(status := Sleep, evn := NoEvent)
    case _ => a
  }

  function AcknowledgeAll(acts: seq<Activity>): seq<Activity> {
    seq(|acts|, i requires 0 <= i < |acts| => Acknowledged(acts[i]))
  }

  /** AbortActivity on one slot: does the activity end at once? */
  predicate EndsAtOnce(a: Activity) {
    || a.status in {Ether, Zombie, Init}
    || (a.status != Sleep && a.evn == Ether)
  }

  /** Otherwise, is an interruption asked for (rather than already on its way)? */
  predicate AsksInter(a: Activity) {
    !EndsAtOnce(a) && (a.status == Sleep || (a.evn != Fail && a.evn != Inter))
  }

  function Aborted(a: Activity): Activity {
    if a.status == Ether then a
    else if EndsAtOnce(a) then Freed(a)
    else if AsksInter(a) then a.(evn := Inter)
    else a
  }

  /** Activity a in slot i is live, not in slot `who`, and marked incompatible by compat. */
  predicate Hit(a: Activity, i: nat, who: int, compat: seq<int>)
    requires Live(a) ==> 0 <= a.rqst < |compat|
  {
    i != who && Live(a) && compat[a.rqst] == 0
  }

  predicate Indexable(acts: seq<Activity>, compat: seq<int>) {
    forall i :: 0 <= i < |acts| && Live(acts[i]) ==> 0 <= acts[i].rqst < |compat|
  }

  function AbortHits(acts: seq<Activity>, who: int, compat: seq<int>): seq<Activity>
    requires Indexable(acts, compat)
  {
    seq(|acts|, i requires 0 <= i < |acts| => if Hit(acts[i], i, who, compat) then Aborted(acts[i]) else acts[i])
  }

  /** Slot i as an entry of the recorded list: only if hit and not ended at once. */
  function RecordOf(a: Activity, i: nat, who: int, compat: seq<int>): seq<int>
    requires Live(a) ==> 0 <= a.rqst < |compat|
  {
    if Hit(a, i, who, compat) && !EndsAtOnce(a) then [i] else []
  }

  /** The aperiodic task to signal when slot i is visited by the interruption loop. */
  function SignalOf(a: Activity, i: nat, who: int, compat: seq<int>, periodic: seq<bool>): set<int>
    requires Live(a) ==> 0 <= a.rqst < |compat| && 0 <= a.task < |periodic|
  {
    if Hit(a, i, who, compat) && AsksInter(a) && !periodic[a.task] then {a.task} else {}
  }

  /** The hits among the first n slots that do not end at once, in slot order. */
  function Recorded(acts: seq<Activity>, who: int, compat: seq<int>, n: nat): seq<int>
    requires n <= |acts| && Indexable(acts, compat)
  {
    if n == 0 then []
    else Recorded(acts, who, compat, n - 1) + RecordOf(acts[n-1], n - 1, who, compat)
  }

  /** The aperiodic tasks signalled by aborting the hits among the first n slots. */
  function AbortSignals(acts: seq<Activity>, who: int, compat: seq<int>, n: nat, periodic: seq<bool>): set<int>
    requires n <= |acts| && Indexable(acts, compat)
    requires forall i :: 0 <= i < |acts| && Live(acts[i]) ==> 0 <= acts[i].task < |periodic|
  {
    if n == 0 then {}
    else AbortSignals(acts, who, compat, n - 1, periodic) + SignalOf(acts[n-1], n - 1, who, compat, periodic)
  }

  /** The table after the interruption loop. */
  function Interrupted(acts: seq<Activity>, who: int, compat: seq<int>): seq<Activity>
    requires Indexable(acts, compat) && -1 <= who < |acts|
  {
    var after := AbortHits(acts, who, compat);
    if who == -1 then after
    else after[who := acts[who].(incomp := Recorded(acts, who, compat, |acts|))]
  }

  /** The recorded list is strictly increasing and holds exactly the slots whose end is awaited. */
  lemma {:induction false} RecordedIs(acts: seq<Activity>, who: int, compat: seq<int>, n: nat)
    requires n <= |acts| && Indexable(acts, compat)
    ensures forall x :: x in Recorded(acts, who, compat, n) <==>
              0 <= x < n && Hit(acts[x], x, who, compat) && !EndsAtOnce(acts[x])
    ensures forall j, k :: 0 <= j < k < |Recorded(acts, who, compat, n)| ==>
              Recorded(acts, who, compat, n)[j] < Recorded(acts, who, compat, n)[k]
  {
    if n > 0 {
      RecordedIs(acts, who, compat, n - 1);
      var rest := Recorded(acts, who, compat, n - 1);
      assert forall j :: 0 <= j < |rest| ==> rest[j] in rest;
    }
  }

  /** With generated vectors the interruption loop does what the description says: it aborts exactly
      the other live activities whose request the accepted one interrupts, and records exactly those
      of them that do not end at once. */
  lemma InterruptionMeansDescription(requests: seq<Request>, r: nat, compat: seq<int>, acts: seq<Activity>,
                                     who: nat, x: nat)
    requires r < |requests| && CompatOf(compat, requests, r) && Indexable(acts, compat)
    requires who < |acts| && x < |acts| && x != who
    ensures Interrupted(acts, who, compat)[x] ==
              if Live(acts[x]) && Interrupting(requests, r, acts[x].rqst) then Aborted(acts[x]) else acts[x]
    ensures x in Interrupted(acts, who, compat)[who].incomp <==>
              Live(acts[x]) && Interrupting(requests, r, acts[x].rqst) && !EndsAtOnce(acts[x])
  {
    RecordedIs(acts, who, compat, |acts|);
  }

  /** It never fills incompatibleActivities: there is always room for MAX_ACTIVITIES entries. */
  lemma {:induction false} RecordedBound(acts: seq<Activity>, who: int, compat: seq<int>, n: nat)
    requires n <= |acts| && Indexable(acts, compat)
    ensures |Recorded(acts, who, compat, n)| <= if 0 <= who < n then n - 1 else n
  {
    if n > 0 {
      RecordedBound(acts, who, compat, n - 1);
    }
  }

  lemma InterruptedOk(acts: seq<Activity>, who: int, compat: seq<int>, nbTask: nat)
    requires TableOk(acts, nbTask, |compat|) && -1 <= who < |acts|
    ensures TableOk(Interrupted(acts, who, compat), nbTask, |compat|)
  {
    RecordedIs(acts, who, compat, |acts|);
    var rec := Recorded(acts, who, compat, |acts|);
    assert SlotNumbers(rec, |acts|) by {
      assert forall k :: 0 <= k < |rec| ==> rec[k] in rec;
    }
    forall i | 0 <= i < |acts| ensures SlotOk(Interrupted(acts, who, compat)[i], |acts|, nbTask, |compat|) {
      assert SlotOk(acts[i], |acts|, nbTask, |compat|);
    }
  }

  /** The first free slot of the circular search that starts after lastNum. */
  function FreeSlot(acts: seq<Activity>, lastNum: int, i: nat): (k: Option<nat>)
    requires -1 <= lastNum && i <= |acts|
    ensures k.Some? ==> k.value < |acts| && !Live(acts[k.value])
    decreases |acts| - i
  {
    if i == |acts| then None
    else
      var k := (lastNum + 1 + i) % |acts|;
      if !Live(acts[k]) then Some(k) else FreeSlot(acts, lastNum, i + 1)
  }

  lemma Wraps(k: int, n: int)
    requires 0 <= k < n
    ensures k % n == k && (k + n) % n == k
  {
    var q, r := (k + n) / n, (k + n) % n;
    assert n * (q - 1) == k - r;
    Multiple(n, q - 1);
  }

  lemma Multiple(n: int, m: int)
    requires n >= 0
    ensures m >= 1 ==> n * m >= n
    ensures m <= -1 ==> n * m <= -n
  {
    if m >= 1 {
      assert n * m == n + n * (m - 1);
    } else {
      assert n * m == -n + n * (m + 1);
    }
  }

  /** allocActivity reports a full table only when every slot is in use. */
  lemma FreeSlotComplete(acts: seq<Activity>, lastNum: int, k: nat)
    requires -1 <= lastNum < |acts| && k < |acts| && !Live(acts[k])
    ensures FreeSlot(acts, lastNum, 0).Some?
  {
    var n := |acts|;
    var d := if k > lastNum then k - lastNum - 1 else k - lastNum - 1 + n;
    Wraps(k, n);
    FreeSlotReaches(acts, lastNum, 0, d);
  }

  lemma {:induction false} FreeSlotReaches(acts: seq<Activity>, lastNum: int, i: nat, d: nat)
    requires -1 <= lastNum && i <= d < |acts|
    requires !Live(acts[(lastNum + 1 + d) % |acts|])
    ensures FreeSlot(acts, lastNum, i).Some?
    decreases d - i
  {
    if i < d {
      FreeSlotReaches(acts, lastNum, i + 1, d);
    }
  }

  function NewActivity(rqst: int, id: int, task: int): Activity {
    Activity(Init, NoEvent, rqst, id, task, [], [])
  }

  /** Has the activity in slot x finished, as SpawnActivities sees it? */
  predicate Over(acts: seq<Activity>, x: int)
    requires 0 <= x < |acts|
  {
    acts[x].status == Ether || acts[x].status == Zombie
  }

  /** The entries among the first n whose activity is not over. */
  function StillThere(acts: seq<Activity>, list: seq<int>, n: nat): seq<int>
    requires n <= |list| && SlotNumbers(list, |acts|)
  {
    if n == 0 then []
    else StillThere(acts, list, n - 1) + if Over(acts, list[n-1]) then [] else [list[n-1]]
  }

  lemma {:induction false} StillThereIs(acts: seq<Activity>, list: seq<int>, n: nat)
    requires n <= |list| && SlotNumbers(list, |acts|)
    ensures SlotNumbers(StillThere(acts, list, n), |acts|)
    ensures forall x :: x in StillThere(acts, list, n) <==>
              x in list[..n] && 0 <= x < |acts| && !Over(acts, x)
  {
    if n > 0 {
      StillThereIs(acts, list, n - 1);
      assert list[..n] == list[..n-1] + [list[n-1]];
    }
  }

  /** SpawnActivities on one slot. */
  function Spawned(acts: seq<Activity>, a: Activity): Activity
    requires SlotNumbers(a.incomp, |acts|)
  {
    if !Waiting(a) then a
    else
      var left := StillThere(acts, a.incomp, |a.incomp|);
      if left == [] then a.(incomp := left, evn := Start) else a.(incomp := left)
  }

  function SpawnAll(acts: seq<Activity>): seq<Activity>
    requires forall i :: 0 <= i < |acts| ==> SlotNumbers(acts[i].incomp, |acts|)
  {
    seq(|acts|, i requires 0 <= i < |acts| => Spawned(acts, acts[i]))
  }

  predicate Starts(acts: seq<Activity>, a: Activity)
    requires SlotNumbers(a.incomp, |acts|)
  {
    Waiting(a) && StillThere(acts, a.incomp, |a.incomp|) == []
  }

  /** The aperiodic task to signal when activity a is visited by SpawnActivities. */
  function SpawnSignal(acts: seq<Activity>, a: Activity, periodic: seq<bool>): set<int>
    requires SlotNumbers(a.incomp, |acts|) && (Live(a) ==> 0 <= a.task < |periodic|)
  {
    if Starts(acts, a) && !periodic[a.task] then {a.task} else {}
  }

  function SpawnSignals(acts: seq<Activity>, n: nat, periodic: seq<bool>): set<int>
    requires n <= |acts|
    requires forall i :: 0 <= i < |acts| ==> SlotNumbers(acts[i].incomp, |acts|)
    requires forall i :: 0 <= i < |acts| && Live(acts[i]) ==> 0 <= acts[i].task < |periodic|
  {
    if n == 0 then {}
    else SpawnSignals(acts, n - 1, periodic) + SpawnSignal(acts, acts[n-1], periodic)
  }

  // ----- the operations, in place

  method FreeActivity(s: Sdi, activity: nat)
    requires s.Valid() && activity < s.tab.Length && Live(s.tab[activity])
    modifies s`nbActivities, s`nbZombie, s.tab, s.nbActi
    ensures s.Valid()
    ensures s.tab[..] == old(s.tab[..])[activity := Freed(old(s.tab[activity]))]
  {
    ghost var was := s.tab[..];
    if s.tab[activity].status == Zombie {
      s.nbZombie := s.nbZombie - 1;
    }
    var execTaskNum := s.tab[activity].task;
    s.tab[activity] := Freed(s.tab[activity]);
    s.nbActi[execTaskNum] := s.nbActi[execTaskNum] - 1;
    s.nbActivities := s.nbActivities - 1;
    assert s.tab[..] == was[activity := Freed(was[activity])];
    forall p: Population ensures Total(s.tab[..], p) == Total(was, p)
        - (if Counted(was[activity], p) then 1 else 0) + (if Counted(Freed(was[activity]), p) then 1 else 0) {
      CountUpdate(was, p, |was|, activity, Freed(was[activity]));
    }
  }

  /** Returns true if the activity has ended, false if its end is to be awaited. */
  method AbortActivity(s: Sdi, activity: nat) returns (done: bool)
    requires s.Valid() && activity < s.tab.Length
    modifies s`nbActivities, s`nbZombie, s`pending, s.tab, s.nbActi
    ensures s.Valid()
    ensures s.tab[..] == old(s.tab[..])[activity := Aborted(old(s.tab[activity]))]
    ensures done <==> EndsAtOnce(old(s.tab[activity]))
    ensures s.pending == old(s.pending) +
              if AsksInter(old(s.tab[activity])) && !s.periodic[old(s.tab[activity]).task]
              then {old(s.tab[activity]).task} else {}
  {
    ghost var was := s.tab[..];
    assert was[activity := was[activity]] == was;
    var status, evn := s.tab[activity].status, s.tab[activity].evn;
    if status == Ether {
      return true;
    } else if status == Zombie || status == Init {
      FreeActivity(s, activity);
      return true;
    } else if status == Sleep {
      AskInter(s, activity);
      return false;
    } else if evn == Ether {
      FreeActivity(s, activity);
      return true;
    } else if evn == Fail || evn == Inter {
      return false;
    } else {
      AskInter(s, activity);
      return false;
    }
  }

  /** The common tail of the two branches that ask for an interruption. */
  method AskInter(s: Sdi, activity: nat)
    requires s.Valid() && activity < s.tab.Length && AsksInter(s.tab[activity])
    modifies s`pending, s.tab
    ensures s.Valid()
    ensures s.tab[..] == old(s.tab[..])[activity := old(s.tab[activity]).(evn := Inter)]
    ensures s.pending == old(s.pending) +
              if s.periodic[old(s.tab[activity]).task] then {} else {old(s.tab[activity]).task}
  {
    ghost var was := s.tab[..];
    s.tab[activity] := s.tab[activity].(evn := Inter);
    if !s.periodic[s.tab[activity].task] {
      s.pending := s.pending + {s.tab[activity].task};
    }
    assert s.tab[..] == was[activity := was[activity].(evn := Inter)];
    forall p: Population ensures Total(s.tab[..], p) == Total(was, p) {
      CountUpdate(was, p, |was|, activity, s.tab[activity]);
    }
  }

  /** Acknowledge the events the execution tasks left for the control task. */
  method IntEvnExec(s: Sdi)
    requires s.Valid()
    modifies s`nbActivities, s`nbZombie, s.tab, s.nbActi
    ensures s.Valid()
    ensures s.tab[..] == AcknowledgeAll(old(s.tab[..]))
  {
    ghost var was := s.tab[..];
    var activity := 0;
    while activity < s.tab.Length
      invariant activity <= s.tab.Length && s.Valid()
      invariant forall j :: 0 <= j < activity ==> s.tab[j] == Acknowledged(was[j])
      invariant forall j :: activity <= j < s.tab.Length ==> s.tab[j] == was[j]
    {
      Acknowledge(s, activity);
      activity := activity + 1;
    }
  }

  method Acknowledge(s: Sdi, activity: nat)
    requires s.Valid() && activity < s.tab.Length
    modifies s`nbActivities, s`nbZombie, s.tab, s.nbActi
    ensures s.Valid()
    ensures s.tab[activity] == Acknowledged(old(s.tab[activity]))
    ensures forall j :: 0 <= j < s.tab.Length && j != activity ==> s.tab[j] == old(s.tab[j])
  {
    if s.tab[activity].evn == Ether {
      FreeActivity(s, activity);
    } else if s.tab[activity].evn == Zombie {
      MarkZombie(s, activity);
    } else if s.tab[activity].evn == Sleep {
      MarkSleep(s, activity);
    }
  }

  method MarkZombie(s: Sdi, activity: nat)
    requires s.Valid() && activity < s.tab.Length && s.tab[activity].evn == Zombie
    modifies s`nbZombie, s.tab
    ensures s.Valid()
    ensures s.tab[..] == old(s.tab[..])[activity := Acknowledged(old(s.tab[activity]))]
  {
    ghost var was := s.tab[..];
    s.nbZombie := s.nbZombie + 1;
    s.tab[activity] := s.tab[activity].(status := Zombie, evn := NoEvent);
    assert s.tab[..] == was[activity := Acknowledged(was[activity])];
    forall p: Population ensures Total(s.tab[..], p) == Total(was, p) + if p == Zombies then 1 else 0 {
      CountUpdate(was, p, |was|, activity, s.tab[activity]);
    }
  }

  method MarkSleep(s: Sdi, activity: nat)
    requires s.Valid() && activity < s.tab.Length && s.tab[activity].evn == Sleep
    modifies s.tab
    ensures s.Valid()
    ensures s.tab[..] == old(s.tab[..])[activity := Acknowledged(old(s.tab[activity]))]
  {
    ghost var was := s.tab[..];
    s.tab[activity] := s.tab[activity].(status := Sleep, evn := NoEvent);
    assert s.tab[..] == was[activity := Acknowledged(was[activity])];
    forall p: Population ensures Total(s.tab[..], p) == Total(was, p) {
      CountUpdate(was, p, |was|, activity, s.tab[activity]);
    }
  }

  /** Reserve a slot, unless an activity is a zombie or the table is full. */
  method AllocActivity(s: Sdi, requestNum: nat, execTaskNum: nat) returns (activity: int)
    requires s.Valid() && requestNum < s.nbRqst && execTaskNum < s.NbTask()
    modifies s`nbActivities, s`lastNum, s`lastId, s.tab, s.nbActi
    ensures s.Valid()
    ensures activity == AllocResult(old(s.tab[..]), old(s.lastNum))
    ensures activity == -1 ==> s.tab[..] == old(s.tab[..]) && s.lastId == old(s.lastId) && s.lastNum == old(s.lastNum)
    ensures activity != -1 ==>
              && s.lastId == old(s.lastId) + 1 && s.lastNum == activity
              && s.tab[..] == old(s.tab[..])[activity := NewActivity(requestNum, s.lastId, execTaskNum)]
  {
    ghost var was := s.tab[..];
    ZombieCount(was);
    if s.nbZombie != 0 {
      return -1;
    }
    var i := 0;
    activity := 0;
    while i < s.tab.Length
      invariant i <= s.tab.Length
      invariant FreeSlot(was, s.lastNum, 0) == FreeSlot(was, s.lastNum, i)
    {
      activity := (s.lastNum + 1 + i) % s.tab.Length;
      if s.tab[activity].status == Ether {
        break;
      }
      i := i + 1;
    }
    if i == s.tab.Length {
      return -1;
    }
    s.lastNum := activity;
    s.lastId := s.lastId + 1;
    s.tab[activity] := NewActivity(requestNum, s.lastId, execTaskNum);
    s.nbActi[execTaskNum] := s.nbActi[execTaskNum] + 1;
    s.nbActivities := s.nbActivities + 1;
    assert s.tab[..] == was[activity := s.tab[activity]];
    forall p: Population ensures Total(s.tab[..], p) == Total(was, p)
        - (if Counted(was[activity], p) then 1 else 0) + (if Counted(s.tab[activity], p) then 1 else 0) {
      CountUpdate(was, p, |was|, activity, s.tab[activity]);
    }
  }

  /** The slot allocActivity picks, or -1. */
  function AllocResult(acts: seq<Activity>, lastNum: int): int
    requires -1 <= lastNum
  {
    if exists i :: 0 <= i < |acts| && acts[i].status == Zombie then -1
    else match FreeSlot(acts, lastNum, 0)
         case None => -1
         case Some(k) => k
  }

  lemma ZombieCount(acts: seq<Activity>)
    ensures Total(acts, Zombies) == 0 <==> forall i :: 0 <= i < |acts| ==> acts[i].status != Zombie
  {
    CountMonotonic(acts, Zombies, 0, |acts|);
  }

  /** The interruption loop both request handlers run: `who` is the new activity, or -1. */
  method AbortIncompatible(s: Sdi, who: int, compat: seq<int>)
    requires s.Valid() && |compat| == s.nbRqst && -1 <= who < s.tab.Length
    requires 0 <= who ==> s.tab[who].incomp == []
    modifies s`nbActivities, s`nbZombie, s`pending, s.tab, s.nbActi
    ensures s.Valid()
    ensures s.tab[..] == Interrupted(old(s.tab[..]), who, compat)
    ensures s.pending == old(s.pending) + AbortSignals(old(s.tab[..]), who, compat, s.tab.Length, s.periodic)
  {
    AbortAll(s, who, compat);
    InterruptAll(old(s.tab[..]), who, compat);
  }

  method AbortAll(s: Sdi, who: int, compat: seq<int>)
    requires s.Valid() && |compat| == s.nbRqst && -1 <= who < s.tab.Length
    requires 0 <= who ==> s.tab[who].incomp == []
    modifies s`nbActivities, s`nbZombie, s`pending, s.tab, s.nbActi
    ensures AbortingAt(s, who, compat, s.tab.Length, old(s.tab[..]), old(s.pending))
  {
    var i := 0;
    SetOut(s, who, compat);
    while i < s.tab.Length
      invariant i <= s.tab.Length && AbortingAt(s, who, compat, i, old(s.tab[..]), old(s.pending))
    {
      AbortNext(s, who, compat, i, old(s.tab[..]), old(s.pending));
      i := i + 1;
    }
  }

  lemma SetOut(s: Sdi, who: int, compat: seq<int>)
    requires s.Valid() && |compat| == s.nbRqst && -1 <= who < s.tab.Length
    requires 0 <= who ==> s.tab[who].incomp == []
    ensures AbortingAt(s, who, compat, 0, s.tab[..], s.pending)
  {
    InterruptNothing(s.tab[..], who, compat);
  }

  /** The loop has come to slot n of the table `was`. */
  ghost predicate AbortingAt(s: Sdi, who: int, compat: seq<int>, n: nat, was: seq<Activity>, before: set<int>)
    reads s, s.tab, s.nbActi
  {
    && s.Valid() && |compat| == s.nbRqst && -1 <= who < s.tab.Length == |was| && n <= |was|
    && TableOk(was, s.NbTask(), s.nbRqst)
    && s.tab[..] == InterruptedUpTo(was, who, compat, n)
    && s.pending == before + AbortSignals(was, who, compat, n, s.periodic)
  }

  /** The table when the loop has come to slot n. */
  function InterruptedUpTo(acts: seq<Activity>, who: int, compat: seq<int>, n: nat): (r: seq<Activity>)
    requires Indexable(acts, compat) && -1 <= who < |acts| && n <= |acts|
    ensures |r| == |acts|
  {
    var after := AbortHits(acts, who, compat);
    seq(|acts|, i requires 0 <= i < |acts| =>
      if i == who then acts[who].(incomp := Recorded(acts, who, compat, n))
      else if i < n then after[i] else acts[i])
  }

  lemma InterruptNothing(acts: seq<Activity>, who: int, compat: seq<int>)
    requires Indexable(acts, compat) && -1 <= who < |acts| && (0 <= who ==> acts[who].incomp == [])
    ensures InterruptedUpTo(acts, who, compat, 0) == acts
  {
  }

  lemma InterruptAll(acts: seq<Activity>, who: int, compat: seq<int>)
    requires Indexable(acts, compat) && -1 <= who < |acts|
    ensures InterruptedUpTo(acts, who, compat, |acts|) == Interrupted(acts, who, compat)
  {
  }

  lemma InterruptNext(acts: seq<Activity>, who: int, compat: seq<int>, n: nat, acts': seq<Activity>)
    requires Indexable(acts, compat) && -1 <= who < |acts| && n < |acts| == |acts'|
    requires var here := InterruptedUpTo(acts, who, compat, n);
             && (forall j :: 0 <= j < |acts| && j != n && j != who ==> acts'[j] == here[j])
             && (n != who ==> acts'[n] == if Hit(here[n], n, who, compat) then Aborted(here[n]) else here[n])
             && (0 <= who ==> acts'[who] == here[who].(incomp := here[who].incomp + RecordOf(here[n], n, who, compat)))
    ensures acts' == InterruptedUpTo(acts, who, compat, n + 1)
    ensures InterruptedUpTo(acts, who, compat, n)[n].status == acts[n].status
    ensures n != who ==> InterruptedUpTo(acts, who, compat, n)[n] == acts[n]
  {
  }

  method AbortNext(s: Sdi, who: int, compat: seq<int>, i: nat, ghost was: seq<Activity>, ghost before: set<int>)
    requires i < |was| && AbortingAt(s, who, compat, i, was, before)
    modifies s`nbActivities, s`nbZombie, s`pending, s.tab, s.nbActi
    ensures AbortingAt(s, who, compat, i + 1, was, before)
  {
    VisitSlot(s, who, compat, i);
    InterruptNext(was, who, compat, i, s.tab[..]);
  }

  method VisitSlot(s: Sdi, who: int, compat: seq<int>, i: nat)
    requires s.Valid() && |compat| == s.nbRqst && -1 <= who < s.tab.Length && i < s.tab.Length
    modifies s`nbActivities, s`nbZombie, s`pending, s.tab, s.nbActi
    ensures s.Valid()
    ensures forall j :: 0 <= j < s.tab.Length && j != i && j != who ==> s.tab[j] == old(s.tab[j])
    ensures i != who ==>
              s.tab[i] == if Hit(old(s.tab[i]), i, who, compat) then Aborted(old(s.tab[i])) else old(s.tab[i])
    ensures 0 <= who ==>
              s.tab[who] == old(s.tab[who]).(incomp := old(s.tab[who].incomp) + RecordOf(old(s.tab[i]), i, who, compat))
    ensures s.pending == old(s.pending) + SignalOf(old(s.tab[i]), i, who, compat, s.periodic)
  {
    if i != who && s.tab[i].status != Ether && compat[s.tab[i].rqst] == 0 {
      var done := AbortActivity(s, i);
      if !done && 0 <= who {
        Record(s, who, i);
      }
    }
  }

  /** ACTIVITY_TAB_INCOMP(who)[ACTIVITY_NB_INCOMP(who)++] = i. */
  method Record(s: Sdi, who: nat, i: nat)
    requires s.Valid() && who < s.tab.Length && i < s.tab.Length
    modifies s.tab
    ensures s.Valid()
    ensures s.tab[..] == old(s.tab[..])[who := old(s.tab[who]).(incomp := old(s.tab[who].incomp) + [i])]
  {
    ghost var was := s.tab[..];
    s.tab[who] := s.tab[who].(incomp := s.tab[who].incomp + [i]);
    assert s.tab[..] == was[who := s.tab[who]];
    forall p: Population ensures Total(s.tab[..], p) == Total(was, p) {
      CountUpdate(was, p, |was|, who, s.tab[who]);
    }
  }

  /** Start the waiting activities whose incompatible predecessors are over. */
  method SpawnActivities(s: Sdi)
    requires s.Valid()
    modifies s`pending, s.tab
    ensures s.Valid()
    ensures s.tab[..] == SpawnAll(old(s.tab[..]))
    ensures s.pending == old(s.pending) + SpawnSignals(old(s.tab[..]), s.tab.Length, s.periodic)
  {
    var activity := 0;
    SpawnBegins(s);
    while activity < s.tab.Length
      invariant SpawningAt(s, activity, old(s.tab[..]), old(s.pending))
    {
      SpawnNext(s, activity, old(s.tab[..]), old(s.pending));
      activity := activity + 1;
    }
    SpawnEnds(old(s.tab[..]));
  }

  /** SpawnActivities has come to slot n of the table `was`. */
  ghost predicate SpawningAt(s: Sdi, n: int, was: seq<Activity>, before: set<int>)
    reads s, s.tab, s.nbActi
  {
    && s.Valid() && 0 <= n <= |was| == s.tab.Length && TableOk(was, s.NbTask(), s.nbRqst)
    && s.tab[..] == SpawnedUpTo(was, n)
    && s.pending == before + SpawnSignals(was, n, s.periodic)
  }

  lemma SpawnBegins(s: Sdi)
    requires s.Valid()
    ensures SpawningAt(s, 0, s.tab[..], s.pending)
  {
    assert SpawnedUpTo(s.tab[..], 0) == s.tab[..];
  }

  lemma SpawnEnds(acts: seq<Activity>)
    requires forall i :: 0 <= i < |acts| ==> SlotNumbers(acts[i].incomp, |acts|)
    ensures SpawnedUpTo(acts, |acts|) == SpawnAll(acts)
  {
  }

  /** The table when SpawnActivities has come to slot n. */
  function SpawnedUpTo(acts: seq<Activity>, n: nat): seq<Activity>
    requires forall i :: 0 <= i < |acts| ==> SlotNumbers(acts[i].incomp, |acts|)
  {
    seq(|acts|, i requires 0 <= i < |acts| => if i < n then Spawned(acts, acts[i]) else acts[i])
  }

  method SpawnNext(s: Sdi, activity: nat, ghost was: seq<Activity>, ghost before: set<int>)
    requires activity < |was| && SpawningAt(s, activity, was, before)
    modifies s`pending, s.tab
    ensures SpawningAt(s, activity + 1, was, before)
  {
    forall j | 0 <= j < |was| ensures s.tab[j].status == was[j].status {
      assert s.tab[j] == s.tab[..][j];
    }
    SpawnOne(s, activity, was);
    assert s.tab[..] == SpawnedUpTo(was, activity + 1);
  }

  method SpawnOne(s: Sdi, activity: nat, ghost was: seq<Activity>)
    requires s.Valid() && activity < s.tab.Length == |was|
    requires forall j :: 0 <= j < |was| ==> s.tab[j].status == was[j].status
    modifies s`pending, s.tab
    ensures s.Valid()
    ensures s.tab[activity] == Spawned(was, old(s.tab[activity]))
    ensures forall j :: 0 <= j < s.tab.Length && j != activity ==> s.tab[j] == old(s.tab[j])
    ensures s.pending == old(s.pending) + SpawnSignal(was, old(s.tab[activity]), s.periodic)
  {
    if s.tab[activity].status == Init && s.tab[activity].evn == NoEvent {
      StillThereIs(was, s.tab[activity].incomp, |s.tab[activity].incomp|);
      var left := Compact(s, s.tab[activity].incomp, was);
      var a := s.tab[activity].(incomp := left);
      if left == [] {
        a := a.(evn := Start);
        if !s.periodic[a.task] {
          s.pending := s.pending + {a.task};
        }
      }
      Overwrite(s, activity, a);
    }
  }

  /** Replace a slot by one of the same populations. */
  method Overwrite(s: Sdi, i: nat, a: Activity)
    requires s.Valid() && i < s.tab.Length && SlotOk(a, s.tab.Length, s.NbTask(), s.nbRqst)
    requires a.status == s.tab[i].status && a.task == s.tab[i].task
    modifies s.tab
    ensures s.Valid() && s.tab[..] == old(s.tab[..])[i := a]
  {
    ghost var was := s.tab[..];
    s.tab[i] := a;
    assert s.tab[..] == was[i := a];
    forall p: Population ensures Total(s.tab[..], p) == Total(was, p) {
      CountUpdate(was, p, |was|, i, a);
    }
  }

  /** The in-place compaction of incompatibleActivities: keep the entries whose slot is not over. */
  method Compact(s: Sdi, list: seq<int>, ghost was: seq<Activity>) returns (left: seq<int>)
    requires s.tab.Length == |was| && SlotNumbers(list, |was|)
    requires forall j :: 0 <= j < |was| ==> s.tab[j].status == was[j].status
    ensures left == StillThere(was, list, |list|)
  {
    var tabIncomp, nbIncomp := list, |list|;
    var i, j := 0, 0;
    while i < |list|
      invariant 0 <= j <= i <= |list| == |tabIncomp|
      invariant nbIncomp == |list| - (i - j)
      invariant tabIncomp[..j] == StillThere(was, list, i)
      invariant tabIncomp[i..] == list[i..]
    {
      assert tabIncomp[i..][0] == list[i..][0] && 0 <= list[i] < |was|;
      TailKept(tabIncomp, list, i, j, tabIncomp[i]);
      if s.tab[tabIncomp[i]].status == Ether || s.tab[tabIncomp[i]].status == Zombie {
        nbIncomp := nbIncomp - 1;
      } else {
        assert tabIncomp[j := tabIncomp[i]][..j + 1] == tabIncomp[..j] + [list[i]];
        tabIncomp := tabIncomp[j := tabIncomp[i]];
        j := j + 1;
      }
      i := i + 1;
    }
    left := tabIncomp[..nbIncomp];
  }

  lemma TailKept(a: seq<int>, b: seq<int>, i: nat, j: nat, x: int)
    requires |a| == |b| && j <= i < |a| && a[i..] == b[i..]
    ensures a[i+1..] == b[i+1..] && a[j := x][i+1..] == b[i+1..]
  {
    assert a[i+1..] == a[i..][1..] && b[i+1..] == b[i..][1..];
    assert a[j := x][i+1..] == a[i+1..];
  }

  // ----- whole sections of the control task

  /** What the control task's operations read and write, as a value. */
  datatype Store = Store(acts: seq<Activity>, lastNum: int, lastId: int, pending: set<int>, failed: set<int>)

  /** A module: its requests, their compatibility vectors, and which tasks are periodic. */
  datatype Config = Config(requests: seq<Request>, compat: seq<seq<int>>, periodic: seq<bool>)

  ghost predicate ValidConfig(c: Config) {
    && |c.compat| == |c.requests|
    && (forall r :: 0 <= r < |c.requests| ==> CompatOf(c.compat[r], c.requests, r))
    && forall r :: 0 <= r < |c.requests| && c.requests[r].kind != ControlRqst ==>
         c.requests[r].task.Some? && c.requests[r].task.value < |c.periodic|
  }

  ghost predicate StoreOk(c: Config, st: Store) {
    -1 <= st.lastNum < |st.acts| && TableOk(st.acts, |c.periodic|, |c.requests|)
  }

  /** The numbers an abort request may carry instead of an activity's. */
  const END_MODULE := -99
  const RESUME_EXEC_TASK := -88

  /** The requests a control section serves. `accepted` stands for whether the init request has been
      served where that matters, `codelOk` for the control codel. */
  datatype Event =
    | Execution(rqst: nat, accepted: bool, codelOk: bool)
    | Control(rqst: nat)
    | Abort(number: int)

  predicate ServableEvent(c: Config, e: Event) {
    match e
    case Execution(r, _, _) => r < |c.requests| && c.requests[r].kind != ControlRqst
    case Control(r) => r < |c.requests|
    case Abort(_) => true
  }

  /** controlExecTaskStatus: a task in error refuses every request but the init request. */
  predicate Accepts(c: Config, st: Store, r: nat, accepted: bool)
    requires r < |c.requests|
  {
    c.requests[r].kind == InitRqst || (accepted && st.failed == {})
  }

  /** The handler of an execution request. */
  ghost function AfterExecution(c: Config, st: Store, r: nat, accepted: bool, codelOk: bool): (st': Store)
    requires ValidConfig(c) && StoreOk(c, st)
    requires r < |c.requests| && c.requests[r].kind != ControlRqst
    ensures StoreOk(c, st') && |st'.acts| == |st.acts|
  {
    var k := AllocResult(st.acts, st.lastNum);
    if !Accepts(c, st, r, accepted) || k == -1 then st
    else
      var a := NewActivity(r, st.lastId + 1, c.requests[r].task.value);
      var acts := st.acts[k := a];
      InterruptedOk(acts, k, c.compat[r], |c.periodic|);
      if !codelOk then st.(acts := acts[k := Freed(a)], lastNum := k, lastId := st.lastId + 1)
      else st.(acts := Interrupted(acts, k, c.compat[r]), lastNum := k, lastId := st.lastId + 1,
               pending := st.pending + AbortSignals(acts, k, c.compat[r], |acts|, c.periodic))
  }

  ghost function AfterControl(c: Config, st: Store, r: nat): (st': Store)
    requires ValidConfig(c) && StoreOk(c, st) && r < |c.requests|
    ensures StoreOk(c, st') && |st'.acts| == |st.acts|
  {
    InterruptedOk(st.acts, -1, c.compat[r], |c.periodic|);
    if st.failed != {} then st
    else st.(acts := Interrupted(st.acts, -1, c.compat[r]),
             pending := st.pending + AbortSignals(st.acts, -1, c.compat[r], |st.acts|, c.periodic))
  }

  /** The first slot from i on that holds this activity number. */
  function SlotOf(acts: seq<Activity>, number: int, i: nat): (k: Option<nat>)
    requires i <= |acts|
    ensures k.Some? ==> i <= k.value < |acts| && acts[k.value].id == number
    ensures forall j :: i <= j < (if k.Some? then k.value else |acts|) ==> acts[j].id != number
    decreases |acts| - i
  {
    if i == |acts| then None else if acts[i].id == number then Some(i) else SlotOf(acts, number, i + 1)
  }

  /** The slot an abort request aborts, if any. */
  function AbortTarget(st: Store, number: int): (k: Option<nat>)
    ensures k.Some? ==> k.value < |st.acts| && Live(st.acts[k.value]) && st.acts[k.value].id == number
  {
    if number < 0 || number > st.lastId then None
    else
      var k := SlotOf(st.acts, number, 0);
      if k.Some? && Live(st.acts[k.value]) then k else None
  }

  ghost function AfterAbort(c: Config, st: Store, number: int): (st': Store)
    requires StoreOk(c, st)
    ensures StoreOk(c, st') && |st'.acts| == |st.acts|
  {
    match AbortTarget(st, number)
    case None => if number == RESUME_EXEC_TASK then st.(failed := {}) else st
    case Some(i) =>
      st.(acts := st.acts[i := Aborted(st.acts[i])],
          pending := st.pending +
            if AsksInter(st.acts[i]) && !c.periodic[st.acts[i].task] then {st.acts[i].task} else {})
  }

  /** An abort request finds a live activity by its number exactly if no earlier slot keeps that number. */
  lemma AbortFinds(st: Store, i: nat)
    requires i < |st.acts| && Live(st.acts[i]) && 0 <= st.acts[i].id <= st.lastId
    ensures AbortTarget(st, st.acts[i].id) == Some(i) <==> forall j :: 0 <= j < i ==> st.acts[j].id != st.acts[i].id
  {
    var k := SlotOf(st.acts, st.acts[i].id, 0);
    assert k.Some? && k.value <= i;
  }

  ghost function AfterEvent(c: Config, st: Store, e: Event): (st': Store)
    requires ValidConfig(c) && StoreOk(c, st) && ServableEvent(c, e)
    ensures StoreOk(c, st') && |st'.acts| == |st.acts|
  {
    match e
    case Execution(r, accepted, codelOk) => AfterExecution(c, st, r, accepted, codelOk)
    case Control(r) => AfterControl(c, st, r)
    case Abort(number) => AfterAbort(c, st, number)
  }

  ghost function AfterEvents(c: Config, st: Store, es: seq<Event>, n: nat): (st': Store)
    requires ValidConfig(c) && StoreOk(c, st) && n <= |es|
    requires forall e :: e in es ==> ServableEvent(c, e)
    ensures StoreOk(c, st') && |st'.acts| == |st.acts|
  {
    if n == 0 then st else AfterEvent(c, AfterEvents(c, st, es, n - 1), es[n-1])
  }

  ghost predicate ServableEvents(c: Config, es: seq<Event>) {
    forall e :: e in es ==> ServableEvent(c, e)
  }

  /** The table between a section's acknowledgements and its spawning. */
  ghost function Served(c: Config, st: Store, es: seq<Event>, n: nat): (st': Store)
    requires ValidConfig(c) && StoreOk(c, st) && ServableEvents(c, es) && n <= |es|
    ensures StoreOk(c, st') && |st'.acts| == |st.acts|
  {
    AfterEvents(c, st.(acts := AcknowledgeAll(st.acts)), es, n)
  }

  /** Request n ends the module: it asks for that, and finds no live activity. */
  ghost predicate Ends(c: Config, st: Store, es: seq<Event>, n: nat)
    requires ValidConfig(c) && StoreOk(c, st) && ServableEvents(c, es) && n < |es|
  {
    es[n] == Abort(END_MODULE) && NobodyLive(AfterEvents(c, st, es, n).acts)
  }

  /** No request of a section ends the module. */
  ghost predicate GoesOn(c: Config, st: Store, es: seq<Event>)
    requires ValidConfig(c) && StoreOk(c, st) && ServableEvents(c, es)
  {
    NoneEnds(c, st.(acts := AcknowledgeAll(st.acts)), es, |es|)
  }

  ghost predicate NoneEnds(c: Config, st: Store, es: seq<Event>, n: nat)
    requires ValidConfig(c) && StoreOk(c, st) && ServableEvents(c, es) && n <= |es|
  {
    forall k :: 0 <= k < n ==> !Ends(c, st, es, k)
  }

  /** Requests that do not work on an activity by its number, and are not the init request. */
  predicate Ordinary(c: Config, e: Event)
    requires ServableEvent(c, e)
  {
    match e
    case Execution(r, _, _) => c.requests[r].kind != InitRqst
    case Control(_) => true
    case Abort(_) => false
  }

  /** While some execution task is in error, no ordinary request has any effect. */
  lemma {:induction false} RefusedWhileFailed(c: Config, st: Store, es: seq<Event>, n: nat)
    requires ValidConfig(c) && StoreOk(c, st) && n <= |es| && st.failed != {}
    requires forall e :: e in es ==> ServableEvent(c, e) && Ordinary(c, e)
    ensures AfterEvents(c, st, es, n) == st
  {
    if n > 0 {
      RefusedWhileFailed(c, st, es, n - 1);
      assert es[n-1] in es;
    }
  }

  lemma FailedAfterOne(c: Config, st: Store, e: Event)
    requires ValidConfig(c) && StoreOk(c, st) && ServableEvent(c, e)
    ensures AfterEvent(c, st, e).failed == if e == Abort(RESUME_EXEC_TASK) then {} else st.failed
  {
  }

  /** Serving requests changes the error states only by a resume request, which clears them. */
  lemma {:induction false} FailedAfter(c: Config, st: Store, es: seq<Event>, n: nat)
    requires ValidConfig(c) && StoreOk(c, st) && n <= |es|
    requires forall e :: e in es ==> ServableEvent(c, e)
    ensures AfterEvents(c, st, es, n).failed == if Abort(RESUME_EXEC_TASK) in es[..n] then {} else st.failed
  {
    if n > 0 {
      FailedAfter(c, st, es, n - 1);
      assert es[n-1] in es && es[..n] == es[..n-1] + [es[n-1]];
      FailedAfterOne(c, AfterEvents(c, st, es, n - 1), es[n-1]);
    }
  }

  function Aperiodic(periodic: seq<bool>): set<int> {
    set t | 0 <= t < |periodic| && !periodic[t]
  }

  /** One turn of the control task's loop while it holds both locks. */
  ghost function AfterSection(c: Config, st: Store, es: seq<Event>): Store
    requires ValidConfig(c) && StoreOk(c, st)
    requires forall e :: e in es ==> ServableEvent(c, e)
  {
    var st1 := st.(acts := AcknowledgeAll(st.acts));
    var st2 := AfterEvents(c, st1, es, |es|);
    var st3 := if es == [] then st2 else st2.(pending := st2.pending + Aperiodic(c.periodic));
    st3.(acts := SpawnAll(st3.acts),
         pending := st3.pending + SpawnSignals(st3.acts, |st3.acts|, c.periodic))
  }

  ghost function View(s: Sdi): Store
    reads s, s.tab
  {
    Store(s.tab[..], s.lastNum, s.lastId, s.pending, s.failed)
  }

  ghost predicate Serves(s: Sdi, c: Config)
    reads s
  {
    s.nbRqst == |c.requests| && s.periodic == c.periodic
  }

  method ExecutionRequest(s: Sdi, c: Config, r: nat, accepted: bool, codelOk: bool) returns (activity: int)
    requires s.Valid() && ValidConfig(c) && Serves(s, c)
    requires r < |c.requests| && c.requests[r].kind != ControlRqst
    modifies s, s.tab, s.nbActi
    ensures s.Valid()
    ensures View(s) == AfterExecution(c, old(View(s)), r, accepted, codelOk)
  {
    if c.requests[r].kind != InitRqst {
      if s.failed != {} || !accepted {
        return -1;
      }
    }
    activity := AllocActivity(s, r, c.requests[r].task.value);
    if activity != -1 {
      Admit(s, c, r, activity, codelOk);
    }
  }

  /** What becomes of a newly allocated activity. */
  method Admit(s: Sdi, c: Config, r: nat, activity: nat, codelOk: bool)
    requires s.Valid() && ValidConfig(c) && Serves(s, c) && r < |c.requests| && activity < s.tab.Length
    requires Live(s.tab[activity]) && s.tab[activity].incomp == []
    modifies s`nbActivities, s`nbZombie, s`pending, s.tab, s.nbActi
    ensures s.Valid()
    ensures var acts := old(s.tab[..]);
            && s.tab[..] == (if codelOk then Interrupted(acts, activity, c.compat[r])
                             else acts[activity := Freed(acts[activity])])
            && s.pending == old(s.pending)
                 + if codelOk then AbortSignals(acts, activity, c.compat[r], |acts|, c.periodic) else {}
  {
    if !codelOk {
      FreeActivity(s, activity);
      return;
    }
    AbortIncompatible(s, activity, c.compat[r]);
  }

  method ControlRequest(s: Sdi, c: Config, r: nat)
    requires s.Valid() && ValidConfig(c) && Serves(s, c) && r < |c.requests|
    modifies s, s.tab, s.nbActi
    ensures s.Valid()
    ensures View(s) == AfterControl(c, old(View(s)), r)
  {
    if s.failed != {} {
      return;
    }
    AbortIncompatible(s, -1, c.compat[r]);
  }

  /** The abort request: an activity number, or one of the negative commands. `ends` is the answer to
      the command to end the module: granted if no activity is left. */
  method AbortRequest(s: Sdi, c: Config, number: int) returns (ends: bool)
    requires s.Valid() && ValidConfig(c) && Serves(s, c)
    modifies s, s.tab, s.nbActi
    ensures s.Valid()
    ensures View(s) == AfterAbort(c, old(View(s)), number)
    ensures ends <==> number == END_MODULE && NobodyLive(old(s.tab[..]))
  {
    ends := false;
    if number < 0 {
      if number == RESUME_EXEC_TASK {
        s.failed := {};
      } else if number == END_MODULE {
        NobodyCounted(s.tab[..]);
        ends := s.nbActivities == 0;
      }
    } else if number <= s.lastId {
      var activity := FindNumber(s, number);
      if activity < s.tab.Length && s.tab[activity].status != Ether {
        var done := AbortActivity(s, activity);
      }
    }
  }

  lemma NobodyCounted(acts: seq<Activity>)
    ensures Total(acts, AllLive) == 0 <==> NobodyLive(acts)
  {
    CountMonotonic(acts, AllLive, 0, |acts|);
    assert forall i :: 0 <= i < |acts| ==> Counted(acts[i], AllLive) == Live(acts[i]);
  }

  /** The search for an activity number; the length of the table if no slot holds it. */
  method FindNumber(s: Sdi, number: int) returns (activity: nat)
    ensures SlotOf(s.tab[..], number, 0) == if activity < s.tab.Length then Some(activity) else None
  {
    activity := 0;
    while activity < s.tab.Length && s.tab[activity].id != number
      invariant activity <= s.tab.Length
      invariant SlotOf(s.tab[..], number, 0) == SlotOf(s.tab[..], number, activity)
    {
      activity := activity + 1;
    }
  }

  method Serve(s: Sdi, c: Config, e: Event) returns (ends: bool)
    requires s.Valid() && ValidConfig(c) && Serves(s, c) && ServableEvent(c, e)
    modifies s, s.tab, s.nbActi
    ensures s.Valid()
    ensures View(s) == AfterEvent(c, old(View(s)), e)
    ensures ends <==> e == Abort(END_MODULE) && NobodyLive(old(s.tab[..]))
  {
    ends := false;
    match e {
      case Execution(r, accepted, codelOk) =>
        var activity := ExecutionRequest(s, c, r, accepted, codelOk);
      case Control(r) =>
        ControlRequest(s, c, r);
      case Abort(number) =>
        ends := AbortRequest(s, c, number);
    }
  }

  /** The end of the module: every execution task's flag is raised, and the aperiodic ones are signalled. */
  method StopTasks(s: Sdi)
    requires s.Valid()
    modifies s`pending, s.wakeUp
    ensures s.Valid() && forall t :: 0 <= t < s.NbTask() ==> s.wakeUp[t]
    ensures s.pending == old(s.pending) + Aperiodic(s.periodic)
  {
    var i := s.wakeUp.Length;
    while i > 0
      invariant 0 <= i <= s.wakeUp.Length && s.pending == old(s.pending)
      invariant forall t :: i <= t < s.wakeUp.Length ==> s.wakeUp[t]
    {
      i := i - 1;
      s.wakeUp[i] := true;
    }
    i := s.wakeUp.Length;
    while i > 0
      invariant 0 <= i <= s.wakeUp.Length
      invariant forall t :: 0 <= t < s.wakeUp.Length ==> s.wakeUp[t]
      invariant s.pending == old(s.pending) + AperiodicFrom(s.periodic, i)
    {
      i := i - 1;
      OneMoreAperiodic(s.periodic, i);
      if !s.periodic[i] {
        s.pending := s.pending + {i};
      }
    }
    assert AperiodicFrom(s.periodic, 0) == Aperiodic(s.periodic);
  }

  function AperiodicFrom(periodic: seq<bool>, n: nat): set<int> {
    set t | n <= t < |periodic| && !periodic[t]
  }

  lemma OneMoreAperiodic(periodic: seq<bool>, n: nat)
    requires n < |periodic|
    ensures AperiodicFrom(periodic, n) == AperiodicFrom(periodic, n + 1) + if periodic[n] then {} else {n}
  {
  }

  /** A turn of the control task. Normally all requests are served. A request that ends the module leaves
      the turn after the n requests before it; SIGTERM, received before the turn, ends the module before
      anything else is done. `ended` says that the module has been ended. */
  method ControlSection(s: Sdi, c: Config, signalAbort: bool, es: seq<Event>) returns (n: nat, ended: bool)
    requires s.Valid() && ValidConfig(c) && Serves(s, c) && ServableEvents(c, es)
    modifies s, s.tab, s.nbActi, s.wakeUp
    ensures s.Valid() && n <= |es|
    ensures GoesOn(c, old(View(s)), es[..n]) && ServableEvents(c, es[..n])
    ensures !ended ==> n == |es| && View(s) == AfterSection(c, old(View(s)), es)
    ensures !ended ==> !signalAbort && s.wakeUp[..] == old(s.wakeUp[..])
    ensures ended ==> forall t :: 0 <= t < s.NbTask() ==> s.wakeUp[t]
    ensures signalAbort ==>
              n == 0 && ended && View(s) == old(View(s)).(pending := old(s.pending) + Aperiodic(c.periodic))
    ensures ended && !signalAbort ==> n < |es| && es[n] == Abort(END_MODULE) && NobodyLive(s.tab[..])
    ensures ended && !signalAbort ==>
              var st := Served(c, old(View(s)), es[..n], n);
              View(s) == st.(pending := st.pending + Aperiodic(c.periodic))
  {
    if signalAbort {
      StopTasks(s);
      return 0, true;
    }
    n, ended := RequestsServed(s, c, es);
    if ended {
      StopTasks(s);
      return;
    }
    assert es[..n] == es;
    if es != [] {
      s.pending := s.pending + Aperiodic(c.periodic);
    }
    SpawnActivities(s);
  }

  /** The first half of a turn: acknowledging, and serving requests up to one that ends the module. */
  method RequestsServed(s: Sdi, c: Config, es: seq<Event>) returns (n: nat, ended: bool)
    requires s.Valid() && ValidConfig(c) && Serves(s, c) && ServableEvents(c, es)
    modifies s, s.tab, s.nbActi
    ensures s.Valid() && Serves(s, c) && n <= |es| && (!ended ==> n == |es|)
    ensures GoesOn(c, old(View(s)), es[..n]) && ServableEvents(c, es[..n])
    ensures View(s) == Served(c, old(View(s)), es[..n], n)
    ensures ended ==> n < |es| && es[n] == Abort(END_MODULE) && NobodyLive(s.tab[..])
  {
    IntEvnExec(s);
    ghost var st := View(s);
    n, ended := ServeAll(s, c, es);
    PrefixServed(c, st, es, n);
  }

  /** Serving a prefix of the requests does not depend on the others. */
  lemma {:induction false} PrefixServed(c: Config, st: Store, es: seq<Event>, n: nat)
    requires ValidConfig(c) && StoreOk(c, st) && ServableEvents(c, es) && n <= |es|
    ensures ServableEvents(c, es[..n]) && AfterEvents(c, st, es[..n], n) == AfterEvents(c, st, es, n)
    ensures forall k :: 0 <= k < n ==> Ends(c, st, es[..n], k) == Ends(c, st, es, k)
  {
    var front := es[..n];
    assert forall e :: e in front ==> e in es;
    forall k | 0 <= k <= n ensures AfterEvents(c, st, front, k) == AfterEvents(c, st, es, k) {
      SameServed(c, st, front, es, k);
    }
    assert forall k :: 0 <= k < n ==> front[k] == es[k];
  }

  lemma {:induction false} SameServed(c: Config, st: Store, es: seq<Event>, fs: seq<Event>, k: nat)
    requires ValidConfig(c) && StoreOk(c, st) && ServableEvents(c, es) && ServableEvents(c, fs)
    requires k <= |es| && k <= |fs| && forall i :: 0 <= i < k ==> es[i] == fs[i]
    ensures AfterEvents(c, st, es, k) == AfterEvents(c, st, fs, k)
  {
    if k > 0 {
      SameServed(c, st, es, fs, k - 1);
    }
  }

  method ServeAll(s: Sdi, c: Config, es: seq<Event>) returns (n: nat, ended: bool)
    requires s.Valid() && ValidConfig(c) && Serves(s, c) && ServableEvents(c, es)
    modifies s, s.tab, s.nbActi
    ensures ServingAt(s, c, old(View(s)), es, n)
    ensures if ended then n < |es| && Ends(c, old(View(s)), es, n) else n == |es|
  {
    n, ended := 0, false;
    while n < |es|
      invariant ServingAt(s, c, old(View(s)), es, n)
    {
      ended := ServeNext(s, c, old(View(s)), es, n);
      if ended {
        return;
      }
      n := n + 1;
    }
  }

  /** The first n of the requests have been served, and none of them has ended the module. */
  ghost predicate ServingAt(s: Sdi, c: Config, st: Store, es: seq<Event>, n: int)
    reads s, s.tab, s.nbActi
  {
    && s.Valid() && ValidConfig(c) && Serves(s, c) && StoreOk(c, st) && 0 <= n <= |es|
    && ServableEvents(c, es)
    && View(s) == AfterEvents(c, st, es, n)
    && NoneEnds(c, st, es, n)
  }

  method ServeNext(s: Sdi, c: Config, ghost st: Store, es: seq<Event>, n: nat) returns (ended: bool)
    requires n < |es| && ServingAt(s, c, st, es, n)
    modifies s, s.tab, s.nbActi
    ensures ended <==> Ends(c, st, es, n)
    ensures ServingAt(s, c, st, es, if ended then n else n + 1)
  {
    assert es[n] in es;
    ended := Serve(s, c, es[n]);
    ServingOneMore(s, c, st, es, n, ended);
  }

  lemma ServingOneMore(s: Sdi, c: Config, st: Store, es: seq<Event>, n: nat, ended: bool)
    requires s.Valid() && ValidConfig(c) && Serves(s, c) && StoreOk(c, st) && ServableEvents(c, es) && n < |es|
    requires ServableEvent(c, es[n]) && View(s) == AfterEvent(c, AfterEvents(c, st, es, n), es[n])
    requires (ended <==> Ends(c, st, es, n)) && NoneEnds(c, st, es, n)
    ensures ServingAt(s, c, st, es, if ended then n else n + 1)
  {
    ServedOneMore(c, st, es, n);
  }

  lemma ServedOneMore(c: Config, st: Store, es: seq<Event>, n: nat)
    requires ValidConfig(c) && StoreOk(c, st) && ServableEvents(c, es) && n < |es|
    ensures ServableEvent(c, es[n])
    ensures AfterEvents(c, st, es, n + 1) == AfterEvent(c, AfterEvents(c, st, es, n), es[n])
    ensures Ends(c, st, es, n) ==> AfterEvents(c, st, es, n + 1) == AfterEvents(c, st, es, n)
    ensures NoneEnds(c, st, es, n) && !Ends(c, st, es, n) ==> NoneEnds(c, st, es, n + 1)
  {
    assert es[n] in es;
    NothingElseDone(c, AfterEvents(c, st, es, n));
  }

  /** The request to end the module leaves the table alone. */
  lemma NothingElseDone(c: Config, st: Store)
    requires ValidConfig(c) && StoreOk(c, st)
    ensures AfterEvent(c, st, Abort(END_MODULE)) == st
  {
  }
}

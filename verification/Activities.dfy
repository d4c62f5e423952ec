/** The activity table of a GenoM module: activity states and events, the
    transition rules every execution task applies, and the counting of slots. */
module Activities {

  /** ACTIVITY_STATE and ACTIVITY_EVENT share one C enumeration. A codel is a C
      function, so it may also return an integer outside the enumeration. */
  datatype State =
    | Ether | Init | Start | Exec | End | Fail | Inter | Zombie | NoEvent | Sleep
    | Unknown(code: int)

  /** One call of a codel: the state it was called for and the event it returned. */
  datatype Call = Call(state: State, result: State)

  /** ACTIVITY_DESCRIPTION. `incomp` is the list incompatibleActivities[0..nbIncompatibles-1];
      `calls` is a history of the codel calls made for this activity, not a C field. */
  datatype Activity = Activity(
    status: State, evn: State, rqst: int, id: int, task: int,
    incomp: seq<int>, calls: seq<Call>)

  predicate Live(a: Activity) {
    a.status != Ether
  }

  predicate NobodyLive(acts: seq<Activity>) {
    forall i :: 0 <= i < |acts| ==> !Live(acts[i])
  }

  /** Accepted, but not yet told to start. */
  predicate Waiting(a: Activity) {
    a.status == Init && a.evn == NoEvent
  }

  /** The events an execution task acts on by calling a codel. */
  predicate ForExecTask(e: State) {
    e == Start || e == Exec || e == End || e == Fail || e == Inter
  }

  /** The events only the control task acts on. */
  predicate ForControlTask(e: State) {
    e == Ether || e == Zombie || e == Sleep
  }

  /** The transition table of filterAndSendEvn. */
  predicate Permitted(state: State, evn: State) {
    match state
    case Start => evn in {Exec, End, Fail, Ether, Zombie, Sleep, Start}
    case Exec => evn in {Exec, End, Fail, Ether, Zombie, Sleep}
    case End => evn in {Zombie, Ether, End, Fail}
    case Fail => evn == Zombie
    case Inter => evn in {Zombie, Ether, Fail, Inter}
    case _ => false
  }

  /** freeActivity leaves the slot's other fields as they are. */
  function Freed(a: Activity): Activity {
    a.(status := Ether, evn := NoEvent, task := -1)
  }

  predicate SlotNumbers(list: seq<int>, max: nat) {
    forall k :: 0 <= k < |list| ==> 0 <= list[k] < max
  }

  /** What each slot of the table satisfies whatever codels return. */
  predicate SlotOk(a: Activity, max: nat, nbTask: nat, nbRqst: nat) {
    && (a.status == Ether ==> a.evn == NoEvent && a.task == -1)
    && (a.status != Ether ==> 0 <= a.task < nbTask && 0 <= a.rqst < nbRqst)
    && (a.status == Zombie ==> a.evn == NoEvent)
    && (a.status == Init ==> a.evn == NoEvent || a.evn == Start)
    && (a.status == Sleep ==> a.evn == NoEvent || a.evn == Inter)
    && a.status != NoEvent && !a.status.Unknown?
    && SlotNumbers(a.incomp, max)
  }

  predicate TableOk(acts: seq<Activity>, nbTask: nat, nbRqst: nat) {
    forall i :: 0 <= i < |acts| ==> SlotOk(acts[i], |acts|, nbTask, nbRqst)
  }

  /** The three populations the control task keeps counters of. */
  datatype Population = OwnedBy(task: int) | AllLive | Zombies

  predicate Counted(a: Activity, p: Population) {
    match p
    case OwnedBy(t) => a.task == t
    case AllLive => Live(a)
    case Zombies => a.status == Zombie
  }

  /** How many of the first n slots belong to a population. */
  function Count(acts: seq<Activity>, p: Population, n: nat): nat
    requires n <= |acts|
  {
    if n == 0 then 0
    else Count(acts, p, n - 1) + if Counted(acts[n-1], p) then 1 else 0
  }

  function Total(acts: seq<Activity>, p: Population): nat {
    Count(acts, p, |acts|)
  }

  lemma {:induction false} CountUpdate(acts: seq<Activity>, p: Population, n: nat, i: nat, a: Activity)
    requires n <= |acts| && i < |acts|
    ensures Count(acts[i := a], p, n) ==
            Count(acts, p, n)
            - (if i < n && Counted(acts[i], p) then 1 else 0)
            + (if i < n && Counted(a, p) then 1 else 0)
  {
    if n > 0 {
      CountUpdate(acts, p, n - 1, i, a);
    }
  }

  lemma {:induction false} CountMonotonic(acts: seq<Activity>, p: Population, m: nat, n: nat)
    requires m <= n <= |acts|
    ensures Count(acts, p, m) <= Count(acts, p, n)
    ensures Count(acts, p, m) == Count(acts, p, n) <==>
            forall i :: m <= i < n ==> !Counted(acts[i], p)
  {
    if m < n {
      CountMonotonic(acts, p, m, n - 1);
      if Count(acts, p, m) == Count(acts, p, n) {
        assert Count(acts, p, n - 1) <= Count(acts, p, n);
      }
    }
  }

  /** Two tables whose slots belong to the same populations have the same totals. */
  lemma {:induction false} CountSame(a: seq<Activity>, b: seq<Activity>, p: Population, n: nat)
    requires n <= |a| && n <= |b|
    requires forall i :: 0 <= i < n ==> (Counted(a[i], p) <==> Counted(b[i], p))
    ensures Count(a, p, n) == Count(b, p, n)
  {
    if n > 0 {
      CountSame(a, b, p, n - 1);
    }
  }
}

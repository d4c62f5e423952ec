/** One iteration of an execution task (canvas/server/execTask.c) between taking and
    giving the data structures: the scan of the activity table, which stops early on
    the recorded number of activities, and the signals sent afterwards. */
module ExecTask {
  import opened Wrappers
  import opened Activities
  import opened CodelTables
  import opened ControlBase
  import opened ControlTask

  /** A task's generated tables and the answers of the codels in one iteration. */
  datatype Program = Program(tables: Tables, codels: Oracle)

  /** The event examined in a slot: sleeping activities are woken up. */
  function Considered(a: Activity): State {
    if a.status == Sleep && a.evn == NoEvent then Exec else a.evn
  }

  predicate Dispatched(a: Activity) {
    ForExecTask(Considered(a))
  }

  /** The dispatches that restart the maximum period, and those that keep an iteration from counting
      for the mean duration. */
  predicate Starting(a: Activity) {
    Considered(a) == Start
  }

  predicate OtherThanExec(a: Activity) {
    Dispatched(a) && Considered(a) != Exec
  }

  predicate Fits(a: Activity, p: Program) {
    Dispatched(a) ==>
      && 0 <= a.rqst < |p.tables.exec| && a.rqst < |p.tables.start| && a.rqst < |p.tables.end|
      && a.rqst < |p.tables.fail| && a.rqst < |p.tables.inter|
  }

  function Result(a: Activity, i: nat, p: Program): State
    requires Fits(a, p) && Dispatched(a)
  {
    UserFunc(p.tables, Considered(a), a.rqst, i, p.codels)
  }

  /** One slot after its codel has been called for the event it held. */
  function Stepped(a: Activity, i: nat, p: Program): Activity
    requires Fits(a, p)
  {
    if Dispatched(a) then
      var r := Result(a, i, p);
      a.(status := Considered(a), evn := r, calls := a.calls + [Call(Considered(a), r)])
    else a
  }

  /** Does handling the slot suspend the task? */
  predicate Suspending(a: Activity, i: nat, p: Program)
    requires Fits(a, p)
  {
    || Considered(a).Unknown?
    || (Dispatched(a) && !Permitted(Considered(a), Result(a, i, p)))
  }

  /** The two answers of filterAndSendEvn: wake the control task, run again. */
  predicate Transition(a: Activity, i: nat, p: Program)
    requires Fits(a, p)
  {
    Dispatched(a) && Permitted(Considered(a), Result(a, i, p)) && Considered(a) != Result(a, i, p)
  }

  predicate RunsAgain(a: Activity, i: nat, p: Program)
    requires Fits(a, p)
  {
    Dispatched(a) && Permitted(Considered(a), Result(a, i, p)) && Result(a, i, p) != Sleep
  }

  /** The slots of task t hold request numbers its tables are indexed by. */
  ghost predicate Covered(acts: seq<Activity>, t: int, p: Program) {
    forall i :: 0 <= i < |acts| && acts[i].task == t ==> Fits(acts[i], p)
  }

  /** The reference: step every slot of task t below k, leave every other slot alone. */
  function StepUpTo(acts: seq<Activity>, t: int, p: Program, k: nat): seq<Activity>
    requires Covered(acts, t, p)
  {
    seq(|acts|, i requires 0 <= i < |acts| =>
      if i < k && acts[i].task == t then Stepped(acts[i], i, p) else acts[i])
  }

  lemma StepOneMore(acts: seq<Activity>, t: int, p: Program, k: nat)
    requires Covered(acts, t, p) && k < |acts|
    ensures StepUpTo(acts, t, p, k)[k] == acts[k]
    ensures StepUpTo(acts, t, p, k + 1) ==
            StepUpTo(acts, t, p, k)[k := if acts[k].task == t then Stepped(acts[k], k, p) else acts[k]]
  {
  }

  ghost predicate SuspendsAt(acts: seq<Activity>, t: int, p: Program, i: nat)
    requires Covered(acts, t, p) && i < |acts|
  {
    acts[i].task == t && Suspending(acts[i], i, p)
  }

  ghost predicate NoSuspension(acts: seq<Activity>, t: int, p: Program, k: nat)
    requires Covered(acts, t, p) && k <= |acts|
  {
    forall i :: 0 <= i < k ==> !SuspendsAt(acts, t, p, i)
  }

  /** Does some slot of task t below k report a transition; does some ask to run again? */
  ghost predicate AnyTransition(acts: seq<Activity>, t: int, p: Program, k: nat)
    requires Covered(acts, t, p) && k <= |acts|
  {
    k > 0 && (AnyTransition(acts, t, p, k - 1) || (acts[k-1].task == t && Transition(acts[k-1], k - 1, p)))
  }

  ghost predicate AnyRunsAgain(acts: seq<Activity>, t: int, p: Program, k: nat)
    requires Covered(acts, t, p) && k <= |acts|
  {
    k > 0 && (AnyRunsAgain(acts, t, p, k - 1) || (acts[k-1].task == t && RunsAgain(acts[k-1], k - 1, p)))
  }

  /** Is a START event dispatched below slot k; is anything but EXEC? */
  ghost predicate AnyStart(acts: seq<Activity>, t: int, p: Program, k: nat)
    requires Covered(acts, t, p) && k <= |acts|
  {
    k > 0 && (AnyStart(acts, t, p, k - 1) || (acts[k-1].task == t && Starting(acts[k-1])))
  }

  ghost predicate AnyOther(acts: seq<Activity>, t: int, p: Program, k: nat)
    requires Covered(acts, t, p) && k <= |acts|
  {
    k > 0 && (AnyOther(acts, t, p, k - 1) || (acts[k-1].task == t && OtherThanExec(acts[k-1])))
  }

  lemma {:induction false} AnyDispatchMeansExists(acts: seq<Activity>, t: int, p: Program, k: nat)
    requires Covered(acts, t, p) && k <= |acts|
    ensures AnyStart(acts, t, p, k) <==> exists i :: 0 <= i < k && acts[i].task == t && Starting(acts[i])
    ensures AnyOther(acts, t, p, k) <==> exists i :: 0 <= i < k && acts[i].task == t && OtherThanExec(acts[i])
  {
    if k > 0 {
      AnyDispatchMeansExists(acts, t, p, k - 1);
    }
  }

  lemma {:induction false} AnyMeansExists(acts: seq<Activity>, t: int, p: Program, k: nat)
    requires Covered(acts, t, p) && k <= |acts|
    ensures AnyTransition(acts, t, p, k) <==>
            exists i :: 0 <= i < k && acts[i].task == t && Transition(acts[i], i, p)
    ensures AnyRunsAgain(acts, t, p, k) <==>
            exists i :: 0 <= i < k && acts[i].task == t && RunsAgain(acts[i], i, p)
  {
    if k > 0 {
      AnyMeansExists(acts, t, p, k - 1);
    }
  }

  /** The local variables of the loop: slots visited, the control task to be woken up, the effect on
      the time statistics. */
  datatype Tally = Tally(nb: nat, wake: bool, start: bool, other: bool)

  ghost function TallyAt(acts: seq<Activity>, t: int, p: Program, i: nat): Tally
    requires Covered(acts, t, p) && i <= |acts|
  {
    Tally(Count(acts, OwnedBy(t), i), AnyTransition(acts, t, p, i), AnyStart(acts, t, p, i), AnyOther(acts, t, p, i))
  }

  /** The loop of the source, for any recorded count nbActi. i is the slot it stops before. */
  method Scan(s: Sdi, t: nat, p: Program, nbActi: int) returns (i: nat, tally: Tally, suspended: bool)
    requires s.Valid() && t < s.NbTask() && Covered(s.tab[..], t, p)
    modifies s`pending, s`failed, s.tab
    ensures s.Valid() && i <= s.tab.Length
    ensures s.tab[..] == StepUpTo(old(s.tab[..]), t, p, i)
    ensures tally == TallyAt(old(s.tab[..]), t, p, i)
    ensures !suspended ==> NoSuspension(old(s.tab[..]), t, p, i) && (i == s.tab.Length || nbActi <= tally.nb)
    ensures tally.nb <= nbActi || i == 0
    ensures suspended ==>
              && 0 < i && SuspendsAt(old(s.tab[..]), t, p, i - 1) && NoSuspension(old(s.tab[..]), t, p, i - 1)
    ensures s.pending == old(s.pending)
              + (if !s.periodic[t] && AnyRunsAgain(old(s.tab[..]), t, p, i) then {t} else {})
              + (if suspended then {s.NbTask()} else {})
    ensures s.failed == old(s.failed) + if suspended then {t} else {}
  {
    ScanBegins(s, t, p);
    i, tally, suspended := ScanLoop(s, t, p, nbActi);
  }

  method ScanLoop(s: Sdi, t: nat, p: Program, nbActi: int) returns (i: nat, tally: Tally, suspended: bool)
    requires ScanningAt(s, t, p, 0, s.tab[..], s.pending, s.failed, Tally(0, false, false, false), false)
    modifies s`pending, s`failed, s.tab
    ensures ScanningAt(s, t, p, i, old(s.tab[..]), old(s.pending), old(s.failed), tally, suspended)
    ensures tally.nb <= nbActi || i == 0
    ensures !suspended ==> i == s.tab.Length || nbActi <= tally.nb
  {
    i, tally, suspended := 0, Tally(0, false, false, false), false;
    ghost var was, pending, failed := s.tab[..], s.pending, s.failed;
    var max := s.tab.Length;
    while tally.nb < nbActi && i < max && !suspended
      invariant i <= max && (tally.nb <= nbActi || i == 0)
      invariant ScanningAt(s, t, p, i, was, pending, failed, tally, suspended)
      decreases max - i
    {
      tally, suspended := ScanNext(s, t, p, i, tally, was, pending, failed);
      i := i + 1;
    }
  }

  lemma ScanBegins(s: Sdi, t: nat, p: Program)
    requires s.Valid() && t < s.NbTask() && Covered(s.tab[..], t, p)
    ensures ScanningAt(s, t, p, 0, s.tab[..], s.pending, s.failed, Tally(0, false, false, false), false)
  {
    assert StepUpTo(s.tab[..], t, p, 0) == s.tab[..];
  }

  ghost function ScanSignals(acts: seq<Activity>, t: nat, p: Program, i: nat, suspended: bool,
                             periodic: seq<bool>): set<int>
    requires Covered(acts, t, p) && i <= |acts| && t < |periodic|
  {
    (if !periodic[t] && AnyRunsAgain(acts, t, p, i) then {t} else {})
    + (if suspended then {|periodic|} else {})
  }

  /** The loop has come to slot i of the table `was`; suspended by the slot before it, or not. */
  ghost predicate ScanningAt(s: Sdi, t: nat, p: Program, i: nat, was: seq<Activity>, pending: set<int>,
                             failed: set<int>, tally: Tally, suspended: bool)
    reads s, s.tab, s.nbActi
  {
    && s.Valid() && t < s.NbTask() && i <= |was| == s.tab.Length && Covered(was, t, p)
    && s.tab[..] == StepUpTo(was, t, p, i) && tally == TallyAt(was, t, p, i)
    && (suspended ==> 0 < i && SuspendsAt(was, t, p, i - 1) && NoSuspension(was, t, p, i - 1))
    && (!suspended ==> NoSuspension(was, t, p, i))
    && s.pending == pending + ScanSignals(was, t, p, i, suspended, s.periodic)
    && s.failed == failed + if suspended then {t} else {}
  }

  method ScanNext(s: Sdi, t: nat, p: Program, i: nat, tally: Tally, ghost was: seq<Activity>,
                  ghost pending: set<int>, ghost failed: set<int>)
    returns (tally': Tally, suspended: bool)
    requires i < |was| && ScanningAt(s, t, p, i, was, pending, failed, tally, false)
    modifies s`pending, s`failed, s.tab
    ensures ScanningAt(s, t, p, i + 1, was, pending, failed, tally', suspended)
    ensures tally'.nb <= tally.nb + 1
  {
    StepOneMore(was, t, p, i);
    var more;
    more, suspended := Visit(s, t, p, i);
    tally' := Tally(tally.nb + more.nb, tally.wake || more.wake, tally.start || more.start, tally.other || more.other);
    TallyOneMore(was, t, p, i);
    SignalsOneMore(was, t, p, i, suspended, s.periodic);
  }

  lemma TallyOneMore(acts: seq<Activity>, t: nat, p: Program, i: nat)
    requires Covered(acts, t, p) && i < |acts|
    ensures var tally, more := TallyAt(acts, t, p, i), TallyOf(acts[i], t, i, p);
            TallyAt(acts, t, p, i + 1) == Tally(tally.nb + more.nb, tally.wake || more.wake,
                                                tally.start || more.start, tally.other || more.other)
  {
  }

  lemma SignalsOneMore(acts: seq<Activity>, t: nat, p: Program, i: nat, suspended: bool, periodic: seq<bool>)
    requires Covered(acts, t, p) && i < |acts| && t < |periodic|
    ensures ScanSignals(acts, t, p, i + 1, suspended, periodic)
              == ScanSignals(acts, t, p, i, false, periodic)
                 + (if !periodic[t] && acts[i].task == t && RunsAgain(acts[i], i, p) then {t} else {})
                 + (if suspended then {|periodic|} else {})
  {
  }

  /** What one slot adds to the tally. */
  function TallyOf(a: Activity, t: int, i: nat, p: Program): Tally
    requires a.task == t ==> Fits(a, p)
  {
    if a.task == t then Tally(1, Transition(a, i, p), Starting(a), OtherThanExec(a)) else Tally(0, false, false, false)
  }

  method Visit(s: Sdi, t: nat, p: Program, i: nat) returns (tally: Tally, suspended: bool)
    requires s.Valid() && t < s.NbTask() && i < s.tab.Length && (s.tab[i].task == t ==> Fits(s.tab[i], p))
    modifies s`pending, s`failed, s.tab
    ensures s.Valid()
    ensures tally == TallyOf(old(s.tab[i]), t, i, p)
    ensures s.tab[..] ==
              old(s.tab[..])[i := if old(s.tab[i]).task == t then Stepped(old(s.tab[i]), i, p) else old(s.tab[i])]
    ensures suspended <==> old(s.tab[i]).task == t && Suspending(old(s.tab[i]), i, p)
    ensures s.pending == old(s.pending)
              + (if !s.periodic[t] && old(s.tab[i]).task == t && RunsAgain(old(s.tab[i]), i, p) then {t} else {})
              + (if suspended then {s.NbTask()} else {})
    ensures s.failed == old(s.failed) + if suspended then {t} else {}
  {
    tally, suspended := Tally(0, false, false, false), false;
    ghost var was := s.tab[..];
    assert was[i := was[i]] == was;
    if s.tab[i].task == t {
      tally, suspended := Handle(s, t, p, i);
    }
  }

  /** The body of the loop for one slot of the task: wake up, dispatch, filter. */
  method Handle(s: Sdi, t: nat, p: Program, i: nat) returns (tally: Tally, suspended: bool)
    requires s.Valid() && t < s.NbTask() && i < s.tab.Length && s.tab[i].task == t && Fits(s.tab[i], p)
    modifies s`pending, s`failed, s.tab
    ensures s.Valid()
    ensures s.tab[..] == old(s.tab[..])[i := Stepped(old(s.tab[i]), i, p)]
    ensures tally == TallyOf(old(s.tab[i]), t, i, p)
    ensures suspended <==> Suspending(old(s.tab[i]), i, p)
    ensures s.pending == old(s.pending)
              + (if !s.periodic[t] && RunsAgain(old(s.tab[i]), i, p) then {t} else {})
              + (if suspended then {s.NbTask()} else {})
    ensures s.failed == old(s.failed) + if suspended then {t} else {}
  {
    var a := s.tab[i];
    ghost var was := s.tab[..];
    assert was[i := was[i]] == was;
    tally := Tally(1, false, false, false);
    if a.status == Sleep && a.evn == NoEvent {
      a := a.(evn := Exec);
    }
    if a.evn.Unknown? {
      Suspend(s, t);
      return tally, true;
    }
    if !ForExecTask(a.evn) {
      return tally, false;
    }
    tally := Tally(1, false, a.evn == Start, a.evn != Exec);
    var state := a.evn;
    var evn := UserFunc(p.tables, state, a.rqst, i, p.codels);
    Write(s, i, a.(status := state, evn := evn, calls := a.calls + [Call(state, evn)]));
    if Permitted(state, evn) {
      if !s.periodic[t] && evn != Sleep {
        s.pending := s.pending + {t};
      }
      return tally.(wake := state != evn), false;
    } else {
      Suspend(s, t);
      return tally, true;
    }
  }

  /** Suspend: the task's status becomes ERROR and the control task is woken up. */
  method Suspend(s: Sdi, t: nat)
    modifies s`pending, s`failed
    ensures s.pending == old(s.pending) + {s.NbTask()} && s.failed == old(s.failed) + {t}
  {
    s.failed := s.failed + {t};
    s.pending := s.pending + {s.NbTask()};
  }

  /** Write a slot of the same task that is, as before, neither free nor a zombie. */
  method Write(s: Sdi, i: nat, a: Activity)
    requires s.Valid() && i < s.tab.Length && SlotOk(a, s.tab.Length, s.NbTask(), s.nbRqst)
    requires a.task == s.tab[i].task && Live(a) && Live(s.tab[i])
    requires a.status != Zombie && s.tab[i].status != Zombie
    modifies s.tab
    ensures s.Valid() && s.tab[..] == old(s.tab[..])[i := a]
  {
    ghost var was := s.tab[..];
    s.tab[i] := a;
    assert s.tab[..] == was[i := a];
    forall p: Population ensures Total(s.tab[..], p) == Total(was, p) {
      CountUpdate(was, p, |was|, i, a);
    }
  }

  /** For any recorded count, an unsuspended scan visits min(count, owned) slots of the task;
      if the count is the number of owned slots, the early exit changes nothing: the scan is
      the full map. */
  lemma EarlyExitIsFullMap(acts: seq<Activity>, t: int, p: Program, nbActi: nat, i: nat, nb: nat)
    requires Covered(acts, t, p) && i <= |acts|
    requires nb == Count(acts, OwnedBy(t), i) && (nb <= nbActi || i == 0)
    requires i == |acts| || nbActi <= nb
    ensures nb == if nbActi < Total(acts, OwnedBy(t)) then nbActi else Total(acts, OwnedBy(t))
    ensures nbActi == Total(acts, OwnedBy(t)) ==>
              && StepUpTo(acts, t, p, i) == StepUpTo(acts, t, p, |acts|)
              && (NoSuspension(acts, t, p, i) ==> NoSuspension(acts, t, p, |acts|))
              && (AnyTransition(acts, t, p, i) <==> AnyTransition(acts, t, p, |acts|))
              && (AnyRunsAgain(acts, t, p, i) <==> AnyRunsAgain(acts, t, p, |acts|))
              && TallyAt(acts, t, p, i) == TallyAt(acts, t, p, |acts|)
  {
    CountMonotonic(acts, OwnedBy(t), i, |acts|);
    AnyMeansExists(acts, t, p, i);
    AnyMeansExists(acts, t, p, |acts|);
    AnyDispatchMeansExists(acts, t, p, i);
    AnyDispatchMeansExists(acts, t, p, |acts|);
    if nbActi == Total(acts, OwnedBy(t)) {
      assert forall j :: i <= j < |acts| ==> !Counted(acts[j], OwnedBy(t));
      assert StepUpTo(acts, t, p, i) == StepUpTo(acts, t, p, |acts|);
    }
  }

  /** An activity of a request without codels goes from its START event to ETHER in three
      iterations of its task, through START, EXEC and END, whatever other codels answer. */
  lemma NoCodelsEnds(requests: seq<Request>, t: nat, a: Activity, i: nat, p1: Program, p2: Program, p3: Program)
    requires Generated(p1.tables, requests, t) && Generated(p2.tables, requests, t) && Generated(p3.tables, requests, t)
    requires 0 <= a.rqst < |requests| && a.evn == Start && a.status == Init
    requires forall state :: Declared(requests[a.rqst], state) == None
    ensures Fits(a, p1) && Fits(Stepped(a, i, p1), p2) && Fits(Stepped(Stepped(a, i, p1), i, p2), p3)
    ensures var b := Stepped(Stepped(Stepped(a, i, p1), i, p2), i, p3);
            && b.status == End && b.evn == Ether
            && b.calls == a.calls + [Call(Start, Exec), Call(Exec, End), Call(End, Ether)]
    ensures !Suspending(a, i, p1) && !Suspending(Stepped(a, i, p1), i, p2)
    ensures !Suspending(Stepped(Stepped(a, i, p1), i, p2), i, p3)
  {
    assert Declared(requests[a.rqst], Start) == None && Declared(requests[a.rqst], Exec) == None;
    assert Declared(requests[a.rqst], End) == None;
    var b := Stepped(a, i, p1);
    assert b == a.(status := Start, evn := Exec, calls := a.calls + [Call(Start, Exec)]);
    var b2 := Stepped(b, i, p2);
    assert b2 == a.(status := Exec, evn := End, calls := b.calls + [Call(Exec, End)]);
  }

  /** An interrupted activity without an interruption codel is over after one iteration, and one that
      failed without a failure codel is a zombie after one. */
  lemma EndsUnattended(requests: seq<Request>, t: nat, a: Activity, i: nat, p: Program)
    requires Generated(p.tables, requests, t) && 0 <= a.rqst < |requests|
    requires a.evn == Inter || a.evn == Fail
    requires requests[a.rqst].task != Some(t) || Declared(requests[a.rqst], a.evn) == None
    ensures Fits(a, p) && !Suspending(a, i, p) && Transition(a, i, p)
    ensures Stepped(a, i, p).evn == if a.evn == Inter then Ether else Zombie
  {
    assert Declared(requests[a.rqst], a.evn) == if a.evn == Inter then requests[a.rqst].codelInter
                                                else requests[a.rqst].codelFail;
  }

  // ----- the iteration around the scan

  /** The rest an iteration depends on: the permanent codels, and whether the task's report changed. */
  datatype Outcome = Outcome(main1Ok: bool, main2Ok: bool, reportChanged: bool)

  /** The first slot of task t from i on that suspends it, or the end of the table. */
  ghost function FirstSuspension(acts: seq<Activity>, t: int, p: Program, i: nat): (k: nat)
    requires Covered(acts, t, p) && i <= |acts|
    ensures i <= k <= |acts| && (k < |acts| ==> SuspendsAt(acts, t, p, k))
    ensures forall j :: i <= j < k ==> !SuspendsAt(acts, t, p, j)
    decreases |acts| - i
  {
    if i == |acts| || SuspendsAt(acts, t, p, i) then i else FirstSuspension(acts, t, p, i + 1)
  }

  function Raised(flags: seq<bool>): set<int> {
    set t | 0 <= t < |flags| && flags[t]
  }

  /** The slot before which the full map ends: after the first suspending slot, if any. */
  ghost function ScanEnd(acts: seq<Activity>, t: int, p: Program): (end: nat)
    requires Covered(acts, t, p)
    ensures end <= |acts|
  {
    var k := FirstSuspension(acts, t, p, 0);
    if k < |acts| then k + 1 else k
  }

  ghost predicate ScanSuspends(acts: seq<Activity>, t: int, p: Program)
    requires Covered(acts, t, p)
  {
    FirstSuspension(acts, t, p, 0) < |acts|
  }

  /** The signal a scan of an aperiodic task sends to that task itself. */
  ghost function SelfSignal(acts: seq<Activity>, periodic: seq<bool>, t: nat, p: Program): set<int>
    requires Covered(acts, t, p) && t < |periodic|
  {
    if !periodic[t] && AnyRunsAgain(acts, t, p, ScanEnd(acts, t, p)) then {t} else {}
  }

  /** One iteration, given the wake-up flags raised by its end: the new store, and whether
      the task suspended. The scan is the full map up to the first suspending slot. */
  ghost function AfterIteration(st: Store, periodic: seq<bool>, flags: seq<bool>, t: nat, p: Program, o: Outcome)
    : (Store, bool)
    requires Covered(st.acts, t, p) && t < |periodic|
  {
    var control := {|periodic|};
    var end := ScanEnd(st.acts, t, p);
    var st1 := st.(acts := StepUpTo(st.acts, t, p, end),
                   pending := st.pending + SelfSignal(st.acts, periodic, t, p));
    if !o.main1Ok then (st.(pending := st.pending + control, failed := st.failed + {t}), true)
    else if ScanSuspends(st.acts, t, p) || !o.main2Ok then
      (st1.(pending := st1.pending + control, failed := st.failed + {t}), true)
    else
      var wake := if AnyTransition(st.acts, t, p, end) || o.reportChanged then control else {};
      (st1.(pending := st1.pending + wake + Raised(flags)), false)
  }

  /** The scan as the source calls it, with the recorded count as loop bound. Valid() makes
      that count exact, so the early exit is never early. */
  method ScanRecorded(s: Sdi, t: nat, p: Program) returns (tally: Tally, suspended: bool)
    requires s.Valid() && t < s.NbTask() && Covered(s.tab[..], t, p)
    modifies s`pending, s`failed, s.tab
    ensures s.Valid()
    ensures s.tab[..] == StepUpTo(old(s.tab[..]), t, p, ScanEnd(old(s.tab[..]), t, p))
    ensures suspended <==> ScanSuspends(old(s.tab[..]), t, p)
    ensures tally == TallyAt(old(s.tab[..]), t, p, ScanEnd(old(s.tab[..]), t, p))
    ensures s.pending == old(s.pending) + SelfSignal(old(s.tab[..]), s.periodic, t, p)
              + if suspended then {s.NbTask()} else {}
    ensures s.failed == old(s.failed) + if suspended then {t} else {}
  {
    ghost var was := s.tab[..];
    var nbActi := s.nbActi[t];
    var i;
    i, tally, suspended := Scan(s, t, p, nbActi);
    if suspended {
      FirstSuspensionIs(was, t, p, i - 1);
    } else {
      CompleteEnd(was, t, p, nbActi, i, tally.nb);
    }
  }

  /** A scan that exits early without suspension has done what the full map does. */
  lemma CompleteEnd(acts: seq<Activity>, t: int, p: Program, nbActi: nat, i: nat, nb: nat)
    requires Covered(acts, t, p) && i <= |acts| && NoSuspension(acts, t, p, i)
    requires nb == Count(acts, OwnedBy(t), i) && (nb <= nbActi || i == 0)
    requires i == |acts| || nbActi <= nb
    requires nbActi == Total(acts, OwnedBy(t))
    ensures ScanEnd(acts, t, p) == |acts| && !ScanSuspends(acts, t, p)
    ensures StepUpTo(acts, t, p, i) == StepUpTo(acts, t, p, |acts|)
    ensures AnyTransition(acts, t, p, i) <==> AnyTransition(acts, t, p, |acts|)
    ensures AnyRunsAgain(acts, t, p, i) <==> AnyRunsAgain(acts, t, p, |acts|)
    ensures TallyAt(acts, t, p, i) == TallyAt(acts, t, p, |acts|)
  {
    EarlyExitIsFullMap(acts, t, p, nbActi, i, nb);
    FirstSuspensionIs(acts, t, p, |acts|);
  }

  lemma FirstSuspensionIs(acts: seq<Activity>, t: int, p: Program, k: nat)
    requires Covered(acts, t, p) && k <= |acts| && NoSuspension(acts, t, p, k)
    requires k < |acts| ==> SuspendsAt(acts, t, p, k)
    ensures FirstSuspension(acts, t, p, 0) == k
  {
  }

  /** The tally of an iteration; without a first permanent codel that works there is no scan. */
  ghost function IterationTally(acts: seq<Activity>, t: int, p: Program, o: Outcome): Tally
    requires Covered(acts, t, p)
  {
    if o.main1Ok then TallyAt(acts, t, p, ScanEnd(acts, t, p)) else Tally(0, false, false, false)
  }

  /** The task's section. `raised` are the flags set by codels on the way. */
  method Iterate(s: Sdi, t: nat, p: Program, o: Outcome, raised: seq<bool>) returns (tally: Tally, suspended: bool)
    requires s.Valid() && t < s.NbTask() && |raised| == s.NbTask() && Covered(s.tab[..], t, p)
    modifies s`pending, s`failed, s.tab, s.wakeUp
    ensures s.Valid()
    ensures (View(s), suspended) ==
            AfterIteration(old(View(s)), s.periodic, Merged(old(s.wakeUp[..]), raised), t, p, o)
    ensures tally == IterationTally(old(s.tab[..]), t, p, o)
    ensures suspended ==> s.wakeUp[..] == Merged(old(s.wakeUp[..]), raised)
    ensures !suspended ==> forall j :: 0 <= j < s.NbTask() ==> !s.wakeUp[j]
  {
    RaiseWakeUp(s, raised);
    if !o.main1Ok {
      Suspend(s, t);
      return Tally(0, false, false, false), true;
    }
    tally, suspended := ScanRecorded(s, t, p);
    if suspended {
      return;
    }
    assert s.pending == old(s.pending) + SelfSignal(old(s.tab[..]), s.periodic, t, p);
    assert s.failed == old(s.failed);
    suspended := AfterScan(s, t, o, tally.wake);
  }

  /** The section after the scan: second permanent codel, changed report, signals. */
  method AfterScan(s: Sdi, t: nat, o: Outcome, wake: bool) returns (suspended: bool)
    requires s.Valid() && t < s.NbTask()
    modifies s`pending, s`failed, s.wakeUp
    ensures s.Valid() && suspended == !o.main2Ok
    ensures suspended ==> s.pending == old(s.pending) + {s.NbTask()} && s.failed == old(s.failed) + {t}
    ensures suspended ==> s.wakeUp[..] == old(s.wakeUp[..])
    ensures !suspended ==> s.failed == old(s.failed) && forall j :: 0 <= j < s.NbTask() ==> !s.wakeUp[j]
    ensures !suspended ==>
              s.pending == old(s.pending) + (if wake || o.reportChanged then {s.NbTask()} else {})
                             + Raised(old(s.wakeUp[..]))
  {
    if !o.main2Ok {
      Suspend(s, t);
      return true;
    }
    if wake || o.reportChanged {
      s.pending := s.pending + {s.NbTask()};
    }
    var log := WakeOthers(s);
    suspended := false;
  }

  function Merged(flags: seq<bool>, raised: seq<bool>): seq<bool>
    requires |flags| == |raised|
  {
    seq(|flags|, i requires 0 <= i < |flags| => flags[i] || raised[i])
  }

  /** Raising flags takes none down. */
  lemma MergedRaises(flags: seq<bool>, raised: seq<bool>)
    requires |flags| == |raised|
    ensures Raised(Merged(flags, raised)) == Raised(flags) + Raised(raised)
  {
  }

  /** WAKE_UP_EXEC_TASK, as used by codels. */
  method RaiseWakeUp(s: Sdi, raised: seq<bool>)
    requires s.Valid() && |raised| == s.NbTask()
    modifies s.wakeUp
    ensures s.Valid() && s.wakeUp[..] == Merged(old(s.wakeUp[..]), raised)
  {
    var i := 0;
    while i < s.wakeUp.Length
      invariant i <= s.wakeUp.Length
      invariant forall j :: 0 <= j < i ==> s.wakeUp[j] == (old(s.wakeUp[j]) || raised[j])
      invariant forall j :: i <= j < s.wakeUp.Length ==> s.wakeUp[j] == old(s.wakeUp[j])
    {
      s.wakeUp[i] := s.wakeUp[i] || raised[i];
      i := i + 1;
    }
  }

  /** The tasks whose flag is raised among the first n, each once, in increasing order. */
  function RaisedList(flags: seq<bool>, n: nat): (r: seq<int>)
    requires n <= |flags|
    ensures forall x :: x in r <==> 0 <= x < n && flags[x]
    ensures forall x :: multiset(r)[x] <= 1
  {
    if n == 0 then []
    else RaisedList(flags, n - 1) + if flags[n-1] then [n - 1] else []
  }

  /** Every raised wake-up flag gives exactly one signal and is cleared. */
  method WakeOthers(s: Sdi) returns (log: seq<int>)
    requires s.Valid()
    modifies s`pending, s.wakeUp
    ensures s.Valid() && forall j :: 0 <= j < s.NbTask() ==> !s.wakeUp[j]
    ensures log == RaisedList(old(s.wakeUp[..]), s.NbTask())
    ensures s.pending == old(s.pending) + Raised(old(s.wakeUp[..]))
  {
    log := [];
    ghost var was := s.wakeUp[..];
    var i := 0;
    while i < s.wakeUp.Length
      invariant i <= s.wakeUp.Length
      invariant forall j :: 0 <= j < i ==> !s.wakeUp[j]
      invariant forall j :: i <= j < s.wakeUp.Length ==> s.wakeUp[j] == was[j]
      invariant log == RaisedList(was, i)
      invariant forall x :: x in s.pending <==> x in old(s.pending) || x in log
    {
      if s.wakeUp[i] {
        log := log + [i];
        s.pending := s.pending + {i};
        s.wakeUp[i] := false;
      }
      i := i + 1;
    }
    assert s.pending == old(s.pending) + Raised(was);
  }
}

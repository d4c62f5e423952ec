/** Where a task goes on that was suspended inside its section: a resumed scan has exactly the slots left
    that it had not come to, as long as nobody else changes who owns them. */
module Resumption {
  import opened Wrappers
  import opened Activities
  import opened CodelTables
  import opened ControlTask
  import opened ExecTask
  import opened ScanMeaning
  import opened Machine

  /** A place in the scan counts the task's slots from there on. */
  predicate RestLeft(acts: seq<Activity>, t: nat, place: Place) {
    place.InScan? ==>
      place.next <= |acts| && place.left == Total(acts, OwnedBy(t)) - Count(acts, OwnedBy(t), place.next)
  }

  /** An iteration that suspends leaves its task before the scan if the first permanent codel failed, after
      the first slot that suspended it if one did, and before the end otherwise; a place in the scan has
      the rest of the slots left. */
  lemma SuspendedPlace(c: Config, s: Sys, t: nat, p: Program, o: Outcome, flags: seq<bool>, s': Sys)
    requires ValidConfig(c) && StoreOk(c, s.store) && Next(c, s, Iteration(t, p, o, flags), s')
    requires s'.pcs[t].GivesFunctional? && s'.pcs[t].goal.Some?
    ensures Ready(c, s.store, t, p)
    ensures var place := s'.pcs[t].goal.value;
            && (place == BeforeScan <==> !o.main1Ok)
            && (place.InScan? <==> o.main1Ok && exists j :: 0 <= j < |s.store.acts| && Halts(c, s.store, t, p, j))
            && (place.InScan? ==>
                  && 0 < place.next <= |s.store.acts| && Halts(c, s.store, t, p, place.next - 1)
                  && forall j :: 0 <= j < place.next - 1 ==> !Halts(c, s.store, t, p, j))
            && !place.Outside? && RestLeft(s'.store.acts, t, place)
  {
    GeneratedCovers(c, s.store, t, p);
    PlaceMeans(c, s.store, t, p, o);
    RestIsLeft(c, s.store, t, p, o, flags);
  }

  lemma PlaceMeans(c: Config, st: Store, t: nat, p: Program, o: Outcome)
    requires Ready(c, st, t, p)
    ensures var place := PlaceOf(st.acts, t, p, o);
            && (place == BeforeScan <==> !o.main1Ok) && !place.Outside?
            && (place.InScan? <==> o.main1Ok && exists j :: 0 <= j < |st.acts| && Halts(c, st, t, p, j))
            && (place.InScan? ==>
                  && 0 < place.next <= |st.acts| && Halts(c, st, t, p, place.next - 1)
                  && forall j :: 0 <= j < place.next - 1 ==> !Halts(c, st, t, p, j))
  {
    SuspendsMeans(c, st, t, p);
    if ScanSuspends(st.acts, t, p) {
      FirstHalts(c, st, t, p);
    }
  }

  lemma RestIsLeft(c: Config, st: Store, t: nat, p: Program, o: Outcome, flags: seq<bool>)
    requires Ready(c, st, t, p)
    ensures RestLeft(AfterIteration(st, c.periodic, flags, t, p, o).0.acts, t, PlaceOf(st.acts, t, p, o))
  {
    var acts, end := st.acts, ScanEnd(st.acts, t, p);
    var acts' := StepUpTo(acts, t, p, end);
    CountMonotonic(acts, OwnedBy(t), end, |acts|);
    CountSame(acts, acts', OwnedBy(t), |acts|);
    CountSame(acts, acts', OwnedBy(t), end);
  }

  lemma FirstHalts(c: Config, st: Store, t: nat, p: Program)
    requires Ready(c, st, t, p) && ScanSuspends(st.acts, t, p)
    ensures var end := ScanEnd(st.acts, t, p);
            && 0 < end <= |st.acts| && Halts(c, st, t, p, end - 1)
            && forall j :: 0 <= j < end - 1 ==> !Halts(c, st, t, p, j)
  {
    var end := ScanEnd(st.acts, t, p);
    assert SuspendsAt(st.acts, t, p, end - 1);
    DispatchMeans(c, st, t, p, end - 1);
    ScanEndMeans(c, st, t, p, end - 1);
  }

  /** A task resumed before its scan has all its slots left. */
  lemma StrayBegins(c: Config, s: Sys, t: nat, s': Sys)
    requires ValidConfig(c) && StoreOk(c, s.store) && Next(c, s, StrayScan(t), s')
    ensures s'.pcs[t].Stray? && s'.pcs[t].place.InScan? && RestLeft(s'.store.acts, t, s'.pcs[t].place)
  {
  }

  /** One step of a resumed scan moves on by one slot, stepping it if it is the task's, and has again the
      rest of the slots left, suspended once more or not. */
  lemma StrayMovesOn(c: Config, s: Sys, t: nat, prog: Program, s': Sys)
    requires ValidConfig(c) && StoreOk(c, s.store) && StrayVisits(c, s, t, prog, s')
    requires RestLeft(s.store.acts, t, s.pcs[t].place)
    ensures Ready(c, s.store, t, prog) && (s'.pcs[t].Stray? || s'.pcs[t].AboutToSuspend?)
    ensures var i, place := s.pcs[t].place.next, s'.pcs[t].place;
            && place.InScan? && place.next == i + 1 && RestLeft(s'.store.acts, t, place)
            && (s'.pcs[t].AboutToSuspend? <==> Halts(c, s.store, t, prog, i))
            && |s'.store.acts| == |s.store.acts|
            && (forall j :: 0 <= j < |s.store.acts| && j != i ==> s'.store.acts[j] == s.store.acts[j])
            && s'.store.acts[i] ==
                 if s.store.acts[i].task == t && Due(s.store.acts[i]) then
                   var state, r := StateDue(s.store.acts[i]), AnswerAt(c, s.store, t, prog, i);
                   s.store.acts[i].(status := state, evn := r, calls := s.store.acts[i].calls + [Call(state, r)])
                 else s.store.acts[i]
  {
    GeneratedCovers(c, s.store, t, prog);
    var i := s.pcs[t].place.next;
    if s.store.acts[i].task == t {
      DispatchMeans(c, s.store, t, prog, i);
    }
    RestCounted(s.store.acts, s'.store.acts, t, i);
  }

  /** Slot i is looked at, and all slots keep their owners. */
  lemma RestCounted(acts: seq<Activity>, acts': seq<Activity>, t: nat, i: nat)
    requires i < |acts| == |acts'| && forall j :: 0 <= j < |acts| ==> acts'[j].task == acts[j].task
    ensures Total(acts', OwnedBy(t)) == Total(acts, OwnedBy(t))
    ensures Count(acts', OwnedBy(t), i + 1) == Count(acts, OwnedBy(t), i) + if acts[i].task == t then 1 else 0
  {
    CountSame(acts, acts', OwnedBy(t), |acts|);
    CountSame(acts, acts', OwnedBy(t), i);
  }

  /** When the scan ends, no slot of the task is left. */
  lemma StrayDone(c: Config, s: Sys, t: nat, ok: bool, s': Sys, j: nat)
    requires ValidConfig(c) && StoreOk(c, s.store) && Next(c, s, StrayMain(t, ok), s')
    requires RestLeft(s.store.acts, t, s.pcs[t].place) && s.pcs[t].place.next <= j < |s.store.acts|
    ensures s.store.acts[j].task != t
  {
    CountMonotonic(s.store.acts, OwnedBy(t), s.pcs[t].place.next, |s.store.acts|);
  }
}

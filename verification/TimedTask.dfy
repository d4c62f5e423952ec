/** An iteration of an execution task with its time statistics (canvas/server/execTask.c): which
    iterations count, and when the maximum period restarts, is decided by what the scan dispatches. */
module TimedTask {
  import opened Wrappers
  import opened Activities
  import opened ControlBase
  import opened ControlTask
  import opened ExecTask
  import opened Timing

  /** The slots an iteration dispatches: up to the first suspending one, none if the first permanent
      codel fails. */
  ghost predicate Visited(acts: seq<Activity>, t: nat, p: Program, o: Outcome, i: int)
    requires Covered(acts, t, p)
  {
    o.main1Ok && 0 <= i < ScanEnd(acts, t, p) && acts[i].task == t
  }

  ghost predicate DispatchesStart(acts: seq<Activity>, t: nat, p: Program, o: Outcome)
    requires Covered(acts, t, p)
  {
    exists i :: Visited(acts, t, p, o, i) && Considered(acts[i]) == Start
  }

  ghost predicate DispatchesOther(acts: seq<Activity>, t: nat, p: Program, o: Outcome)
    requires Covered(acts, t, p)
  {
    exists i :: Visited(acts, t, p, o, i) && Dispatched(acts[i]) && Considered(acts[i]) != Exec
  }

  lemma TallyMeans(acts: seq<Activity>, t: nat, p: Program, o: Outcome)
    requires Covered(acts, t, p)
    ensures IterationTally(acts, t, p, o).start <==> DispatchesStart(acts, t, p, o)
    ensures IterationTally(acts, t, p, o).other <==> DispatchesOther(acts, t, p, o)
  {
    var end := ScanEnd(acts, t, p);
    AnyDispatchMeansExists(acts, t, p, end);
    if o.main1Ok {
      if AnyStart(acts, t, p, end) {
        var i :| 0 <= i < end && acts[i].task == t && Starting(acts[i]);
        assert Visited(acts, t, p, o, i);
      }
      if AnyOther(acts, t, p, end) {
        var i :| 0 <= i < end && acts[i].task == t && OtherThanExec(acts[i]);
        assert Visited(acts, t, p, o, i);
      }
    }
  }

  /** One iteration: the section does to the table what it does, and the statistics take in one round,
      whose flags are what the scan dispatched. */
  method TimedIteration(s: Sdi, times: TaskTimes, t: nat, p: Program, o: Outcome, raised: seq<bool>,
                        offBefore: bool, offWithin: bool, tpBegin: Timespec, tpEnd: Timespec)
    returns (suspended: bool)
    requires s.Valid() && t < s.NbTask() && |raised| == s.NbTask() && Covered(s.tab[..], t, p)
    requires times.Valid() && times.periodic == s.periodic[t]
    modifies s`pending, s`failed, s.tab, s.wakeUp, times
    ensures s.Valid() && times.Valid()
    ensures (View(s), suspended) ==
            AfterIteration(old(View(s)), s.periodic, Merged(old(s.wakeUp[..]), raised), t, p, o)
    ensures times.rounds == old(times.rounds) + [Round(
              offBefore, offWithin, tpBegin,
              DispatchesStart(old(s.tab[..]), t, p, o), DispatchesOther(old(s.tab[..]), t, p, o),
              if suspended then None else Some(tpEnd))]
  {
    TallyMeans(s.tab[..], t, p, o);
    times.BeginRound(offBefore, offWithin, tpBegin);
    var tally;
    tally, suspended := Iterate(s, t, p, o, raised);
    times.EndRound(tally.start, tally.other, if suspended then None else Some(tpEnd), offBefore, offWithin, tpBegin);
  }
}

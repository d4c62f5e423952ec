/** Time keeping of an execution task (canvas/server/execTask.c): h2timespec_udiff, the measured
    periods, their maximum, and the incremental mean duration. */
module Timing {
  import opened Wrappers

  /** H2TIMESPEC, with any integers in its fields. */
  datatype Timespec = Timespec(sec: int, nsec: int)

  const NSEC := 1_000_000_000

  function Nanoseconds(t: Timespec): int {
    NSEC * t.sec + t.nsec
  }

  /** C's division. */
  function TruncDiv(a: int, b: int): int
    requires b > 0
  {
    if a >= 0 then a / b else -((-a) / b)
  }

  /** The difference in whole microseconds, rounded down, whether or not the fields are
      normalised and whichever time is the later one. */
  method Udiff(x: Timespec, y: Timespec) returns (usec: int)
    ensures usec == (Nanoseconds(x) - Nanoseconds(y)) / 1000
  {
    var yy := y;
    if x.nsec < y.nsec {
      var sec := TruncDiv(y.nsec - x.nsec, NSEC) + 1;
      yy := Timespec(yy.sec + sec, yy.nsec - NSEC * sec);
    }
    if x.nsec - y.nsec > NSEC {
      var sec := TruncDiv(x.nsec - y.nsec, NSEC);
      yy := Timespec(yy.sec - sec, yy.nsec + NSEC * sec);
    }
    assert Nanoseconds(yy) == Nanoseconds(y) && x.nsec >= yy.nsec;
    usec := 1_000_000 * (x.sec - yy.sec) + TruncDiv(x.nsec - yy.nsec, 1000);
    assert Nanoseconds(x) - Nanoseconds(yy) == 1000 * (1_000_000 * (x.sec - yy.sec)) + (x.nsec - yy.nsec);
  }

  function Sum(s: seq<int>): int {
    if s == [] then 0 else Sum(s[..|s|-1]) + s[|s|-1]
  }

  lemma SumAppend(s: seq<int>, d: int)
    ensures Sum(s + [d]) == Sum(s) + d
  {
    assert (s + [d])[..|s|] == s;
  }

  /** m lies between two of the samples. */
  ghost predicate InRange(m: int, samples: seq<int>) {
    exists i, j :: 0 <= i < |samples| && 0 <= j < |samples| && samples[i] <= m <= samples[j]
  }

  /** m is the truncated mean of the samples: off the true mean by less than half the number of
      samples, below it if no sample is negative, and never outside their range. */
  ghost predicate MeanOf(m: int, samples: seq<int>) {
    var k := |samples|;
    && -(k * (k - 1) / 2) <= Sum(samples) - k * m <= k * (k - 1) / 2
    && ((forall d :: d in samples ==> d >= 0) ==> 0 <= Sum(samples) - k * m)
    && (k > 0 ==> InRange(m, samples))
  }

  lemma {:induction false} MeanStep(m: int, samples: seq<int>, d: int, m': int)
    requires MeanOf(m, samples)
    requires m' == TruncDiv(|samples| * m + d, |samples| + 1)
    ensures MeanOf(m', samples + [d])
  {
    var longer := samples + [d];
    SumAppend(samples, d);
    DeficitStep(|samples|, Sum(samples), m, d, m');
    Between(|samples|, m, d, m');
    RangeStep(m, samples, d, m');
    if forall x :: x in longer ==> x >= 0 {
      assert d in longer && forall x :: x in samples ==> x in longer;
      NaturalStep(m, samples, d, m');
    }
  }

  lemma RangeStep(m: int, samples: seq<int>, d: int, m': int)
    requires samples != [] ==> InRange(m, samples)
    requires d <= m ==> d <= m' <= m
    requires m <= d ==> m <= m' <= d
    requires samples == [] ==> m' == d
    ensures InRange(m', samples + [d])
  {
    var longer := samples + [d];
    assert longer[|samples|] == d;
    if samples != [] {
      var i, j :| 0 <= i < |samples| && 0 <= j < |samples| && samples[i] <= m <= samples[j];
      assert longer[i] == samples[i] && longer[j] == samples[j];
    }
  }

  /** Without negative samples truncation is rounding down. */
  lemma NaturalStep(m: int, samples: seq<int>, d: int, m': int)
    requires MeanOf(m, samples) && (forall x :: x in samples ==> x >= 0) && d >= 0
    requires m' == TruncDiv(|samples| * m + d, |samples| + 1)
    ensures Sum(samples) + d - (|samples| + 1) * m' >= 0
  {
    var k := |samples|;
    var total := k * m + d;
    if k > 0 {
      var i, j :| 0 <= i < |samples| && 0 <= j < |samples| && samples[i] <= m <= samples[j];
      assert samples[i] in samples;
      Monotonic(k, 0, m);
    }
    Rounded(total, k + 1);
  }

  lemma Rounded(a: int, n: int)
    requires n > 0
    ensures a >= 0 ==> 0 <= a - n * TruncDiv(a, n) < n
    ensures a < 0 ==> -n < a - n * TruncDiv(a, n) <= 0
  {
    if a >= 0 {
      assert a == n * (a / n) + a % n;
    } else {
      assert -a == n * (-a / n) + -a % n;
      assert n * -(-a / n) == -(n * (-a / n));
    }
  }

  /** Truncation is off by at most k more when sample number k + 1 comes in. */
  lemma DeficitStep(k: nat, sum: int, m: int, d: int, m': int)
    requires -(k * (k - 1) / 2) <= sum - k * m <= k * (k - 1) / 2
    requires m' == TruncDiv(k * m + d, k + 1)
    ensures -((k + 1) * k / 2) <= sum + d - (k + 1) * m' <= (k + 1) * k / 2
  {
    var n, total := k + 1, k * m + d;
    Rounded(total, n);
    assert total - n * m' <= k && n * m' - total <= k;
    assert n * k == k * (k - 1) + 2 * k;
  }

  lemma Monotonic(n: nat, a: int, b: int)
    requires a <= b
    ensures n * a <= n * b
  {
  }

  lemma Gap(n: nat, a: int, b: int)
    requires a < b
    ensures n * a + n <= n * b
  {
    Monotonic(n, a + 1, b);
  }

  /** A weighted mean of m and d, truncated, lies between them. */
  lemma Between(k: nat, m: int, d: int, m': int)
    requires m' == TruncDiv(k * m + d, k + 1)
    ensures d <= m ==> d <= m' <= m
    ensures m <= d ==> m <= m' <= d
    ensures k == 0 ==> m' == d
  {
    var n := k + 1;
    var lo, hi := if d <= m then d else m, if d <= m then m else d;
    var total := k * m + d;
    Monotonic(k, lo, m);
    Monotonic(k, m, hi);
    assert n * lo == k * lo + lo && n * hi == k * hi + hi;
    assert n * lo <= total <= n * hi;
    NotBelow(total, n, m', lo);
    NotAbove(total, n, m', hi);
  }

  lemma NotBelow(total: int, n: nat, m': int, lo: int)
    requires n > 0 && n * lo <= total && m' == TruncDiv(total, n)
    ensures lo <= m'
  {
    Rounded(total, n);
    if m' < lo {
      Gap(n, m', lo);
      assert false;
    }
  }

  lemma NotAbove(total: int, n: nat, m': int, hi: int)
    requires n > 0 && total <= n * hi && m' == TruncDiv(total, n)
    ensures m' <= hi
  {
    Rounded(total, n);
    if m' > hi {
      Gap(n, hi, m');
      assert false;
    }
  }

  /** Rounding each period down loses less than a microsecond per period, never gains. */
  lemma Telescope(begin: int, prev: int, now: int, sum: int, n: nat)
    requires 0 <= prev - begin - 1000 * sum <= 999 * n
    ensures 0 <= now - begin - 1000 * (sum + (now - prev) / 1000) <= 999 * (n + 1)
  {
  }

  function Microseconds(later: Timespec, earlier: Timespec): int {
    (Nanoseconds(later) - Nanoseconds(earlier)) / 1000
  }

  // ----- the time fields of one task, as a value

  datatype Clock = Clock(
    maxPeriod: int, onPeriod: int, durationLoop: int, meanDuration: int, nbIter: int,
    firstChrono: bool, computeMean: bool, tpBegin: Timespec, tpBeginPrev: Timespec)

  const FRESH := Clock(0, 0, 0, 0, 1, true, false, Timespec(0, 0), Timespec(0, 0))

  /** The period just measured against the maximum: an iteration that raises it does not count. */
  function Noted(k: Clock): Clock {
    if k.onPeriod > k.maxPeriod then k.(maxPeriod := k.onPeriod, computeMean := false) else k
  }

  function AtBegin(k: Clock, periodic: bool, now: Timespec): Clock {
    var prev := if k.firstChrono then now else k.tpBeginPrev;
    var k1 := k.(tpBegin := now, firstChrono := false, tpBeginPrev := prev, computeMean := true);
    if periodic then Noted(k1.(onPeriod := Microseconds(now, prev))).(tpBeginPrev := now) else k1
  }

  function AtDispatch(k: Clock, start: bool, other: bool): Clock {
    k.(maxPeriod := if start then 0 else k.maxPeriod, computeMean := k.computeMean && !other)
  }

  function AtEnd(k: Clock, periodic: bool, now: Timespec): Clock {
    var k1 := if periodic then k else Noted(k.(onPeriod := Microseconds(now, k.tpBegin)));
    var k2 := k1.(durationLoop := Microseconds(now, k.tpBegin));
    if k2.computeMean && k2.nbIter > 0 then
      k2.(meanDuration := Folded(k2, k2.durationLoop), nbIter := k2.nbIter + 1)
    else k2
  }

  /** One iteration: whether the display of times is switched off before it begins, and between its begin
      and its scan (the maximum then restarts); when it began, whether it dispatched START, whether it
      dispatched anything but EXEC, and when it ended unless it was suspended. */
  datatype Round = Round(
    offBefore: bool, offWithin: bool, begin: Timespec, start: bool, other: bool, end: Option<Timespec>)

  function Restarted(k: Clock, restart: bool): Clock {
    if restart then k.(maxPeriod := 0) else k
  }

  /** The clock when the scan begins. */
  function Opened(k: Clock, periodic: bool, offBefore: bool, offWithin: bool, begin: Timespec): Clock {
    Restarted(AtBegin(Restarted(k, offBefore), periodic, begin), offWithin)
  }

  function AfterRound(k: Clock, periodic: bool, r: Round): Clock {
    var k1 := AtDispatch(Opened(k, periodic, r.offBefore, r.offWithin, r.begin), r.start, r.other);
    match r.end
    case None => k1
    case Some(now) => AtEnd(k1, periodic, now)
  }

  function AfterRounds(periodic: bool, rs: seq<Round>): Clock {
    if rs == [] then FRESH else AfterRound(AfterRounds(periodic, rs[..|rs|-1]), periodic, rs[|rs|-1])
  }

  // ----- what the fields mean, over any sequence of iterations

  /** The period of iteration j: since the previous begin for a periodic task, its own duration for
      an aperiodic one. */
  function PeriodAt(periodic: bool, rs: seq<Round>, j: nat): int
    requires j < |rs|
  {
    if periodic then (if j == 0 then 0 else Microseconds(rs[j].begin, rs[j-1].begin))
    else match rs[j].end
         case None => 0
         case Some(end) => Microseconds(end, rs[j].begin)
  }

  predicate Measured(periodic: bool, rs: seq<Round>, j: nat)
    requires j < |rs|
  {
    periodic || rs[j].end.Some?
  }

  /** The maximum has restarted since period j was measured. */
  predicate Forgotten(periodic: bool, rs: seq<Round>, j: nat)
    requires j < |rs|
  {
    (periodic && RestartsWithin(rs[j])) || exists i :: j < i < |rs| && Restarts(rs[i])
  }

  /** Does the maximum restart in the iteration; does it restart after its begin? */
  predicate Restarts(r: Round) {
    RestartsWithin(r) || r.offBefore
  }

  predicate RestartsWithin(r: Round) {
    r.start || r.offWithin
  }

  ghost predicate IsMaximum(periodic: bool, rs: seq<Round>, m: int) {
    && m >= 0
    && (forall j :: 0 <= j < |rs| && Measured(periodic, rs, j) && !Forgotten(periodic, rs, j) ==>
          PeriodAt(periodic, rs, j) <= m)
    && (m == 0 || exists j :: 0 <= j < |rs| && Measured(periodic, rs, j) && !Forgotten(periodic, rs, j)
                              && PeriodAt(periodic, rs, j) == m)
  }

  lemma ClockKeepsTime(periodic: bool, rs: seq<Round>)
    requires rs != []
    ensures var k := AfterRounds(periodic, rs);
            && !k.firstChrono && k.tpBegin == rs[|rs|-1].begin
            && (periodic ==> k.tpBeginPrev == rs[|rs|-1].begin)
            && (Measured(periodic, rs, |rs| - 1) ==> k.onPeriod == PeriodAt(periodic, rs, |rs| - 1))
  {
    if |rs| > 1 {
      ClockKeepsTime(periodic, rs[..|rs|-1]);
    }
  }

  lemma PrefixPeriods(periodic: bool, rs: seq<Round>, j: nat)
    requires j + 1 < |rs|
    ensures PeriodAt(periodic, rs[..|rs|-1], j) == PeriodAt(periodic, rs, j)
    ensures Measured(periodic, rs[..|rs|-1], j) == Measured(periodic, rs, j)
    ensures Forgotten(periodic, rs, j) <==>
              Forgotten(periodic, rs[..|rs|-1], j) || Restarts(rs[|rs|-1])
  {
    var front := rs[..|rs|-1];
    if Forgotten(periodic, front, j) && !(periodic && RestartsWithin(rs[j])) {
      var i :| j < i < |front| && Restarts(front[i]);
      assert rs[i] == front[i];
    }
    if Forgotten(periodic, rs, j) && !(periodic && RestartsWithin(rs[j])) {
      var i :| j < i < |rs| && Restarts(rs[i]);
      assert i < |front| ==> front[i] == rs[i];
    }
  }

  /** The maximum period is the highest one measured since the last iteration that dispatched START
      or found the display of times switched off. */
  lemma {:induction false} MaximumIs(periodic: bool, rs: seq<Round>)
    ensures IsMaximum(periodic, rs, AfterRounds(periodic, rs).maxPeriod)
  {
    if rs != [] {
      var front, r := rs[..|rs|-1], rs[|rs|-1];
      MaximumIs(periodic, front);
      ClockKeepsTime(periodic, rs);
      MaximumStep(periodic, rs, AfterRounds(periodic, front).maxPeriod, AfterRounds(periodic, rs).maxPeriod);
    }
  }

  /** How one iteration changes the maximum m to m'. */
  predicate NextMaximum(periodic: bool, rs: seq<Round>, m: int, m': int)
    requires rs != []
  {
    var n, r := |rs| - 1, rs[|rs|-1];
    var p := PeriodAt(periodic, rs, n);
    if periodic then
      var m0 := if r.offBefore then 0 else m;
      m' == if RestartsWithin(r) then 0 else if p > m0 then p else m0
    else
      var m1 := if Restarts(r) then 0 else m;
      m' == if Measured(periodic, rs, n) && p > m1 then p else m1
  }

  lemma MaximumStep(periodic: bool, rs: seq<Round>, m: int, m': int)
    requires rs != [] && IsMaximum(periodic, rs[..|rs|-1], m) && NextMaximum(periodic, rs, m, m')
    ensures IsMaximum(periodic, rs, m')
  {
    var front := rs[..|rs|-1];
    forall j | 0 <= j < |rs| && Measured(periodic, rs, j) && !Forgotten(periodic, rs, j)
      ensures PeriodAt(periodic, rs, j) <= m'
    {
      if j < |front| {
        PrefixPeriods(periodic, rs, j);
      }
    }
    if m' != 0 && m' == m && !Restarts(rs[|rs|-1]) {
      var j :| 0 <= j < |front| && Measured(periodic, front, j) && !Forgotten(periodic, front, j)
               && PeriodAt(periodic, front, j) == m;
      PrefixPeriods(periodic, rs, j);
    } else if m' != 0 {
      assert PeriodAt(periodic, rs, |front|) == m';
    }
  }

  /** An iteration counts for the mean if it ended, dispatched nothing but EXEC, and its period did not
      exceed the maximum before it. */
  predicate Counts(periodic: bool, rs: seq<Round>, j: nat)
    requires j < |rs|
  {
    rs[j].end.Some? && !rs[j].other && PeriodAt(periodic, rs, j) <= MaximumBefore(periodic, rs, j)
  }

  /** The maximum against which the period of iteration j is held. */
  function MaximumBefore(periodic: bool, rs: seq<Round>, j: nat): int
    requires j < |rs|
  {
    if rs[j].offBefore || (!periodic && Restarts(rs[j])) then 0 else AfterRounds(periodic, rs[..j]).maxPeriod
  }

  /** The durations of the first n iterations that count. */
  function CountedDurations(periodic: bool, rs: seq<Round>, n: nat): seq<int>
    requires n <= |rs|
  {
    if n == 0 then []
    else CountedDurations(periodic, rs, n - 1)
           + if Counts(periodic, rs, n - 1) then [DurationAt(rs, n - 1)] else []
  }

  lemma {:induction false} CountedPrefix(periodic: bool, rs: seq<Round>, n: nat)
    requires n < |rs|
    ensures CountedDurations(periodic, rs[..|rs|-1], n) == CountedDurations(periodic, rs, n)
  {
    if n > 0 {
      CountedPrefix(periodic, rs, n - 1);
      assert rs[..|rs|-1][..n-1] == rs[..n-1];
    }
  }

  /** nbIter - 1 is the number of these durations and the mean duration is theirs. */
  ghost predicate MeanRight(k: Clock, ds: seq<int>) {
    k.nbIter - 1 == |ds| && (ds != [] ==> MeanOf(k.meanDuration, ds))
  }

  /** nbIter - 1 counts exactly the iterations that count, and the mean is that of their durations. */
  lemma {:induction false} MeanIs(periodic: bool, rs: seq<Round>)
    ensures MeanRight(AfterRounds(periodic, rs), CountedDurations(periodic, rs, |rs|))
  {
    if rs != [] {
      var front := rs[..|rs|-1];
      MeanIs(periodic, front);
      CountedPrefix(periodic, rs, |front|);
      CountedStep(periodic, rs);
      MeanNext(AfterRounds(periodic, front), AfterRounds(periodic, rs), CountedDurations(periodic, rs, |front|),
               Counts(periodic, rs, |front|), DurationAt(rs, |front|));
    }
  }

  lemma MeanNext(k: Clock, k': Clock, ds: seq<int>, counts: bool, d: int)
    requires MeanRight(k, ds)
    requires counts ==> k'.nbIter == k.nbIter + 1 && k'.meanDuration == Folded(k, d)
    requires !counts ==> k'.nbIter == k.nbIter && k'.meanDuration == k.meanDuration
    ensures MeanRight(k', ds + if counts then [d] else [])
  {
    if counts {
      MeanFolds(k, ds, d);
    } else {
      assert ds + [] == ds;
    }
  }

  function DurationAt(rs: seq<Round>, j: nat): int
    requires j < |rs|
  {
    if rs[j].end.Some? then Microseconds(rs[j].end.value, rs[j].begin) else 0
  }

  /** The mean after folding in a duration. */
  function Folded(k: Clock, d: int): int
    requires k.nbIter > 0
  {
    TruncDiv((k.nbIter - 1) * k.meanDuration + d, k.nbIter)
  }

  lemma MeanFolds(k: Clock, ds: seq<int>, d: int)
    requires k.nbIter - 1 == |ds| && (ds != [] ==> MeanOf(k.meanDuration, ds))
    ensures MeanOf(Folded(k, d), ds + [d])
  {
    var m := if ds == [] then 0 else k.meanDuration;
    assert |ds| * m == (k.nbIter - 1) * k.meanDuration;
    MeanStep(m, ds, d, Folded(k, d));
  }

  lemma CountedStep(periodic: bool, rs: seq<Round>)
    requires rs != [] && AfterRounds(periodic, rs[..|rs|-1]).nbIter > 0
    ensures var k, k', n := AfterRounds(periodic, rs[..|rs|-1]), AfterRounds(periodic, rs), |rs| - 1;
            if Counts(periodic, rs, n) then
              k'.nbIter == k.nbIter + 1 && k'.meanDuration == Folded(k, DurationAt(rs, n))
            else k'.nbIter == k.nbIter && k'.meanDuration == k.meanDuration
  {
    var k, r := AfterRounds(periodic, rs[..|rs|-1]), rs[|rs|-1];
    ClockKeepsTime(periodic, rs);
    if |rs| > 1 {
      ClockKeepsTime(periodic, rs[..|rs|-1]);
    }
    if periodic {
      PeriodicRoundCounts(k, r);
    } else {
      AperiodicRoundCounts(k, r);
    }
  }

  /** The statistics k' take in the duration of r, or keep the mean. */
  predicate TakesIn(k: Clock, k': Clock, r: Round, counts: bool)
    requires k.nbIter > 0 && (counts ==> r.end.Some?)
  {
    if counts then
      k'.nbIter == k.nbIter + 1 && k'.meanDuration == Folded(k, Microseconds(r.end.value, r.begin))
    else k'.nbIter == k.nbIter && k'.meanDuration == k.meanDuration
  }

  /** When one iteration of a periodic task folds its duration into the mean. */
  lemma PeriodicRoundCounts(k: Clock, r: Round)
    requires k.nbIter > 0
    ensures var period := Microseconds(r.begin, if k.firstChrono then r.begin else k.tpBeginPrev);
            var before := if r.offBefore then 0 else k.maxPeriod;
            TakesIn(k, AfterRound(k, true, r), r, r.end.Some? && !r.other && period <= before)
  {
  }

  lemma AperiodicRoundCounts(k: Clock, r: Round)
    requires k.nbIter > 0
    ensures var before := if Restarts(r) then 0 else k.maxPeriod;
            TakesIn(k, AfterRound(k, false, r), r,
                    r.end.Some? && !r.other && Microseconds(r.end.value, r.begin) <= before)
  {
  }

  function Max(a: int, b: int): int {
    if a > b then a else b
  }

  /** One iteration of a periodic task: its period, the whole microseconds since the previous begin, is
      held against the maximum, which restarts at 0 when START is dispatched or the display is switched
      off. */
  lemma PeriodicRound(rs: seq<Round>, r: Round)
    ensures var k, k' := AfterRounds(true, rs), AfterRounds(true, rs + [r]);
            var p := if rs == [] then 0 else (Nanoseconds(r.begin) - Nanoseconds(rs[|rs|-1].begin)) / 1000;
            && k'.onPeriod == p
            && k'.maxPeriod ==
                 if r.start || r.offWithin then 0 else Max(p, if r.offBefore then 0 else k.maxPeriod)
  {
    assert (rs + [r])[..|rs|] == rs;
    if rs != [] {
      ClockKeepsTime(true, rs);
    }
    PeriodicRoundMeasures(AfterRounds(true, rs), r);
  }

  lemma PeriodicRoundMeasures(k: Clock, r: Round)
    ensures var p := Microseconds(r.begin, if k.firstChrono then r.begin else k.tpBeginPrev);
            && AfterRound(k, true, r).onPeriod == p
            && AfterRound(k, true, r).maxPeriod ==
                 if r.start || r.offWithin then 0 else Max(p, if r.offBefore then 0 else k.maxPeriod)
  {
  }

  /** One iteration of an aperiodic task: its own duration takes the place of the period. */
  lemma AperiodicRound(rs: seq<Round>, r: Round)
    ensures var k, k' := AfterRounds(false, rs), AfterRounds(false, rs + [r]);
            var m := if r.start || r.offBefore || r.offWithin then 0 else k.maxPeriod;
            k'.maxPeriod ==
              if r.end.Some? then Max((Nanoseconds(r.end.value) - Nanoseconds(r.begin)) / 1000, m) else m
  {
    assert (rs + [r])[..|rs|] == rs;
  }

  /** The periods measured by a periodic task in its iterations after the first. */
  function MeasuredTime(rs: seq<Round>): int {
    if |rs| <= 1 then 0 else MeasuredTime(rs[..|rs|-1]) + AfterRounds(true, rs).onPeriod
  }

  /** Over any run of a periodic task, the measured periods, times 1000, fall short of the true elapsed
      nanoseconds by 0 to 999 for each. */
  lemma {:induction false} LossOverRun(rs: seq<Round>)
    requires rs != []
    ensures 0 <= Nanoseconds(rs[|rs|-1].begin) - Nanoseconds(rs[0].begin) - 1000 * MeasuredTime(rs) <= 999 * (|rs| - 1)
  {
    if |rs| > 1 {
      var front := rs[..|rs|-1];
      LossOverRun(front);
      ClockKeepsTime(true, rs);
      Telescope(Nanoseconds(rs[0].begin), Nanoseconds(front[|front|-1].begin), Nanoseconds(rs[|rs|-1].begin),
                MeasuredTime(front), |front| - 1);
    }
  }

  // ----- the fields, updated in place

  /** Times of a task: its SDI_C entry and the local variables of its loop. `rounds` records its
      complete iterations. */
  class TaskTimes {
    const periodic: bool
    var maxPeriod: int
    var onPeriod: int
    var durationLoop: int
    var meanDuration: int
    var nbIter: int
    var firstChrono: bool
    var computeMean: bool
    var tpBegin: Timespec
    var tpBeginPrev: Timespec
    ghost var rounds: seq<Round>

    ghost function Fields(): Clock
      reads this
    {
      Clock(maxPeriod, onPeriod, durationLoop, meanDuration, nbIter, firstChrono, computeMean, tpBegin, tpBeginPrev)
    }

    /** The fields are what the recorded iterations make of them. */
    ghost predicate Valid()
      reads this
    {
      Fields() == AfterRounds(periodic, rounds)
    }

    constructor (periodic: bool)
      ensures Valid() && this.periodic == periodic && rounds == []
    {
      this.periodic := periodic;
      maxPeriod, onPeriod, durationLoop, meanDuration, nbIter := 0, 0, 0, 0, 1;
      firstChrono, computeMean := true, false;
      tpBegin, tpBeginPrev := Timespec(0, 0), Timespec(0, 0);
      rounds := [];
    }

    /** The request that switches the display of times off restarts the maximum. */
    method Reset()
      modifies `maxPeriod
      ensures Fields() == old(Fields()).(maxPeriod := 0)
    {
      maxPeriod := 0;
    }

    /** The beginning of an iteration: a periodic task measures the period just elapsed. */
    method Begin(now: Timespec)
      modifies this
      ensures Fields() == AtBegin(old(Fields()), periodic, now) && rounds == old(rounds)
    {
      tpBegin := now;
      if firstChrono {
        firstChrono := false;
        tpBeginPrev := now;
      }
      computeMean := true;
      if periodic {
        onPeriod := Udiff(tpBegin, tpBeginPrev);
        NotePeriod();
        tpBeginPrev := tpBegin;
      }
    }

    method NotePeriod()
      modifies `maxPeriod, `computeMean
      ensures Fields() == Noted(old(Fields()))
    {
      if onPeriod > maxPeriod {
        maxPeriod := onPeriod;
        computeMean := false;
      }
    }

    /** What the dispatches of the scan do to the statistics. */
    method Dispatched(start: bool, other: bool)
      modifies `maxPeriod, `computeMean
      ensures Fields() == AtDispatch(old(Fields()), start, other)
    {
      if start {
        maxPeriod := 0;
      }
      if other {
        computeMean := false;
      }
    }

    method BeginRound(offBefore: bool, offWithin: bool, now: Timespec)
      modifies this
      ensures Fields() == Opened(old(Fields()), periodic, offBefore, offWithin, now) && rounds == old(rounds)
    {
      if offBefore {
        Reset();
      }
      Begin(now);
      if offWithin {
        Reset();
      }
    }

    /** The rest of an iteration, after its scan. */
    method EndRound(start: bool, other: bool, end: Option<Timespec>,
                    ghost offBefore: bool, ghost offWithin: bool, ghost begin: Timespec)
      requires Fields() == Opened(AfterRounds(periodic, rounds), periodic, offBefore, offWithin, begin)
      modifies this
      ensures Valid() && rounds == old(rounds) + [Round(offBefore, offWithin, begin, start, other, end)]
    {
      MeanIs(periodic, rounds);
      Dispatched(start, other);
      if end.Some? {
        Finish(end.value);
      }
      ghost var r := Round(offBefore, offWithin, begin, start, other, end);
      assert (rounds + [r])[..|rounds|] == rounds;
      rounds := rounds + [r];
    }

    /** The end of an iteration: measure its duration and fold it into the mean. */
    method Finish(now: Timespec)
      requires nbIter > 0
      modifies `maxPeriod, `onPeriod, `durationLoop, `meanDuration, `nbIter, `computeMean
      ensures Fields() == AtEnd(old(Fields()), periodic, now)
    {
      if !periodic {
        onPeriod := Udiff(now, tpBegin);
        NotePeriod();
      }
      durationLoop := Udiff(now, tpBegin);
      if computeMean {
        meanDuration := TruncDiv((nbIter - 1) * meanDuration + durationLoop, nbIter);
        nbIter := nbIter + 1;
      }
    }
  }
}

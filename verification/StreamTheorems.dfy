/** What the windows of a stream say about the samples: telescoping counters, window geometry, CPU shares and
    the number of readings. */
module StreamTheorems {
  import opened Clock
  import opened Collect
  import opened Derivation
  import opened Grouping
  import opened Statistics
  import opened Windows
  import opened Aggregation
  import opened Streams

  // ----- Counter telescoping -----

  /** The bytes a span of readings reports: each rate times the length of its interval. */
  function Volume(ss: seq<Sample>, c: Counter, lo: nat, hi: nat): real
    requires lo <= hi
    requires forall i | lo <= i < hi :: Derivable(ss, i)
  {
    if lo == hi then 0.0
    else Volume(ss, c, lo, hi - 1) + RatesAt(ss, hi - 1).Rate(c) * Seconds(RatesAt(ss, hi - 1).interval)
  }

  /** Over any stretch of derivable readings the rates add up to the difference of the raw counters. */
  lemma {:induction false} VolumeTelescopes(ss: seq<Sample>, c: Counter, lo: nat, hi: nat)
    requires 1 <= lo <= hi <= |ss|
    requires forall i | lo <= i < hi :: Derivable(ss, i)
    ensures Volume(ss, c, lo, hi) == (ss[hi - 1].Raw(c) - ss[lo - 1].Raw(c)) as real
  {
    hide Derivable, RatesAt, Rates.Rate, Seconds, Sample.Raw;
    if lo < hi {
      VolumeTelescopes(ss, c, lo, hi - 1);
      StepVolume(ss, c, hi - 1);
      DistancesAdd(ss[hi - 1].Raw(c), ss[hi - 2].Raw(c), ss[lo - 1].Raw(c));
    }
  }

  lemma StepVolume(ss: seq<Sample>, c: Counter, i: nat)
    requires Derivable(ss, i)
    ensures RatesAt(ss, i).Rate(c) * Seconds(RatesAt(ss, i).interval) == (ss[i].Raw(c) - ss[i - 1].Raw(c)) as real
  {
    hide Derive, Sample.Raw, Rates.Rate, Seconds;
    RateTimesInterval(ss[i - 1], ss[i], c);
  }

  /** The closing counters are those of the sample, the uptime in whole seconds. */
  lemma ClosingRaw(s: Sample, c: Counter)
    ensures ClosingCounters(s).Raw(c) == s.Raw(c)
    ensures var k := ClosingCounters(s);
      k.rx == s.rxBytes && k.tx == s.txBytes && k.read == s.readBytes && k.write == s.writeBytes
    ensures var t := ClosingCounters(s).uptimeSeconds * 1_000_000_000; t <= s.uptime < t + 1_000_000_000
  {
  }

  /** In every emitted window the reported rates account exactly for the distance between the counter of the
      sample before the first reading and the closing counter the window carries. */
  lemma WindowTelescopes(window: int, ss: seq<Sample>, r: Span, b: BucketValue, c: Counter)
    requires IsRun(window, ss, r)
    requires IsWindowOf(window, ss, r, b)
    ensures Volume(ss, c, r.lo, r.hi) == (b.facts.counters.Raw(c) - ss[r.lo - 1].Raw(c)) as real
  {
    hide Derive, Sample.Raw, Counters.Raw, ClosingCounters, IsSummary, StartAt, Volume;
    VolumeTelescopes(ss, c, r.lo, r.hi);
    ClosingRaw(ss[r.hi - 1], c);
  }

  /** When the readings are evenly spaced, the mean the window reports times its time span is that distance. */
  lemma MeanTelescopes(window: int, ss: seq<Sample>, r: Span, b: BucketValue, c: Counter, d: int64)
    requires IsRun(window, ss, r)
    requires IsWindowOf(window, ss, r, b)
    requires forall i | r.lo <= i < r.hi :: RatesAt(ss, i).interval == d
    ensures b.Get(Throughput(c)).avg * b.facts.samples as real * Seconds(d)
      == (b.facts.counters.Raw(c) - ss[r.lo - 1].Raw(c)) as real
  {
    hide Derive, Sample.Raw, Counters.Raw, ClosingCounters, StartAt, Volume, Seconds, BucketValue.Get, IsSummary, Sum;
    WindowTelescopes(window, ss, r, b, c);
    EvenVolume(ss, c, r.lo, r.hi, d);
    var m := Throughput(c);
    MeanOver(window, ss, r, b, m);
  }

  lemma MeanTimesCount(s: StatValue, vs: seq<real>, n: nat)
    requires IsSummary(s, vs) && |vs| == n
    ensures s.avg * n as real == Sum(vs)
  {
  }

  lemma {:induction false} EvenVolume(ss: seq<Sample>, c: Counter, lo: nat, hi: nat, d: int64)
    requires lo <= hi
    requires forall i | lo <= i < hi :: Derivable(ss, i) && RatesAt(ss, i).interval == d
    ensures Volume(ss, c, lo, hi) == Sum(Readings(ss, Throughput(c), lo, hi)) * Seconds(d)
  {
    hide Derivable, RatesAt, Rates.Rate, Seconds, Sum, Readings;
    var m := Throughput(c);
    if lo == hi {
      EmptySum(ss, lo);
    } else {
      EvenVolume(ss, c, lo, hi - 1, d);
      SumOfReadings(ss, m, lo, hi);
      var x, v := Sum(Readings(ss, m, lo, hi - 1)), RatesAt(ss, hi - 1).Rate(c);
      assert (x + v) * Seconds(d) == x * Seconds(d) + v * Seconds(d);
    }
  }

  /** No reading is lost: every derivable sample lies in exactly one run. */
  lemma EveryReadingInOneRun(window: int, ss: seq<Sample>, i: nat)
    requires Derivable(ss, i)
    ensures exists k :: OnlyIn(Runs(window, ss, |ss|), k, i)
  {
    hide Derivable, Joined, Groups;
    MarksWellMarked(window, ss);
    MarkMeaning(window, ss, i);
    DerivableBounds(ss, i);
    InExactlyOneGroup(Marks(window, ss), |ss|, i);
    var k :| OnlyIn(Groups(Marks(window, ss), |ss|), k, i);
    assert OnlyIn(Runs(window, ss, |ss|), k, i);
  }

  lemma DerivableBounds(ss: seq<Sample>, i: int)
    requires Derivable(ss, i)
    ensures 1 <= i < |ss|
  {
  }

  /** Two neighbouring runs leave room between them only for samples that could not be derived. */
  lemma NoGapWithoutCause(window: int, ss: seq<Sample>, k: nat)
    requires k + 1 < |Runs(window, ss, |ss|)|
    ensures var rs := Runs(window, ss, |ss|);
      && rs[k].hi <= rs[k + 1].lo
      && (rs[k].hi < rs[k + 1].lo ==> !Derivable(ss, rs[k].hi))
      && forall i | rs[k].hi <= i < rs[k + 1].lo :: !Derivable(ss, i)
  {
    hide Derive, Joined, Runs, IsRun;
    RunsAreTheMaximalRuns(window, ss, |ss|);
    var rs := Runs(window, ss, |ss|);
    forall i | rs[k].hi <= i < rs[k + 1].lo
      ensures !Derivable(ss, i)
    {
      if Derivable(ss, i) {
        EveryReadingInOneRun(window, ss, i);
        var j :| OnlyIn(rs, j, i);
        assert IsMaximalRun(window, ss, |ss|, rs[k]) && IsMaximalRun(window, ss, |ss|, rs[k + 1]);
        assert j < k ==> rs[j].hi <= rs[k].lo;
        assert k + 1 < j ==> rs[k + 1].hi <= rs[j].lo;
        RunBounds(window, ss, rs[k]);
        RunBounds(window, ss, rs[k + 1]);
      }
    }
  }

  /** Telescoping composes: between two neighbouring windows with no underivable sample in between, what the
      later window reports is exactly the distance between the two closing counters. */
  lemma NeighboursTelescope(window: int, ss: seq<Sample>, k: nat, c: Counter)
    requires k + 1 < |Runs(window, ss, |ss|)|
    requires var rs := Runs(window, ss, |ss|); forall i | rs[k].hi <= i < rs[k + 1].lo :: Derivable(ss, i)
    ensures var rs, out := Runs(window, ss, |ss|), Output(window, ss);
      && |out| == |rs|
      && IsRun(window, ss, rs[k + 1])
      && Volume(ss, c, rs[k + 1].lo, rs[k + 1].hi)
         == (out[k + 1].facts.counters.Raw(c) - out[k].facts.counters.Raw(c)) as real
  {
    hide Derivable, Joined, Runs, Output, IsMaximalRun, Sample.Raw, Counters.Raw, ClosingCounters, IsSummary, StartAt;
    AggregatorRefinesGrouping(window, ss);
    NoGapWithoutCause(window, ss, k);
    var rs, out := Runs(window, ss, |ss|), Output(window, ss);
    WindowTelescopes(window, ss, rs[k + 1], out[k + 1], c);
    ClosingRaw(ss[rs[k].hi - 1], c);
  }

  /** What the windows `j + 1` to `k` of a stream report together. */
  ghost function ReportedVolume(window: int, ss: seq<Sample>, rs: seq<Span>, c: Counter, j: nat, k: nat): real
    requires j <= k < |rs| && AllRuns(window, ss, rs)
  {
    hide Derive;
    if j == k then 0.0
    else
      assert rs[k] in rs;
      ReportedVolume(window, ss, rs, c, j, k - 1) + Volume(ss, c, rs[k].lo, rs[k].hi)
  }

  /** Over any stretch of windows with no underivable sample between its first and its last, what the windows
      report adds up to the distance between the closing counter before the stretch and the one at its end. */
  lemma {:induction false} WindowsTelescope(window: int, ss: seq<Sample>, j: nat, k: nat, c: Counter)
    requires j <= k < |Runs(window, ss, |ss|)|
    requires var rs := Runs(window, ss, |ss|); forall i | rs[j].hi <= i < rs[k].lo :: Derivable(ss, i)
    ensures var rs, out := Runs(window, ss, |ss|), Output(window, ss);
      && |out| == |rs| && AllRuns(window, ss, rs)
      && ReportedVolume(window, ss, rs, c, j, k)
         == (out[k].facts.counters.Raw(c) - out[j].facts.counters.Raw(c)) as real
    decreases k
  {
    hide Derivable, Joined, Runs, Output, IsMaximalRun, Counters.Raw, Volume, IsRun, IsWindowOf;
    AggregatorRefinesGrouping(window, ss);
    RunsAreRuns(window, ss, |ss|);
    if j < k {
      var rs, out := Runs(window, ss, |ss|), Output(window, ss);
      StretchBounds(window, ss, j, k);
      WindowsTelescope(window, ss, j, k - 1, c);
      NeighboursTelescope(window, ss, k - 1, c);
      DistancesAdd(
        out[k].facts.counters.Raw(c), out[k - 1].facts.counters.Raw(c), out[j].facts.counters.Raw(c));
    }
  }

  lemma StretchBounds(window: int, ss: seq<Sample>, j: nat, k: nat)
    requires j < k < |Runs(window, ss, |ss|)|
    ensures var rs := Runs(window, ss, |ss|); rs[j].hi <= rs[k - 1].hi && rs[k - 1].lo <= rs[k].lo
  {
    hide Derivable, Joined, Runs, IsMaximalRun;
    RunsAreTheMaximalRuns(window, ss, |ss|);
    var rs := Runs(window, ss, |ss|);
    assert IsMaximalRun(window, ss, |ss|, rs[k - 1]);
    RunsHaveRoom(window, ss, k - 1);
  }

  lemma RunsHaveRoom(window: int, ss: seq<Sample>, k: nat)
    requires k < |Runs(window, ss, |ss|)|
    ensures Runs(window, ss, |ss|)[k].lo < Runs(window, ss, |ss|)[k].hi
  {
    hide Derivable, Joined;
    assert Runs(window, ss, |ss|)[k] in Runs(window, ss, |ss|);
  }

  lemma DistancesAdd(x: int, y: int, z: int)
    ensures (x - y) as real + (y - z) as real == (x - z) as real
  {
  }

  // ----- Window geometry -----

  /** A window is aligned to the clock, holds every one of its readings between its bounds, comes from one boot
      and has strictly increasing instants, the sample before the first reading included. */
  lemma WindowGeometry(window: int, ss: seq<Sample>, r: Span, b: BucketValue)
    requires IsRun(window, ss, r)
    requires IsWindowOf(window, ss, r, b)
    ensures b.facts.start % Width(window) == 0 && b.facts.end == b.facts.start + Width(window)
    ensures forall i | r.lo <= i < r.hi :: b.facts.start <= ss[i].at < b.facts.end
    ensures forall i | r.lo - 1 <= i < r.hi :: ss[i].bootId == b.facts.bootId
    ensures forall i | r.lo <= i < r.hi :: ss[i - 1].at < ss[i].at
  {
    hide Derive, IsSummary, Width, Truncate;
    forall i | r.lo <= i < r.hi
      ensures ss[i - 1].at < ss[i].at && ss[i - 1].bootId == ss[i].bootId
    {
      assert Derivable(ss, i);
      DerivableIff(ss[i - 1], ss[i]);
    }
    forall i | r.lo <= i < r.hi
      ensures b.facts.start <= ss[i].at < b.facts.end
    {
      assert StartAt(window, ss, i) == b.facts.start;
    }
    OneBoot(ss, r.lo, r.hi);
  }

  /** A window is as long as the setting says, or ten seconds if it says nothing. */
  lemma WindowLength(window: int, ss: seq<Sample>, r: Span, b: BucketValue)
    requires IsRun(window, ss, r)
    requires IsWindowOf(window, ss, r, b)
    ensures b.facts.end - b.facts.start == if window > 0 then window else 10_000_000_000
  {
    hide Derive, IsSummary, Truncate, ClosingCounters;
  }

  lemma {:induction false} OneBoot(ss: seq<Sample>, lo: nat, hi: nat)
    requires 1 <= lo < hi <= |ss|
    requires forall i | lo <= i < hi :: ss[i - 1].bootId == ss[i].bootId
    ensures forall i | lo - 1 <= i < hi :: ss[i].bootId == ss[hi - 1].bootId
  {
    if lo + 1 < hi {
      OneBoot(ss, lo, hi - 1);
    }
  }

  /** With increasing sample times the windows are emitted in order of their starts, and two windows share a
      start only if a sample between them could not be derived. */
  lemma EmissionOrder(window: int, ss: seq<Sample>, k: nat)
    requires forall i, j | 0 <= i < j < |ss| :: ss[i].at < ss[j].at
    requires k + 1 < |Runs(window, ss, |ss|)|
    ensures var rs, out := Runs(window, ss, |ss|), Output(window, ss);
      && |out| == |rs|
      && out[k].facts.start <= out[k + 1].facts.start
      && (out[k].facts.start == out[k + 1].facts.start ==>
            exists i :: rs[k].hi <= i < rs[k + 1].lo && !Derivable(ss, i))
  {
    hide Derivable, Joined, Runs, Output, IsSummary, Truncate, Width;
    AggregatorRefinesGrouping(window, ss);
    NoGapWithoutCause(window, ss, k);
    var rs, out := Runs(window, ss, |ss|), Output(window, ss);
    var p, q := rs[k], rs[k + 1];
    assert p in rs;
    assert IsRun(window, ss, p) && IsRun(window, ss, q) && IsMaximalRun(window, ss, |ss|, p);
    assert StartAt(window, ss, p.hi - 1) == out[k].facts.start;
    TruncateMonotone(ss[p.hi - 1].at, ss[q.lo].at, Width(window));
  }

  // ----- CPU shares of a window -----

  /** When the rises of the reported states fit the total at each reading, which honest counters do, every figure
      of every CPU metric is a percentage, the mean shares of user, system and steal fit inside the mean busy
      share, and busy and iowait together inside the whole. */
  lemma WindowCpuInRange(window: int, ss: seq<Sample>, r: Span, b: BucketValue)
    requires IsRun(window, ss, r)
    requires IsWindowOf(window, ss, r, b)
    requires forall i | r.lo <= i < r.hi :: RisesFit(ss[i - 1].cpu, ss[i].cpu)
    ensures forall m | m in {CpuBusy, CpuIOWait, CpuSteal, CpuUser, CpuSystem} ::
      0.0 <= b.Get(m).min <= b.Get(m).avg <= b.Get(m).max <= 100.0
    ensures b.cpuUser.avg + b.cpuSystem.avg + b.cpuSteal.avg <= b.cpuBusy.avg
    ensures b.cpuBusy.avg + b.cpuIOWait.avg <= 100.0
  {
    hide Derive, StartAt, IsSummary, RisesFit, RatesAt, ClosingCounters, IsRun, Readings, Sum;
    RunBounds(window, ss, r);
    RunIsDerivable(window, ss, r);
    forall m | m in {CpuBusy, CpuIOWait, CpuSteal, CpuUser, CpuSystem}
      ensures 0.0 <= b.Get(m).min <= b.Get(m).avg <= b.Get(m).max <= 100.0
    {
      PercentReadings(ss, r.lo, r.hi, m);
      SummaryWithin(b.Get(m), Readings(ss, m, r.lo, r.hi), 0.0, 100.0);
    }
    MeansFit(window, ss, r, b);
  }

  lemma MeansFit(window: int, ss: seq<Sample>, r: Span, b: BucketValue)
    requires IsRun(window, ss, r)
    requires IsWindowOf(window, ss, r, b)
    requires forall i | r.lo <= i < r.hi :: RisesFit(ss[i - 1].cpu, ss[i].cpu)
    ensures b.cpuUser.avg + b.cpuSystem.avg + b.cpuSteal.avg <= b.cpuBusy.avg
    ensures b.cpuBusy.avg + b.cpuIOWait.avg <= 100.0
  {
    hide Derive, StartAt, IsSummary, RisesFit, RatesAt, ClosingCounters, IsRun, Readings, Sum, IsWindowOf;
    RunBounds(window, ss, r);
    RunIsDerivable(window, ss, r);
    SumsAlong(ss, r.lo, r.hi);
    MeanOver(window, ss, r, b, CpuBusy);
    MeanOver(window, ss, r, b, CpuIOWait);
    MeanOver(window, ss, r, b, CpuSteal);
    MeanOver(window, ss, r, b, CpuUser);
    MeanOver(window, ss, r, b, CpuSystem);
    MeansOf(
      b.cpuBusy.avg, b.cpuIOWait.avg, b.cpuSteal.avg, b.cpuUser.avg, b.cpuSystem.avg,
      Sum(Readings(ss, CpuBusy, r.lo, r.hi)), Sum(Readings(ss, CpuIOWait, r.lo, r.hi)),
      Sum(Readings(ss, CpuSteal, r.lo, r.hi)), Sum(Readings(ss, CpuUser, r.lo, r.hi)),
      Sum(Readings(ss, CpuSystem, r.lo, r.hi)), (r.hi - r.lo) as real);
  }

  lemma MeanOver(window: int, ss: seq<Sample>, r: Span, b: BucketValue, m: Metric)
    requires IsRun(window, ss, r)
    requires IsWindowOf(window, ss, r, b)
    ensures b.Get(m).avg * (r.hi - r.lo) as real == Sum(Readings(ss, m, r.lo, r.hi))
  {
    hide Derive, StartAt, IsSummary, Sum;
    MeanTimesCount(b.Get(m), Readings(ss, m, r.lo, r.hi), r.hi - r.lo);
  }

  lemma RunIsDerivable(window: int, ss: seq<Sample>, r: Span)
    requires IsRun(window, ss, r)
    ensures forall i | r.lo <= i < r.hi :: Derivable(ss, i)
  {
    hide Derive;
  }

  lemma PercentReadings(ss: seq<Sample>, lo: nat, hi: nat, m: Metric)
    requires m in {CpuBusy, CpuIOWait, CpuSteal, CpuUser, CpuSystem}
    requires lo <= hi
    requires forall i | lo <= i < hi :: Derivable(ss, i) && RisesFit(ss[i - 1].cpu, ss[i].cpu)
    ensures forall v | v in Readings(ss, m, lo, hi) :: 0.0 <= v <= 100.0
  {
    hide Derive, RisesFit;
    var vs := Readings(ss, m, lo, hi);
    forall k | 0 <= k < |vs|
      ensures 0.0 <= vs[k] <= 100.0
    {
      assert Derivable(ss, lo + k);
      SharesInRangeIff(ss[lo + k - 1], ss[lo + k]);
    }
  }

  lemma {:induction false} SumsAlong(ss: seq<Sample>, lo: nat, hi: nat)
    requires lo <= hi
    requires forall i | lo <= i < hi :: Derivable(ss, i) && RisesFit(ss[i - 1].cpu, ss[i].cpu)
    ensures Sum(Readings(ss, CpuUser, lo, hi)) + Sum(Readings(ss, CpuSystem, lo, hi))
      + Sum(Readings(ss, CpuSteal, lo, hi)) <= Sum(Readings(ss, CpuBusy, lo, hi))
    ensures Sum(Readings(ss, CpuBusy, lo, hi)) + Sum(Readings(ss, CpuIOWait, lo, hi)) <= 100.0 * (hi - lo) as real
  {
    hide RisesFit, Derivable, RatesAt, Readings, Reading, Sum;
    if lo == hi {
      EmptySum(ss, lo);
    } else {
      SumsAlong(ss, lo, hi - 1);
      SumOfReadings(ss, CpuBusy, lo, hi);
      SumOfReadings(ss, CpuIOWait, lo, hi);
      SumOfReadings(ss, CpuSteal, lo, hi);
      SumOfReadings(ss, CpuUser, lo, hi);
      SumOfReadings(ss, CpuSystem, lo, hi);
      FittingReading(ss, hi - 1);
    }
  }

  lemma EmptySum(ss: seq<Sample>, lo: nat)
    ensures forall m :: Sum(Readings(ss, m, lo, lo)) == 0.0
  {
  }

  lemma FittingReading(ss: seq<Sample>, i: int)
    requires Derivable(ss, i) && RisesFit(ss[i - 1].cpu, ss[i].cpu)
    ensures var r := RatesAt(ss, i);
      && Reading(CpuUser, r) + Reading(CpuSystem, r) + Reading(CpuSteal, r) <= Reading(CpuBusy, r)
      && Reading(CpuBusy, r) + Reading(CpuIOWait, r) <= 100.0
  {
    hide Derive, RisesFit, Share, InterruptShare;
    SharesInRangeIff(ss[i - 1], ss[i]);
    CpuPartition(ss[i - 1], ss[i]);
  }

  lemma SumOfReadings(ss: seq<Sample>, m: Metric, lo: nat, hi: nat)
    requires lo < hi
    requires forall i | lo <= i < hi :: Derivable(ss, i)
    ensures Sum(Readings(ss, m, lo, hi)) == Sum(Readings(ss, m, lo, hi - 1)) + Reading(m, RatesAt(ss, hi - 1))
  {
    hide Derivable, RatesAt, Reading;
    var vs, v := Readings(ss, m, lo, hi - 1), Reading(m, RatesAt(ss, hi - 1));
    assert (vs + [v])[..|vs|] == vs;
  }

  lemma MeansOf(busy: real, iowait: real, steal: real, user: real, system: real,
                b: real, w: real, t: real, u: real, y: real, n: real)
    requires n > 0.0
    requires busy * n == b && iowait * n == w && steal * n == t
    requires user * n == u && system * n == y
    requires u + y + t <= b && b + w <= 100.0 * n
    ensures user + system + steal <= busy && busy + iowait <= 100.0
  {
    assert (user + system + steal) * n == user * n + system * n + steal * n;
    ScaledOrder(user + system + steal, busy, n);
    assert (busy + iowait) * n == busy * n + iowait * n;
    ScaledOrder(busy + iowait, 100.0, n);
  }

  // ----- How many readings -----

  /** The number of derivable intervals among the first `n` samples. */
  function DerivableCount(ss: seq<Sample>, n: nat): nat
    requires n <= |ss|
  {
    if n == 0 then 0 else DerivableCount(ss, n - 1) + if Derivable(ss, n - 1) then 1 else 0
  }

  function TotalSamples(bs: seq<BucketValue>): nat {
    if bs == [] then 0 else TotalSamples(bs[..|bs| - 1]) + bs[|bs| - 1].facts.samples
  }

  lemma TotalSamplesAppend(bs: seq<BucketValue>, b: BucketValue)
    ensures TotalSamples(bs + [b]) == TotalSamples(bs) + b.facts.samples
  {
    assert (bs + [b])[..|bs|] == bs;
  }

  lemma {:induction false} TotalSamplesConcat(bs: seq<BucketValue>, cs: seq<BucketValue>)
    ensures TotalSamples(bs + cs) == TotalSamples(bs) + TotalSamples(cs)
  {
    if cs == [] {
      assert bs + cs == bs;
    } else {
      var front, last := cs[..|cs| - 1], cs[|cs| - 1];
      TotalSamplesConcat(bs, front);
      assert bs + cs == (bs + front) + [last];
      TotalSamplesAppend(bs + front, last);
    }
  }

  /** Every derivable interval is counted by exactly one window, emitted or in progress. */
  lemma {:induction false} SamplesAreIntervals(window: int, ss: seq<Sample>, n: nat)
    requires n <= |ss|
    ensures TotalSamples(Emitted(window, ss, n) + AsSeq(Fed(window, ss, n).current)) == DerivableCount(ss, n)
  {
    hide Derivable, Joined, Added, WithReading, EmptyBucket, Tracks, Runs;
    if n == 0 {
      assert Emitted(window, ss, 0) + AsSeq(Fed(window, ss, 0).current) == [];
    } else {
      SamplesAreIntervals(window, ss, n - 1);
      IntervalStep(window, ss, n);
    }
  }

  lemma IntervalStep(window: int, ss: seq<Sample>, n: nat)
    requires 0 < n <= |ss|
    ensures TotalSamples(Emitted(window, ss, n) + AsSeq(Fed(window, ss, n).current))
      == TotalSamples(Emitted(window, ss, n - 1) + AsSeq(Fed(window, ss, n - 1).current))
         + if Derivable(ss, n - 1) then 1 else 0
  {
    hide Derivable, Joined, Added, WithReading, EmptyBucket, Buckets, Runs, RunWindow, InProgress, AllRuns, TotalSamples;
    TracksAlways(window, ss, n - 1);
    var a, before := Fed(window, ss, n - 1), Emitted(window, ss, n - 1);
    var (next, out) := Added(a, ss[n - 1]);
    if n == 1 {
      NothingDerivableYet(ss);
      FirstSample(window, ss);
      assert before + AsSeq(a.current) == [] == before + AsSeq(out) + AsSeq(next.current);
    } else {
      if a.current.Some? {
        CurrentStart(window, ss, n - 1, a, before, Runs(window, ss, n - 1));
      }
      AddedByMark(window, ss, n - 1, a);
      MarkMeaning(window, ss, n - 1);
      match MarkAt(window, ss, n - 1) {
        case Gap =>
          assert before + AsSeq(out) + AsSeq(next.current) == before + AsSeq(a.current);
        case Opens =>
          assert before + AsSeq(out) + AsSeq(next.current) == (before + AsSeq(a.current)) + [next.current.value];
          TotalSamplesAppend(before + AsSeq(a.current), next.current.value);
          var start := StartAt(window, ss, n - 1);
          OneSampleMore(window, ss, n - 1, EmptyBucket(start, start + Width(window)));
          EmptySamples(start, start + Width(window));
        case Joins =>
          assert before + AsSeq(out) + AsSeq(next.current) == before + [next.current.value];
          TotalSamplesAppend(before, next.current.value);
          TotalSamplesAppend(before, a.current.value);
          OneSampleMore(window, ss, n - 1, a.current.value);
      }
    }
  }

  lemma OneSampleMore(window: int, ss: seq<Sample>, i: int, b: BucketValue)
    requires Derivable(ss, i)
    ensures WithReading(b, RatesAt(ss, i), ss[i]).facts.samples == b.facts.samples + 1
  {
  }

  lemma EmptySamples(start: int, end: int)
    ensures EmptyBucket(start, end).facts.samples == 0
  {
  }
}

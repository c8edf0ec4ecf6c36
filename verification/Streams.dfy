/** What the aggregator computes from a whole stream of samples: its maximal runs of derivable readings that
    share a window (internal/metrics/bucket.go, internal/metrics/derive.go). */
module Streams {
  import opened Clock
  import opened Wrappers
  import opened Collect
  import opened Derivation
  import opened Grouping
  import opened Statistics
  import opened Windows
  import opened Aggregation

  // ----- The machine run over a stream -----

  function AsSeq<T>(o: Option<T>): seq<T> {
    if o.None? then [] else [o.value]
  }

  /** The aggregator after the first `n` samples of the stream. */
  function Fed(window: int, ss: seq<Sample>, n: nat): AggregatorState
    requires n <= |ss|
  {
    if n == 0 then FreshAggregator(window) else Added(Fed(window, ss, n - 1), ss[n - 1]).0
  }

  /** The windows it completed over these samples, in order. */
  function Emitted(window: int, ss: seq<Sample>, n: nat): seq<BucketValue>
    requires n <= |ss|
  {
    if n == 0 then []
    else Emitted(window, ss, n - 1) + AsSeq(Added(Fed(window, ss, n - 1), ss[n - 1]).1)
  }

  /** Every window of the stream, the one a final flush closes included. */
  function Output(window: int, ss: seq<Sample>): seq<BucketValue> {
    Emitted(window, ss, |ss|) + AsSeq(Flushed(Fed(window, ss, |ss|)))
  }

  // ----- The declarative grouping -----

  predicate Derivable(ss: seq<Sample>, i: int) {
    1 <= i < |ss| && Derive(ss[i - 1], ss[i]).Some?
  }

  function RatesAt(ss: seq<Sample>, i: int): Rates
    requires Derivable(ss, i)
  {
    Derive(ss[i - 1], ss[i]).value
  }

  /** The start of the window that sample `i` falls into. */
  function StartAt(window: int, ss: seq<Sample>, i: int): int
    requires 0 <= i < |ss|
  {
    Truncate(ss[i].at, Width(window))
  }

  /** Reading `i` belongs with the reading before it. */
  predicate Joined(window: int, ss: seq<Sample>, i: int) {
    && Derivable(ss, i - 1) && Derivable(ss, i)
    && StartAt(window, ss, i - 1) == StartAt(window, ss, i)
  }

  /** The readings of a span are consecutive, derivable and fall into one window. */
  ghost predicate IsRun(window: int, ss: seq<Sample>, r: Span) {
    && 1 <= r.lo < r.hi <= |ss|
    && forall i | r.lo <= i < r.hi :: Derivable(ss, i) && StartAt(window, ss, i) == StartAt(window, ss, r.lo)
  }

  /** A run among the first `n` samples that can be extended on neither side. */
  ghost predicate IsMaximalRun(window: int, ss: seq<Sample>, n: nat, r: Span) {
    && IsRun(window, ss, r) && r.hi <= n
    && (r.lo > 1 ==> !IsRun(window, ss, Span(r.lo - 1, r.hi)))
    && (r.hi < n ==> !IsRun(window, ss, Span(r.lo, r.hi + 1)))
  }

  /** The readings of one metric over a span. */
  function Readings(ss: seq<Sample>, m: Metric, lo: nat, hi: nat): (vs: seq<real>)
    requires lo <= hi
    requires forall i | lo <= i < hi :: Derivable(ss, i)
    ensures |vs| == hi - lo
    ensures forall k | 0 <= k < |vs| :: vs[k] == Reading(m, RatesAt(ss, lo + k))
  {
    if lo == hi then [] else Readings(ss, m, lo, hi - 1) + [Reading(m, RatesAt(ss, hi - 1))]
  }

  /** What the window of a run must be: aligned bounds, the sample count and facts of its last sample, and for
      each metric the summary of exactly its readings. */
  ghost predicate IsWindowOf(window: int, ss: seq<Sample>, r: Span, b: BucketValue)
    requires IsRun(window, ss, r)
  {
    var last := ss[r.hi - 1];
    && b.facts == Facts(
         StartAt(window, ss, r.lo), StartAt(window, ss, r.lo) + Width(window), r.hi - r.lo, last.bootId,
         last.mem.total, last.mem.swapTotal, last.fs, ClosingCounters(last))
    && forall m: Metric :: IsSummary(b.Get(m), Readings(ss, m, r.lo, r.hi))
  }

  // ----- The runs, computed -----

  function MarkAt(window: int, ss: seq<Sample>, i: nat): Mark {
    if !Derivable(ss, i) then Gap else if Joined(window, ss, i) then Joins else Opens
  }

  function Marks(window: int, ss: seq<Sample>): (ms: seq<Mark>)
    ensures |ms| == |ss| && forall i | 0 <= i < |ms| :: ms[i] == MarkAt(window, ss, i)
  {
    seq(|ss|, i requires 0 <= i < |ss| => MarkAt(window, ss, i))
  }

  lemma MarksWellMarked(window: int, ss: seq<Sample>)
    ensures WellMarked(Marks(window, ss))
  {
    hide Derive;
  }

  /** The runs among the first `n` samples. */
  function Runs(window: int, ss: seq<Sample>, n: nat): seq<Span>
    requires n <= |ss|
  {
    Groups(Marks(window, ss), n)
  }

  /** A run is a reading followed by readings each joined to the one before it. */
  lemma {:induction false} RunIffJoined(window: int, ss: seq<Sample>, r: Span)
    requires 1 <= r.lo < r.hi <= |ss|
    ensures IsRun(window, ss, r) <==>
      Derivable(ss, r.lo) && forall i | r.lo < i < r.hi :: Joined(window, ss, i)
    decreases r.hi
  {
    hide Derivable, StartAt;
    if r.lo + 1 < r.hi {
      RunIffJoined(window, ss, Span(r.lo, r.hi - 1));
      RunExtends(window, ss, r);
    }
  }

  lemma RunExtends(window: int, ss: seq<Sample>, r: Span)
    requires 1 <= r.lo < r.hi - 1 && r.hi <= |ss|
    ensures IsRun(window, ss, r) <==>
      IsRun(window, ss, Span(r.lo, r.hi - 1)) && Joined(window, ss, r.hi - 1)
  {
    hide Derive, StartAt;
  }

  /** A reading before a run extends it exactly when the first reading of the run joins it. */
  lemma RunExtendsLeft(window: int, ss: seq<Sample>, r: Span)
    requires 1 < r.lo
    requires IsRun(window, ss, r)
    ensures IsRun(window, ss, Span(r.lo - 1, r.hi)) <==> Joined(window, ss, r.lo)
  {
    hide Derive, StartAt;
  }

  lemma GroupIffJoined(window: int, ss: seq<Sample>, n: nat, r: Span)
    requires r.lo < r.hi <= n <= |ss|
    ensures IsGroup(Marks(window, ss), n, r) <==>
      && Derivable(ss, r.lo)
      && !Joined(window, ss, r.lo)
      && (forall i | r.lo < i < r.hi :: Joined(window, ss, i))
      && (r.hi < n ==> !Joined(window, ss, r.hi))
  {
    hide Derivable, Joined;
    JoinedIsDerivable(window, ss);
    var ms := Marks(window, ss);
    if forall i | r.lo < i < r.hi :: Joined(window, ss, i) {
      assert forall i | r.lo < i < r.hi :: ms[i] == Joins;
    } else {
      var i :| r.lo < i < r.hi && !Joined(window, ss, i);
      assert ms[i] != Joins;
    }
  }

  lemma JoinedIsDerivable(window: int, ss: seq<Sample>)
    ensures forall i: int | Joined(window, ss, i) :: i > 1 && Derivable(ss, i - 1) && Derivable(ss, i)
  {
    hide Derive;
  }

  lemma RunBounds(window: int, ss: seq<Sample>, r: Span)
    ensures IsRun(window, ss, r) ==> 1 <= r.lo < r.hi <= |ss|
    ensures Derivable(ss, r.lo) ==> r.lo >= 1
  {
    hide Derive;
  }

  lemma MaximalIffGroup(window: int, ss: seq<Sample>, n: nat, r: Span)
    requires n <= |ss|
    ensures IsMaximalRun(window, ss, n, r) <==> IsGroup(Marks(window, ss), n, r)
  {
    hide Derivable, Joined, IsRun, Marks;
    RunBounds(window, ss, r);
    JoinedIsDerivable(window, ss);
    if r.lo < r.hi <= n {
      GroupIffJoined(window, ss, n, r);
      if r.lo >= 1 {
        RunIffJoined(window, ss, r);
      }
      if IsRun(window, ss, r) {
        if r.lo > 1 {
          RunExtendsLeft(window, ss, r);
        }
        if r.hi < n {
          RunExtends(window, ss, Span(r.lo, r.hi + 1));
        }
      }
    }
  }

  /** The computed runs are exactly the maximal runs of the stream, in order. */
  lemma RunsAreTheMaximalRuns(window: int, ss: seq<Sample>, n: nat)
    requires n <= |ss|
    ensures Ordered(Runs(window, ss, n))
    ensures forall r: Span :: r in Runs(window, ss, n) <==> IsMaximalRun(window, ss, n, r)
  {
    hide Derivable, Joined, IsRun, Marks, IsMaximalRun, IsGroup, Groups;
    MarksWellMarked(window, ss);
    var ms := Marks(window, ss);
    GroupsAreGroups(ms, n);
    forall r: Span
      ensures r in Runs(window, ss, n) <==> IsMaximalRun(window, ss, n, r)
    {
      MaximalIffGroup(window, ss, n, r);
      if IsGroup(ms, n, r) {
        GroupsAreComplete(ms, n, r);
      }
    }
  }

  // ----- The windows of the runs -----

  /** The window built from the readings of a span. */
  function BucketOf(window: int, ss: seq<Sample>, lo: nat, hi: nat): BucketValue
    requires lo <= hi <= |ss| && lo < |ss|
    requires forall i | lo <= i < hi :: Derivable(ss, i)
  {
    if lo == hi then EmptyBucket(StartAt(window, ss, lo), StartAt(window, ss, lo) + Width(window))
    else WithReading(BucketOf(window, ss, lo, hi - 1), RatesAt(ss, hi - 1), ss[hi - 1])
  }

  lemma {:induction false} BucketOfIsWindow(window: int, ss: seq<Sample>, r: Span)
    requires IsRun(window, ss, r)
    ensures IsWindowOf(window, ss, r, BucketOf(window, ss, r.lo, r.hi))
    decreases r.hi
  {
    hide Derive, StartAt, Folded, IsSummary;
    BucketFacts(window, ss, r);
    forall m: Metric
      ensures IsSummary(BucketOf(window, ss, r.lo, r.hi).Get(m), Readings(ss, m, r.lo, r.hi))
    {
      BucketSummaries(window, ss, r.lo, r.hi, m);
    }
  }

  lemma BucketFacts(window: int, ss: seq<Sample>, r: Span)
    requires IsRun(window, ss, r)
    ensures var last := ss[r.hi - 1];
      BucketOf(window, ss, r.lo, r.hi).facts == Facts(
        StartAt(window, ss, r.lo), StartAt(window, ss, r.lo) + Width(window), r.hi - r.lo, last.bootId,
        last.mem.total, last.mem.swapTotal, last.fs, ClosingCounters(last))
  {
    hide StartAt, Folded, Derive;
    BucketBounds(window, ss, r.lo, r.hi - 1);
    TotalsAt(ss, r.hi - 1);
  }

  lemma {:induction false} BucketBounds(window: int, ss: seq<Sample>, lo: nat, hi: nat)
    requires lo <= hi <= |ss| && lo < |ss|
    requires forall i | lo <= i < hi :: Derivable(ss, i)
    ensures var f := BucketOf(window, ss, lo, hi).facts;
      f.start == StartAt(window, ss, lo) && f.end == StartAt(window, ss, lo) + Width(window) && f.samples == hi - lo
  {
    hide StartAt, Folded, Derive;
    if lo < hi {
      BucketBounds(window, ss, lo, hi - 1);
    }
  }

  lemma TotalsAt(ss: seq<Sample>, i: int)
    requires Derivable(ss, i)
    ensures var r, s := RatesAt(ss, i), ss[i];
      r.memTotal == s.mem.total && r.swapTotal == s.mem.swapTotal && r.fs == s.fs
  {
    hide Derive;
    DerivedGauges(ss[i - 1], ss[i]);
  }

  lemma {:induction false} BucketSummaries(window: int, ss: seq<Sample>, lo: nat, hi: nat, m: Metric)
    requires lo <= hi <= |ss| && lo < |ss|
    requires forall i | lo <= i < hi :: Derivable(ss, i)
    ensures IsSummary(BucketOf(window, ss, lo, hi).Get(m), Readings(ss, m, lo, hi))
  {
    hide StartAt, Folded, Derivable, RatesAt, Reading, WithReading;
    if lo < hi {
      BucketSummaries(window, ss, lo, hi - 1, m);
      var b := BucketOf(window, ss, lo, hi - 1);
      var rates := RatesAt(ss, hi - 1);
      WithReadingPerMetric(b, rates, ss[hi - 1], m);
      FoldedIsSummary(b.Get(m), Readings(ss, m, lo, hi - 1), Reading(m, rates));
    }
  }

  // ----- The machine refines the grouping -----

  ghost predicate AllRuns(window: int, ss: seq<Sample>, rs: seq<Span>) {
    forall r | r in rs :: IsRun(window, ss, r)
  }

  /** The window of a run. */
  ghost function RunWindow(window: int, ss: seq<Sample>, r: Span): BucketValue
    requires IsRun(window, ss, r)
  {
    BucketOf(window, ss, r.lo, r.hi)
  }

  ghost function Buckets(window: int, ss: seq<Sample>, rs: seq<Span>): (bs: seq<BucketValue>)
    requires AllRuns(window, ss, rs)
    ensures |bs| == |rs|
    ensures forall k | 0 <= k < |rs| :: rs[k] in rs && bs[k] == RunWindow(window, ss, rs[k])
  {
    hide IsRun;
    seq(|rs|, k requires 0 <= k < |rs| => assert rs[k] in rs; RunWindow(window, ss, rs[k]))
  }

  /** The aggregator after `n` samples, against the runs among them. */
  ghost predicate Tracks(window: int, ss: seq<Sample>, n: nat, a: AggregatorState, emitted: seq<BucketValue>, rs: seq<Span>)
    requires n <= |ss|
  {
    && AllRuns(window, ss, rs)
    && a.window == window
    && a.prev == (if n == 0 then None else Some(ss[n - 1]))
    && (a.current.Some? <==> Derivable(ss, n - 1))
    && (a.current.Some? ==> InProgress(window, ss, n, a.current.value, rs))
    && emitted + AsSeq(a.current) == Buckets(window, ss, rs)
  }

  /** The window in progress is the window of the last run, which is still open. */
  ghost predicate InProgress(window: int, ss: seq<Sample>, n: nat, current: BucketValue, rs: seq<Span>)
    requires n <= |ss|
    requires AllRuns(window, ss, rs)
  {
    && rs != []
    && var last := rs[|rs| - 1];
    && assert last in rs; last.hi == n
    && current == RunWindow(window, ss, last)
  }

  /** What one sample does to an aggregator that has seen its predecessor, by the mark of the sample. */
  lemma AddedByMark(window: int, ss: seq<Sample>, i: nat, a: AggregatorState)
    requires 0 < i < |ss|
    requires a.window == window && a.prev == Some(ss[i - 1])
    requires a.current.Some? <==> Derivable(ss, i - 1)
    requires a.current.Some? ==>
      a.current.value.facts.samples > 0 && a.current.value.facts.start == StartAt(window, ss, i - 1)
    ensures var (next, out) := Added(a, ss[i]);
      && next.window == window && next.prev == Some(ss[i])
      && match MarkAt(window, ss, i)
         case Gap => next.current == None && out == a.current
         case Opens =>
           && Derivable(ss, i)
           && next.current == Some(WithReading(
                EmptyBucket(StartAt(window, ss, i), StartAt(window, ss, i) + Width(window)), RatesAt(ss, i), ss[i]))
           && out == a.current
         case Joins =>
           && Derivable(ss, i)
           && a.current.Some?
           && next.current == Some(WithReading(a.current.value, RatesAt(ss, i), ss[i]))
           && out == None
  {
    hide Derive, WithReading, Truncate, EmptyBucket, Width;
  }

  lemma CurrentStart(window: int, ss: seq<Sample>, n: nat, a: AggregatorState, emitted: seq<BucketValue>, rs: seq<Span>)
    requires 0 < n <= |ss|
    requires Tracks(window, ss, n, a, emitted, rs)
    requires a.current.Some?
    ensures a.current.value.facts.samples > 0
    ensures a.current.value.facts.start == StartAt(window, ss, n - 1)
  {
    hide Derive, StartAt, WithReading;
    var last := rs[|rs| - 1];
    assert IsRun(window, ss, last);
    BucketBounds(window, ss, last.lo, n);
  }

  lemma TracksStep(window: int, ss: seq<Sample>, n: nat, a: AggregatorState, emitted: seq<BucketValue>, rs: seq<Span>)
    requires 0 < n < |ss|
    requires Tracks(window, ss, n, a, emitted, rs)
    requires forall r | r in rs :: r.lo < r.hi <= n
    requires AllRuns(window, ss, Extended(rs, MarkAt(window, ss, n), n + 1))
    ensures var (next, out) := Added(a, ss[n]);
      Tracks(window, ss, n + 1, next, emitted + AsSeq(out), Extended(rs, MarkAt(window, ss, n), n + 1))
  {
    hide Derivable, Joined, StartAt, WithReading, EmptyBucket, RatesAt, IsRun, Added, RunWindow, MarkAt, Buckets;
    if a.current.Some? {
      CurrentStart(window, ss, n, a, emitted, rs);
    }
    AddedByMark(window, ss, n, a);
    MarkMeaning(window, ss, n);
    var (next, out) := Added(a, ss[n]);
    match MarkAt(window, ss, n) {
      case Gap =>
      case Opens => BucketsOpen(window, ss, n, rs);
      case Joins =>
        BucketsGrow(window, ss, n, rs);
        assert emitted == (emitted + AsSeq(a.current))[..|rs| - 1];
    }
  }

  /** Opening a run appends the window of its first reading. */
  lemma BucketsOpen(window: int, ss: seq<Sample>, n: nat, rs: seq<Span>)
    requires n < |ss|
    requires AllRuns(window, ss, rs)
    requires AllRuns(window, ss, rs + [Span(n, n + 1)])
    ensures Derivable(ss, n) && IsRun(window, ss, Span(n, n + 1))
    ensures RunWindow(window, ss, Span(n, n + 1)) == WithReading(
      EmptyBucket(StartAt(window, ss, n), StartAt(window, ss, n) + Width(window)), RatesAt(ss, n), ss[n])
    ensures Buckets(window, ss, rs + [Span(n, n + 1)])
      == Buckets(window, ss, rs) + [RunWindow(window, ss, Span(n, n + 1))]
  {
    hide Derivable, StartAt, WithReading, EmptyBucket, RatesAt, IsRun, RunWindow, Buckets;
    OneReading(window, ss, n, rs + [Span(n, n + 1)]);
  }

  /** Growing the last run replaces its window by that window with one more reading. */
  lemma BucketsGrow(window: int, ss: seq<Sample>, n: nat, rs: seq<Span>)
    requires n < |ss|
    requires rs != [] && rs[|rs| - 1].hi == n && rs[|rs| - 1].lo < n
    requires AllRuns(window, ss, rs)
    requires AllRuns(window, ss, rs[..|rs| - 1] + [Span(rs[|rs| - 1].lo, n + 1)])
    ensures var last := rs[|rs| - 1];
      && last in rs
      && Derivable(ss, n) && IsRun(window, ss, Span(last.lo, n + 1))
      && RunWindow(window, ss, Span(last.lo, n + 1)) == WithReading(RunWindow(window, ss, last), RatesAt(ss, n), ss[n])
      && Buckets(window, ss, rs[..|rs| - 1] + [Span(last.lo, n + 1)])
         == Buckets(window, ss, rs)[..|rs| - 1] + [RunWindow(window, ss, Span(last.lo, n + 1))]
  {
    hide Derivable, StartAt, WithReading, EmptyBucket, RatesAt, IsRun, RunWindow, Buckets;
    var grown := Span(rs[|rs| - 1].lo, n + 1);
    var after := rs[..|rs| - 1] + [grown];
    assert after[|rs| - 1] == grown;
    OneMoreReading(window, ss, grown, after);
  }

  lemma MarkMeaning(window: int, ss: seq<Sample>, i: nat)
    ensures MarkAt(window, ss, i) == Gap <==> !Derivable(ss, i)
  {
  }

  lemma OneReading(window: int, ss: seq<Sample>, i: nat, rs: seq<Span>)
    requires AllRuns(window, ss, rs) && Span(i, i + 1) in rs
    ensures IsRun(window, ss, Span(i, i + 1)) && Derivable(ss, i)
    ensures RunWindow(window, ss, Span(i, i + 1)) == WithReading(
      EmptyBucket(StartAt(window, ss, i), StartAt(window, ss, i) + Width(window)), RatesAt(ss, i), ss[i])
  {
    hide Derive, StartAt, WithReading, EmptyBucket;
    assert BucketOf(window, ss, i, i) == EmptyBucket(StartAt(window, ss, i), StartAt(window, ss, i) + Width(window));
  }

  lemma OneMoreReading(window: int, ss: seq<Sample>, r: Span, rs: seq<Span>)
    requires AllRuns(window, ss, rs) && r in rs
    requires r.lo < r.hi - 1
    ensures IsRun(window, ss, r) && IsRun(window, ss, Span(r.lo, r.hi - 1)) && Derivable(ss, r.hi - 1)
    ensures RunWindow(window, ss, r)
      == WithReading(RunWindow(window, ss, Span(r.lo, r.hi - 1)), RatesAt(ss, r.hi - 1), ss[r.hi - 1])
  {
    hide Derive, StartAt, WithReading, EmptyBucket;
  }

  lemma {:induction false} TracksAlways(window: int, ss: seq<Sample>, n: nat)
    requires n <= |ss|
    ensures Tracks(window, ss, n, Fed(window, ss, n), Emitted(window, ss, n), Runs(window, ss, n))
  {
    hide Derivable, Joined, IsRun, Added, Buckets, Extended, IsMaximalRun;
    RunsAreRuns(window, ss, n);
    if n == 0 {
      NothingDerivableYet(ss);
      assert Emitted(window, ss, 0) == [];
      assert Groups(Marks(window, ss), 0) == [];
    } else if n == 1 {
      FirstSample(window, ss);
    } else {
      TracksAlways(window, ss, n - 1);
      TracksStep(window, ss, n - 1, Fed(window, ss, n - 1), Emitted(window, ss, n - 1), Runs(window, ss, n - 1));
    }
  }

  lemma RunsAreRuns(window: int, ss: seq<Sample>, n: nat)
    requires n <= |ss|
    ensures AllRuns(window, ss, Runs(window, ss, n))
  {
    hide Derivable, Joined, IsRun, Runs;
    RunsAreTheMaximalRuns(window, ss, n);
  }

  lemma NothingDerivableYet(ss: seq<Sample>)
    ensures !Derivable(ss, -1) && !Derivable(ss, 0)
  {
  }

  lemma FirstSample(window: int, ss: seq<Sample>)
    requires |ss| >= 1
    ensures Tracks(window, ss, 1, Fed(window, ss, 1), Emitted(window, ss, 1), Runs(window, ss, 1))
    ensures Runs(window, ss, 1) == []
  {
    hide Derive;
    assert Emitted(window, ss, 0) == [];
    assert Marks(window, ss)[0] == Gap;
    assert Groups(Marks(window, ss), 0) == [];
    assert Runs(window, ss, 1) == [];
  }

  /** Whatever the stream, the windows the aggregator hands out, the last one by a flush, are the windows of
      the maximal runs of derivable readings sharing a window, each once and in order. */
  lemma AggregatorRefinesGrouping(window: int, ss: seq<Sample>)
    ensures var rs, out := Runs(window, ss, |ss|), Output(window, ss);
      && Ordered(rs)
      && (forall r: Span :: r in rs <==> IsMaximalRun(window, ss, |ss|, r))
      && |out| == |rs|
      && forall k | 0 <= k < |rs| :: IsRun(window, ss, rs[k]) && IsWindowOf(window, ss, rs[k], out[k])
  {
    hide Derivable, Joined, IsRun, Runs, Emitted, Fed, IsMaximalRun, IsWindowOf, BucketOf;
    var n := |ss|;
    RunsAreTheMaximalRuns(window, ss, n);
    TracksAlways(window, ss, n);
    var rs, a := Runs(window, ss, n), Fed(window, ss, n);
    if a.current.Some? {
      NothingDerivableYet(ss);
      CurrentStart(window, ss, n, a, Emitted(window, ss, n), rs);
    }
    forall k | 0 <= k < |rs|
      ensures IsRun(window, ss, rs[k]) && IsWindowOf(window, ss, rs[k], Output(window, ss)[k])
    {
      assert rs[k] in rs;
      BucketOfIsWindow(window, ss, rs[k]);
    }
  }
}

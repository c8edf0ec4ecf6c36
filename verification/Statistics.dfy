/** The min, mean and max of one metric over a window (internal/metrics/bucket.go). */
module Statistics {
  /** The value of a statistic: an accumulator over `n` readings, or, with `n` zero, a finished report. */
  datatype StatValue = StatValue(min: real, avg: real, max: real, n: nat)

  const EMPTY_STAT: StatValue := StatValue(0.0, 0.0, 0.0, 0)

  /** The statistic after one more reading. */
  function Folded(s: StatValue, v: real): StatValue {
    StatValue(
      if s.n == 0 || v < s.min then v else s.min,
      s.avg + (v - s.avg) / (s.n + 1) as real,
      if s.n == 0 || v > s.max then v else s.max,
      s.n + 1)
  }

  function Sum(vs: seq<real>): real {
    if vs == [] then 0.0 else Sum(vs[..|vs| - 1]) + vs[|vs| - 1]
  }

  ghost predicate IsLeast(m: real, vs: seq<real>) {
    m in vs && forall v | v in vs :: m <= v
  }

  ghost predicate IsGreatest(m: real, vs: seq<real>) {
    m in vs && forall v | v in vs :: v <= m
  }

  /** What the statistic of some readings is, without reference to how it was computed. */
  ghost predicate IsSummary(s: StatValue, vs: seq<real>) {
    && s.n == |vs|
    && s.avg * |vs| as real == Sum(vs)
    && (vs == [] ==> s == EMPTY_STAT)
    && (vs != [] ==> IsLeast(s.min, vs) && IsGreatest(s.max, vs))
  }

  /** Folding a reading into the summary of some readings gives the summary of all of them: the incremental
      mean is the exact mean. */
  lemma FoldedIsSummary(s: StatValue, vs: seq<real>, v: real)
    requires IsSummary(s, vs)
    ensures IsSummary(Folded(s, v), vs + [v])
  {
    var ws := vs + [v];
    assert ws[..|ws| - 1] == vs;
    assert forall x :: x in ws <==> x in vs || x == v;
    MeanStep(s.avg, v, |vs|);
  }

  lemma MeanStep(avg: real, v: real, n: nat)
    ensures (avg + (v - avg) / (n + 1) as real) * (n + 1) as real == avg * n as real + v
  {
    var m := (n + 1) as real;
    var q := (v - avg) / m;
    assert q * m == v - avg;
    assert (avg + q) * m == avg * m + q * m;
    assert avg * m == avg * n as real + avg;
  }

  /** The mean of a summary lies between its extremes. */
  lemma MeanBetweenExtremes(s: StatValue, vs: seq<real>)
    requires IsSummary(s, vs)
    ensures s.min <= s.avg <= s.max
  {
    hide Sum;
    if vs != [] {
      SumBounds(vs, s.min, s.max);
      DivideBounds(s.min, s.avg, s.max, |vs|, Sum(vs));
    }
  }

  lemma DivideBounds(lo: real, x: real, hi: real, n: nat, sum: real)
    requires n > 0
    requires x * n as real == sum && lo * n as real <= sum <= hi * n as real
    ensures lo <= x <= hi
  {
    ScaledOrder(lo, x, n as real);
    ScaledOrder(x, hi, n as real);
  }

  lemma ScaledOrder(x: real, y: real, m: real)
    requires m > 0.0
    ensures x * m <= y * m ==> x <= y
  {
    if x > y {
      assert (x - y) * m > 0.0;
      assert (x - y) * m == x * m - y * m;
    }
  }

  lemma {:induction false} SumBounds(vs: seq<real>, lo: real, hi: real)
    requires forall v | v in vs :: lo <= v <= hi
    ensures lo * |vs| as real <= Sum(vs) <= hi * |vs| as real
  {
    if vs != [] {
      var front := vs[..|vs| - 1];
      assert forall v | v in front :: v in vs;
      SumBounds(front, lo, hi);
      assert vs[|vs| - 1] in vs;
      BoundsStep(lo, hi, Sum(front), vs[|vs| - 1], |front|);
    }
  }

  lemma BoundsStep(lo: real, hi: real, sum: real, v: real, n: nat)
    requires lo * n as real <= sum <= hi * n as real
    requires lo <= v <= hi
    ensures lo * (n + 1) as real <= sum + v <= hi * (n + 1) as real
  {
    assert lo * (n + 1) as real == lo * n as real + lo;
    assert hi * (n + 1) as real == hi * n as real + hi;
  }

  /** Bounds on the readings carry over to the three reported figures. */
  lemma SummaryWithin(s: StatValue, vs: seq<real>, lo: real, hi: real)
    requires IsSummary(s, vs)
    requires vs != []
    requires forall v | v in vs :: lo <= v <= hi
    ensures lo <= s.min <= s.avg <= s.max <= hi
  {
    MeanBetweenExtremes(s, vs);
  }

  /** A summary is determined by the readings alone. */
  lemma SummaryUnique(s: StatValue, t: StatValue, vs: seq<real>)
    requires IsSummary(s, vs) && IsSummary(t, vs)
    ensures s == t
  {
    if vs != [] {
      assert (s.avg - t.avg) * |vs| as real == 0.0;
    }
  }

  /** The accumulator the agent updates in place. `slot` only tells the twelve accumulators of a bucket apart. */
  class Stat {
    ghost const slot: nat
    var min: real
    var avg: real
    var max: real
    var n: nat

    constructor (ghost slot: nat)
      ensures this.slot == slot && Value() == EMPTY_STAT
    {
      this.slot := slot;
      min, avg, max, n := 0.0, 0.0, 0.0, 0;
    }

    function Value(): StatValue
      reads this
    {
      StatValue(min, avg, max, n)
    }

    method Add(v: real)
      modifies this
      ensures Value() == Folded(old(Value()), v)
    {
      if n == 0 || v < min {
        min := v;
      }
      if n == 0 || v > max {
        max := v;
      }
      n := n + 1;
      avg := avg + (v - avg) / n as real;
    }
  }
}

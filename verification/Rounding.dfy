/** Rounding and the wire form of a statistic (internal/metrics/bucket.go). */
module Rounding {
  /** `math.Round`: the nearest integer, halves away from zero. */
  function Round(x: real): int {
    if x >= 0.0 then (x + 0.5).Floor else -((-x + 0.5).Floor)
  }

  function Round2(v: real): real {
    Round(v * 100.0) as real / 100.0
  }

  lemma RoundIsNearest(x: real)
    ensures -0.5 <= Round(x) as real - x <= 0.5
    ensures Round(x) as real - x == 0.5 ==> x > 0.0
    ensures Round(x) as real - x == -0.5 ==> x < 0.0
  {
  }

  lemma RoundMonotone(x: real, y: real)
    requires x <= y
    ensures Round(x) <= Round(y)
  {
  }

  lemma RoundOfInteger(k: int)
    ensures Round(k as real) == k
  {
  }

  function Hundredth(k: int): real {
    k as real / 100.0
  }

  /** What rounding to two decimals means: a nearest hundredth, and of two equally near the one away from zero. */
  ghost predicate IsRounded(v: real, r: real) {
    && (exists k: int :: r == Hundredth(k))
    && -0.005 <= r - v <= 0.005
    && (r - v == 0.005 ==> v > 0.0)
    && (r - v == -0.005 ==> v < 0.0)
  }

  /** Every figure has exactly one rounding, the one the code computes. */
  lemma Round2Iff(v: real, r: real)
    ensures r == Round2(v) <==> IsRounded(v, r)
  {
    var n := Round(v * 100.0);
    RoundIsNearest(v * 100.0);
    assert Round2(v) == Hundredth(n) && Round2(v) * 100.0 == n as real;
    if IsRounded(v, r) {
      var k: int :| r == Hundredth(k);
      assert r * 100.0 == k as real;
      NearestIsOne(v * 100.0, k, n);
    }
  }

  lemma NearestIsOne(x: real, k: int, n: int)
    requires -0.5 <= k as real - x <= 0.5 && -0.5 <= n as real - x <= 0.5
    requires k as real - x == 0.5 || n as real - x == 0.5 ==> x > 0.0
    requires k as real - x == -0.5 || n as real - x == -0.5 ==> x < 0.0
    ensures k == n
  {
  }

  /** Rounding to two decimals keeps the order, moves a value by at most half a hundredth and leaves a
      rounded value alone. */
  lemma Round2Properties(v: real, w: real)
    ensures v <= w ==> Round2(v) <= Round2(w)
    ensures -0.005 <= Round2(v) - v <= 0.005
    ensures Round2(Round2(v)) == Round2(v)
  {
    RoundIsNearest(v * 100.0);
    RoundOfInteger(Round(v * 100.0));
    assert Round2(v) * 100.0 == Round(v * 100.0) as real;
    if v <= w {
      RoundMonotone(v * 100.0, w * 100.0);
    }
  }
}

/** How long to wait before retrying an upload (internal/ship/backoff.go). */
module Backoffs {
  import opened Clock

  const DEFAULT_BASE: int64 := 2 * SECOND
  const DEFAULT_CAP: int64 := 15 * 60 * SECOND

  function Pow2(n: nat): nat {
    if n == 0 then 1 else 2 * Pow2(n - 1)
  }

  /** A duration drawn from [0, n), or zero when there is nothing to draw from. `draw` is the random source:
      every value of the interval is drawn for some `draw`. */
  function Random(n: int64, draw: nat): (r: int64)
    ensures n > 0 ==> 0 <= r < n
    ensures n <= 0 ==> r == 0
  {
    if n <= 0 then 0 else draw % n
  }

  lemma EveryDelayCanBeDrawn(n: int64, r: int64)
    requires 0 <= r < n
    ensures exists draw: nat :: Random(n, draw) == r
  {
    RemainderOfSmall(r, n);
    assert Random(n, r) == r;
  }

  /** The offset of the first upload can be any below the period. */
  lemma EveryOffsetCanBeDrawn(d: int64, offset: int64)
    ensures (exists draw: nat :: Random(d, draw) == offset) <==> 0 <= offset < d || (d <= 0 && offset == 0)
  {
    if 0 <= offset < d {
      EveryDelayCanBeDrawn(d, offset);
    } else if d <= 0 && offset == 0 {
      assert Random(d, 0) == offset;
    }
  }

  lemma RemainderOfSmall(r: nat, n: nat)
    requires r < n
    ensures r % n == r
  {
  }

  datatype Backoff = Backoff(base: int64, cap: int64)
  {
    function Base(): (b: int64)
      ensures b > 0
    {
      if base <= 0 then DEFAULT_BASE else base
    }

    function Max(): (m: int64)
      ensures m > 0
    {
      if cap <= 0 then DEFAULT_CAP else cap
    }

    /** The ceiling that `rounds` rounds of the loop make of `c`: doubled in 64-bit arithmetic, until the cap is
        reached and the loop stops. */
    function Doubled(c: int64, rounds: nat): int64
      decreases rounds
    {
      if rounds == 0 then c
      else
        var d := Wrap64(c * 2);
        if d >= Max() then Max() else Doubled(d, rounds - 1)
    }

    /** The ceiling of the delay after `attempt` consecutive failures. */
    function Ceiling(attempt: int): int64 {
      Doubled(Base(), if attempt < 1 then 0 else attempt - 1)
    }

    method Delay(attempt: int, draw: nat) returns (delay: int64)
      ensures delay == Random(Ceiling(attempt), draw)
    {
      var n := if attempt < 1 then 1 else attempt;
      var ceiling: int64 := Base();
      for i := 0 to n - 1
        invariant Doubled(Base(), n - 1) == Doubled(ceiling, n - 1 - i)
      {
        ceiling := Wrap64(ceiling * 2);
        if ceiling >= Max() {
          ceiling := Max();
          break;
        }
      }
      delay := Random(ceiling, draw);
    }

    /** `Spread` draws the offset of the first upload. */
    method Spread(d: int64, draw: nat) returns (offset: int64)
      ensures d > 0 ==> 0 <= offset < d
      ensures d <= 0 ==> offset == 0
      ensures offset == Random(d, draw)
    {
      offset := Random(d, draw);
    }

    /** The schedule the loop is meant to follow. */
    function Schedule(attempt: nat): int
      requires attempt >= 1
    {
      if attempt == 1 then Base() else Min(Base() * Pow2(attempt - 1), Max())
    }

    /** The doubling meets the cap before it leaves the 64-bit range: checkable from the two settings alone. */
    predicate NoOverflow() {
      Base() < 0x4000_0000_0000_0000 && Max() <= TopDoubling(Base())
    }
  }

  /** The first of c, 2c, 4c, ... that doubling once more would push out of the signed 64-bit range. */
  function TopDoubling(c: int): (t: int)
    requires 0 < c < 0x8000_0000_0000_0000
    ensures 0x4000_0000_0000_0000 <= t < 0x8000_0000_0000_0000
    ensures c <= t
    decreases 0x8000_0000_0000_0000 - c
  {
    if c >= 0x4000_0000_0000_0000 then c else TopDoubling(c * 2)
  }

  lemma {:induction false} DoubledIsSchedule(b: Backoff, c: int64, rounds: nat)
    requires 0 < c < 0x4000_0000_0000_0000
    requires b.Max() <= TopDoubling(c)
    ensures b.Doubled(c, rounds) == if rounds == 0 then c else Min(c * Pow2(rounds), b.Max())
    decreases rounds
  {
    if rounds > 0 {
      var d := c * 2;
      assert Wrap64(d) == d;
      OneDoubling(c, rounds);
      if d >= b.Max() {
        Pow2Positive(rounds - 1);
        ProductMonotone(d, 1, Pow2(rounds - 1));
      } else {
        assert TopDoubling(d) == TopDoubling(c);
        DoubledIsSchedule(b, d, rounds - 1);
      }
    }
  }

  lemma OneDoubling(c: int, n: nat)
    requires n > 0
    ensures c * Pow2(n) == (c * 2) * Pow2(n - 1)
  {
  }

  lemma ProductMonotone(c: nat, x: nat, y: nat)
    requires x <= y
    ensures c * x <= c * y
  {
  }

  lemma {:induction false} Pow2Positive(n: nat)
    ensures Pow2(n) >= 1
  {
    if n > 0 {
      Pow2Positive(n - 1);
    }
  }

  /** Without the condition some ceiling comes out negative. */
  lemma {:induction false} DoubledOverflows(b: Backoff, c: int64)
    requires c > 0
    requires c >= 0x4000_0000_0000_0000 || b.Max() > TopDoubling(c)
    ensures exists rounds: nat :: rounds > 0 && b.Doubled(c, rounds) < 0
    decreases 0x8000_0000_0000_0000 - c
  {
    var d := Wrap64(c * 2);
    if c >= 0x4000_0000_0000_0000 {
      WrapsNegative(c * 2);
      assert b.Doubled(c, 1) == b.Doubled(d, 0) < 0;
    } else {
      assert d == c * 2 && TopDoubling(d) == TopDoubling(c) < b.Max();
      DoubledOverflows(b, d);
      var rounds: nat :| rounds > 0 && b.Doubled(d, rounds) < 0;
      assert b.Doubled(c, rounds + 1) == b.Doubled(d, rounds);
    }
  }

  lemma WrapsNegative(x: int)
    requires 0x8000_0000_0000_0000 <= x < 0x1_0000_0000_0000_0000
    ensures Wrap64(x) == x - 0x1_0000_0000_0000_0000 < 0
  {
  }

  /** The early-breaking loop follows the capped exponential schedule for every number of failures exactly
      when the doubling meets the cap before it overflows; otherwise some ceiling is negative and the delay
      drawn from it is zero. */
  lemma CeilingFollowsScheduleIff(b: Backoff)
    ensures b.NoOverflow() <==> forall n: nat | n >= 1 :: b.Ceiling(n) == b.Schedule(n)
    ensures !b.NoOverflow() ==> exists n: nat :: n >= 2 && forall draw: nat :: Random(b.Ceiling(n), draw) == 0
  {
    if b.NoOverflow() {
      forall n: nat | n >= 1
        ensures b.Ceiling(n) == b.Schedule(n)
      {
        DoubledIsSchedule(b, b.Base(), n - 1);
      }
    } else {
      DoubledOverflows(b, b.Base());
      var rounds: nat :| rounds > 0 && b.Doubled(b.Base(), rounds) < 0;
      var n := rounds + 1;
      assert b.Ceiling(n) < 0;
      SchedulePositive(b, n);
    }
  }

  lemma SchedulePositive(b: Backoff, n: nat)
    requires n >= 1
    ensures b.Schedule(n) > 0
  {
    Pow2Positive(n - 1);
    ProductMonotone(b.Base(), 1, Pow2(n - 1));
  }

  /** Every realistic setting is safe. */
  lemma RealisticIsSafe(b: Backoff)
    requires b.Base() < 0x4000_0000_0000_0000 && b.Max() <= 0x4000_0000_0000_0000
    ensures b.NoOverflow()
  {
  }

  /** Without settings the ceilings are 2, 4, 8, ... 512 seconds and, from the tenth failure on, 15 minutes. */
  lemma DefaultSchedule(n: nat)
    requires n >= 1
    ensures Backoff(0, 0).Ceiling(n) == if n <= 9 then 2 * Pow2(n - 1) * SECOND else 15 * 60 * SECOND
  {
    var b := Backoff(0, 0);
    CeilingFollowsScheduleIff(b);
    RealisticIsSafe(b);
    assert Pow2(4) == 16 && Pow2(8) == 256;
    if n <= 9 {
      Pow2Monotone(n - 1, 8);
    } else {
      assert Pow2(9) == 512;
      Pow2Monotone(9, n - 1);
    }
  }

  /** With settings up to 2^62 the ceilings are the base, doubled with every failure, up to the cap; where a
      setting is not positive, two seconds and fifteen minutes take its place. */
  lemma ConfiguredSchedule(b: Backoff, n: int)
    requires b.base < 0x4000_0000_0000_0000 && b.cap <= 0x4000_0000_0000_0000
    ensures var base, cap := if b.base > 0 then b.base else 2_000_000_000, if b.cap > 0 then b.cap else 900_000_000_000;
      b.Ceiling(n) == if n <= 1 then base else Min(base * Pow2(n - 1), cap)
  {
    RealisticIsSafe(b);
    CeilingFollowsScheduleIff(b);
    if n <= 1 {
      assert b.Ceiling(n) == b.Ceiling(1) == b.Schedule(1);
    }
  }

  /** The schedule never falls while failures accumulate, provided the base does not exceed the cap. */
  lemma ScheduleMonotone(b: Backoff, n: nat, m: nat)
    requires 1 <= n <= m
    requires b.Base() <= b.Max()
    ensures b.Schedule(n) <= b.Schedule(m)
  {
    hide Pow2;
    Pow2Monotone(n - 1, m - 1);
    ProductMonotone(b.Base(), 1, Pow2(m - 1));
    ProductMonotone(b.Base(), Pow2(n - 1), Pow2(m - 1));
  }

  lemma {:induction false} Pow2Monotone(n: nat, m: nat)
    requires n <= m
    ensures 1 <= Pow2(n) <= Pow2(m)
  {
    if n < m {
      Pow2Monotone(n, m - 1);
    } else {
      Pow2Positive(n);
    }
  }

  /** From the second failure on the ceiling never exceeds the cap, overflow or not. The first one is not
      capped: all ceilings respect the cap exactly when the base does. */
  lemma CeilingWithinCap(b: Backoff)
    ensures forall n: nat | n >= 2 :: b.Ceiling(n) <= b.Max()
    ensures b.Base() <= b.Max() <==> forall n: nat | n >= 1 :: b.Ceiling(n) <= b.Max()
  {
    forall n: nat | n >= 2
      ensures b.Ceiling(n) <= b.Max()
    {
      var d := Wrap64(b.Base() * 2);
      if d < b.Max() {
        DoubledWithinCap(b, d, n - 2);
      }
    }
    assert b.Ceiling(1) == b.Base();
  }

  lemma {:induction false} DoubledWithinCap(b: Backoff, c: int64, rounds: nat)
    requires c <= b.Max()
    ensures b.Doubled(c, rounds) <= b.Max()
    decreases rounds
  {
    if rounds > 0 {
      var d := Wrap64(c * 2);
      if d < b.Max() {
        DoubledWithinCap(b, d, rounds - 1);
      }
    }
  }
}

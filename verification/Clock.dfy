/** Machine integers and the clock arithmetic of Go's `time` package.

    An instant is a number of nanoseconds since Go's zero time (1 January of year 1, UTC), a duration
    is a number of nanoseconds that fits in 64 bits.
 */
module Clock {
  const TWO_63: int := 0x8000_0000_0000_0000

  type uint32 = x: int | 0 <= x < 0x1_0000_0000
  type uint64 = x: int | 0 <= x < 0x1_0000_0000_0000_0000
  type int64 = x: int | -0x8000_0000_0000_0000 <= x < 0x8000_0000_0000_0000

  function Min(a: int, b: int): int {
    if a <= b then a else b
  }

  const SECOND: int := 1_000_000_000

  /** Nanoseconds between the zero time and the Unix epoch. */
  const EPOCH: int := 62_135_596_800 * SECOND

  /** The signed 64-bit value congruent to `x`: what Go's `int64` arithmetic leaves after overflow. */
  function Wrap64(x: int): (w: int64)
    ensures (w - x) % 0x1_0000_0000_0000_0000 == 0
    ensures -TWO_63 <= x < TWO_63 ==> w == x
  {
    (x + TWO_63) % 0x1_0000_0000_0000_0000 - TWO_63
  }

  /** `later.Sub(earlier)`: the difference, saturating at the ends of the duration range. */
  function Sub(later: int, earlier: int): (d: int64)
    ensures d > 0 <==> later > earlier
    ensures -TWO_63 <= later - earlier < TWO_63 ==> d == later - earlier
  {
    var d := later - earlier;
    if d < -TWO_63 then -TWO_63 else if d >= TWO_63 then TWO_63 - 1 else d
  }

  /** `t.Truncate(width)` for a positive width: the latest multiple of `width` that is not after `t`. */
  function Truncate(t: int, width: int): (s: int)
    requires width > 0
    ensures s % width == 0
    ensures s <= t < s + width
  {
    TruncateAligned(t, width);
    t - t % width
  }

  lemma TruncateAligned(t: int, width: int)
    requires width > 0
    ensures (t - t % width) % width == 0
  {
    var q := t / width;
    assert t - t % width == q * width;
    MultipleHasNoRemainder(q, width);
  }

  lemma MultipleHasNoRemainder(q: int, width: int)
    requires width > 0
    ensures (q * width) % width == 0
  {
    var x := q * width;
    var k := x / width;
    assert x == k * width + x % width;
    assert (q - k) * width == x % width;
    if q - k >= 1 {
    } else if q - k <= -1 {
    }
  }

  /** Quotient and remainder are unique. */
  lemma RemainderUnique(n: int, width: int, q: int, r: int)
    requires width > 0 && n == q * width + r && 0 <= r < width
    ensures n % width == r
  {
    var q', r' := n / width, n % width;
    assert n == q' * width + r';
    assert (q - q') * width == r' - r by { assert (q - q') * width == q * width - q' * width; }
    NoSmallMultiple(q - q', width);
  }

  lemma NoSmallMultiple(k: int, width: int)
    requires width > 0
    ensures k >= 1 ==> k * width >= width
    ensures k <= -1 ==> k * width <= -width
  {
  }

  /** Truncation respects the order of instants. */
  lemma TruncateMonotone(t: int, u: int, width: int)
    requires width > 0
    requires t <= u
    ensures Truncate(t, width) <= Truncate(u, width)
  {
    var q, r := Truncate(t, width), Truncate(u, width);
    if q > r {
      assert q == t - t % width && r == u - u % width;
      AlignedGap(q, r, width);
    }
  }

  lemma AlignedGap(q: int, r: int, width: int)
    requires width > 0
    requires q % width == 0 && r % width == 0
    requires q > r
    ensures q >= r + width
  {
    assert q == width * (q / width) && r == width * (r / width);
    var k := q / width - r / width;
    assert q - r == width * k;
    if k > 0 {
      assert width * (k - 1) >= 0;
    }
  }

  /** `t.UnixNano()`: nanoseconds since the Unix epoch in 64 bits; outside the years 1678 to 2262 it wraps. */
  function UnixNano(t: int): int64 {
    Wrap64(t - EPOCH)
  }

  /** The Unix epoch is 719162 days of 86400 seconds after the zero time, and nanoseconds are counted from it. */
  lemma UnixNanoCountsFromEpoch(nanos: int64)
    ensures UnixNano(719_162 * 86_400 * 1_000_000_000 + nanos) == nanos
  {
    hide Wrap64;
  }
}

/** Rates between two consecutive samples (internal/metrics/derive.go). */
module Derivation {
  import opened Clock
  import opened Wrappers
  import opened Collect

  datatype Rates = Rates(
    interval: int64,
    cpuBusy: real, cpuIOWait: real, cpuIdle: real,
    cpuUser: real, cpuSystem: real, cpuSteal: real,
    memUsed: uint64, memTotal: uint64, swapUsed: uint64, swapTotal: uint64,
    load: Load,
    netRx: real, netTx: real, diskRead: real, diskWrite: real,
    fs: seq<Filesystem>)
  {
    /** Bytes per second of one counter. */
    function Rate(c: Counter): real {
      match c
      case NetRx => netRx
      case NetTx => netTx
      case DiskRead => diskRead
      case DiskWrite => diskWrite
    }
  }

  function Seconds(d: int64): real {
    d as real / 1_000_000_000.0
  }

  /** The percentage of `total` by which a CPU state advanced; a state that went backwards counts as zero. */
  function Share(now: uint64, before: uint64, total: uint64): real
    requires total > 0
  {
    if now < before then 0.0 else (now - before) as real / total as real * 100.0
  }

  /** Bytes per second, or nothing when the counter went backwards. */
  function RateOf(now: uint64, before: uint64, interval: int64): Option<real>
    requires interval > 0
  {
    if now < before then None else Some((now - before) as real / Seconds(interval))
  }

  function SaturatingSub(a: uint64, b: uint64): uint64 {
    if a < b then 0 else a - b
  }

  /** The rates of the interval from `prev` to `cur`, or nothing when no honest derivation exists. */
  function Derive(prev: Sample, cur: Sample): Option<Rates> {
    var interval := Sub(cur.at, prev.at);
    if interval <= 0 then None
    else if cur.bootId != prev.bootId then None
    else if cur.cpu.Total() < prev.cpu.Total() || cur.cpu.Total() == prev.cpu.Total() then None
    else
      var total: uint64 := cur.cpu.Total() - prev.cpu.Total();
      var idle := Share(cur.cpu.idle, prev.cpu.idle, total);
      var iowait := Share(cur.cpu.iowait, prev.cpu.iowait, total);
      var netRx := RateOf(cur.rxBytes, prev.rxBytes, interval);
      var netTx := RateOf(cur.txBytes, prev.txBytes, interval);
      var diskRead := RateOf(cur.readBytes, prev.readBytes, interval);
      var diskWrite := RateOf(cur.writeBytes, prev.writeBytes, interval);
      if netRx.None? || netTx.None? || diskRead.None? || diskWrite.None? then None
      else Some(Rates(
        interval,
        100.0 - idle - iowait, iowait, idle,
        Share(cur.cpu.user, prev.cpu.user, total) + Share(cur.cpu.nice, prev.cpu.nice, total),
        Share(cur.cpu.system, prev.cpu.system, total),
        Share(cur.cpu.steal, prev.cpu.steal, total),
        SaturatingSub(cur.mem.total, cur.mem.available), cur.mem.total,
        SaturatingSub(cur.mem.swapTotal, cur.mem.swapFree), cur.mem.swapTotal,
        cur.load,
        netRx.value, netTx.value, diskRead.value, diskWrite.value,
        cur.fs))
  }

  /** An interval is derivable exactly when time advanced within one boot, the CPU total advanced and no
      byte counter went backwards. */
  lemma DerivableIff(prev: Sample, cur: Sample)
    ensures Derive(prev, cur).Some? <==>
      && cur.at > prev.at
      && cur.bootId == prev.bootId
      && cur.cpu.Total() > prev.cpu.Total()
      && forall c: Counter :: cur.Raw(c) >= prev.Raw(c)
  {
    if Derive(prev, cur).Some? {
      forall c: Counter ensures cur.Raw(c) >= prev.Raw(c) {
      }
    } else if forall c: Counter :: cur.Raw(c) >= prev.Raw(c) {
      assert cur.Raw(NetRx) >= prev.Raw(NetRx) && cur.Raw(NetTx) >= prev.Raw(NetTx);
      assert cur.Raw(DiskRead) >= prev.Raw(DiskRead) && cur.Raw(DiskWrite) >= prev.Raw(DiskWrite);
    }
  }

  /** Multiplying a rate by the length of its interval gives back the rise of the raw counter. */
  lemma RateTimesInterval(prev: Sample, cur: Sample, c: Counter)
    requires Derive(prev, cur).Some?
    ensures var r := Derive(prev, cur).value;
      r.Rate(c) * Seconds(r.interval) == (cur.Raw(c) - prev.Raw(c)) as real
  {
    hide *;
    RateIsRateOf(prev, cur, c);
    RateOfTimesInterval(cur.Raw(c), prev.Raw(c), Derive(prev, cur).value.interval);
  }

  lemma RateIsRateOf(prev: Sample, cur: Sample, c: Counter)
    requires Derive(prev, cur).Some?
    ensures var r := Derive(prev, cur).value;
      && r.interval == Sub(cur.at, prev.at)
      && r.interval > 0
      && RateOf(cur.Raw(c), prev.Raw(c), r.interval) == Some(r.Rate(c))
  {
    hide Share, RateOf, SaturatingSub, CpuTimes.Total;
  }

  lemma RateOfTimesInterval(now: uint64, before: uint64, interval: int64)
    requires interval > 0
    requires RateOf(now, before, interval).Some?
    ensures now >= before
    ensures RateOf(now, before, interval).value * Seconds(interval) == (now - before) as real
  {
    QuotientTimesDivisor((now - before) as real, Seconds(interval));
  }

  lemma QuotientTimesDivisor(x: real, y: real)
    requires y != 0.0
    ensures x / y * y == x
  {
  }

  /** A rise over so many nanoseconds, as a rate per second. */
  predicate IsPerSecond(rate: real, rise: int, nanos: int) {
    rate * nanos as real == rise as real * 1_000_000_000.0
  }

  /** The nanoseconds between two instants, as Go counts them: at most 2^63 - 1. */
  function Nanos(earlier: int, later: int): int {
    if later - earlier < TWO_63 then later - earlier else TWO_63 - 1
  }

  /** What the rates mean: bytes per second of the counter of that name. */
  lemma RatesArePerSecond(prev: Sample, cur: Sample)
    requires Derive(prev, cur).Some?
    ensures var r, nanos := Derive(prev, cur).value, Nanos(prev.at, cur.at);
      && IsPerSecond(r.netRx, cur.rxBytes - prev.rxBytes, nanos)
      && IsPerSecond(r.netTx, cur.txBytes - prev.txBytes, nanos)
      && IsPerSecond(r.diskRead, cur.readBytes - prev.readBytes, nanos)
      && IsPerSecond(r.diskWrite, cur.writeBytes - prev.writeBytes, nanos)
  {
    hide Derive, IsPerSecond, Nanos, CpuTimes.Total;
    CounterPerSecond(prev, cur, NetRx);
    CounterPerSecond(prev, cur, NetTx);
    CounterPerSecond(prev, cur, DiskRead);
    CounterPerSecond(prev, cur, DiskWrite);
  }

  lemma CounterPerSecond(prev: Sample, cur: Sample, c: Counter)
    requires Derive(prev, cur).Some?
    ensures IsPerSecond(Derive(prev, cur).value.Rate(c), cur.Raw(c) - prev.Raw(c), Nanos(prev.at, cur.at))
  {
    hide *;
    DerivableIff(prev, cur);
    RateIsRateOf(prev, cur, c);
    IntervalLength(prev.at, cur.at);
    RateTimesInterval(prev, cur, c);
    var r := Derive(prev, cur).value;
    InNanoseconds(r.Rate(c), r.interval, cur.Raw(c) - prev.Raw(c));
  }

  lemma IntervalLength(earlier: int, later: int)
    requires later > earlier
    ensures Sub(later, earlier) == Nanos(earlier, later)
  {
  }

  lemma InNanoseconds(rate: real, d: int64, rise: int)
    requires rate * Seconds(d) == rise as real
    ensures IsPerSecond(rate, rise, d)
  {
    assert Seconds(d) * 1_000_000_000.0 == d as real;
    assert rate * (Seconds(d) * 1_000_000_000.0) == rate * Seconds(d) * 1_000_000_000.0;
  }

  /** Used memory and swap are what is left of the total once the available part is taken off, and never more
      than the total; everything the kernel reports as a gauge comes from the later sample. */
  lemma DerivedGauges(prev: Sample, cur: Sample)
    requires Derive(prev, cur).Some?
    ensures var r, m := Derive(prev, cur).value, cur.mem;
      && r.memTotal == m.total && r.swapTotal == m.swapTotal && r.fs == cur.fs && r.load == cur.load
      && r.memUsed <= m.total && r.swapUsed <= m.swapTotal
      && (if m.available <= m.total then r.memUsed + m.available == m.total else r.memUsed == 0)
      && (if m.swapFree <= m.swapTotal then r.swapUsed + m.swapFree == m.swapTotal else r.swapUsed == 0)
  {
    hide Share, RateOf, CpuTimes.Total;
  }

  // ----- CPU shares -----

  /** How far a state rose, and how far it fell. */
  function Rise(now: uint64, before: uint64): nat {
    if now < before then 0 else now - before
  }

  function TotalRise(prev: CpuTimes, cur: CpuTimes): nat {
    Rise(cur.user, prev.user) + Rise(cur.nice, prev.nice) + Rise(cur.system, prev.system) +
    Rise(cur.idle, prev.idle) + Rise(cur.iowait, prev.iowait) + Rise(cur.irq, prev.irq) +
    Rise(cur.softirq, prev.softirq) + Rise(cur.steal, prev.steal)
  }

  function TotalFall(prev: CpuTimes, cur: CpuTimes): nat {
    TotalRise(cur, prev)
  }

  predicate NonDecreasing(prev: CpuTimes, cur: CpuTimes) {
    && prev.user <= cur.user && prev.nice <= cur.nice && prev.system <= cur.system && prev.idle <= cur.idle
    && prev.iowait <= cur.iowait && prev.irq <= cur.irq && prev.softirq <= cur.softirq && prev.steal <= cur.steal
  }

  /** How many times the 64-bit total overflowed between the two readings. */
  function Carry(prev: CpuTimes, cur: CpuTimes): int {
    cur.Sum() / 0x1_0000_0000_0000_0000 - prev.Sum() / 0x1_0000_0000_0000_0000
  }

  /** The share of the two interrupt states, which are part of the busy share but not reported. */
  function InterruptShare(prev: CpuTimes, cur: CpuTimes): real
    requires cur.Total() > prev.Total()
  {
    var total: uint64 := cur.Total() - prev.Total();
    Share(cur.irq, prev.irq, total) + Share(cur.softirq, prev.softirq, total)
  }

  lemma ShareTimesTotal(now: uint64, before: uint64, total: uint64)
    requires total > 0
    ensures Share(now, before, total) * total as real == Rise(now, before) as real * 100.0
    ensures Share(now, before, total) >= 0.0
  {
    var t := total as real;
    if now >= before {
      var d := (now - before) as real;
      QuotientTimesDivisor(d, t);
      assert d / t * 100.0 * t == d / t * t * 100.0;
      assert d / t >= 0.0;
    }
  }

  /** The reported shares in terms of the states of the two samples. */
  lemma ReportedShares(prev: Sample, cur: Sample)
    requires Derive(prev, cur).Some?
    ensures var p, c := prev.cpu, cur.cpu;
      var total := c.Total() - p.Total();
      && total > 0
      && var r := Derive(prev, cur).value;
      && r.cpuUser == Share(c.user, p.user, total) + Share(c.nice, p.nice, total)
      && r.cpuSystem == Share(c.system, p.system, total)
      && r.cpuSteal == Share(c.steal, p.steal, total)
      && r.cpuIdle == Share(c.idle, p.idle, total)
      && r.cpuIOWait == Share(c.iowait, p.iowait, total)
      && r.cpuBusy == 100.0 - r.cpuIdle - r.cpuIOWait
      && InterruptShare(p, c) == Share(c.irq, p.irq, total) + Share(c.softirq, p.softirq, total)
  {
    hide Share, RateOf, CpuTimes.Total, SaturatingSub;
  }

  /** Why the CPU breakdown adds up when it does: the parts times the total, against the total itself. */
  lemma BreakdownTimesTotal(prev: Sample, cur: Sample, r: Rates, total: uint64)
    requires Derive(prev, cur) == Some(r)
    requires total == cur.cpu.Total() - prev.cpu.Total()
    ensures total > 0
    ensures (r.cpuUser + r.cpuSystem + r.cpuSteal + InterruptShare(prev.cpu, cur.cpu) - r.cpuBusy) * total as real
      == (TotalRise(prev.cpu, cur.cpu) as real - total as real) * 100.0
  {
    hide *;
    ReportedShares(prev, cur);
    SharesTimesTotal(prev.cpu, cur.cpu, total);
    var irq, rise := InterruptShare(prev.cpu, cur.cpu), TotalRise(prev.cpu, cur.cpu) as real;
    assert ShareSum(prev.cpu, cur.cpu, total) == r.cpuUser + r.cpuSystem + r.cpuSteal + irq + r.cpuIdle + r.cpuIOWait by {
      SharesAddUp(prev, cur, r, total);
    }
    GapTimesTotal(r.cpuUser, r.cpuSystem, r.cpuSteal, irq, r.cpuIdle, r.cpuIOWait, r.cpuBusy, total as real, rise);
  }

  lemma SharesAddUp(prev: Sample, cur: Sample, r: Rates, total: uint64)
    requires Derive(prev, cur) == Some(r)
    requires total == cur.cpu.Total() - prev.cpu.Total() > 0
    ensures ShareSum(prev.cpu, cur.cpu, total)
      == r.cpuUser + r.cpuSystem + r.cpuSteal + InterruptShare(prev.cpu, cur.cpu) + r.cpuIdle + r.cpuIOWait
  {
    hide Derive, Share, CpuTimes.Total;
    ReportedShares(prev, cur);
  }

  lemma GapTimesTotal(user: real, system: real, steal: real, irq: real, idle: real, iowait: real, busy: real,
                      total: real, rise: real)
    requires busy == 100.0 - idle - iowait
    requires (user + system + steal + irq + idle + iowait) * total == rise * 100.0
    ensures (user + system + steal + irq - busy) * total == (rise - total) * 100.0
  {
    assert user + system + steal + irq - busy == (user + system + steal + irq + idle + iowait) - 100.0;
  }

  function ShareSum(p: CpuTimes, c: CpuTimes, total: uint64): real
    requires total > 0
  {
    (Share(c.user, p.user, total) + Share(c.nice, p.nice, total)) + Share(c.system, p.system, total) +
    Share(c.steal, p.steal, total) + (Share(c.irq, p.irq, total) + Share(c.softirq, p.softirq, total)) +
    Share(c.idle, p.idle, total) + Share(c.iowait, p.iowait, total)
  }

  lemma SharesTimesTotal(p: CpuTimes, c: CpuTimes, total: uint64)
    requires total > 0
    ensures ShareSum(p, c, total) * total as real == TotalRise(p, c) as real * 100.0
  {
    hide Share, Rise;
    ShareTimesTotal(c.user, p.user, total);
    ShareTimesTotal(c.nice, p.nice, total);
    ShareTimesTotal(c.system, p.system, total);
    ShareTimesTotal(c.idle, p.idle, total);
    ShareTimesTotal(c.iowait, p.iowait, total);
    ShareTimesTotal(c.irq, p.irq, total);
    ShareTimesTotal(c.softirq, p.softirq, total);
    ShareTimesTotal(c.steal, p.steal, total);
    SumDistributes(
      Share(c.user, p.user, total), Share(c.nice, p.nice, total), Share(c.system, p.system, total),
      Share(c.steal, p.steal, total), Share(c.irq, p.irq, total), Share(c.softirq, p.softirq, total),
      Share(c.idle, p.idle, total), Share(c.iowait, p.iowait, total), total as real);
  }

  lemma SumDistributes(a: real, b: real, c: real, d: real, e: real, f: real, g: real, h: real, t: real)
    ensures ((a + b) + c + d + (e + f) + g + h) * t == a * t + b * t + c * t + d * t + e * t + f * t + g * t + h * t
  {
  }

  lemma RiseMinusFall(prev: CpuTimes, cur: CpuTimes)
    ensures TotalRise(prev, cur) - TotalFall(prev, cur) == cur.Sum() - prev.Sum()
    ensures TotalFall(prev, cur) == 0 <==> NonDecreasing(prev, cur)
  {
    hide Rise;
    StateMoved(cur.user, prev.user);
    StateMoved(cur.nice, prev.nice);
    StateMoved(cur.system, prev.system);
    StateMoved(cur.idle, prev.idle);
    StateMoved(cur.iowait, prev.iowait);
    StateMoved(cur.irq, prev.irq);
    StateMoved(cur.softirq, prev.softirq);
    StateMoved(cur.steal, prev.steal);
  }

  lemma StateMoved(now: uint64, before: uint64)
    ensures Rise(now, before) - Rise(before, now) == now - before
    ensures Rise(before, now) == 0 <==> before <= now
  {
  }

  lemma SumMinusTotal(prev: CpuTimes, cur: CpuTimes)
    ensures cur.Sum() - prev.Sum() == cur.Total() - prev.Total() + Carry(prev, cur) * 0x1_0000_0000_0000_0000
  {
    SplitByWord(cur.Sum());
    SplitByWord(prev.Sum());
  }

  lemma SplitByWord(x: nat)
    ensures x == x / 0x1_0000_0000_0000_0000 * 0x1_0000_0000_0000_0000 + x % 0x1_0000_0000_0000_0000
  {
  }

  /** Busy, iowait and idle always sum to 100, and busy is exactly the sum of its parts when, and only when,
      what the states lost is balanced by an overflow of the 64-bit total. As long as the total did not
      overflow, that is: when no single state went backwards. The code checks only the total. */
  lemma CpuPartition(prev: Sample, cur: Sample)
    requires Derive(prev, cur).Some?
    ensures var r := Derive(prev, cur).value; var p, c := prev.cpu, cur.cpu;
      var parts := r.cpuUser + r.cpuSystem + r.cpuSteal + InterruptShare(p, c);
      && r.cpuBusy + r.cpuIOWait + r.cpuIdle == 100.0
      && (r.cpuBusy == parts <==> TotalFall(p, c) + Carry(p, c) * 0x1_0000_0000_0000_0000 == 0)
      && (Carry(p, c) == 0 ==> (r.cpuBusy == parts <==> NonDecreasing(p, c)))
      && (NonDecreasing(p, c) ==> (r.cpuBusy == parts <==> Carry(p, c) == 0))
  {
    hide *;
    var r := Derive(prev, cur).value;
    ReportedShares(prev, cur);
    var total: uint64 := cur.cpu.Total() - prev.cpu.Total();
    BreakdownTimesTotal(prev, cur, r, total);
    RiseMinusFall(prev.cpu, cur.cpu);
    SumMinusTotal(prev.cpu, cur.cpu);
    ZeroGap(
      r.cpuUser + r.cpuSystem + r.cpuSteal + InterruptShare(prev.cpu, cur.cpu) - r.cpuBusy,
      total, TotalRise(prev.cpu, cur.cpu));
  }

  lemma ZeroGap(gap: real, total: uint64, rise: nat)
    requires total > 0
    requires gap * total as real == (rise as real - total as real) * 100.0
    ensures gap == 0.0 <==> rise == total
  {
  }

  /** The busy share is not negative exactly when idle and iowait together did not rise by more than the total. */
  lemma BusyNonNegativeIff(prev: Sample, cur: Sample)
    requires Derive(prev, cur).Some?
    ensures Derive(prev, cur).value.cpuBusy >= 0.0 <==>
      Rise(cur.cpu.idle, prev.cpu.idle) + Rise(cur.cpu.iowait, prev.cpu.iowait) <= cur.cpu.Total() - prev.cpu.Total()
  {
    hide *;
    ReportedShares(prev, cur);
    var p, c := prev.cpu, cur.cpu;
    var total: uint64 := c.Total() - p.Total();
    ShareTimesTotal(c.idle, p.idle, total);
    ShareTimesTotal(c.iowait, p.iowait, total);
    RemainderNonNegative(
      Share(c.idle, p.idle, total), Share(c.iowait, p.iowait, total), total,
      Rise(c.idle, p.idle), Rise(c.iowait, p.iowait));
  }

  lemma RemainderNonNegative(a: real, b: real, total: uint64, x: nat, y: nat)
    requires total > 0
    requires a * total as real == x as real * 100.0
    requires b * total as real == y as real * 100.0
    ensures 100.0 - a - b >= 0.0 <==> x + y <= total
  {
    var gap, t := 100.0 - a - b, total as real;
    assert gap * t == 100.0 * t - a * t - b * t;
    SignOfProduct(gap, t);
  }

  lemma SignOfProduct(x: real, t: real)
    requires t > 0.0
    ensures x * t >= 0.0 <==> x >= 0.0
  {
    if x < 0.0 {
      assert (-x) * t > 0.0;
    }
  }

  /** What a reader of the charts relies on: every reported share is a percentage and the named parts fit inside
      the busy share. */
  predicate SharesInRange(r: Rates) {
    && 0.0 <= r.cpuBusy <= 100.0 && 0.0 <= r.cpuIOWait <= 100.0 && 0.0 <= r.cpuIdle <= 100.0
    && 0.0 <= r.cpuUser <= 100.0 && 0.0 <= r.cpuSystem <= 100.0 && 0.0 <= r.cpuSteal <= 100.0
    && r.cpuUser + r.cpuSystem + r.cpuSteal <= r.cpuBusy
  }

  /** The reported states together rose by no more than the total did. */
  predicate RisesFit(prev: CpuTimes, cur: CpuTimes) {
    Rise(cur.user, prev.user) + Rise(cur.nice, prev.nice) + Rise(cur.system, prev.system) +
    Rise(cur.steal, prev.steal) + Rise(cur.idle, prev.idle) + Rise(cur.iowait, prev.iowait)
      <= cur.Total() - prev.Total()
  }

  /** Exactly when the reported shares are in range. */
  lemma SharesInRangeIff(prev: Sample, cur: Sample)
    requires Derive(prev, cur).Some?
    ensures SharesInRange(Derive(prev, cur).value) <==> RisesFit(prev.cpu, cur.cpu)
  {
    hide Derive, Share, InterruptShare, CpuTimes.Total, Rise;
    ReportedShares(prev, cur);
    var p, c := prev.cpu, cur.cpu;
    var total: uint64 := c.Total() - p.Total();
    ShareTimesTotal(c.user, p.user, total);
    ShareTimesTotal(c.nice, p.nice, total);
    ShareTimesTotal(c.system, p.system, total);
    ShareTimesTotal(c.steal, p.steal, total);
    ShareTimesTotal(c.idle, p.idle, total);
    ShareTimesTotal(c.iowait, p.iowait, total);
    var rise := Rise(c.user, p.user) + Rise(c.nice, p.nice) + Rise(c.system, p.system) +
      Rise(c.steal, p.steal) + Rise(c.idle, p.idle) + Rise(c.iowait, p.iowait);
    SixShares(
      Share(c.user, p.user, total), Share(c.nice, p.nice, total), Share(c.system, p.system, total),
      Share(c.steal, p.steal, total), Share(c.idle, p.idle, total), Share(c.iowait, p.iowait, total), total, rise);
  }

  lemma SixShares(a: real, b: real, c: real, d: real, e: real, f: real, total: uint64, rise: nat)
    requires total > 0
    requires a * total as real + b * total as real + c * total as real + d * total as real
      + e * total as real + f * total as real == rise as real * 100.0
    ensures a + b + c + d + e + f <= 100.0 <==> rise <= total
  {
    var gap, t := 100.0 - (a + b + c + d + e + f), total as real;
    assert gap * t == 100.0 * t - (a * t + b * t + c * t + d * t + e * t + f * t);
    assert gap * t == (total - rise) as real * 100.0;
    SignOfProduct(gap, t);
  }

  /** The states never fall and their sum does not overflow between the two readings. */
  predicate HonestCpu(prev: CpuTimes, cur: CpuTimes) {
    NonDecreasing(prev, cur) && Carry(prev, cur) == 0
  }

  /** Honest counters meet the condition. */
  lemma HonestCpuSharesInRange(prev: Sample, cur: Sample)
    requires Derive(prev, cur).Some?
    requires HonestCpu(prev.cpu, cur.cpu)
    ensures SharesInRange(Derive(prev, cur).value)
  {
    hide Derive, SharesInRange, CpuTimes.Total, Carry, Rise, CpuTimes.Sum;
    SharesInRangeIff(prev, cur);
    RiseMinusFall(prev.cpu, cur.cpu);
    SumMinusTotal(prev.cpu, cur.cpu);
  }

  /** Without the condition the range claim is false. When idle falls by 100 while iowait rises by 300, the total
      rises by 200 and the busy share comes out negative. */
  lemma DishonestCpuLeavesRange(prev: Sample, cur: Sample)
    requires prev == ZERO_SAMPLE.(cpu := CpuTimes(0, 0, 0, 100, 0, 0, 0, 0))
    requires cur == ZERO_SAMPLE.(at := 1_000_000_000, cpu := CpuTimes(0, 0, 0, 0, 300, 0, 0, 0))
    ensures Carry(prev.cpu, cur.cpu) == 0
    ensures Derive(prev, cur).Some?
    ensures Derive(prev, cur).value.cpuBusy < 0.0
  {
    hide *;
    DishonestExample(prev, cur);
    DerivableIff(prev, cur);
    BusyNonNegativeIff(prev, cur);
  }

  /** When irq falls by 100 while user rises by 300, the busy share is 100 and the user share inside it 150. */
  lemma PartExceedsBusy(prev: Sample, cur: Sample)
    requires prev == ZERO_SAMPLE.(cpu := CpuTimes(0, 0, 0, 0, 0, 100, 0, 0))
    requires cur == ZERO_SAMPLE.(at := 1_000_000_000, cpu := CpuTimes(300, 0, 0, 0, 0, 0, 0, 0))
    ensures Derive(prev, cur).Some?
    ensures Derive(prev, cur).value.cpuBusy == 100.0
    ensures Derive(prev, cur).value.cpuUser == 150.0
  {
    hide *;
    ExcessExample(prev, cur);
    DerivableIff(prev, cur);
    ReportedShares(prev, cur);
    RoundShares();
  }

  lemma ExcessExample(prev: Sample, cur: Sample)
    requires prev == ZERO_SAMPLE.(cpu := CpuTimes(0, 0, 0, 0, 0, 100, 0, 0))
    requires cur == ZERO_SAMPLE.(at := 1_000_000_000, cpu := CpuTimes(300, 0, 0, 0, 0, 0, 0, 0))
    ensures cur.at > prev.at && cur.bootId == prev.bootId
    ensures prev.cpu.Total() == 100 && cur.cpu.Total() == 300
    ensures forall c: Counter :: cur.Raw(c) >= prev.Raw(c)
    ensures cur.cpu.user == 300 && prev.cpu.user == 0 && cur.cpu.nice == prev.cpu.nice == 0
    ensures cur.cpu.idle == prev.cpu.idle == 0 && cur.cpu.iowait == prev.cpu.iowait == 0
  {
    hide CpuTimes.Total, Carry;
    SmallSums(prev.cpu, cur.cpu);
  }

  lemma RoundShares()
    ensures Share(300, 0, 200) == 150.0 && Share(0, 0, 200) == 0.0
  {
  }

  lemma DishonestExample(prev: Sample, cur: Sample)
    requires prev == ZERO_SAMPLE.(cpu := CpuTimes(0, 0, 0, 100, 0, 0, 0, 0))
    requires cur == ZERO_SAMPLE.(at := 1_000_000_000, cpu := CpuTimes(0, 0, 0, 0, 300, 0, 0, 0))
    ensures Carry(prev.cpu, cur.cpu) == 0
    ensures cur.at > prev.at && cur.bootId == prev.bootId
    ensures cur.cpu.Total() > prev.cpu.Total()
    ensures forall c: Counter :: cur.Raw(c) >= prev.Raw(c)
    ensures Rise(cur.cpu.idle, prev.cpu.idle) + Rise(cur.cpu.iowait, prev.cpu.iowait)
      > cur.cpu.Total() - prev.cpu.Total()
  {
    hide CpuTimes.Total, Carry;
    SmallSums(prev.cpu, cur.cpu);
  }

  lemma SmallSums(prev: CpuTimes, cur: CpuTimes)
    requires prev.Sum() < 0x1_0000_0000_0000_0000 && cur.Sum() < 0x1_0000_0000_0000_0000
    ensures prev.Total() == prev.Sum() && cur.Total() == cur.Sum() && Carry(prev, cur) == 0
  {
  }
}

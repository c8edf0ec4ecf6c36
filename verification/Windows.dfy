/** One aggregation window (internal/metrics/bucket.go). */
module Windows {
  import opened Collect
  import opened Derivation
  import opened Statistics

  /** The twelve metrics of a window. */
  datatype Metric =
    | CpuBusy | CpuIOWait | CpuSteal | CpuUser | CpuSystem
    | MemUsed | SwapUsed | Load1
    | Throughput(counter: Counter)

  /** What one reading contributes to a metric. */
  function Reading(m: Metric, r: Rates): real {
    match m
    case CpuBusy => r.cpuBusy
    case CpuIOWait => r.cpuIOWait
    case CpuSteal => r.cpuSteal
    case CpuUser => r.cpuUser
    case CpuSystem => r.cpuSystem
    case MemUsed => r.memUsed as real
    case SwapUsed => r.swapUsed as real
    case Load1 => r.load.one
    case Throughput(c) => r.Rate(c)
  }

  /** The closing raw reading of a window. */
  datatype Counters = Counters(rx: nat, tx: nat, read: nat, write: nat, uptimeSeconds: nat)
  {
    function Raw(c: Counter): nat {
      match c
      case NetRx => rx
      case NetTx => tx
      case DiskRead => read
      case DiskWrite => write
    }
  }

  function ClosingCounters(s: Sample): Counters {
    Counters(s.rxBytes, s.txBytes, s.readBytes, s.writeBytes, s.uptime / 1_000_000_000)
  }

  /** Everything a window carries besides its statistics. */
  datatype Facts = Facts(
    start: int, end: int, samples: nat, bootId: string,
    memTotal: nat, swapTotal: nat, fs: seq<Filesystem>, counters: Counters)

  /** The value of a window at one moment. A window read back from disk is such a value: a finished report. */
  datatype BucketValue = BucketValue(
    facts: Facts,
    cpuBusy: StatValue, cpuIOWait: StatValue, cpuSteal: StatValue, cpuUser: StatValue, cpuSystem: StatValue,
    memUsed: StatValue, swapUsed: StatValue, load1: StatValue,
    netRx: StatValue, netTx: StatValue, diskRead: StatValue, diskWrite: StatValue)
  {
    function Get(m: Metric): StatValue {
      match m
      case CpuBusy => cpuBusy
      case CpuIOWait => cpuIOWait
      case CpuSteal => cpuSteal
      case CpuUser => cpuUser
      case CpuSystem => cpuSystem
      case MemUsed => memUsed
      case SwapUsed => swapUsed
      case Load1 => load1
      case Throughput(NetRx) => netRx
      case Throughput(NetTx) => netTx
      case Throughput(DiskRead) => diskRead
      case Throughput(DiskWrite) => diskWrite
    }
  }

  function EmptyFacts(start: int, end: int): Facts {
    Facts(start, end, 0, "", 0, 0, [], Counters(0, 0, 0, 0, 0))
  }

  function EmptyBucket(start: int, end: int): BucketValue {
    BucketValue(
      EmptyFacts(start, end),
      EMPTY_STAT, EMPTY_STAT, EMPTY_STAT, EMPTY_STAT, EMPTY_STAT, EMPTY_STAT,
      EMPTY_STAT, EMPTY_STAT, EMPTY_STAT, EMPTY_STAT, EMPTY_STAT, EMPTY_STAT)
  }

  function FactsWith(f: Facts, r: Rates, s: Sample): Facts {
    f.(samples := f.samples + 1, bootId := s.bootId, memTotal := r.memTotal, swapTotal := r.swapTotal, fs := r.fs,
       counters := ClosingCounters(s))
  }

  /** The window after one more reading. */
  function WithReading(b: BucketValue, r: Rates, s: Sample): BucketValue {
    BucketValue(
      FactsWith(b.facts, r, s),
      Folded(b.cpuBusy, r.cpuBusy), Folded(b.cpuIOWait, r.cpuIOWait), Folded(b.cpuSteal, r.cpuSteal),
      Folded(b.cpuUser, r.cpuUser), Folded(b.cpuSystem, r.cpuSystem),
      Folded(b.memUsed, r.memUsed as real), Folded(b.swapUsed, r.swapUsed as real), Folded(b.load1, r.load.one),
      Folded(b.netRx, r.netRx), Folded(b.netTx, r.netTx),
      Folded(b.diskRead, r.diskRead), Folded(b.diskWrite, r.diskWrite))
  }

  /** Each of the twelve statistics folds in its own reading and no other. */
  lemma WithReadingPerMetric(b: BucketValue, r: Rates, s: Sample, m: Metric)
    ensures WithReading(b, r, s).Get(m) == Folded(b.Get(m), Reading(m, r))
  {
    hide Folded;
  }

  /** The window in progress, which the aggregator updates in place. */
  class Bucket {
    var facts: Facts
    const cpuBusy: Stat
    const cpuIOWait: Stat
    const cpuSteal: Stat
    const cpuUser: Stat
    const cpuSystem: Stat
    const memUsed: Stat
    const swapUsed: Stat
    const load1: Stat
    const netRx: Stat
    const netTx: Stat
    const diskRead: Stat
    const diskWrite: Stat

    ghost const Repr: set<object>

    /** The twelve accumulators are twelve different objects. */
    ghost predicate Valid() {
      && this in Repr
      && {cpuBusy, cpuIOWait, cpuSteal, cpuUser, cpuSystem} <= Repr
      && {memUsed, swapUsed, load1} <= Repr
      && {netRx, netTx, diskRead, diskWrite} <= Repr
      && cpuBusy.slot == 0 && cpuIOWait.slot == 1 && cpuSteal.slot == 2 && cpuUser.slot == 3 && cpuSystem.slot == 4
      && memUsed.slot == 5 && swapUsed.slot == 6 && load1.slot == 7
      && netRx.slot == 8 && netTx.slot == 9 && diskRead.slot == 10 && diskWrite.slot == 11
    }

    function Value(): (v: BucketValue)
      requires Valid()
      reads Repr
      ensures v.facts == facts
    {
      BucketValue(
        facts, cpuBusy.Value(), cpuIOWait.Value(), cpuSteal.Value(), cpuUser.Value(), cpuSystem.Value(),
        memUsed.Value(), swapUsed.Value(), load1.Value(),
        netRx.Value(), netTx.Value(), diskRead.Value(), diskWrite.Value())
    }

    constructor (start: int, end: int)
      ensures Valid() && fresh(Repr)
      ensures Value() == EmptyBucket(start, end)
    {
      hide Stat.Value;
      facts := EmptyFacts(start, end);
      cpuBusy := new Stat(0);
      cpuIOWait := new Stat(1);
      cpuSteal := new Stat(2);
      cpuUser := new Stat(3);
      cpuSystem := new Stat(4);
      memUsed := new Stat(5);
      swapUsed := new Stat(6);
      load1 := new Stat(7);
      netRx := new Stat(8);
      netTx := new Stat(9);
      diskRead := new Stat(10);
      diskWrite := new Stat(11);
      Repr := {this, cpuBusy, cpuIOWait, cpuSteal, cpuUser, cpuSystem, memUsed, swapUsed, load1,
               netRx, netTx, diskRead, diskWrite};
      new;
      assert fresh(cpuBusy) && fresh(cpuIOWait) && fresh(cpuSteal) && fresh(cpuUser) && fresh(cpuSystem);
      assert fresh(memUsed) && fresh(swapUsed) && fresh(load1);
      assert fresh(netRx) && fresh(netTx) && fresh(diskRead) && fresh(diskWrite);
    }

    method Add(r: Rates, s: Sample)
      requires Valid()
      modifies Repr
      ensures Valid()
      ensures Value() == WithReading(old(Value()), r, s)
    {
      hide Folded, Stat.Value;
      ghost var before := Value();
      facts := facts.(samples := facts.samples + 1, bootId := s.bootId);
      AddCpu(r);
      AddGauges(r);
      AddThroughput(r);
      facts := facts.(memTotal := r.memTotal, swapTotal := r.swapTotal, fs := r.fs, counters := ClosingCounters(s));
    }

    method AddCpu(r: Rates)
      requires Valid()
      modifies cpuBusy, cpuIOWait, cpuSteal, cpuUser, cpuSystem
      ensures cpuBusy.Value() == Folded(old(cpuBusy.Value()), r.cpuBusy)
      ensures cpuIOWait.Value() == Folded(old(cpuIOWait.Value()), r.cpuIOWait)
      ensures cpuSteal.Value() == Folded(old(cpuSteal.Value()), r.cpuSteal)
      ensures cpuUser.Value() == Folded(old(cpuUser.Value()), r.cpuUser)
      ensures cpuSystem.Value() == Folded(old(cpuSystem.Value()), r.cpuSystem)
    {
      hide Folded, Stat.Value;
      cpuBusy.Add(r.cpuBusy);
      cpuIOWait.Add(r.cpuIOWait);
      cpuSteal.Add(r.cpuSteal);
      cpuUser.Add(r.cpuUser);
      cpuSystem.Add(r.cpuSystem);
    }

    method AddGauges(r: Rates)
      requires Valid()
      modifies memUsed, swapUsed, load1
      ensures memUsed.Value() == Folded(old(memUsed.Value()), r.memUsed as real)
      ensures swapUsed.Value() == Folded(old(swapUsed.Value()), r.swapUsed as real)
      ensures load1.Value() == Folded(old(load1.Value()), r.load.one)
    {
      hide Folded, Stat.Value;
      memUsed.Add(r.memUsed as real);
      swapUsed.Add(r.swapUsed as real);
      load1.Add(r.load.one);
    }

    method AddThroughput(r: Rates)
      requires Valid()
      modifies netRx, netTx, diskRead, diskWrite
      ensures netRx.Value() == Folded(old(netRx.Value()), r.netRx)
      ensures netTx.Value() == Folded(old(netTx.Value()), r.netTx)
      ensures diskRead.Value() == Folded(old(diskRead.Value()), r.diskRead)
      ensures diskWrite.Value() == Folded(old(diskWrite.Value()), r.diskWrite)
    {
      hide Folded, Stat.Value;
      netRx.Add(r.netRx);
      netTx.Add(r.netTx);
      diskRead.Add(r.diskRead);
      diskWrite.Add(r.diskWrite);
    }
  }
}

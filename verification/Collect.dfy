/** One reading of a machine's resource counters (internal/collect/sample.go). */
module Collect {
  import opened Clock

  datatype CpuTimes = CpuTimes(
    user: uint64, nice: uint64, system: uint64, idle: uint64,
    iowait: uint64, irq: uint64, softirq: uint64, steal: uint64)
  {
    /** The sum of every state as a mathematical integer. */
    function Sum(): nat {
      user + nice + system + idle + iowait + irq + softirq + steal
    }

    /** The sum of every state in 64-bit arithmetic. */
    function Total(): uint64 {
      Sum() % 0x1_0000_0000_0000_0000
    }
  }

  datatype Memory = Memory(total: uint64, available: uint64, swapTotal: uint64, swapFree: uint64)

  datatype Load = Load(one: real, five: real, fifteen: real)

  datatype Filesystem = Filesystem(mount: string, total: uint64, used: uint64)

  /** The four byte counters from which throughput is derived. */
  datatype Counter = NetRx | NetTx | DiskRead | DiskWrite

  /** `uptime` is a duration in nanoseconds, read from a file that never holds a negative value. */
  datatype Sample = Sample(
    at: int, bootId: string, uptime: nat,
    cpu: CpuTimes, mem: Memory, load: Load,
    rxBytes: uint64, txBytes: uint64, readBytes: uint64, writeBytes: uint64,
    fs: seq<Filesystem>)
  {
    function Raw(c: Counter): uint64 {
      match c
      case NetRx => rxBytes
      case NetTx => txBytes
      case DiskRead => readBytes
      case DiskWrite => writeBytes
    }
  }

  const ZERO_SAMPLE: Sample := Sample(
    0, "", 0, CpuTimes(0, 0, 0, 0, 0, 0, 0, 0), Memory(0, 0, 0, 0), Load(0.0, 0.0, 0.0), 0, 0, 0, 0, [])
}

/** The messages a worker pushes to the manager (proto/monitor_info.proto).  Metrics are exact reals and
    counters are naturals; only fields that the manager's processing reads are kept. */
module Messages {

  datatype Option<+T> = None | Some(value: T)

  datatype HostInfo = HostInfo(hostname: string, ipAddress: string)

  datatype CpuStat = CpuStat(
    cpuPercent: real, usrPercent: real, systemPercent: real, nicePercent: real,
    idlePercent: real, ioWaitPercent: real, irqPercent: real, softIrqPercent: real)

  datatype CpuLoad = CpuLoad(loadAvg1: real, loadAvg3: real, loadAvg15: real)

  datatype MemInfo = MemInfo(
    usedPercent: real, total: real, free: real, avail: real, buffers: real, cached: real,
    swapCached: real, active: real, inactive: real, activeAnon: real, inactiveAnon: real,
    activeFile: real, inactiveFile: real, dirty: real, writeback: real, anonPages: real,
    mapped: real, kReclaimable: real, sReclaimable: real, sUnreclaim: real)

  datatype NetInfo = NetInfo(
    name: string, rcvRate: real, rcvPacketsRate: real, sendRate: real, sendPacketsRate: real,
    errIn: nat, errOut: nat, dropIn: nat, dropOut: nat)

  datatype SoftIrq = SoftIrq(
    cpu: string, hi: real, timer: real, netTx: real, netRx: real, block: real,
    irqPoll: real, tasklet: real, sched: real, hrtimer: real, rcu: real)

  datatype DiskInfo = DiskInfo(
    name: string, readBytesPerSec: real, writeBytesPerSec: real, readIops: real, writeIops: real,
    avgReadLatencyMs: real, avgWriteLatencyMs: real, utilPercent: real)

  datatype MonitorInfo = MonitorInfo(
    name: string,
    hostInfo: Option<HostInfo>,
    softIrq: seq<SoftIrq>,
    cpuLoad: Option<CpuLoad>,
    cpuStat: seq<CpuStat>,
    memInfo: Option<MemInfo>,
    netInfo: seq<NetInfo>,
    diskInfo: seq<DiskInfo>)
}

/** The history updates one message causes: which history cells it writes and with what sample, in the order
    ProcessData and WriteToMysql write them. */
module Samples {
  import opened Messages
  import opened Identity
  import opened Rates
  import Score

  /** The history tables: the performance snapshot, the thread-local disk utilisation, and the four detail
      tables. */
  datatype Table = Perf | Util | Net | SoftIrqs | Mem | Disk

  /** One history entry: a table, a host, and for the per-device tables a device name. */
  datatype Cell = Cell(table: Table, host: string, device: string)

  datatype Update = Update(cell: Cell, sample: Sample)

  /** The performance snapshot's rated metrics, in the order their rates are passed to WriteToMysql. */
  function PerfSample(m: MonitorInfo): Sample {
    var cpu := if m.cpuStat != [] then m.cpuStat[0] else CpuStat(0.0, 0.0, 0.0, 0.0, 0.0, 0.0, 0.0, 0.0);
    var load := if m.cpuLoad.Some? then m.cpuLoad.value else CpuLoad(0.0, 0.0, 0.0);
    var hasMem := m.memInfo.Some?;
    Sample([cpu.cpuPercent, cpu.usrPercent, cpu.systemPercent, cpu.nicePercent,
            cpu.idlePercent, cpu.ioWaitPercent, cpu.irqPercent, cpu.softIrqPercent,
            load.loadAvg1, load.loadAvg3, load.loadAvg15,
            if hasMem then m.memInfo.value.usedPercent else 0.0,
            if hasMem then m.memInfo.value.total else 0.0,
            if hasMem then m.memInfo.value.free else 0.0,
            if hasMem then m.memInfo.value.avail else 0.0,
            if m.netInfo != [] then m.netInfo[0].rcvRate / 1048576.0 else 0.0,
            if m.netInfo != [] then m.netInfo[0].sendRate / 1048576.0 else 0.0], [])
  }

  function UtilSample(m: MonitorInfo): Sample {
    Sample([Score.MaxUtil(m.diskInfo)], [])
  }

  function NetSample(n: NetInfo): Sample {
    Sample([n.rcvRate, n.rcvPacketsRate, n.sendRate, n.sendPacketsRate], [n.errIn, n.errOut, n.dropIn, n.dropOut])
  }

  function SoftIrqSample(s: SoftIrq): Sample {
    Sample([s.hi, s.timer, s.netTx, s.netRx, s.block, s.irqPoll, s.tasklet, s.sched, s.hrtimer, s.rcu], [])
  }

  function MemSample(x: MemInfo): Sample {
    Sample([x.total, x.free, x.avail, x.buffers, x.cached, x.swapCached, x.active, x.inactive,
            x.activeAnon, x.inactiveAnon, x.activeFile, x.inactiveFile, x.dirty, x.writeback,
            x.anonPages, x.mapped, x.kReclaimable, x.sReclaimable, x.sUnreclaim], [])
  }

  function DiskSample(d: DiskInfo): Sample {
    Sample([d.readBytesPerSec, d.writeBytesPerSec, d.readIops, d.writeIops,
            d.avgReadLatencyMs, d.avgWriteLatencyMs, d.utilPercent], [])
  }

  function PerfCell(host: string): Cell {
    Cell(Perf, host, "")
  }

  function UtilCell(host: string): Cell {
    Cell(Util, host, "")
  }

  function NetUpdates(host: string, xs: seq<NetInfo>): seq<Update> {
    seq(|xs|, k requires 0 <= k < |xs| => Update(Cell(Net, host, xs[k].name), NetSample(xs[k])))
  }

  function SoftIrqUpdates(host: string, xs: seq<SoftIrq>): seq<Update> {
    seq(|xs|, k requires 0 <= k < |xs| => Update(Cell(SoftIrqs, host, xs[k].cpu), SoftIrqSample(xs[k])))
  }

  function MemUpdates(host: string, x: Option<MemInfo>): seq<Update> {
    if x.Some? then [Update(Cell(Mem, host, ""), MemSample(x.value))] else []
  }

  function DiskUpdates(host: string, xs: seq<DiskInfo>): seq<Update> {
    seq(|xs|, k requires 0 <= k < |xs| => Update(Cell(Disk, host, xs[k].name), DiskSample(xs[k])))
  }

  /** The writes that need a database connection, in program order. */
  function DatabaseUpdates(m: MonitorInfo): (w: seq<Update>)
    ensures forall u | u in w :: u.cell.host == StoreKey(m) && !u.cell.table.Perf?
  {
    var host := StoreKey(m);
    [Update(UtilCell(host), UtilSample(m))]
    + NetUpdates(host, m.netInfo) + SoftIrqUpdates(host, m.softIrq)
    + MemUpdates(host, m.memInfo) + DiskUpdates(host, m.diskInfo)
  }

  /** Every history write a message causes when its database connection succeeds; a message without any
      identifier causes none. */
  function UpdatesOf(m: MonitorInfo): (w: seq<Update>)
    ensures forall u | u in w :: u.cell.host == StoreKey(m)
    ensures StoreKey(m) == "" <==> w == []
    ensures w != [] ==> w[0] == Update(PerfCell(StoreKey(m)), PerfSample(m))
    ensures w != [] ==> w[1..] == DatabaseUpdates(m)
  {
    if StoreKey(m) == "" then [] else [Update(PerfCell(StoreKey(m)), PerfSample(m))] + DatabaseUpdates(m)
  }

  /** The updates performed: all of them, or only the first if the database cannot be reached. */
  function Kept(w: seq<Update>, connected: bool): seq<Update> {
    if w == [] || connected then w else w[..1]
  }

  lemma KeptParts(m: MonitorInfo, connected: bool)
    ensures Kept(UpdatesOf(m), connected) ==
            if StoreKey(m) == "" then []
            else
              var first := [Update(PerfCell(StoreKey(m)), PerfSample(m))];
              if connected then first + DatabaseUpdates(m) else first
  {
  }

  /** The samples w writes to cell x, in order. */
  function SamplesFor(w: seq<Update>, x: Cell): seq<Sample> {
    if w == [] then []
    else
      var rest, u := SamplesFor(w[..|w| - 1], x), w[|w| - 1];
      if u.cell == x then rest + [u.sample] else rest
  }

  lemma {:induction false} NoSamples(w: seq<Update>, x: Cell)
    requires forall u | u in w :: u.cell != x
    ensures SamplesFor(w, x) == []
  {
    if w != [] {
      assert forall u | u in w[..|w| - 1] :: u in w;
      NoSamples(w[..|w| - 1], x);
      assert w[|w| - 1] in w;
    }
  }

  lemma {:induction false} SamplesForSplit(a: seq<Update>, b: seq<Update>, x: Cell)
    ensures SamplesFor(a + b, x) == SamplesFor(a, x) + SamplesFor(b, x)
  {
    if b == [] {
      assert a + b == a;
    } else {
      assert (a + b)[..|a + b| - 1] == a + b[..|b| - 1];
      SamplesForSplit(a, b[..|b| - 1], x);
    }
  }

  lemma {:induction false} SamplesPrefix(w: seq<Update>, j: nat, x: Cell)
    requires j <= |w|
    ensures SamplesFor(w[..j], x) <= SamplesFor(w, x)
    decreases |w|
  {
    if j < |w| {
      var init := w[..|w| - 1];
      assert init[..j] == w[..j];
      SamplesPrefix(init, j, x);
    } else {
      assert w[..j] == w;
    }
  }

  lemma SamplesOfOne(u: Update, x: Cell)
    ensures SamplesFor([u], x) == if u.cell == x then [u.sample] else []
  {
    assert [u][..0] == [];
  }

  lemma SamplesNext(w: seq<Update>, j: nat, x: Cell)
    requires j < |w|
    ensures SamplesFor(w[..j + 1], x) ==
            if w[j].cell == x then SamplesFor(w[..j], x) + [w[j].sample] else SamplesFor(w[..j], x)
  {
    assert w[..j + 1][..j] == w[..j];
  }

  /** A performance snapshot of a message, column by column: eight CPU percentages of the whole machine, three load
      averages, four memory values and the rates of the first interface in megabytes, each zero if the message lacks
      its part. */
  predicate SnapshotSays(s: Sample, m: MonitorInfo) {
    |s.f| == 17 && s.u == [] && CpuSays(s.f[..8], m) && LoadSays(s.f[8..11], m) && MemorySays(s.f[11..15], m)
    && TrafficSays(s.f[15..], m)
  }

  predicate CpuSays(f: seq<real>, m: MonitorInfo)
    requires |f| == 8
  {
    if m.cpuStat == [] then forall k | 0 <= k < 8 :: f[k] == 0.0
    else
      var x := m.cpuStat[0];
      && f[0] == x.cpuPercent && f[1] == x.usrPercent && f[2] == x.systemPercent && f[3] == x.nicePercent
      && f[4] == x.idlePercent && f[5] == x.ioWaitPercent && f[6] == x.irqPercent && f[7] == x.softIrqPercent
  }

  predicate LoadSays(f: seq<real>, m: MonitorInfo) {
    f == if m.cpuLoad.None? then [0.0, 0.0, 0.0]
         else [m.cpuLoad.value.loadAvg1, m.cpuLoad.value.loadAvg3, m.cpuLoad.value.loadAvg15]
  }

  predicate MemorySays(f: seq<real>, m: MonitorInfo) {
    f == if m.memInfo.None? then [0.0, 0.0, 0.0, 0.0]
         else [m.memInfo.value.usedPercent, m.memInfo.value.total, m.memInfo.value.free, m.memInfo.value.avail]
  }

  predicate TrafficSays(f: seq<real>, m: MonitorInfo)
    requires |f| == 2
  {
    if m.netInfo == [] then f == [0.0, 0.0]
    else f[0] * 1048576.0 == m.netInfo[0].rcvRate && f[1] * 1048576.0 == m.netInfo[0].sendRate
  }

  lemma PerfSampleSays(m: MonitorInfo)
    ensures SnapshotSays(PerfSample(m), m)
  {
    var f := PerfSample(m).f;
    assert CpuSays(f[..8], m);
    assert LoadSays(f[8..11], m);
    assert MemorySays(f[11..15], m);
    assert TrafficSays(f[15..], m);
  }

  /** Update u writes these columns to this history entry. */
  predicate WritesRow(u: Update, table: Table, host: string, device: string, f: seq<real>, counters: seq<nat>) {
    u.cell == Cell(table, host, device) && u.sample.f == f && u.sample.u == counters
  }

  /** The greatest utilisation of the disks, and 0 if none is positive. */
  ghost predicate Greatest(util: real, disks: seq<DiskInfo>) {
    && util >= 0.0 && (forall d | d in disks :: d.utilPercent <= util)
    && (util == 0.0 || exists d :: d in disks && d.utilPercent == util)
  }

  /** The writes of a message on a database connection, column by column: the greatest disk utilisation, then one
      entry per interface, per CPU's soft interrupts, for the memory if present, and per disk. */
  ghost predicate DetailsSay(w: seq<Update>, m: MonitorInfo) {
    var host := StoreKey(m);
    var irq := 1 + |m.netInfo|;
    var mem := irq + |m.softIrq|;
    var disk := mem + if m.memInfo.Some? then 1 else 0;
    && |w| == disk + |m.diskInfo| && UtilSays(w[0], host, m.diskInfo)
    && NetsSay(w[1..irq], host, m.netInfo) && SoftIrqsSay(w[irq..mem], host, m.softIrq)
    && (m.memInfo.Some? ==> MemSays(w[mem], host, m.memInfo.value)) && DisksSay(w[disk..], host, m.diskInfo)
  }

  ghost predicate UtilSays(u: Update, host: string, disks: seq<DiskInfo>) {
    u.cell == Cell(Util, host, "") && |u.sample.f| == 1 && u.sample.u == [] && Greatest(u.sample.f[0], disks)
  }

  predicate NetsSay(w: seq<Update>, host: string, xs: seq<NetInfo>) {
    |w| == |xs| && forall k | 0 <= k < |xs| :: NetSays(w[k], host, xs[k])
  }

  predicate SoftIrqsSay(w: seq<Update>, host: string, xs: seq<SoftIrq>) {
    |w| == |xs| && forall k | 0 <= k < |xs| :: SoftIrqSays(w[k], host, xs[k])
  }

  predicate DisksSay(w: seq<Update>, host: string, xs: seq<DiskInfo>) {
    |w| == |xs| && forall k | 0 <= k < |xs| :: DiskSays(w[k], host, xs[k])
  }

  predicate NetSays(u: Update, host: string, x: NetInfo) {
    WritesRow(u, Net, host, x.name, [x.rcvRate, x.rcvPacketsRate, x.sendRate, x.sendPacketsRate],
              [x.errIn, x.errOut, x.dropIn, x.dropOut])
  }

  predicate SoftIrqSays(u: Update, host: string, x: SoftIrq) {
    WritesRow(u, SoftIrqs, host, x.cpu,
              [x.hi, x.timer, x.netTx, x.netRx, x.block, x.irqPoll, x.tasklet, x.sched, x.hrtimer, x.rcu], [])
  }

  predicate MemSays(u: Update, host: string, x: MemInfo) {
    WritesRow(u, Mem, host, "",
           [x.total, x.free, x.avail, x.buffers, x.cached, x.swapCached, x.active, x.inactive, x.activeAnon,
            x.inactiveAnon, x.activeFile, x.inactiveFile, x.dirty, x.writeback, x.anonPages, x.mapped, x.kReclaimable,
            x.sReclaimable, x.sUnreclaim], [])
  }

  predicate DiskSays(u: Update, host: string, x: DiskInfo) {
    WritesRow(u, Disk, host, x.name,
           [x.readBytesPerSec, x.writeBytesPerSec, x.readIops, x.writeIops, x.avgReadLatencyMs, x.avgWriteLatencyMs,
            x.utilPercent], [])
  }

  /** Where each part of the details starts. */
  lemma Layout(m: MonitorInfo)
    ensures var w, host := DatabaseUpdates(m), StoreKey(m);
            var irq := 1 + |m.netInfo|;
            var mem := irq + |m.softIrq|;
            var disk := mem + if m.memInfo.Some? then 1 else 0;
            && |w| == disk + |m.diskInfo| && w[0] == Update(UtilCell(host), UtilSample(m))
            && w[1..irq] == NetUpdates(host, m.netInfo) && w[irq..mem] == SoftIrqUpdates(host, m.softIrq)
            && w[mem..disk] == MemUpdates(host, m.memInfo) && w[disk..] == DiskUpdates(host, m.diskInfo)
  {
  }

  lemma DatabaseUpdatesSay(m: MonitorInfo)
    ensures DetailsSay(DatabaseUpdates(m), m)
  {
    var w, host := DatabaseUpdates(m), StoreKey(m);
    var mem := 1 + |m.netInfo| + |m.softIrq|;
    Layout(m);
    Score.MaxUtilIsGreatest(m.diskInfo);
    NetListSays(host, m.netInfo);
    SoftIrqListSays(host, m.softIrq);
    DiskListSays(host, m.diskInfo);
    if m.memInfo.Some? {
      assert w[mem] == w[mem..mem + 1][0];
    }
  }

  lemma NetListSays(host: string, xs: seq<NetInfo>)
    ensures NetsSay(NetUpdates(host, xs), host, xs)
  {
  }

  lemma SoftIrqListSays(host: string, xs: seq<SoftIrq>)
    ensures SoftIrqsSay(SoftIrqUpdates(host, xs), host, xs)
  {
  }

  lemma DiskListSays(host: string, xs: seq<DiskInfo>)
    ensures DisksSay(DiskUpdates(host, xs), host, xs)
  {
  }

  /** The snapshot and the detail samples of one message tell the same story: memory totals are the detail row's,
      network rates are those of the first interface in megabytes, the disk utilisation is the greatest of the disk
      rows'. */
  lemma TablesAgree(m: MonitorInfo)
    ensures |PerfSample(m).f| == 17 && |UtilSample(m).f| == 1
    ensures m.memInfo.Some? ==>
              forall k | 0 <= k < 3 :: FloatAt(PerfSample(m), 12 + k) == FloatAt(MemSample(m.memInfo.value), k)
    ensures m.netInfo != [] ==>
              && FloatAt(PerfSample(m), 15) * 1048576.0 == FloatAt(NetSample(m.netInfo[0]), 0)
              && FloatAt(PerfSample(m), 16) * 1048576.0 == FloatAt(NetSample(m.netInfo[0]), 2)
    ensures forall d | d in m.diskInfo :: FloatAt(DiskSample(d), 6) <= FloatAt(UtilSample(m), 0)
  {
    Score.MaxUtilIsGreatest(m.diskInfo);
    if m.memInfo.Some? {
      var perf, detail := PerfSample(m).f, MemSample(m.memInfo.value).f;
      assert perf[12] == detail[0] && perf[13] == detail[1] && perf[14] == detail[2];
    }
  }

  /** What the score is computed from is what the snapshot and the utilisation store. */
  lemma SnapshotMatchesScore(m: MonitorInfo)
    ensures var x, perf := Score.MetricsOf(m), PerfSample(m);
            && FloatAt(perf, 0) == x.cpu && FloatAt(perf, 8) == x.load && FloatAt(perf, 11) == x.mem
            && (FloatAt(perf, 15) + FloatAt(perf, 16)) * 1048576.0 == x.net
            && FloatAt(UtilSample(m), 0) == x.disk
  {
  }
}

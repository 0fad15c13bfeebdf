/** The health score of a message (HostManager::CalcScore), in exact reals. */
module Score {
  import opened Messages
  import opened Reals

  /** The five metrics the score is computed from. */
  datatype Metrics = Metrics(cpu: real, mem: real, load: real, cores: nat, disk: real, net: real)

  function Clamp(v: real): real {
    if v < 0.0 then 0.0 else if v > 1.0 then 1.0 else v
  }

  function MaxUtil(disks: seq<DiskInfo>): real {
    if disks == [] then 0.0
    else
      var rest := MaxUtil(disks[..|disks| - 1]);
      var util := disks[|disks| - 1].utilPercent;
      if util > rest then util else rest
  }

  /** Entry 0 of cpu_stat is the whole machine, so the remaining entries count its cores. */
  function Cores(m: MonitorInfo): (n: nat)
    ensures n >= 1
  {
    if |m.cpuStat| - 1 < 1 then 1 else |m.cpuStat| - 1
  }

  function MetricsOf(m: MonitorInfo): (x: Metrics)
    ensures x.cores >= 1
  {
    Metrics(
      if m.cpuStat != [] then m.cpuStat[0].cpuPercent else 0.0,
      if m.memInfo.Some? then m.memInfo.value.usedPercent else 0.0,
      if m.cpuLoad.Some? then m.cpuLoad.value.loadAvg1 else 0.0,
      Cores(m),
      MaxUtil(m.diskInfo),
      if m.netInfo != [] then m.netInfo[0].rcvRate + m.netInfo[0].sendRate else 0.0)
  }

  /** The weighted sum of the clamped part scores, before the final clamp. */
  function Weighted(x: Metrics): real
    requires x.cores >= 1
  {
    (Clamp(1.0 - x.cpu / 100.0) * 0.35 + Clamp(1.0 - x.mem / 100.0) * 0.30
     + Clamp(1.0 - x.load / (x.cores as real * 1.5)) * 0.15 + Clamp(1.0 - x.disk / 100.0) * 0.15
     + Clamp(1.0 - x.net / 250000000.0) * 0.05) * 100.0
  }

  function CalcScore(m: MonitorInfo): real {
    var s := Weighted(MetricsOf(m));
    if s < 0.0 then 0.0 else if s > 100.0 then 100.0 else s
  }

  /** The final clamp of CalcScore never fires. */
  lemma FinalClampIsIdle(m: MonitorInfo)
    ensures CalcScore(m) == Weighted(MetricsOf(m))
    ensures 0.0 <= CalcScore(m) <= 100.0
  {
  }

  /** Every metric of x is at most the matching metric of y, on a machine with the same number of cores. */
  predicate NoBusier(x: Metrics, y: Metrics) {
    x.cpu <= y.cpu && x.mem <= y.mem && x.load <= y.load && x.cores == y.cores
    && x.disk <= y.disk && x.net <= y.net
  }

  /** A host that is no busier in any metric never scores lower. */
  lemma ScoreAntitone(x: Metrics, y: Metrics)
    requires x.cores >= 1 && y.cores >= 1 && NoBusier(x, y)
    ensures Weighted(x) >= Weighted(y)
  {
  }

  /** Each metric matters: a host within the working range scores strictly lower for being busier in it alone. */
  lemma ScoreStrict(x: Metrics, y: Metrics)
    requires x.cores >= 1 && NoBusier(x, y) && x != y
    requires 0.0 <= x.cpu && y.cpu <= 100.0 && 0.0 <= x.mem && y.mem <= 100.0
    requires 0.0 <= x.load && y.load <= y.cores as real * 1.5
    requires 0.0 <= x.disk && y.disk <= 100.0 && 0.0 <= x.net && y.net <= 250000000.0
    ensures Weighted(x) > Weighted(y)
  {
    var d := x.cores as real * 1.5;
    assert (x.load / d) * d == x.load && (y.load / d) * d == y.load;
    LoadInRange(x.load, d);
    LoadInRange(y.load, d);
    DivMonotone(x.load, y.load, d);
  }

  /** What each percentage costs, whatever the other metrics are: 0.35 points per percent of CPU, 0.30 of memory and
      0.15 of disk. */
  lemma PercentCosts(x: Metrics, v: real)
    requires x.cores >= 1 && 0.0 <= v <= 100.0
    ensures Weighted(x.(cpu := 0.0)) - Weighted(x.(cpu := v)) == 0.35 * v
    ensures Weighted(x.(mem := 0.0)) - Weighted(x.(mem := v)) == 0.30 * v
    ensures Weighted(x.(disk := 0.0)) - Weighted(x.(disk := v)) == 0.15 * v
  {
  }

  /** 10 points per runnable thread per core, up to 1.5; 5 points for two full gigabit links. */
  lemma LoadAndNetCosts(x: Metrics, v: real)
    requires x.cores >= 1 && v >= 0.0
    ensures v <= 1.5 ==> Weighted(x.(load := 0.0)) - Weighted(x.(load := Times(v, x.cores as real))) == 10.0 * v
    ensures v <= 1.0 ==> Weighted(x.(net := 0.0)) - Weighted(x.(net := v * 250000000.0)) == 5.0 * v
  {
    LoadShare(v, x.cores as real);
    LoadShare(0.0, x.cores as real);
  }

  lemma LoadShare(v: real, cores: real)
    requires cores >= 1.0
    ensures Times(v, cores) / (cores * 1.5) == v / 1.5
    ensures v == 0.0 ==> Times(v, cores) == 0.0
  {
  }

  lemma LoadInRange(load: real, d: real)
    requires 0.0 <= load <= d && d > 0.0
    ensures 0.0 <= load / d <= 1.0
  {
  }

  /** MaxUtil is the greatest utilisation reported, and 0 if none is positive. */
  lemma {:induction false} MaxUtilIsGreatest(disks: seq<DiskInfo>)
    ensures MaxUtil(disks) >= 0.0
    ensures forall d | d in disks :: d.utilPercent <= MaxUtil(disks)
    ensures MaxUtil(disks) == 0.0 || exists d :: d in disks && d.utilPercent == MaxUtil(disks)
  {
    if disks != [] {
      var init, last := disks[..|disks| - 1], disks[|disks| - 1];
      MaxUtilIsGreatest(init);
      assert disks == init + [last];
      assert last in disks;
      if MaxUtil(init) == MaxUtil(disks) && MaxUtil(disks) != 0.0 {
        var d :| d in init && d.utilPercent == MaxUtil(init);
        assert d in disks;
      }
    }
  }

  /** Reordering disks does not change the score, and reporting more disks never raises it. */
  lemma DiskOrderIrrelevant(m: MonitorInfo, disks: seq<DiskInfo>)
    requires forall d | d in m.diskInfo :: d in disks
    ensures CalcScore(m.(diskInfo := disks)) <= CalcScore(m)
    ensures (forall d | d in disks :: d in m.diskInfo) ==> CalcScore(m.(diskInfo := disks)) == CalcScore(m)
  {
    var m' := m.(diskInfo := disks);
    MaxUtilIsGreatest(m.diskInfo);
    MaxUtilIsGreatest(disks);
    ScoreAntitone(MetricsOf(m), MetricsOf(m'));
    if forall d | d in disks :: d in m.diskInfo {
      assert MetricsOf(m) == MetricsOf(m');
    }
  }

  /** The score of a message, from the fields it is computed from: entry 0 of cpu_stat is the whole machine, and the
      entries after it count its cores. */
  method ComputeScore(m: MonitorInfo) returns (score: real)
    ensures score == CalcScore(m)
    ensures 0.0 <= score <= 100.0
    ensures score == Weighted(Metrics(
                       if m.cpuStat == [] then 0.0 else m.cpuStat[0].cpuPercent,
                       if m.memInfo.None? then 0.0 else m.memInfo.value.usedPercent,
                       if m.cpuLoad.None? then 0.0 else m.cpuLoad.value.loadAvg1,
                       if |m.cpuStat| < 2 then 1 else |m.cpuStat| - 1,
                       MaxUtil(m.diskInfo),
                       if m.netInfo == [] then 0.0 else m.netInfo[0].rcvRate + m.netInfo[0].sendRate))
  {
    var x := ReadMetrics(m);
    FinalClampIsIdle(m);
    score := (Clamp(1.0 - x.cpu / 100.0) * 0.35 + Clamp(1.0 - x.mem / 100.0) * 0.30
              + Clamp(1.0 - x.load / (x.cores as real * 1.5)) * 0.15 + Clamp(1.0 - x.disk / 100.0) * 0.15
              + Clamp(1.0 - x.net / (2.0 * 125000000.0)) * 0.05) * 100.0;
    score := if score < 0.0 then 0.0 else if score > 100.0 then 100.0 else score;
  }

  method ReadMetrics(m: MonitorInfo) returns (x: Metrics)
    ensures x == MetricsOf(m)
    ensures x == Metrics(
                   if m.cpuStat == [] then 0.0 else m.cpuStat[0].cpuPercent,
                   if m.memInfo.None? then 0.0 else m.memInfo.value.usedPercent,
                   if m.cpuLoad.None? then 0.0 else m.cpuLoad.value.loadAvg1,
                   if |m.cpuStat| < 2 then 1 else |m.cpuStat| - 1,
                   MaxUtil(m.diskInfo),
                   if m.netInfo == [] then 0.0 else m.netInfo[0].rcvRate + m.netInfo[0].sendRate)
  {
    var cpu, load, mem, rcv, send := 0.0, 0.0, 0.0, 0.0, 0.0;
    var cores := 1;
    if |m.cpuStat| > 0 {
      cpu := m.cpuStat[0].cpuPercent;
      cores := |m.cpuStat| - 1;
      if cores < 1 {
        cores := 1;
      }
    }
    if m.cpuLoad.Some? {
      load := m.cpuLoad.value.loadAvg1;
    }
    if m.memInfo.Some? {
      mem := m.memInfo.value.usedPercent;
    }
    if |m.netInfo| > 0 {
      rcv, send := m.netInfo[0].rcvRate, m.netInfo[0].sendRate;
    }
    var diskUtil := GreatestUtil(m.diskInfo);
    x := Metrics(cpu, mem, load, cores, diskUtil, rcv + send);
  }

  /** The loop over a message's disks. */
  method GreatestUtil(disks: seq<DiskInfo>) returns (diskUtil: real)
    ensures diskUtil == MaxUtil(disks)
  {
    diskUtil := 0.0;
    var i := 0;
    while i < |disks|
      invariant 0 <= i <= |disks|
      invariant diskUtil == MaxUtil(disks[..i])
    {
      assert disks[..i + 1][..i] == disks[..i];
      var util := disks[i].utilPercent;
      if util > diskUtil {
        diskUtil := util;
      }
      i := i + 1;
    }
    assert disks[..i] == disks;
  }
}

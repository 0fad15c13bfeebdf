/** CPU percentages from the kernel module's cumulative times (worker/src/monitor/cpu_stat_monitor.cpp), in exact
    arithmetic. */
module CpuStatMonitors {
  import opened Messages
  import opened Reals
  import opened Sampler

  /** The monitor reads this many entries of the array the kernel module shares. */
  const STAT_COUNT := 128

  /** struct cpu_stat, without the two guest times, which are cached but never used. */
  datatype KernelStat = KernelStat(
    name: string, user: nat, nice: nat, system: nat, idle: nat, ioWait: nat, irq: nat, softIrq: nat, steal: nat)

  /** The result of a floating-point division; dividing by zero gives no number. */
  datatype Quotient = Number(value: real) | Undefined

  function Total(s: KernelStat): nat {
    s.user + s.system + s.idle + s.nice + s.ioWait + s.irq + s.softIrq + s.steal
  }

  function Busy(s: KernelStat): nat {
    s.user + s.system + s.nice + s.irq + s.softIrq + s.steal
  }

  function Percent(part: int, whole: int): Quotient {
    if whole == 0 then Undefined else Number(part as real / whole as real * 100.0)
  }

  datatype CpuRow = CpuRow(
    name: string, cpu: Quotient, usr: Quotient, system: Quotient, nice: Quotient,
    idle: Quotient, ioWait: Quotient, irq: Quotient, softIrq: Quotient)

  function RowFor(prev: KernelStat, curr: KernelStat): CpuRow {
    var whole := Total(curr) - Total(prev);
    CpuRow(curr.name, Percent(Busy(curr) - Busy(prev), whole), Percent(curr.user - prev.user, whole),
           Percent(curr.system - prev.system, whole), Percent(curr.nice - prev.nice, whole),
           Percent(curr.idle - prev.idle, whole), Percent(curr.ioWait - prev.ioWait, whole),
           Percent(curr.irq - prev.irq, whole), Percent(curr.softIrq - prev.softIrq, whole))
  }

  /** No cumulative time went back. */
  predicate Advances(prev: KernelStat, curr: KernelStat) {
    prev.user <= curr.user && prev.nice <= curr.nice && prev.system <= curr.system && prev.idle <= curr.idle
    && prev.ioWait <= curr.ioWait && prev.irq <= curr.irq && prev.softIrq <= curr.softIrq && prev.steal <= curr.steal
  }

  function Value(q: Quotient): real {
    if q.Number? then q.value else 0.0
  }

  lemma PercentTimes(part: int, whole: int)
    ensures Percent(part, whole).Number? <==> whole != 0
    ensures whole != 0 ==> Times(Value(Percent(part, whole)), whole as real) == 100.0 * part as real
  {
  }

  lemma PercentInRange(part: int, whole: int)
    requires 0 <= part <= whole && whole > 0
    ensures 0.0 <= Value(Percent(part, whole)) <= 100.0
  {
  }

  lemma PercentAdds(a: int, b: int, c: int, whole: int)
    requires whole != 0 && a + b + c == whole
    ensures Value(Percent(a, whole)) + Value(Percent(b, whole)) + Value(Percent(c, whole)) == 100.0
  {
  }

  /** A row has numbers exactly when total time moved; then busy, idle and I/O wait make up 100 percent; and if no
      time went back, every entry is a percentage. */
  lemma RowAddsUp(prev: KernelStat, curr: KernelStat)
    ensures RowFor(prev, curr).cpu.Number? <==> Total(curr) != Total(prev)
    ensures RowFor(prev, curr).cpu.Number? ==>
              var r := RowFor(prev, curr);
              Value(r.cpu) + Value(r.idle) + Value(r.ioWait) == 100.0
    ensures RowFor(prev, curr).cpu.Number? && Advances(prev, curr) ==>
              var r := RowFor(prev, curr);
              forall q | q in [r.cpu, r.usr, r.system, r.nice, r.idle, r.ioWait, r.irq, r.softIrq] ::
                q.Number? && 0.0 <= q.value <= 100.0
  {
    var whole := Total(curr) - Total(prev);
    if whole != 0 {
      PercentAdds(Busy(curr) - Busy(prev), curr.idle - prev.idle, curr.ioWait - prev.ioWait, whole);
      if Advances(prev, curr) {
        PercentInRange(Busy(curr) - Busy(prev), whole);
        PercentInRange(curr.user - prev.user, whole);
        PercentInRange(curr.system - prev.system, whole);
        PercentInRange(curr.nice - prev.nice, whole);
        PercentInRange(curr.idle - prev.idle, whole);
        PercentInRange(curr.ioWait - prev.ioWait, whole);
        PercentInRange(curr.irq - prev.irq, whole);
        PercentInRange(curr.softIrq - prev.softIrq, whole);
      }
    }
  }

  /** Every entry of a row is the share of its own time in the time that passed. */
  lemma RowColumns(prev: KernelStat, curr: KernelStat)
    ensures var r, whole := RowFor(prev, curr), Total(curr) - Total(prev);
            whole != 0 ==>
              && r.name == curr.name
              && Times(Value(r.cpu), whole as real) == 100.0 * (Busy(curr) - Busy(prev)) as real
              && Times(Value(r.usr), whole as real) == 100.0 * (curr.user - prev.user) as real
              && Times(Value(r.system), whole as real) == 100.0 * (curr.system - prev.system) as real
              && Times(Value(r.nice), whole as real) == 100.0 * (curr.nice - prev.nice) as real
              && Times(Value(r.idle), whole as real) == 100.0 * (curr.idle - prev.idle) as real
              && Times(Value(r.ioWait), whole as real) == 100.0 * (curr.ioWait - prev.ioWait) as real
              && Times(Value(r.irq), whole as real) == 100.0 * (curr.irq - prev.irq) as real
              && Times(Value(r.softIrq), whole as real) == 100.0 * (curr.softIrq - prev.softIrq) as real
  {
    var whole := Total(curr) - Total(prev);
    PercentTimes(Busy(curr) - Busy(prev), whole);
    PercentTimes(curr.user - prev.user, whole);
    PercentTimes(curr.system - prev.system, whole);
    PercentTimes(curr.nice - prev.nice, whole);
    PercentTimes(curr.idle - prev.idle, whole);
    PercentTimes(curr.ioWait - prev.ioWait, whole);
    PercentTimes(curr.irq - prev.irq, whole);
    PercentTimes(curr.softIrq - prev.softIrq, whole);
  }

  // ---- Runs ----

  type History = seq<Sent<string, KernelStat>>

  /** The CPU percentage sent for a sample, weighted with the total time it covers; a first sample sends none. */
  function Weighted(x: Sent<string, KernelStat>): real {
    if x.prev.None? then 0.0
    else Times(Value(RowFor(x.prev.value, x.curr).cpu), (Total(x.curr) - Total(x.prev.value)) as real)
  }

  function WeightedBusy(h: History): real {
    if h == [] then 0.0 else WeightedBusy(h[..|h| - 1]) + Weighted(h[|h| - 1])
  }

  ghost predicate AllAdvance(h: History) {
    forall n | 0 < n < |h| :: Advances(h[n - 1].curr, h[n].curr)
  }

  /** Busy time, in hundredths. */
  function BusyPercent(s: KernelStat): real {
    100.0 * Busy(s) as real
  }

  lemma WeightedIsBusy(x: Sent<string, KernelStat>)
    requires x.prev.Some? && Advances(x.prev.value, x.curr)
    ensures Weighted(x) == BusyPercent(x.curr) - BusyPercent(x.prev.value)
  {
    var prev, curr := x.prev.value, x.curr;
    var whole, part := Total(curr) - Total(prev), Busy(curr) - Busy(prev);
    PercentTimes(part, whole);
    if whole == 0 {
      assert part == 0;
      assert Times(0.0, 0.0) == 0.0;
    }
  }

  lemma AllAdvanceInit(h: History)
    requires h != [] && AllAdvance(h)
    ensures AllAdvance(h[..|h| - 1])
  {
  }

  /** Over a chained history whose times never go back, the weighted percentages add up to the busy time that
      passed. */
  lemma {:induction false} BusyTelescopes(h: History)
    requires h != [] && Chained(h) && AllAdvance(h)
    ensures WeightedBusy(h) == BusyPercent(h[|h| - 1].curr) - BusyPercent(h[0].curr)
  {
    var init, x := h[..|h| - 1], h[|h| - 1];
    assert x.prev == Previous(h, |h| - 1);
    if init != [] {
      ChainedInit(h, |h| - 1);
      AllAdvanceInit(h);
      BusyTelescopes(init);
      assert x.prev == Some(h[|h| - 2].curr);
      WeightedIsBusy(x);
    }
  }

  /** The array up to its first empty name, or all of it. */
  function Present(stats: seq<KernelStat>): seq<KernelStat> {
    if stats == [] || stats[0].name == "" then [] else [stats[0]] + Present(stats[1..])
  }

  function Update(c: Cache<string, KernelStat>, stats: seq<KernelStat>): Cache<string, KernelStat> {
    if stats == [] then c
    else
      var s := stats[|stats| - 1];
      Take(Update(c, stats[..|stats| - 1]), s.name, s)
  }

  lemma {:induction false} UpdateConsistent(c: Cache<string, KernelStat>, stats: seq<KernelStat>, name: string)
    requires Consistent(c, name)
    ensures Consistent(Update(c, stats), name)
  {
    if stats != [] {
      var init, s := stats[..|stats| - 1], stats[|stats| - 1];
      UpdateConsistent(c, init, name);
      TakeConsistent(Update(c, init), s.name, s, name);
    }
  }

  /** The monitor after a run of calls, each with what the shared array held. */
  function Calls(arrays: seq<seq<KernelStat>>): Cache<string, KernelStat> {
    if arrays == [] then Cache(map[], [])
    else Update(Calls(arrays[..|arrays| - 1]), Present(arrays[|arrays| - 1]))
  }

  lemma {:induction false} CallsConsistent(arrays: seq<seq<KernelStat>>, name: string)
    ensures Consistent(Calls(arrays), name)
  {
    if arrays != [] {
      var init := arrays[..|arrays| - 1];
      CallsConsistent(init, name);
      UpdateConsistent(Calls(init), Present(arrays[|arrays| - 1]), name);
    }
  }

  /** Over any run of calls and for every CPU, even one that is missing from some of the arrays: if its times never
      go back, the percentages sent, weighted with the time they cover, add up to exactly the busy time that
      passed. */
  lemma RunAccountsForBusyTime(arrays: seq<seq<KernelStat>>, name: string)
    ensures var h := HistoryOf(Calls(arrays).log, name);
            h != [] && AllAdvance(h) ==>
              WeightedBusy(h) == BusyPercent(h[|h| - 1].curr) - BusyPercent(h[0].curr)
  {
    CallsConsistent(arrays, name);
    var h := HistoryOf(Calls(arrays).log, name);
    if h != [] && AllAdvance(h) {
      BusyTelescopes(h);
    }
  }

  /** The rows sent for a stretch of the log: none for a CPU seen for the first time. */
  function RowsOf(log: seq<Sent<string, KernelStat>>): seq<CpuRow> {
    if log == [] then []
    else
      var rows, x := RowsOf(log[..|log| - 1]), log[|log| - 1];
      if x.prev.Some? then rows + [RowFor(x.prev.value, x.curr)] else rows
  }

  lemma {:induction false} PresentPrefix(stats: seq<KernelStat>, n: nat)
    requires n <= |stats| && forall k | 0 <= k < n :: stats[k].name != ""
    requires n == |stats| || stats[n].name == ""
    ensures Present(stats) == stats[..n]
  {
    if n > 0 {
      PresentPrefix(stats[1..], n - 1);
      assert [stats[0]] + stats[1..][..n - 1] == stats[..n];
    }
  }

  lemma RowsNext(log: seq<Sent<string, KernelStat>>, from: nat, x: Sent<string, KernelStat>)
    requires from <= |log|
    ensures RowsOf((log + [x])[from..]) ==
            RowsOf(log[from..]) + if x.prev.Some? then [RowFor(x.prev.value, x.curr)] else []
  {
    assert (log + [x])[from..] == log[from..] + [x];
    assert (log[from..] + [x])[..|log[from..]|] == log[from..];
  }

  lemma UpdateNext(c: Cache<string, KernelStat>, stats: seq<KernelStat>, n: nat)
    requires n < |stats|
    ensures Update(c, stats[..n + 1]) == Take(Update(c, stats[..n]), stats[n].name, stats[n])
  {
    assert stats[..n + 1][..n] == stats[..n];
  }

  class CpuStatMonitor {
    var latest: map<string, KernelStat>
    ghost var log: seq<Sent<string, KernelStat>>

    ghost function State(): Cache<string, KernelStat>
      reads this
    {
      Cache(latest, log)
    }

    constructor ()
      ensures latest == map[] && log == []
    {
      latest, log := map[], [];
    }

    /** One pass over the shared array; without the device nothing happens. */
    method UpdateOnce(device: bool, stats: seq<KernelStat>) returns (rows: seq<CpuRow>)
      requires |stats| == 128
      modifies this
      ensures !device ==> rows == [] && State() == old(State())
      ensures device ==> State() == Update(old(State()), Present(stats))
      ensures old(log) <= log && rows == RowsOf(log[|old(log)|..])
    {
      rows := [];
      if !device {
        assert log[|old(log)|..] == [];
        return;
      }
      var n := 0;
      while n < STAT_COUNT && stats[n].name != ""
        invariant 0 <= n <= STAT_COUNT && forall k | 0 <= k < n :: stats[k].name != ""
        invariant State() == Update(old(State()), stats[..n])
        invariant old(log) <= log && rows == RowsOf(log[|old(log)|..])
      {
        var s := stats[n];
        ghost var x := Sent(s.name, Cached(latest, s.name), s);
        RowsNext(log, |old(log)|, x);
        UpdateNext(old(State()), stats, n);
        if s.name in latest {
          rows := rows + [RowFor(latest[s.name], s)];
        }
        log := log + [x];
        latest := latest[s.name := s];
        n := n + 1;
      }
      PresentPrefix(stats, n);
    }
  }
}

/** Disk rates from /proc/diskstats with a clock of whole seconds (worker/src/monitor/disk_monitor.cpp), in exact
    arithmetic. */
module DiskMonitors {
  import opened Messages
  import opened Reals
  import opened Words
  import opened Sampler

  /** The cumulative counters of a disk. */
  datatype DiskCounters = DiskCounters(
    readCount: nat, writeCount: nat, sectorsRead: nat, sectorsWritten: nat,
    readTimeMs: nat, writeTimeMs: nat, ioTimeMs: nat)

  /** A cached sample with the second it was taken in. */
  datatype DiskSample = DiskSample(counters: DiskCounters, at: int)

  datatype DiskRow = DiskRow(
    readBytesPerSec: real, writeBytesPerSec: real, readIops: real, writeIops: real,
    avgReadLatencyMs: real, avgWriteLatencyMs: real, utilPercent: real)

  const ZERO_ROW := DiskRow(0.0, 0.0, 0.0, 0.0, 0.0, 0.0, 0.0)

  function Div(a: real, b: real): real
    requires b != 0.0
  {
    a / b
  }

  function Latency(time: nat, ios: nat): real {
    if ios > 0 then Div(time as real, ios as real) else 0.0
  }

  /** The rates of a disk: zeros for its first sample, or if no whole second has passed. */
  function RowFor(prev: Option<DiskSample>, curr: DiskSample): DiskRow {
    if prev.None? || curr.at - prev.value.at <= 0 then ZERO_ROW
    else
      var dt, p, c := (curr.at - prev.value.at) as real, prev.value.counters, curr.counters;
      DiskRow(Div(Sub64(c.sectorsRead, p.sectorsRead) as real * 512.0, dt),
              Div(Sub64(c.sectorsWritten, p.sectorsWritten) as real * 512.0, dt),
              Div(Sub64(c.readCount, p.readCount) as real, dt),
              Div(Sub64(c.writeCount, p.writeCount) as real, dt),
              Latency(Sub64(c.readTimeMs, p.readTimeMs), Sub64(c.readCount, p.readCount)),
              Latency(Sub64(c.writeTimeMs, p.writeTimeMs), Sub64(c.writeCount, p.writeCount)),
              Div(Sub64(c.ioTimeMs, p.ioTimeMs) as real, dt * 10.0))
  }

  /** The five rates that are a counter's growth per second, up to a scale. */
  datatype Column = ReadBytes | WriteBytes | ReadIops | WriteIops | Util

  function Counter(c: DiskCounters, f: Column): nat {
    match f
    case ReadBytes => c.sectorsRead
    case WriteBytes => c.sectorsWritten
    case ReadIops => c.readCount
    case WriteIops => c.writeCount
    case Util => c.ioTimeMs
  }

  function RateIn(r: DiskRow, f: Column): real {
    match f
    case ReadBytes => r.readBytesPerSec
    case WriteBytes => r.writeBytesPerSec
    case ReadIops => r.readIops
    case WriteIops => r.writeIops
    case Util => r.utilPercent
  }

  /** Rate units per counter unit: sectors are 512 bytes; a millisecond of I/O per second is a tenth of a percent. */
  function Scale(f: Column): real {
    match f
    case ReadBytes => 512.0
    case WriteBytes => 512.0
    case Util => 0.1
    case _ => 1.0
  }

  lemma DivTimes(a: real, b: real)
    requires b != 0.0
    ensures Times(Div(a, b), b) == a
  {
  }

  lemma UtilTimes(a: real, dt: real)
    requires dt > 0.0
    ensures Times(Div(a, dt * 10.0), dt) == a * 0.1
  {
  }

  /** Each rate times its interval is the 64-bit difference of its own counter ... */
  lemma RateTimesDifference(prev: DiskSample, curr: DiskSample, f: Column)
    requires curr.at > prev.at
    ensures Times(RateIn(RowFor(Some(prev), curr), f), (curr.at - prev.at) as real)
            == Sub64(Counter(curr.counters, f), Counter(prev.counters, f)) as real * Scale(f)
  {
    var dt := (curr.at - prev.at) as real;
    var growth := Sub64(Counter(curr.counters, f), Counter(prev.counters, f));
    match f
    case ReadBytes => DivTimes(growth as real * 512.0, dt);
    case WriteBytes => DivTimes(growth as real * 512.0, dt);
    case ReadIops => DivTimes(growth as real, dt);
    case WriteIops => DivTimes(growth as real, dt);
    case Util => UtilTimes(growth as real, dt);
  }

  /** ... and so its growth, exactly if it did not fall (as when a disk is replaced under its name). */
  lemma RateTimesInterval(prev: DiskSample, curr: DiskSample, f: Column)
    requires curr.at > prev.at
    requires Counter(prev.counters, f) < TWO64 && Counter(curr.counters, f) < TWO64
    ensures Times(RateIn(RowFor(Some(prev), curr), f), (curr.at - prev.at) as real)
            == (Counter(curr.counters, f) - Counter(prev.counters, f)) as real * Scale(f)
            <==> Counter(prev.counters, f) <= Counter(curr.counters, f)
  {
    RateTimesDifference(prev, curr, f);
    var before, after := Counter(prev.counters, f), Counter(curr.counters, f);
    if before <= after {
      assert Sub64(after, before) == after - before;
    } else {
      assert after - before == -1 * TWO64 + (after - before + TWO64);
      assert Sub64(after, before) == after - before + TWO64;
    }
  }

  /** A latency times the completed operations is the time spent on them; without operations it is zero, and so
      that time is shown nowhere. */
  lemma LatencyTimesOperations(prev: DiskSample, curr: DiskSample)
    requires curr.at > prev.at
    ensures var r, p, c := RowFor(Some(prev), curr), prev.counters, curr.counters;
            && Times(r.avgReadLatencyMs, Sub64(c.readCount, p.readCount) as real)
               == (if Sub64(c.readCount, p.readCount) == 0 then 0.0 else Sub64(c.readTimeMs, p.readTimeMs) as real)
            && Times(r.avgWriteLatencyMs, Sub64(c.writeCount, p.writeCount) as real)
               == (if Sub64(c.writeCount, p.writeCount) == 0 then 0.0 else Sub64(c.writeTimeMs, p.writeTimeMs) as real)
  {
  }

  /** A disk's first sample, and one of the same second as the last, is sent with zeros. */
  lemma NoRates(prev: Option<DiskSample>, curr: DiskSample)
    requires prev.None? || curr.at <= prev.value.at
    ensures RowFor(prev, curr) == DiskRow(0.0, 0.0, 0.0, 0.0, 0.0, 0.0, 0.0)
  {
  }

  // ---- Runs ----

  type History = seq<Sent<string, DiskSample>>

  /** At least one whole second passed since the sample compared with. */
  predicate Apart(x: Sent<string, DiskSample>) {
    x.prev.Some? && x.curr.at > x.prev.value.at
  }

  /** A counter's value in the units of its rate. */
  function Amount(s: DiskSample, f: Column): real {
    Times(Counter(s.counters, f) as real, Scale(f))
  }

  /** A rate sent, times its interval. */
  function Shown(x: Sent<string, DiskSample>, f: Column): real {
    if Apart(x) then Times(RateIn(RowFor(x.prev, x.curr), f), (x.curr.at - x.prev.value.at) as real) else 0.0
  }

  /** Growth since a sample of the same second: cached, but in no rate. */
  function Hidden(x: Sent<string, DiskSample>, f: Column): real {
    if x.prev.None? || Apart(x) then 0.0 else Amount(x.curr, f) - Amount(x.prev.value, f)
  }

  function Reported(h: History, f: Column): real {
    if h == [] then 0.0 else Reported(h[..|h| - 1], f) + Shown(h[|h| - 1], f)
  }

  function Unreported(h: History, f: Column): real {
    if h == [] then 0.0 else Unreported(h[..|h| - 1], f) + Hidden(h[|h| - 1], f)
  }

  ghost predicate NeverFalls(h: History, f: Column) {
    && (forall n | 0 <= n < |h| :: Counter(h[n].curr.counters, f) < TWO64)
    && (forall n | 0 < n < |h| :: Counter(h[n - 1].curr.counters, f) <= Counter(h[n].curr.counters, f))
  }

  lemma SpanAccount(x: Sent<string, DiskSample>, f: Column)
    requires x.prev.Some? && Counter(x.prev.value.counters, f) <= Counter(x.curr.counters, f) < TWO64
    ensures Shown(x, f) + Hidden(x, f) == Amount(x.curr, f) - Amount(x.prev.value, f)
    ensures Hidden(x, f) >= 0.0 && (Apart(x) ==> Hidden(x, f) == 0.0)
  {
    var before, after := Counter(x.prev.value.counters, f), Counter(x.curr.counters, f);
    assert (after - before) as real * Scale(f) == Times(after as real, Scale(f)) - Times(before as real, Scale(f));
    if Apart(x) {
      RateTimesInterval(x.prev.value, x.curr, f);
    } else {
      assert (after - before) as real * Scale(f) >= 0.0;
    }
  }

  lemma NeverFallsInit(h: History, f: Column)
    requires h != [] && NeverFalls(h, f)
    ensures NeverFalls(h[..|h| - 1], f)
  {
  }

  /** Over a chained history the rates shown account for exactly the growth of the counter, apart from growth
      between samples taken in the same second. */
  lemma {:induction false} GrowthTelescopes(h: History, f: Column)
    requires h != [] && Chained(h) && NeverFalls(h, f)
    ensures Reported(h, f) + Unreported(h, f) == Amount(h[|h| - 1].curr, f) - Amount(h[0].curr, f)
    ensures Unreported(h, f) >= 0.0
  {
    var init, x := h[..|h| - 1], h[|h| - 1];
    assert x.prev == Previous(h, |h| - 1);
    if init == [] {
      assert Reported(init, f) == 0.0 && Unreported(init, f) == 0.0;
    } else {
      ChainedInit(h, |h| - 1);
      NeverFallsInit(h, f);
      GrowthTelescopes(init, f);
      assert x.prev == Some(h[|h| - 2].curr);
      SpanAccount(x, f);
    }
  }

  /** If a disk was busy no longer than the time that really passed, in milliseconds, its utilisation stays below
      100 (dt + 1) / dt percent, and below 200: the clock is cut to whole seconds. */
  lemma UtilBound(prev: DiskSample, curr: DiskSample, from: nat, to: nat)
    requires prev.at == from / 1000 && curr.at == to / 1000 && prev.at < curr.at
    requires prev.counters.ioTimeMs <= curr.counters.ioTimeMs < TWO64
    requires curr.counters.ioTimeMs - prev.counters.ioTimeMs <= to - from
    ensures var dt := (curr.at - prev.at) as real;
            RowFor(Some(prev), curr).utilPercent < 100.0 * (dt + 1.0) / dt <= 200.0
  {
    var seconds := curr.at - prev.at;
    var growth := Sub64(curr.counters.ioTimeMs, prev.counters.ioTimeMs);
    assert growth == curr.counters.ioTimeMs - prev.counters.ioTimeMs;
    assert to - from < 1000 * (seconds + 1);
    UtilBelow(growth as real, seconds as real);
  }

  lemma UtilBelow(growth: real, dt: real)
    requires dt >= 1.0 && growth < 1000.0 * (dt + 1.0)
    ensures Div(growth, dt * 10.0) < 100.0 * (dt + 1.0) / dt <= 200.0
  {
  }

  /** A utilisation is at most 100 percent exactly if the disk was busy no longer than the whole seconds counted. */
  lemma UtilWithin100ExactlyWhen(prev: DiskSample, curr: DiskSample)
    requires prev.at < curr.at && prev.counters.ioTimeMs <= curr.counters.ioTimeMs < TWO64
    ensures RowFor(Some(prev), curr).utilPercent <= 100.0 <==>
            curr.counters.ioTimeMs - prev.counters.ioTimeMs <= 1000 * (curr.at - prev.at)
  {
    var growth := Sub64(curr.counters.ioTimeMs, prev.counters.ioTimeMs);
    assert growth == curr.counters.ioTimeMs - prev.counters.ioTimeMs;
    AtMost100(growth as real, (curr.at - prev.at) as real);
  }

  lemma AtMost100(growth: real, dt: real)
    requires dt > 0.0
    ensures Div(growth, dt * 10.0) <= 100.0 <==> growth <= 1000.0 * dt
  {
    var u := Div(growth, dt * 10.0);
    assert u * (dt * 10.0) == growth;
    assert (u - 100.0) * (dt * 10.0) == growth - 1000.0 * dt;
  }

  /** For a disk that is busy all the time: exactly if the first sample was taken no earlier within its second than
      the last one within its own.  Times are in milliseconds. */
  lemma BusyWithin100ExactlyWhen(prev: DiskSample, curr: DiskSample, from: nat, to: nat)
    requires prev.at == from / 1000 && curr.at == to / 1000 && prev.at < curr.at
    requires prev.counters.ioTimeMs <= curr.counters.ioTimeMs < TWO64
    requires curr.counters.ioTimeMs - prev.counters.ioTimeMs == to - from
    ensures RowFor(Some(prev), curr).utilPercent <= 100.0 <==> to % 1000 <= from % 1000
  {
    UtilWithin100ExactlyWhen(prev, curr);
    assert to - from == 1000 * (curr.at - prev.at) + to % 1000 - from % 1000;
  }

  /** A disk that is always busy, sampled at the start of a second and at the end of the next. */
  lemma BusyAbove100Example() returns (prev: DiskSample, curr: DiskSample, from: nat, to: nat)
    ensures prev.at == from / 1000 && curr.at == to / 1000 && from % 1000 < to % 1000
    ensures curr.counters.ioTimeMs - prev.counters.ioTimeMs == to - from
    ensures RowFor(Some(prev), curr).utilPercent > 150.0
  {
    from, to := 1000, 2999;
    prev := DiskSample(DiskCounters(0, 0, 0, 0, 0, 0, 0), 1);
    curr := DiskSample(DiskCounters(0, 0, 0, 0, 0, 0, 1999), 2);
    assert Sub64(1999, 0) == 1999;
    assert Div(1999.0, 10.0) == 199.9;
  }

  // ---- The monitor ----

  /** Virtual disks are not reported. */
  predicate Skipped(name: string) {
    "loop" <= name || "ram" <= name
  }

  function Update(c: Cache<string, DiskSample>, lines: seq<(string, DiskCounters)>, now: int)
    : Cache<string, DiskSample>
  {
    if lines == [] then c
    else
      var before, l := Update(c, lines[..|lines| - 1], now), lines[|lines| - 1];
      if Skipped(l.0) then before else Take(before, l.0, DiskSample(l.1, now))
  }

  lemma {:induction false} UpdateConsistent(
    c: Cache<string, DiskSample>, lines: seq<(string, DiskCounters)>, now: int, name: string)
    requires Consistent(c, name)
    ensures Consistent(Update(c, lines, now), name)
  {
    if lines != [] {
      var init, l := lines[..|lines| - 1], lines[|lines| - 1];
      UpdateConsistent(c, init, now, name);
      TakeConsistent(Update(c, init, now), l.0, DiskSample(l.1, now), name);
    }
  }

  /** The lines of disks whose names start neither with "loop" nor with "ram". */
  function Physical(lines: seq<(string, DiskCounters)>): seq<(string, DiskCounters)> {
    if lines == [] then []
    else
      var rest, l := Physical(lines[..|lines| - 1]), lines[|lines| - 1];
      if (|l.0| >= 4 && l.0[..4] == "loop") || (|l.0| >= 3 && l.0[..3] == "ram") then rest else rest + [l]
  }

  lemma SkippedSays(name: string)
    ensures Skipped(name) <==> (|name| >= 4 && name[..4] == "loop") || (|name| >= 3 && name[..3] == "ram")
  {
    assert |"loop"| == 4 && |"ram"| == 3;
  }

  /** The monitor after a run of calls. */
  function Calls(readings: seq<(int, seq<(string, DiskCounters)>)>): Cache<string, DiskSample> {
    if readings == [] then Cache(map[], [])
    else
      var r := readings[|readings| - 1];
      Update(Calls(readings[..|readings| - 1]), r.1, r.0)
  }

  lemma {:induction false} CallsConsistent(readings: seq<(int, seq<(string, DiskCounters)>)>, name: string)
    ensures Consistent(Calls(readings), name)
  {
    if readings != [] {
      var init, r := readings[..|readings| - 1], readings[|readings| - 1];
      CallsConsistent(init, name);
      UpdateConsistent(Calls(init), r.1, r.0, name);
    }
  }

  /** Over any run of calls, for every disk and every rate: the rates sent account for exactly the growth of the
      counter, apart from growth between samples taken in the same second. */
  lemma RunAccountsForGrowth(readings: seq<(int, seq<(string, DiskCounters)>)>, name: string, f: Column)
    ensures var h := HistoryOf(Calls(readings).log, name);
            h != [] && NeverFalls(h, f) ==>
              && Reported(h, f) + Unreported(h, f) == Amount(h[|h| - 1].curr, f) - Amount(h[0].curr, f)
              && Unreported(h, f) >= 0.0
  {
    CallsConsistent(readings, name);
    var h := HistoryOf(Calls(readings).log, name);
    if h != [] && NeverFalls(h, f) {
      GrowthTelescopes(h, f);
    }
  }

  class DiskMonitor {
    var latest: map<string, DiskSample>
    ghost var log: seq<Sent<string, DiskSample>>

    ghost function State(): Cache<string, DiskSample>
      reads this
    {
      Cache(latest, log)
    }

    constructor ()
      ensures latest == map[] && log == []
    {
      latest, log := map[], [];
    }

    /** One pass over the lines of /proc/diskstats: one row per line of a disk that is not virtual, for its counters
        at this time. */
    method UpdateOnce(now: int, lines: seq<(string, DiskCounters)>) returns (rows: seq<(string, DiskRow)>)
      modifies this
      ensures State() == Update(old(State()), lines, now)
      ensures old(log) <= log && |rows| == |log| - |old(log)|
      ensures forall k | 0 <= k < |rows| ::
                var x := log[|old(log)| + k];
                rows[k] == (x.key, RowFor(x.prev, x.curr))
      ensures |rows| == |Physical(lines)|
      ensures forall k | 0 <= k < |rows| ::
                rows[k].0 == Physical(lines)[k].0
                && log[|old(log)| + k].curr == DiskSample(Physical(lines)[k].1, now)
    {
      rows := [];
      var n := 0;
      while n < |lines|
        invariant 0 <= n <= |lines|
        invariant State() == Update(old(State()), lines[..n], now)
        invariant old(log) <= log && |rows| == |log| - |old(log)|
        invariant forall k | 0 <= k < |rows| ::
                    rows[k] == (log[|old(log)| + k].key, RowFor(log[|old(log)| + k].prev, log[|old(log)| + k].curr))
        invariant |rows| == |Physical(lines[..n])|
        invariant forall k | 0 <= k < |rows| ::
                    rows[k].0 == Physical(lines[..n])[k].0
                    && log[|old(log)| + k].curr == DiskSample(Physical(lines[..n])[k].1, now)
      {
        var name, curr := lines[n].0, DiskSample(lines[n].1, now);
        assert lines[..n + 1][..n] == lines[..n];
        SkippedSays(name);
        n := n + 1;
        if Skipped(name) {
          continue;
        }
        rows := rows + [(name, RowFor(Cached(latest, name), curr))];
        log := log + [Sent(name, Cached(latest, name), curr)];
        latest := latest[name := curr];
      }
      assert lines[..n] == lines;
    }
  }
}

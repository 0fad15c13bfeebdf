/** The user side of traffic counting (worker/src/monitor/net_ebpf_monitor.cpp): turning the map's counters into
    integer per-second rates, one scan of the map after another. */
module NetEbpfMonitors {
  import opened Messages
  import opened Sampler
  import opened TrafficMap
  import opened Words

  const TWO63: nat := 0x8000_0000_0000_0000

  /** Nanoseconds in a millisecond. */
  const MILLI := 1_000_000

  /** The signed reading of a 64-bit pattern. */
  function ToInt64(n: int): int {
    var u := n % TWO64;
    if u < TWO63 then u else u - TWO64
  }

  /** C++ integer division. */
  function TruncDiv(a: int, b: int): int
    requires b > 0
  {
    if a >= 0 then a / b else -((-a) / b)
  }

  /** duration_cast to milliseconds of a span of nanoseconds. */
  function Millis(d: int): int {
    TruncDiv(d, MILLI)
  }

  /** The rate computed for one counter over a span of dur > 0 milliseconds. */
  function RateOver(now: nat, prev: nat, dur: int): int
    requires dur > 0
  {
    var diff := ToInt64(now - prev);
    var used := if diff < 0 then ToInt64(now) else diff;
    TruncDiv(ToInt64(used * 1000), dur)
  }

  /** What the counter is taken to have grown by: after a reset, its new value. */
  function Growth(now: nat, prev: nat): nat {
    if now >= prev then now - prev else now
  }

  lemma ToInt64Small(n: int)
    requires -(TWO63 as int) <= n < TWO63
    ensures ToInt64(n) == n
  {
  }

  lemma TruncDivRemainder(a: nat, d: int)
    requires d > 0
    ensures TruncDiv(a, d) >= 0 && 0 <= a - TruncDiv(a, d) * d <= d - 1
  {
  }

  /** One rate, multiplied back by its interval, misses the counter's growth by less than the interval; it is never
      negative, also across a counter reset. */
  lemma RateExact(now: nat, prev: nat, dur: int)
    requires dur > 0 && now < TWO63 && prev < TWO63 && 1000 * Growth(now, prev) < TWO63
    ensures RateOver(now, prev, dur) >= 0
    ensures 0 <= 1000 * Growth(now, prev) - RateOver(now, prev, dur) * dur <= dur - 1
  {
    ToInt64Small(now - prev);
    ToInt64Small(now);
    ToInt64Small(Growth(now, prev) * 1000);
    TruncDivRemainder(Growth(now, prev) * 1000, dur);
  }

  /** NetStatCache. */
  datatype CacheEntry = CacheEntry(stats: Counters, at: int)

  type History = seq<Sent<nat, CacheEntry>>

  datatype NetRates = NetRates(rcv: int, rcvPackets: int, send: int, sendPackets: int)

  datatype NetRow = NetRow(name: string, rates: NetRates)

  const NO_RATES := NetRates(0, 0, 0, 0)

  function RateIn(r: NetRates, f: Field): int {
    match f
    case Bytes(rx) => if rx then r.rcv else r.send
    case Packets(rx) => if rx then r.rcvPackets else r.sendPackets
  }

  /** The rates sent for an interface, given the cached sample if there is one.  A span that rounds to no millisecond
      leaves them unset, that is zero. */
  function RatesFor(prev: Option<CacheEntry>, curr: CacheEntry): NetRates {
    if prev.None? then NO_RATES
    else
      var o, c, dur := prev.value.stats, curr.stats, Millis(curr.at - prev.value.at);
      if dur > 0 then
        NetRates(RateOver(c.rcvBytes, o.rcvBytes, dur), RateOver(c.rcvPackets, o.rcvPackets, dur),
                 RateOver(c.sndBytes, o.sndBytes, dur), RateOver(c.sndPackets, o.sndPackets, dur))
      else NO_RATES
  }

  /** Each rate is computed from its own counter. */
  lemma RateColumns(prev: CacheEntry, curr: CacheEntry, f: Field)
    ensures RateIn(RatesFor(Some(prev), curr), f) ==
            var dur := Millis(curr.at - prev.at);
            if dur > 0 then RateOver(Value(curr.stats, f), Value(prev.stats, f), dur) else 0
  {
  }

  /** One key met while walking the map: its counters (None if it was deleted before the lookup) and what
      if_indextoname would answer for it ("" on failure). */
  datatype Reading = Reading(ifindex: nat, stats: Option<Counters>, kernelName: string)

  function RatesOf(x: Sent<nat, CacheEntry>): NetRates {
    RatesFor(x.prev, x.curr)
  }

  datatype Monitor = Monitor(cache: Cache<nat, CacheEntry>, names: map<nat, string>)

  /** GetIfName: the first name the kernel gives is kept. */
  function NameOf(names: map<nat, string>, r: Reading): string {
    if r.ifindex in names then names[r.ifindex] else r.kernelName
  }

  function Remember(names: map<nat, string>, r: Reading): map<nat, string> {
    if r.ifindex !in names && r.kernelName != "" then names[r.ifindex := r.kernelName] else names
  }

  function Visit(m: Monitor, r: Reading, now: int): Monitor {
    if r.stats.None? then m
    else
      var name := NameOf(m.names, r);
      var names := Remember(m.names, r);
      if name == "" || name == "lo" then m.(names := names)
      else Monitor(Take(m.cache, r.ifindex, CacheEntry(r.stats.value, now)), names)
  }

  /** One UpdateOnce at time now over the readings of a scan. */
  function Scan(m: Monitor, rs: seq<Reading>, now: int): Monitor {
    if rs == [] then m else Visit(Scan(m, rs[..|rs| - 1], now), rs[|rs| - 1], now)
  }

  /** Any number of scans. */
  function Scans(m: Monitor, scans: seq<(seq<Reading>, int)>): Monitor {
    if scans == [] then m
    else
      var s := scans[|scans| - 1];
      Scan(Scans(m, scans[..|scans| - 1]), s.0, s.1)
  }

  const UNUSED := Monitor(Cache(map[], []), map[])

  // ---- Every interface is sampled on its own ----

  lemma {:induction false} ScanConsistent(m: Monitor, rs: seq<Reading>, now: int, i: nat)
    requires Consistent(m.cache, i)
    ensures Consistent(Scan(m, rs, now).cache, i)
  {
    if rs != [] {
      ScanConsistent(m, rs[..|rs| - 1], now, i);
      var c, r := Scan(m, rs[..|rs| - 1], now), rs[|rs| - 1];
      if r.stats.Some? {
        TakeConsistent(c.cache, r.ifindex, CacheEntry(r.stats.value, now), i);
      }
    }
  }

  /** Over any run of scans, whatever other interfaces do in between. */
  lemma {:induction false} ScansConsistent(scans: seq<(seq<Reading>, int)>, i: nat)
    ensures Consistent(Scans(UNUSED, scans).cache, i)
  {
    if scans != [] {
      var init, s := scans[..|scans| - 1], scans[|scans| - 1];
      ScansConsistent(init, i);
      ScanConsistent(Scans(UNUSED, init), s.0, s.1, i);
    }
  }

  // ---- Rates account for the traffic ----

  /** 1000 times the growth of counter f over a history, as the monitor sees it. */
  function TotalGrowth(h: History, f: Field): nat {
    if |h| < 2 then 0
    else TotalGrowth(h[..|h| - 1], f) + Growth(Value(h[|h| - 1].curr.stats, f), Value(h[|h| - 2].curr.stats, f))
  }

  /** The part of it that falls into spans too short to be a millisecond: no rate ever shows it. */
  function Unreported(h: History, f: Field): nat {
    if |h| < 2 then 0
    else
      Unreported(h[..|h| - 1], f)
      + (if Millis(h[|h| - 1].curr.at - h[|h| - 2].curr.at) > 0 then 0
         else Growth(Value(h[|h| - 1].curr.stats, f), Value(h[|h| - 2].curr.stats, f)))
  }

  /** The rates sent, each multiplied by its span in milliseconds. */
  function Reported(h: History, f: Field): int {
    if |h| < 2 then 0
    else
      var dur := Millis(h[|h| - 1].curr.at - h[|h| - 2].curr.at);
      Reported(h[..|h| - 1], f) + (if dur > 0 then RateIn(RatesOf(h[|h| - 1]), f) * dur else 0)
  }

  /** The rounding each span allows, in thousandths of a unit. */
  function Slack(h: History): int {
    if |h| < 2 then 0
    else
      var dur := Millis(h[|h| - 1].curr.at - h[|h| - 2].curr.at);
      Slack(h[..|h| - 1]) + (if dur > 0 then dur - 1 else 0)
  }

  ghost predicate InRange(h: History, f: Field) {
    && (forall k | 0 <= k < |h| :: Value(h[k].curr.stats, f) < TWO63)
    && (forall k | 0 < k < |h| :: 1000 * Growth(Value(h[k].curr.stats, f), Value(h[k - 1].curr.stats, f)) < TWO63)
  }

  /** The counter never fell from one sample to the next. */
  ghost predicate NoReset(h: History, f: Field) {
    forall k | 0 < k < |h| :: Value(h[k - 1].curr.stats, f) <= Value(h[k].curr.stats, f)
  }

  /** Samples are at least a millisecond apart. */
  ghost predicate Spaced(h: History) {
    forall k | 0 < k < |h| :: Millis(h[k].curr.at - h[k - 1].curr.at) > 0
  }

  /** One more span. */
  lemma SpanAccount(h: History, f: Field)
    requires |h| >= 2 && Chained(h) && InRange(h, f)
    ensures var n := |h| - 1;
            var dur, rate := Millis(h[n].curr.at - h[n - 1].curr.at), RateIn(RatesOf(h[n]), f);
            var g := Growth(Value(h[n].curr.stats, f), Value(h[n - 1].curr.stats, f));
            && rate >= 0
            && (dur > 0 ==> 0 <= 1000 * g - rate * dur <= dur - 1)
  {
    var n := |h| - 1;
    var prev, curr := h[n - 1].curr, h[n].curr;
    assert Previous(h, n) == Some(prev);
    RateColumns(prev, curr, f);
    if Millis(curr.at - prev.at) > 0 {
      RateExact(Value(curr.stats, f), Value(prev.stats, f), Millis(curr.at - prev.at));
    }
  }

  lemma {:induction false} NeverNegative(h: History, f: Field, k: nat)
    requires Chained(h) && InRange(h, f) && k < |h|
    ensures RateIn(RatesOf(h[k]), f) >= 0
  {
    if k > 0 {
      ChainedInit(h, k + 1);
      SpanAccount(h[..k + 1], f);
    } else {
      assert Previous(h, 0) == None;
    }
  }

  lemma {:induction false} RatesAccount(h: History, f: Field)
    requires Chained(h) && InRange(h, f)
    ensures 0 <= 1000 * (TotalGrowth(h, f) - Unreported(h, f)) - Reported(h, f) <= Slack(h)
  {
    if |h| >= 2 {
      ChainedInit(h, |h| - 1);
      RatesAccount(h[..|h| - 1], f);
      SpanAccount(h, f);
    }
  }

  /** Without a reset the growth seen is the counter's true growth. */
  lemma {:induction false} GrowthTelescopes(h: History, f: Field)
    requires h != []
    requires NoReset(h, f)
    ensures TotalGrowth(h, f) == Value(h[|h| - 1].curr.stats, f) - Value(h[0].curr.stats, f)
    ensures Value(h[0].curr.stats, f) <= Value(h[|h| - 1].curr.stats, f)
  {
    if |h| >= 2 {
      var init := h[..|h| - 1];
      assert forall k | 0 <= k < |init| :: init[k] == h[k];
      GrowthTelescopes(init, f);
    }
  }

  lemma {:induction false} NothingUnreported(h: History, f: Field)
    requires Spaced(h)
    ensures Unreported(h, f) == 0
  {
    if |h| >= 2 {
      var init := h[..|h| - 1];
      assert forall k | 0 <= k < |init| :: init[k] == h[k];
      NothingUnreported(init, f);
    }
  }

  /** For any run of scans and any interface: no rate is negative, resets included; and without resets the rates
      times their spans miss 1000 times the true growth by the rounding slack alone, apart from growth that fell
      into spans of less than a millisecond, of which there is none if scans are a millisecond apart. */
  lemma RatesAccountForTraffic(scans: seq<(seq<Reading>, int)>, i: nat, f: Field)
    requires InRange(HistoryOf(Scans(UNUSED, scans).cache.log, i), f)
    ensures var h := HistoryOf(Scans(UNUSED, scans).cache.log, i);
            && (forall k | 0 <= k < |h| :: RateIn(RatesOf(h[k]), f) >= 0)
            && 0 <= 1000 * (TotalGrowth(h, f) - Unreported(h, f)) - Reported(h, f) <= Slack(h)
            && (h != [] && NoReset(h, f) ==>
                  TotalGrowth(h, f) == Value(h[|h| - 1].curr.stats, f) - Value(h[0].curr.stats, f))
            && (Spaced(h) ==> Unreported(h, f) == 0)
  {
    var h := HistoryOf(Scans(UNUSED, scans).cache.log, i);
    ScansConsistent(scans, i);
    RatesAccount(h, f);
    forall k | 0 <= k < |h|
      ensures RateIn(RatesOf(h[k]), f) >= 0
    {
      NeverNegative(h, f, k);
    }
    if h != [] && NoReset(h, f) {
      GrowthTelescopes(h, f);
    }
    if Spaced(h) {
      NothingUnreported(h, f);
    }
  }

  /** A rate is zero exactly if the span is less than a millisecond or so long that the growth is less than one per
      second; the growth is cached all the same, and so in no rate.  In any span of at least a millisecond a rate is
      off by less than the span allows, resets included. */
  lemma NothingReportedExactlyWhen(prev: CacheEntry, curr: CacheEntry, f: Field)
    requires prev.at <= curr.at && Value(prev.stats, f) < TWO63 && Value(curr.stats, f) < TWO63
    requires 1000 * Growth(Value(curr.stats, f), Value(prev.stats, f)) < TWO63
    ensures var r, dur := RateIn(RatesFor(Some(prev), curr), f), Millis(curr.at - prev.at);
            var g := Growth(Value(curr.stats, f), Value(prev.stats, f));
            && (dur == 0 <==> curr.at - prev.at < 1_000_000)
            && (r == 0 <==> dur == 0 || 1000 * g < dur)
            && (dur > 0 ==> r * dur > 1000 * g - dur)
  {
    RateColumns(prev, curr, f);
    var r, dur := RateIn(RatesFor(Some(prev), curr), f), Millis(curr.at - prev.at);
    if dur > 0 {
      RateExact(Value(curr.stats, f), Value(prev.stats, f), dur);
      ZeroExactlyWhen(r, dur, 1000 * Growth(Value(curr.stats, f), Value(prev.stats, f)));
    }
  }

  lemma ZeroExactlyWhen(r: nat, dur: nat, n: nat)
    requires dur > 0 && 0 <= n - r * dur <= dur - 1
    ensures r == 0 <==> n < dur
    ensures r * dur > n - dur
  {
    if r > 0 {
      assert r * dur == dur + (r - 1) * dur;
    }
  }

  // ---- The class ----

  /** The row sent for x: under the name of its interface, which is not the loopback. */
  predicate IsRow(row: NetRow, x: Sent<nat, CacheEntry>, names: map<nat, string>) {
    && x.key in names && row.name == names[x.key] && row.name != "" && row.name != "lo"
    && row.rates == RatesOf(x)
  }

  /** The first sample of an interface has no rates. */
  lemma FirstRow(row: NetRow, x: Sent<nat, CacheEntry>, names: map<nat, string>)
    requires IsRow(row, x, names) && x.prev.None?
    ensures row.rates == NetRates(0, 0, 0, 0)
  {
  }

  class NetEbpfMonitor {
    var cache: map<nat, CacheEntry>
    var names: map<nat, string>
    var loaded: bool
    ghost var log: History

    ghost function State(): Monitor
      reads this
    {
      Monitor(Cache(cache, log), names)
    }

    constructor (initialised: bool)
      ensures State() == UNUSED && loaded == initialised
    {
      cache, names, log, loaded := map[], map[], [], initialised;
    }

    /** Walks the map once; the rows are what is added to the message, under the names that the monitor keeps. */
    method UpdateOnce(now: int, readings: seq<Reading>) returns (rows: seq<NetRow>)
      modifies this`cache, this`names, this`log
      ensures !loaded ==> rows == [] && State() == old(State())
      ensures loaded ==> State() == Scan(old(State()), readings, now)
      ensures old(log) <= log && |rows| == |log| - |old(log)|
      ensures forall i | i in old(names) :: i in names && names[i] == old(names)[i]
      ensures forall k | 0 <= k < |rows| :: IsRow(rows[k], log[|old(log)| + k], names)
      ensures forall k | 0 <= k < |rows| && log[|old(log)| + k].prev.None? :: rows[k].rates == NetRates(0, 0, 0, 0)
    {
      rows := [];
      if !loaded {
        return;
      }
      var n := 0;
      while n < |readings|
        invariant 0 <= n <= |readings|
        invariant State() == Scan(old(State()), readings[..n], now)
        invariant old(log) <= log && |rows| == |log| - |old(log)|
        invariant forall i | i in old(names) :: i in names && names[i] == old(names)[i]
        invariant forall k | 0 <= k < |rows| :: IsRow(rows[k], log[|old(log)| + k], names)
      {
        var r := readings[n];
        assert readings[..n + 1][..n] == readings[..n];
        n := n + 1;
        if r.stats.None? {
          continue;
        }
        var name := NameOf(names, r);
        names := Remember(names, r);
        if name == "" || name == "lo" {
          continue;
        }
        var curr := CacheEntry(r.stats.value, now);
        rows := rows + [NetRow(name, RatesFor(Cached(cache, r.ifindex), curr))];
        log := log + [Sent(r.ifindex, Cached(cache, r.ifindex), curr)];
        cache := cache[r.ifindex := curr];
      }
      assert readings[..n] == readings;
      forall k | 0 <= k < |rows| && log[|old(log)| + k].prev.None?
        ensures rows[k].rates == NetRates(0, 0, 0, 0)
      {
        FirstRow(rows[k], log[|old(log)| + k], names);
      }
    }
  }
}

/** The kernel side of traffic counting (worker/src/ebpf/net_stats.bpf.c): any number of CPUs run update_stats over
    one hash map of counter cells, each lookup, map update and atomic add being one step.

    A map update installs a fresh cell for its key; executions that looked up an older cell keep adding to it.  All
    cells ever installed stay visible here, so that nothing an execution counted is forgotten. */
module TrafficMap {
  import opened Messages
  import opened Words

  const MAX_ENTRIES: nat := 64

  /** struct net_stats. */
  datatype Counters = Counters(rcvBytes: nat, rcvPackets: nat, sndBytes: nat, sndPackets: nat)

  /** A counter cell, with the interface it was installed for and the execution that installed it. */
  datatype Cell = Cell(ifindex: nat, installer: nat, counters: Counters)

  datatype Pc =
    | Entered                     // before bpf_map_lookup_elem
    | Missed                      // the lookup found nothing
    | Hit(cell: nat)              // before the atomic add of the byte count
    | Half(cell: nat)             // before the atomic add of the packet count
    | Done(at: Option<nat>)       // counted in this cell, or dropped by a failed map update

  datatype Exec = Exec(ifindex: nat, len: nat, rx: bool, pc: Pc)

  datatype State = State(execs: seq<Exec>, cells: seq<Cell>, live: map<nat, nat>)

  datatype Action =
    | Packet(ifindex: nat, len: nat, rx: bool)    // tc_ingress (rx) or tc_egress
    | Lookup(e: nat)
    | Update(e: nat)
    | AddBytes(e: nat)
    | AddPackets(e: nat)

  /** Indices recorded by executions and by the map are valid and belong to the right interface. */
  ghost predicate Fits(s: State) {
    && (forall e: nat | e < |s.execs| :: ExecFits(s.cells, s.execs[e]))
    && (forall i | i in s.live :: s.live[i] < |s.cells| && s.cells[s.live[i]].ifindex == i)
  }

  predicate ExecFits(cells: seq<Cell>, x: Exec) {
    Target(x.pc).Some? ==> Target(x.pc).value < |cells| && cells[Target(x.pc).value].ifindex == x.ifindex
  }

  /** The cell an execution counts in, once that is decided. */
  function Target(pc: Pc): Option<nat> {
    match pc
    case Hit(k) => Some(k)
    case Half(k) => Some(k)
    case Done(at) => at
    case _ => None
  }

  predicate Enabled(s: State, a: Action) {
    match a
    case Packet(_, _, _) => true
    case Lookup(e) => e < |s.execs| && s.execs[e].pc.Entered?
    case Update(e) => e < |s.execs| && s.execs[e].pc.Missed?
    case AddBytes(e) => e < |s.execs| && s.execs[e].pc.Hit?
    case AddPackets(e) => e < |s.execs| && s.execs[e].pc.Half?
  }

  function Bump(c: Counters, rx: bool, bytes: nat, packets: nat): Counters {
    if rx then
      c.(rcvBytes := Wrap(c.rcvBytes + bytes), rcvPackets := Wrap(c.rcvPackets + packets))
    else
      c.(sndBytes := Wrap(c.sndBytes + bytes), sndPackets := Wrap(c.sndPackets + packets))
  }

  function AddTo(cells: seq<Cell>, k: nat, rx: bool, bytes: nat, packets: nat): seq<Cell>
    requires k < |cells|
  {
    cells[k := cells[k].(counters := Bump(cells[k].counters, rx, bytes, packets))]
  }

  const ZERO := Counters(0, 0, 0, 0)

  /** The map has no room for this key. */
  predicate Full(s: State, ifindex: nat) {
    ifindex !in s.live && |s.live| >= MAX_ENTRIES
  }

  /** bpf_map_update_elem with the execution's own packet in a fresh cell. */
  ghost function Install(s: State, e: nat): (t: State)
    requires Fits(s) && e < |s.execs|
    ensures Fits(t)
  {
    var x := s.execs[e];
    var cell := Cell(x.ifindex, e, Bump(ZERO, x.rx, x.len, 1));
    State(s.execs[e := x.(pc := Done(Some(|s.cells|)))], s.cells + [cell], s.live[x.ifindex := |s.cells|])
  }

  ghost function Next(s: State, a: Action): (t: State)
    requires Fits(s) && Enabled(s, a)
    ensures Fits(t)
  {
    match a
    case Packet(ifindex, len, rx) =>
      if ifindex == 0 || len == 0 then s
      else s.(execs := s.execs + [Exec(ifindex, len, rx, Entered)])
    case Lookup(e) =>
      var x := s.execs[e];
      s.(execs := s.execs[e := x.(pc := if x.ifindex in s.live then Hit(s.live[x.ifindex]) else Missed)])
    case Update(e) =>
      if Full(s, s.execs[e].ifindex) then s.(execs := s.execs[e := s.execs[e].(pc := Done(None))]) else Install(s, e)
    case AddBytes(e) =>
      var x := s.execs[e];
      s.(execs := s.execs[e := x.(pc := Half(x.pc.cell))], cells := AddTo(s.cells, x.pc.cell, x.rx, x.len, 0))
    case AddPackets(e) =>
      var x := s.execs[e];
      s.(execs := s.execs[e := x.(pc := Done(Some(x.pc.cell)))], cells := AddTo(s.cells, x.pc.cell, x.rx, 0, 1))
  }

  ghost predicate Leads(s: State, acts: seq<Action>, t: State)
    requires Fits(s)
    decreases |acts|
  {
    if acts == [] then t == s
    else Enabled(s, acts[0]) && Leads(Next(s, acts[0]), acts[1..], t)
  }

  const EMPTY := State([], [], map[])

  // ---- Accounting, cell by cell ----

  /** One of the four counters of a cell. */
  datatype Field = Bytes(rx: bool) | Packets(rx: bool)

  function Value(c: Counters, f: Field): nat {
    match f
    case Bytes(rx) => if rx then c.rcvBytes else c.sndBytes
    case Packets(rx) => if rx then c.rcvPackets else c.sndPackets
  }

  /** What an execution has added to this counter of its cell so far. */
  function Amount(x: Exec, f: Field): nat {
    if x.rx != f.rx then 0
    else if f.Bytes? then (if x.pc.Half? || x.pc.Done? then x.len else 0)
    else if x.pc.Done? then 1 else 0
  }

  function Credit(x: Exec, k: nat, f: Field): nat {
    if Target(x.pc) == Some(k) then Amount(x, f) else 0
  }

  /** What executions have put into this counter of cell k. */
  function Sum(execs: seq<Exec>, k: nat, f: Field): nat {
    if execs == [] then 0
    else Sum(execs[..|execs| - 1], k, f) + Credit(execs[|execs| - 1], k, f)
  }

  lemma {:induction false} SumUpdate(execs: seq<Exec>, e: nat, x: Exec, k: nat, f: Field)
    requires e < |execs|
    ensures Sum(execs[e := x], k, f) == Sum(execs, k, f) - Credit(execs[e], k, f) + Credit(x, k, f)
  {
    var n := |execs| - 1;
    if e == n {
      assert execs[e := x][..n] == execs[..n];
    } else {
      SumUpdate(execs[..n], e, x, k, f);
      assert execs[e := x][..n] == execs[..n][e := x];
    }
  }

  lemma SumSnoc(execs: seq<Exec>, x: Exec, k: nat, f: Field)
    ensures Sum(execs + [x], k, f) == Sum(execs, k, f) + Credit(x, k, f)
  {
  }

  /** Every counter of cell k shows exactly what executions have put into it. */
  ghost predicate Counted(s: State, k: nat, f: Field)
    requires k < |s.cells|
  {
    Value(s.cells[k].counters, f) == Wrap(Sum(s.execs, k, f))
  }

  /** A cell that is not installed yet has received nothing. */
  lemma {:induction false} NoCreditAhead(cells: seq<Cell>, execs: seq<Exec>, k: nat, f: Field)
    requires k >= |cells| && forall x | x in execs :: ExecFits(cells, x)
    ensures Sum(execs, k, f) == 0
  {
    if execs != [] {
      assert forall x | x in execs[..|execs| - 1] :: x in execs;
      NoCreditAhead(cells, execs[..|execs| - 1], k, f);
      assert execs[|execs| - 1] in execs;
    }
  }

  lemma BumpValue(c: Counters, rx: bool, bytes: nat, packets: nat, f: Field, total: nat)
    requires Value(c, f) == Wrap(total)
    ensures Value(Bump(c, rx, bytes, packets), f) ==
            Wrap(total + if f.rx != rx then 0 else if f.Bytes? then bytes else packets)
  {
    WrapAdd(total, bytes);
    WrapAdd(total, packets);
  }

  /** What a map update does to its execution and to cell k. */
  lemma InstallStep(s: State, e: nat, k: nat, f: Field)
    requires Fits(s) && Enabled(s, Update(e)) && k < |Next(s, Update(e)).cells|
    ensures var t, x := Next(s, Update(e)), s.execs[e];
            && |t.execs| == |s.execs| && t.execs == s.execs[e := t.execs[e]] && k <= |s.cells|
            && (k < |s.cells| ==> t.cells[k].counters == s.cells[k].counters)
            && (k == |s.cells| ==> t.cells[k].counters == Bump(ZERO, x.rx, x.len, 1))
            && Credit(x, k, f) == 0
            && Credit(t.execs[e], k, f)
               == (if k < |s.cells| || x.rx != f.rx then 0 else if f.Bytes? then x.len else 1)
  {
  }

  lemma InstallCounted(s: State, e: nat, k: nat, f: Field)
    requires Fits(s) && Enabled(s, Update(e)) && k < |Next(s, Update(e)).cells|
    requires k < |s.cells| ==> Counted(s, k, f)
    ensures Counted(Next(s, Update(e)), k, f)
  {
    var t := Next(s, Update(e));
    InstallStep(s, e, k, f);
    SumUpdate(s.execs, e, t.execs[e], k, f);
    if k == |s.cells| {
      assert forall x | x in s.execs :: ExecFits(s.cells, x);
      NoCreditAhead(s.cells, s.execs, k, f);
      BumpValue(ZERO, s.execs[e].rx, s.execs[e].len, 1, f, 0);
    }
  }

  /** What an atomic add does to its execution and to cell k. */
  lemma AddStep(s: State, a: Action, k: nat, f: Field)
    requires Fits(s) && Enabled(s, a) && (a.AddBytes? || a.AddPackets?) && k < |s.cells|
    ensures var t, x := Next(s, a), s.execs[a.e];
            var bytes, packets := if a.AddBytes? then x.len else 0, if a.AddBytes? then 0 else 1;
            && |t.execs| == |s.execs| && t.execs == s.execs[a.e := t.execs[a.e]] && |t.cells| == |s.cells|
            && t.cells[k].counters ==
               (if x.pc.cell == k then Bump(s.cells[k].counters, x.rx, bytes, packets) else s.cells[k].counters)
            && Credit(t.execs[a.e], k, f) == Credit(x, k, f)
               + if x.pc.cell != k || x.rx != f.rx then 0 else if f.Bytes? then bytes else packets
  {
  }

  lemma AddCounted(s: State, a: Action, k: nat, f: Field)
    requires Fits(s) && Enabled(s, a) && (a.AddBytes? || a.AddPackets?) && k < |s.cells| && Counted(s, k, f)
    ensures Counted(Next(s, a), k, f)
  {
    var t, x := Next(s, a), s.execs[a.e];
    AddStep(s, a, k, f);
    SumUpdate(s.execs, a.e, t.execs[a.e], k, f);
    if x.pc.cell == k {
      BumpValue(s.cells[k].counters, x.rx, if a.AddBytes? then x.len else 0, if a.AddBytes? then 0 else 1, f,
                Sum(s.execs, k, f));
    }
  }

  lemma CountedStep(s: State, a: Action, k: nat, f: Field)
    requires Fits(s) && Enabled(s, a) && k < |Next(s, a).cells|
    requires k < |s.cells| ==> Counted(s, k, f)
    ensures Counted(Next(s, a), k, f)
  {
    match a
    case Packet(ifindex, len, rx) => SumSnoc(s.execs, Exec(ifindex, len, rx, Entered), k, f);
    case Lookup(e) => SumUpdate(s.execs, e, Next(s, a).execs[e], k, f);
    case Update(e) => InstallCounted(s, e, k, f);
    case AddBytes(e) => AddCounted(s, a, k, f);
    case AddPackets(e) => AddCounted(s, a, k, f);
  }

  ghost predicate AllCounted(s: State) {
    forall k: nat, f | k < |s.cells| :: Counted(s, k, f)
  }

  lemma {:induction false} AlwaysCounted(s: State, acts: seq<Action>, t: State)
    requires Fits(s) && AllCounted(s) && Leads(s, acts, t)
    ensures Fits(t) && AllCounted(t)
    decreases |acts|
  {
    if acts != [] {
      forall k: nat, f | k < |Next(s, acts[0]).cells|
        ensures Counted(Next(s, acts[0]), k, f)
      {
        CountedStep(s, acts[0], k, f);
      }
      AlwaysCounted(Next(s, acts[0]), acts[1..], t);
    }
  }

  // ---- Conservation per interface ----

  function Share(x: Exec, i: nat, f: Field): nat {
    if x.ifindex == i && Target(x.pc).Some? then Amount(x, f) else 0
  }

  /** What executions for an interface have counted so far, wherever they put it. */
  function Traffic(execs: seq<Exec>, i: nat, f: Field): nat {
    if execs == [] then 0 else Traffic(execs[..|execs| - 1], i, f) + Share(execs[|execs| - 1], i, f)
  }

  /** The sum, over the first n cells, of what executions put into those of the interface. */
  function Spread(cells: seq<Cell>, n: nat, execs: seq<Exec>, i: nat, f: Field): nat
    requires n <= |cells|
  {
    if n == 0 then 0
    else Spread(cells, n - 1, execs, i, f) + (if cells[n - 1].ifindex == i then Sum(execs, n - 1, f) else 0)
  }

  lemma {:induction false} SpreadSnoc(cells: seq<Cell>, n: nat, execs: seq<Exec>, x: Exec, i: nat, f: Field)
    requires n <= |cells| && ExecFits(cells, x)
    ensures Spread(cells, n, execs + [x], i, f) == Spread(cells, n, execs, i, f)
              + (if Target(x.pc).Some? && Target(x.pc).value < n then Share(x, i, f) else 0)
  {
    if n > 0 {
      var k: nat :| k + 1 == n;
      SpreadSnoc(cells, k, execs, x, i, f);
      SumSnoc(execs, x, k, f);
    }
  }

  lemma {:induction false} SpreadNothing(cells: seq<Cell>, n: nat, i: nat, f: Field)
    requires n <= |cells|
    ensures Spread(cells, n, [], i, f) == 0
  {
    if n > 0 {
      SpreadNothing(cells, n - 1, i, f);
    }
  }

  lemma {:induction false} SpreadIsTraffic(cells: seq<Cell>, execs: seq<Exec>, i: nat, f: Field)
    requires forall x | x in execs :: ExecFits(cells, x)
    ensures Spread(cells, |cells|, execs, i, f) == Traffic(execs, i, f)
  {
    if execs == [] {
      SpreadNothing(cells, |cells|, i, f);
    } else {
      var init, x := execs[..|execs| - 1], execs[|execs| - 1];
      assert execs == init + [x];
      assert x in execs && forall y | y in init :: y in execs;
      SpreadIsTraffic(cells, init, i, f);
      SpreadSnoc(cells, |cells|, init, x, i, f);
    }
  }

  /** What a reader would get by adding up every cell ever installed for the interface. */
  function CellTotal(cells: seq<Cell>, n: nat, i: nat, f: Field): nat
    requires n <= |cells|
  {
    if n == 0 then 0
    else CellTotal(cells, n - 1, i, f) + (if cells[n - 1].ifindex == i then Value(cells[n - 1].counters, f) else 0)
  }

  lemma {:induction false} CellsAreSpread(s: State, n: nat, i: nat, f: Field)
    requires n <= |s.cells| && AllCounted(s)
    ensures Wrap(CellTotal(s.cells, n, i, f)) == Wrap(Spread(s.cells, n, s.execs, i, f))
    ensures Spread(s.cells, n, s.execs, i, f) < TWO64 ==>
              CellTotal(s.cells, n, i, f) == Spread(s.cells, n, s.execs, i, f)
  {
    if n > 0 {
      var k: nat :| k + 1 == n;
      CellsAreSpread(s, k, i, f);
      assert Counted(s, k, f);
      WrapSum(CellTotal(s.cells, k, i, f), Spread(s.cells, k, s.execs, i, f), Sum(s.execs, k, f));
    }
  }

  /** The length, or number, of the executions of an interface. */
  function Offered(execs: seq<Exec>, i: nat, f: Field): nat {
    if execs == [] then 0 else Offered(execs[..|execs| - 1], i, f) + Offer(execs[|execs| - 1], i, f)
  }

  function Offer(x: Exec, i: nat, f: Field): nat {
    if x.ifindex == i && x.rx == f.rx then (if f.Bytes? then x.len else 1) else 0
  }

  /** The bytes, or packets, that arrived at an interface in one direction: packets without interface or length do
      not count. */
  function Arrived(acts: seq<Action>, i: nat, f: Field): nat
    decreases |acts|
  {
    if acts == [] then 0
    else
      var a := acts[0];
      Arrived(acts[1..], i, f)
      + if a.Packet? && a.ifindex == i && i != 0 && a.len != 0 && a.rx == f.rx
        then (if f.Bytes? then a.len else 1) else 0
  }

  lemma {:induction false} OfferedUpdate(execs: seq<Exec>, e: nat, x: Exec, i: nat, f: Field)
    requires e < |execs| && Offer(x, i, f) == Offer(execs[e], i, f)
    ensures Offered(execs[e := x], i, f) == Offered(execs, i, f)
  {
    var n := |execs| - 1;
    if e == n {
      assert execs[e := x][..n] == execs[..n];
    } else {
      OfferedUpdate(execs[..n], e, x, i, f);
      assert execs[e := x][..n] == execs[..n][e := x];
    }
  }

  lemma OfferedStep(s: State, a: Action, i: nat, f: Field)
    requires Fits(s) && Enabled(s, a)
    ensures Offered(Next(s, a).execs, i, f) == Offered(s.execs, i, f) + Arrived([a], i, f)
  {
    var t := Next(s, a);
    assert Arrived([a][1..], i, f) == 0;
    if a.Packet? {
      if t.execs != s.execs {
        assert t.execs[..|s.execs|] == s.execs;
      }
    } else {
      assert t.execs == s.execs[a.e := t.execs[a.e]];
      OfferedUpdate(s.execs, a.e, t.execs[a.e], i, f);
    }
  }

  /** The executions are those of the packets that arrived. */
  lemma {:induction false} OfferedIsArrived(s: State, acts: seq<Action>, t: State, i: nat, f: Field)
    requires Fits(s) && Leads(s, acts, t)
    ensures Offered(t.execs, i, f) == Offered(s.execs, i, f) + Arrived(acts, i, f)
    decreases |acts|
  {
    if acts != [] {
      OfferedStep(s, acts[0], i, f);
      assert Arrived([acts[0]][1..], i, f) == 0;
      OfferedIsArrived(Next(s, acts[0]), acts[1..], t, i, f);
    }
  }

  lemma {:induction false} TrafficWithinOffered(execs: seq<Exec>, i: nat, f: Field)
    ensures Traffic(execs, i, f) <= Offered(execs, i, f)
  {
    if execs != [] {
      TrafficWithinOffered(execs[..|execs| - 1], i, f);
    }
  }

  /** Conservation: in every reachable state, for every interface, direction and kind of counter, all cells ever
      installed add up to what executions have counted, modulo 2^64 (and exactly, below that), and that is no more
      than has arrived. */
  lemma TrafficConserved(acts: seq<Action>, s: State, i: nat, f: Field)
    requires Leads(EMPTY, acts, s)
    ensures CellTotal(s.cells, |s.cells|, i, f) % TWO64 == Traffic(s.execs, i, f) % TWO64
    ensures Traffic(s.execs, i, f) < TWO64 ==> CellTotal(s.cells, |s.cells|, i, f) == Traffic(s.execs, i, f)
    ensures Traffic(s.execs, i, f) <= Arrived(acts, i, f)
  {
    OfferedIsArrived(EMPTY, acts, s, i, f);
    TrafficWithinOffered(s.execs, i, f);
    AlwaysCounted(EMPTY, acts, s);
    CellsAreSpread(s, |s.cells|, i, f);
    assert forall x | x in s.execs :: ExecFits(s.cells, x);
    SpreadIsTraffic(s.cells, s.execs, i, f);
    WrapIsModulo(CellTotal(s.cells, |s.cells|, i, f));
    WrapIsModulo(Traffic(s.execs, i, f));
  }

  /** When every execution of the interface has finished and none was dropped by a full map, the counted traffic is
      all of it. */
  lemma {:induction false} AllFinishedAllCounted(execs: seq<Exec>, i: nat, f: Field)
    requires forall x | x in execs && x.ifindex == i :: x.pc.Done?
    ensures Traffic(execs, i, f) <= Offered(execs, i, f)
    ensures (forall x | x in execs && x.ifindex == i :: Target(x.pc).Some?) ==>
              Traffic(execs, i, f) == Offered(execs, i, f)
  {
    if execs != [] {
      assert execs[|execs| - 1] in execs;
      assert forall x | x in execs[..|execs| - 1] :: x in execs;
      AllFinishedAllCounted(execs[..|execs| - 1], i, f);
    }
  }

  function Interfaces(execs: seq<Exec>): set<nat> {
    set x | x in execs :: x.ifindex
  }

  /** No execution was dropped, and only interfaces that sent packets are in the map. */
  ghost predicate Undropped(s: State) {
    && s.live.Keys <= Interfaces(s.execs)
    && forall x | x in s.execs && x.pc.Done? :: x.pc.at.Some?
  }

  lemma UndroppedStep(s: State, a: Action)
    requires Fits(s) && Enabled(s, a) && Undropped(s) && |Interfaces(Next(s, a).execs)| <= MAX_ENTRIES
    ensures Undropped(Next(s, a)) && Interfaces(s.execs) <= Interfaces(Next(s, a).execs)
  {
    var t := Next(s, a);
    InterfacesStep(s, a);
    if a.Update? {
      var i := s.execs[a.e].ifindex;
      assert s.execs[a.e] in s.execs && i in Interfaces(s.execs);
      NeverFull(s.live, i, Interfaces(t.execs));
      assert !Full(s, i);
    }
  }

  lemma InterfacesStep(s: State, a: Action)
    requires Fits(s) && Enabled(s, a)
    ensures Interfaces(s.execs) <= Interfaces(Next(s, a).execs)
  {
    var t := Next(s, a);
    forall i | i in Interfaces(s.execs)
      ensures i in Interfaces(t.execs)
    {
      var e: nat :| e < |s.execs| && s.execs[e].ifindex == i;
      assert t.execs[e].ifindex == i && t.execs[e] in t.execs;
    }
  }

  lemma NeverFull(live: map<nat, nat>, i: nat, all: set<nat>)
    requires live.Keys <= all && i in all && |all| <= MAX_ENTRIES
    ensures i in live || |live| < MAX_ENTRIES
  {
    if i !in live {
      assert |live.Keys + {i}| == |live| + 1;
      SubsetSize(live.Keys + {i}, all);
    }
  }

  lemma {:induction false} SubsetSize(a: set<nat>, b: set<nat>)
    requires a <= b
    ensures |a| <= |b|
    decreases a
  {
    if x :| x in a {
      SubsetSize(a - {x}, b - {x});
    }
  }

  lemma {:induction false} InterfacesGrow(s: State, acts: seq<Action>, t: State)
    requires Fits(s) && Leads(s, acts, t)
    ensures Interfaces(s.execs) <= Interfaces(t.execs)
    decreases |acts|
  {
    if acts != [] {
      InterfacesStep(s, acts[0]);
      InterfacesGrow(Next(s, acts[0]), acts[1..], t);
    }
  }

  /** As long as at most 64 different interfaces ever send packets, no execution is dropped. */
  lemma {:induction false} NothingDropped(s: State, acts: seq<Action>, t: State)
    requires Fits(s) && Leads(s, acts, t) && Undropped(s) && |Interfaces(t.execs)| <= 64
    ensures Undropped(t)
    decreases |acts|
  {
    if acts != [] {
      var m := Next(s, acts[0]);
      InterfacesGrow(m, acts[1..], t);
      SubsetSize(Interfaces(m.execs), Interfaces(t.execs));
      UndroppedStep(s, acts[0]);
      NothingDropped(m, acts[1..], t);
    }
  }

  /** From an empty map, with at most 64 interfaces and every execution of the interface finished: what all its
      cells add up to is all that arrived. */
  lemma FinishedTrafficIsCounted(acts: seq<Action>, s: State, i: nat, f: Field)
    requires Leads(EMPTY, acts, s) && |Interfaces(s.execs)| <= 64
    requires forall x | x in s.execs && x.ifindex == i :: x.pc.Done?
    ensures CellTotal(s.cells, |s.cells|, i, f) % TWO64 == Arrived(acts, i, f) % TWO64
    ensures Arrived(acts, i, f) < TWO64 ==> CellTotal(s.cells, |s.cells|, i, f) == Arrived(acts, i, f)
  {
    TrafficConserved(acts, s, i, f);
    FinishedIsArrived(acts, s, i, f);
  }

  lemma FinishedIsArrived(acts: seq<Action>, s: State, i: nat, f: Field)
    requires Leads(EMPTY, acts, s) && |Interfaces(s.execs)| <= 64
    requires forall x | x in s.execs && x.ifindex == i :: x.pc.Done?
    ensures Traffic(s.execs, i, f) == Arrived(acts, i, f)
  {
    NothingDropped(EMPTY, acts, s);
    AllFinishedCounted(s, i, f);
    OfferedIsArrived(EMPTY, acts, s, i, f);
  }

  lemma AllFinishedCounted(s: State, i: nat, f: Field)
    requires Undropped(s) && forall x | x in s.execs && x.ifindex == i :: x.pc.Done?
    ensures Traffic(s.execs, i, f) == Offered(s.execs, i, f)
  {
    AllFinishedAllCounted(s.execs, i, f);
  }

  /** The map never holds more than 64 interfaces. */
  lemma {:induction false} MapBounded(s: State, acts: seq<Action>, t: State)
    requires Fits(s) && Leads(s, acts, t) && |s.live| <= 64
    ensures |t.live| <= 64
    decreases |acts|
  {
    if acts != [] {
      MapBoundedStep(s, acts[0]);
      MapBounded(Next(s, acts[0]), acts[1..], t);
    }
  }

  lemma MapBoundedStep(s: State, a: Action)
    requires Fits(s) && Enabled(s, a) && |s.live| <= 64
    ensures |Next(s, a).live| <= 64
  {
    if a.Update? {
      InsertSize(s.live, s.execs[a.e].ifindex, |s.cells|);
    }
  }

  lemma InsertSize(live: map<nat, nat>, i: nat, k: nat)
    ensures |live[i := k]| == if i in live then |live| else |live| + 1
  {
    assert live[i := k].Keys == live.Keys + {i};
  }

  // ---- Cell identity ----

  /** The executions of an interface whose lookup found nothing and whose update is still to come. */
  ghost function Missing(s: State, i: nat): set<nat> {
    set e: nat | e < |s.execs| && s.execs[e].ifindex == i && s.execs[e].pc.Missed? :: e
  }

  /** Cells from number n on that were installed for the interface were installed by members of this set. */
  ghost predicate InstalledBy(cells: seq<Cell>, n: nat, i: nat, who: set<nat>) {
    forall k: nat | n <= k < |cells| && cells[k].ifindex == i :: cells[k].installer in who
  }

  lemma MissStep(s: State, a: Action, i: nat)
    requires Fits(s) && Enabled(s, a) && i in s.live
    ensures var t := Next(s, a);
            && i in t.live && Missing(t, i) <= Missing(s, i)
            && |s.cells| <= |t.cells|
            && (forall k: nat | k < |s.cells| ::
                  t.cells[k].installer == s.cells[k].installer && t.cells[k].ifindex == s.cells[k].ifindex)
            && InstalledBy(t.cells, |s.cells|, i, Missing(s, i) - Missing(t, i))
            && (t.live[i] == s.live[i] || Missing(s, i) != {})
  {
  }

  /** Once an interface has a cell, only executions whose lookup came before that can still replace it. */
  lemma {:induction false} OnlyEarlyMissesReplace(s: State, acts: seq<Action>, t: State, i: nat)
    requires Fits(s) && Leads(s, acts, t) && i in s.live
    ensures Fits(t) && i in t.live && Missing(t, i) <= Missing(s, i) && |s.cells| <= |t.cells|
    ensures forall k: nat | k < |s.cells| ::
              t.cells[k].installer == s.cells[k].installer && t.cells[k].ifindex == s.cells[k].ifindex
    ensures InstalledBy(t.cells, |s.cells|, i, Missing(s, i) - Missing(t, i))
    decreases |acts|
  {
    if acts != [] {
      var m := Next(s, acts[0]);
      MissStep(s, acts[0], i);
      OnlyEarlyMissesReplace(m, acts[1..], t, i);
      forall k: nat | |s.cells| <= k < |t.cells| && t.cells[k].ifindex == i
        ensures t.cells[k].installer in Missing(s, i) - Missing(t, i)
      {
        if k < |m.cells| {
          assert m.cells[k].installer in Missing(s, i) - Missing(m, i);
        }
      }
    }
  }

  /** The interface has a cell and nobody is about to replace it. */
  ghost predicate Quiet(s: State, i: nat) {
    i in s.live && Missing(s, i) == {}
  }

  /** Executions of the interface from number n on are still undecided or count in cell k. */
  ghost predicate LaterUse(execs: seq<Exec>, n: nat, i: nat, k: nat) {
    forall e: nat | n <= e < |execs| && execs[e].ifindex == i && !execs[e].pc.Entered? ::
      Target(execs[e].pc) == Some(k)
  }

  lemma QuietStep(s: State, a: Action, i: nat, n: nat)
    requires Fits(s) && Enabled(s, a) && Quiet(s, i) && n <= |s.execs| && LaterUse(s.execs, n, i, s.live[i])
    ensures var t := Next(s, a);
            Quiet(t, i) && t.live[i] == s.live[i] && n <= |t.execs| && LaterUse(t.execs, n, i, s.live[i])
  {
    var t := Next(s, a);
    MissStep(s, a, i);
    assert t.live[i] == s.live[i];
    forall e: nat | n <= e < |t.execs| && t.execs[e].ifindex == i && !t.execs[e].pc.Entered?
      ensures Target(t.execs[e].pc) == Some(s.live[i])
    {
      assert !s.execs[e].pc.Missed? by {
        assert e !in Missing(s, i);
      }
    }
  }

  lemma {:induction false} StaysQuiet(s: State, acts: seq<Action>, t: State, i: nat, n: nat)
    requires Fits(s) && Leads(s, acts, t) && Quiet(s, i) && n <= |s.execs| && LaterUse(s.execs, n, i, s.live[i])
    ensures Fits(t) && Quiet(t, i) && t.live[i] == s.live[i] && n <= |t.execs| && LaterUse(t.execs, n, i, s.live[i])
    decreases |acts|
  {
    if acts != [] {
      QuietStep(s, acts[0], i, n);
      StaysQuiet(Next(s, acts[0]), acts[1..], t, i, n);
    }
  }

  /** If all later executions count in cell k, cell k has received all they counted. */
  lemma {:induction false} LaterAllInCell(cells: seq<Cell>, execs: seq<Exec>, n: nat, i: nat, k: nat, f: Field)
    requires n <= |execs| && LaterUse(execs, n, i, k) && k < |cells| && cells[k].ifindex == i
    requires forall x | x in execs :: ExecFits(cells, x)
    ensures Sum(execs, k, f) == Sum(execs[..n], k, f) + Traffic(execs[n..], i, f)
    decreases |execs|
  {
    if |execs| == n {
      assert execs[..n] == execs && execs[n..] == [];
    } else {
      var init, x := execs[..|execs| - 1], execs[|execs| - 1];
      assert x in execs && forall y | y in init :: y in execs;
      LaterAllInCell(cells, init, n, i, k, f);
      assert init[..n] == execs[..n];
      assert execs[n..][..|execs[n..]| - 1] == init[n..];
    }
  }

  /** Once the executions that missed are through, the cell the map shows for an interface never changes identity
      again, and every later execution that is past its lookup counts in it: none is dropped. */
  lemma LiveCellIsFinal(s: State, acts: seq<Action>, t: State, i: nat)
    requires Fits(s) && Leads(s, acts, t) && Quiet(s, i)
    ensures Fits(t) && |s.execs| <= |t.execs|
    ensures i in t.live && t.live[i] == s.live[i]
    ensures LaterUse(t.execs, |s.execs|, i, s.live[i])
  {
    StaysQuiet(s, acts, t, i, |s.execs|);
  }

  lemma AlwaysCountedFrom(acts0: seq<Action>, s: State, acts: seq<Action>, t: State)
    requires Leads(EMPTY, acts0, s) && Fits(s) && Leads(s, acts, t)
    ensures Fits(t) && AllCounted(t)
  {
    AlwaysCounted(EMPTY, acts0, s);
    AlwaysCounted(s, acts, t);
  }

  /** Each counter of the interface's visible cell shows what the first n executions put into it plus everything
      counted by the others. */
  ghost predicate CountsFrom(t: State, n: nat, i: nat) {
    && i in t.live && t.live[i] < |t.cells| && n <= |t.execs|
    && forall f :: Value(t.cells[t.live[i]].counters, f)
                   == (Sum(t.execs[..n], t.live[i], f) + Traffic(t.execs[n..], i, f)) % TWO64
  }

  lemma LaterCounted(t: State, n: nat, i: nat)
    requires Fits(t) && AllCounted(t) && n <= |t.execs| && i in t.live && LaterUse(t.execs, n, i, t.live[i])
    ensures CountsFrom(t, n, i)
  {
    var k := t.live[i];
    assert forall x | x in t.execs :: ExecFits(t.cells, x);
    forall f
      ensures Value(t.cells[k].counters, f) == (Sum(t.execs[..n], k, f) + Traffic(t.execs[n..], i, f)) % TWO64
    {
      LaterCountedFor(t, n, i, f);
    }
  }

  lemma LaterCountedFor(t: State, n: nat, i: nat, f: Field)
    requires Fits(t) && AllCounted(t) && n <= |t.execs| && i in t.live && LaterUse(t.execs, n, i, t.live[i])
    requires forall x | x in t.execs :: ExecFits(t.cells, x)
    ensures Value(t.cells[t.live[i]].counters, f)
            == (Sum(t.execs[..n], t.live[i], f) + Traffic(t.execs[n..], i, f)) % TWO64
  {
    assert Counted(t, t.live[i], f);
    LaterAllInCell(t.cells, t.execs, n, i, t.live[i], f);
    WrapIsModulo(Sum(t.execs, t.live[i], f));
  }

  /** From then on that cell counts every later execution. */
  lemma LiveCellCountsAll(acts0: seq<Action>, s: State, acts: seq<Action>, t: State, i: nat)
    requires Leads(EMPTY, acts0, s) && Fits(s) && Leads(s, acts, t) && Quiet(s, i)
    ensures CountsFrom(t, |s.execs|, i)
  {
    AlwaysCountedFrom(acts0, s, acts, t);
    LiveCellIsFinal(s, acts, t, i);
    LaterCounted(t, |s.execs|, i);
  }

  /** What later executions have counted is all their traffic, once they have finished. */
  lemma LaterFinishedLaterCounted(s: State, acts: seq<Action>, t: State, i: nat, f: Field)
    requires Fits(s) && Leads(s, acts, t) && Quiet(s, i) && |s.execs| <= |t.execs|
    requires forall x | x in t.execs[|s.execs|..] && x.ifindex == i :: x.pc.Done?
    ensures Traffic(t.execs[|s.execs|..], i, f) == Offered(t.execs[|s.execs|..], i, f)
  {
    LiveCellIsFinal(s, acts, t, i);
    var n, later := |s.execs|, t.execs[|s.execs|..];
    forall x | x in later && x.ifindex == i
      ensures Target(x.pc).Some?
    {
      var k: nat :| k < |later| && later[k] == x;
      assert t.execs[n + k] == x;
    }
    AllFinishedAllCounted(later, i, f);
  }

  // ---- When the visible cell shows everything ----

  /** Every cell was installed by an execution that then was done, and counted its packet there. */
  ghost predicate Installed(s: State) {
    forall k: nat | k < |s.cells| ::
      s.cells[k].installer < |s.execs| && s.execs[s.cells[k].installer].pc == Done(Some(k))
  }

  lemma InstalledStep(s: State, a: Action)
    requires Fits(s) && Enabled(s, a) && Installed(s)
    ensures Installed(Next(s, a))
  {
    var t := Next(s, a);
    DoneStays(s, a);
    forall k: nat | k < |t.cells|
      ensures t.cells[k].installer < |t.execs| && t.execs[t.cells[k].installer].pc == Done(Some(k))
    {
      if k < |s.cells| {
        assert s.execs[s.cells[k].installer].pc.Done?;
      }
    }
  }

  /** Finished executions and installers stay; a new cell was installed by an execution finished with it. */
  lemma DoneStays(s: State, a: Action)
    requires Fits(s) && Enabled(s, a)
    ensures var t := Next(s, a);
            && |s.execs| <= |t.execs| && |s.cells| <= |t.cells| <= |s.cells| + 1
            && (forall e | 0 <= e < |s.execs| && s.execs[e].pc.Done? :: t.execs[e].pc == s.execs[e].pc)
            && (forall k | 0 <= k < |s.cells| :: t.cells[k].installer == s.cells[k].installer)
            && (|t.cells| > |s.cells| ==>
                  a.Update? && t.cells[|s.cells|].installer == a.e && t.execs[a.e].pc == Done(Some(|s.cells|)))
  {
  }

  lemma {:induction false} AlwaysInstalled(s: State, acts: seq<Action>, t: State)
    requires Fits(s) && Installed(s) && Leads(s, acts, t)
    ensures Installed(t)
    decreases |acts|
  {
    if acts != [] {
      InstalledStep(s, acts[0]);
      AlwaysInstalled(Next(s, acts[0]), acts[1..], t);
    }
  }

  lemma {:induction false} SumAtLeast(execs: seq<Exec>, e: nat, k: nat, f: Field)
    requires e < |execs|
    ensures Sum(execs, k, f) >= Credit(execs[e], k, f)
  {
    if e < |execs| - 1 {
      SumAtLeast(execs[..|execs| - 1], e, k, f);
    }
  }

  lemma {:induction false} SpreadAtLeast(cells: seq<Cell>, n: nat, execs: seq<Exec>, i: nat, f: Field, k: nat)
    requires k < n <= |cells| && cells[k].ifindex == i
    ensures Spread(cells, n, execs, i, f) >= Sum(execs, k, f)
    ensures forall l: nat | l < n && l != k && cells[l].ifindex == i ::
              Spread(cells, n, execs, i, f) >= Sum(execs, k, f) + Sum(execs, l, f)
  {
    var m: nat :| m + 1 == n;
    if k < m {
      SpreadAtLeast(cells, m, execs, i, f, k);
    } else {
      forall l: nat | l < n && l != k && cells[l].ifindex == i
        ensures Spread(cells, n, execs, i, f) >= Sum(execs, k, f) + Sum(execs, l, f)
      {
        SpreadAtLeast(cells, m, execs, i, f, l);
      }
    }
  }

  lemma {:induction false} SpreadOfOne(cells: seq<Cell>, n: nat, execs: seq<Exec>, i: nat, f: Field, k: nat)
    requires n <= |cells| && k < |cells| && forall l: nat | l < |cells| && cells[l].ifindex == i :: l == k
    requires cells[k].ifindex == i
    ensures Spread(cells, n, execs, i, f) == if k < n then Sum(execs, k, f) else 0
  {
    if n > 0 {
      var m: nat :| m + 1 == n;
      SpreadOfOne(cells, m, execs, i, f, k);
    }
  }

  /** Below 2^64 a cell shows what executions put into it, which is at most the interface's traffic, and less if
      another cell was installed for the interface, by as much as that one received. */
  lemma CellShows(s: State, i: nat, f: Field, k: nat)
    requires Fits(s) && AllCounted(s) && k < |s.cells| && s.cells[k].ifindex == i && Traffic(s.execs, i, f) < TWO64
    ensures Value(s.cells[k].counters, f) == Sum(s.execs, k, f) <= Traffic(s.execs, i, f)
    ensures forall l: nat | l < |s.cells| && l != k && s.cells[l].ifindex == i ::
              Value(s.cells[k].counters, f) + Sum(s.execs, l, f) <= Traffic(s.execs, i, f)
  {
    assert forall x | x in s.execs :: ExecFits(s.cells, x);
    SpreadIsTraffic(s.cells, s.execs, i, f);
    SpreadAtLeast(s.cells, |s.cells|, s.execs, i, f, k);
    assert Counted(s, k, f);
  }

  /** The cell that the map shows for an interface is the only one ever installed for it. */
  ghost predicate OnlyCell(s: State, i: nat)
    requires i in s.live
  {
    forall k: nat | k < |s.cells| && s.cells[k].ifindex == i :: k == s.live[i]
  }

  ghost predicate ShowsAll(s: State, i: nat)
    requires Fits(s) && i in s.live
  {
    forall f :: Value(s.cells[s.live[i]].counters, f) == Traffic(s.execs, i, f)
  }

  /** In every reachable state, for traffic below 2^64: a reader of the map sees all the traffic an interface has
      counted if and only if no other cell was installed for it, that is, unless its first packets raced. */
  lemma ShowsAllExactlyWhen(acts: seq<Action>, s: State, i: nat)
    requires Leads(EMPTY, acts, s) && Fits(s) && i in s.live && forall f :: Traffic(s.execs, i, f) < TWO64
    ensures ShowsAll(s, i) <==> OnlyCell(s, i)
  {
    AlwaysCounted(EMPTY, acts, s);
    AlwaysInstalled(EMPTY, acts, s);
    if OnlyCell(s, i) {
      OnlyCellShowsAll(s, i);
    } else {
      OtherCellHides(s, i);
    }
  }

  lemma OnlyCellShowsAll(s: State, i: nat)
    requires Fits(s) && AllCounted(s) && i in s.live && OnlyCell(s, i)
    requires forall f :: Traffic(s.execs, i, f) < TWO64
    ensures ShowsAll(s, i)
  {
    var k := s.live[i];
    assert forall x | x in s.execs :: ExecFits(s.cells, x);
    forall f
      ensures Value(s.cells[k].counters, f) == Traffic(s.execs, i, f)
    {
      assert Traffic(s.execs, i, f) < TWO64;
      CellShows(s, i, f, k);
      SpreadIsTraffic(s.cells, s.execs, i, f);
      SpreadOfOne(s.cells, |s.cells|, s.execs, i, f, k);
    }
  }

  lemma OtherCellHides(s: State, i: nat)
    requires Fits(s) && AllCounted(s) && Installed(s) && i in s.live && !OnlyCell(s, i)
    requires forall f :: Traffic(s.execs, i, f) < TWO64
    ensures !ShowsAll(s, i)
  {
    var l: nat :| l < |s.cells| && s.cells[l].ifindex == i && l != s.live[i];
    var e := s.cells[l].installer;
    var f := Packets(s.execs[e].rx);
    SumAtLeast(s.execs, e, l, f);
    assert Credit(s.execs[e], l, f) == 1;
    assert Traffic(s.execs, i, f) < TWO64;
    CellShows(s, i, f, s.live[i]);
  }
}

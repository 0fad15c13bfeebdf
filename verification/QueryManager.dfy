/** Post-processing of the performance table (manager/src/query_manager.cpp): anomaly records, the latest row of
    every server, the score ranking and the cluster statistics.  A table is a sequence of rows; a result is any
    sequence the database may return for the query. */
module QueryManagers {
  import opened Messages
  import opened Clock
  import opened Paging
  import opened Reals

  /** A row of server_performance; columns that may be NULL are optional.  Timestamps have whole seconds. */
  datatype Row = Row(
    server: string, at: int, score: real,
    cpu: Option<real>, mem: Option<real>, disk: Option<real>,
    cpuRate: Option<real>, memRate: Option<real>)

  datatype Thresholds = Thresholds(cpu: real, mem: real, disk: real, change: real)

  function Abs(v: real): real {
    if v < 0.0 then -v else v
  }

  /** A fetched column: NULL reads as zero. */
  function Fetch(v: Option<real>): real {
    if v.Some? then v.value else 0.0
  }

  // ---- Anomalies ----

  datatype Kind = CpuHigh | MemHigh | DiskHigh | RateSpike

  datatype Metric = CpuPercent | MemUsedPercent | DiskUtilPercent | CpuPercentRate | MemUsedPercentRate

  datatype Severity = Warning | Critical

  datatype Anomaly = Anomaly(
    server: string, at: int, kind: Kind, severity: Severity, metric: Metric, value: real, threshold: real)

  /** The disjunction in the WHERE clause: comparing NULL is never true. */
  predicate Matches(r: Row, th: Thresholds) {
    || (r.cpu.Some? && r.cpu.value > th.cpu)
    || (r.mem.Some? && r.mem.value > th.mem)
    || (r.disk.Some? && r.disk.value > th.disk)
    || (r.cpuRate.Some? && Abs(r.cpuRate.value) > th.change)
    || (r.memRate.Some? && Abs(r.memRate.value) > th.change)
  }

  function SeverityOf(kind: Kind, value: real): Severity {
    if kind.RateSpike? then (if Abs(value) > 1.0 then Critical else Warning)
    else if value > 95.0 then Critical else Warning
  }

  function Record(r: Row, kind: Kind, metric: Metric, value: real, threshold: real): Anomaly {
    Anomaly(r.server, r.at, kind, SeverityOf(kind, value), metric, value, threshold)
  }

  /** The tested value of each metric, its limit, and the kind of anomaly it makes. */
  function ColumnOf(r: Row, m: Metric): real {
    match m
    case CpuPercent => Fetch(r.cpu)
    case MemUsedPercent => Fetch(r.mem)
    case DiskUtilPercent => Fetch(r.disk)
    case CpuPercentRate => Fetch(r.cpuRate)
    case MemUsedPercentRate => Fetch(r.memRate)
  }

  function LimitOf(th: Thresholds, m: Metric): real {
    match m
    case CpuPercent => th.cpu
    case MemUsedPercent => th.mem
    case DiskUtilPercent => th.disk
    case _ => th.change
  }

  predicate IsRate(m: Metric) {
    m.CpuPercentRate? || m.MemUsedPercentRate?
  }

  function KindOf(m: Metric): Kind {
    match m
    case CpuPercent => CpuHigh
    case MemUsedPercent => MemHigh
    case DiskUtilPercent => DiskHigh
    case _ => RateSpike
  }

  /** The test of one metric; a rate counts in both directions. */
  predicate Beyond(r: Row, th: Thresholds, m: Metric) {
    (if IsRate(m) then Abs(ColumnOf(r, m)) else ColumnOf(r, m)) > LimitOf(th, m)
  }

  function Test(r: Row, th: Thresholds, m: Metric): seq<Anomaly> {
    if Beyond(r, th, m) then [Record(r, KindOf(m), m, ColumnOf(r, m), LimitOf(th, m))] else []
  }

  /** The records made from one fetched row: one for every metric beyond its limit, in this order. */
  function Emit(r: Row, th: Thresholds): seq<Anomaly> {
    Test(r, th, CpuPercent) + Test(r, th, MemUsedPercent) + Test(r, th, DiskUtilPercent)
    + Test(r, th, CpuPercentRate) + Test(r, th, MemUsedPercentRate)
  }

  /** A NULL column that would pass its threshold if it were zero. */
  predicate NullPasses(r: Row, th: Thresholds) {
    || (r.cpu.None? && th.cpu < 0.0)
    || (r.mem.None? && th.mem < 0.0)
    || (r.disk.None? && th.disk < 0.0)
    || ((r.cpuRate.None? || r.memRate.None?) && th.change < 0.0)
  }

  /** A row the WHERE clause selects yields one to five records; and a row yields records exactly if it is selected
      or has a NULL column under a negative threshold. */
  lemma FilterAgreesExactlyWhen(r: Row, th: Thresholds)
    ensures Matches(r, th) ==> 1 <= |Emit(r, th)| <= 5
    ensures Emit(r, th) != [] <==> Matches(r, th) || NullPasses(r, th)
  {
  }

  predicate NonNegative(th: Thresholds) {
    th.cpu >= 0.0 && th.mem >= 0.0 && th.disk >= 0.0 && th.change >= 0.0
  }

  /** The thresholds the RPC service passes on: a default replaces any that is not positive. */
  function ServiceThresholds(cpu: real, mem: real, disk: real, change: real): (th: Thresholds)
    ensures NonNegative(th)
  {
    Thresholds(if cpu > 0.0 then cpu else 80.0, if mem > 0.0 then mem else 90.0,
               if disk > 0.0 then disk else 85.0, if change > 0.0 then change else 0.5)
  }

  /** So through the service, whatever is requested, selection and emission agree on every row. */
  lemma FilterAgreesInService(r: Row, cpu: real, mem: real, disk: real, change: real)
    ensures var th := ServiceThresholds(cpu, mem, disk, change);
            Matches(r, th) <==> 1 <= |Emit(r, th)| <= 5
  {
    FilterAgreesExactlyWhen(r, ServiceThresholds(cpu, mem, disk, change));
  }

  /** Without any threshold requested, rows are selected for more than 80 percent of CPU, 90 of memory or 85 of disk, or
      for a relative change beyond one half. */
  lemma DefaultSelection(r: Row)
    ensures Matches(r, ServiceThresholds(0.0, 0.0, 0.0, 0.0)) <==>
            || (r.cpu.Some? && r.cpu.value > 80.0) || (r.mem.Some? && r.mem.value > 90.0)
            || (r.disk.Some? && r.disk.value > 85.0)
            || (r.cpuRate.Some? && (r.cpuRate.value > 0.5 || r.cpuRate.value < -0.5))
            || (r.memRate.Some? && (r.memRate.value > 0.5 || r.memRate.value < -0.5))
  {
  }

  /** A row that yields a record without being selected. */
  lemma NullRowExample(server: string) returns (r: Row, th: Thresholds)
    ensures !Matches(r, th) && |Emit(r, th)| == 1
  {
    r := Row(server, 0, 0.0, None, Some(0.0), Some(0.0), Some(0.0), Some(0.0));
    th := Thresholds(-1.0, 90.0, 85.0, 0.5);
    assert Emit(r, th) == Test(r, th, CpuPercent);
  }

  /** The records f makes of each row, one row after the other. */
  function Collect(f: Row -> seq<Anomaly>, rows: seq<Row>): seq<Anomaly> {
    if rows == [] then [] else Collect(f, rows[..|rows| - 1]) + f(rows[|rows| - 1])
  }

  lemma {:induction false} CollectSplit(f: Row -> seq<Anomaly>, a: seq<Row>, b: seq<Row>)
    ensures Collect(f, a + b) == Collect(f, a) + Collect(f, b)
  {
    if b == [] {
      assert a + b == a;
    } else {
      assert (a + b)[..|a + b| - 1] == a + b[..|b| - 1];
      CollectSplit(f, a, b[..|b| - 1]);
    }
  }

  function Emitter(th: Thresholds): Row -> seq<Anomaly> {
    r => Emit(r, th)
  }

  function EmitAll(rows: seq<Row>, th: Thresholds): seq<Anomaly> {
    Collect(Emitter(th), rows)
  }

  /** The time range and, if one is named, the server. */
  predicate InScope(r: Row, server: string, from: int, to: int) {
    from <= r.at <= to && (server == "" || r.server == server)
  }

  function Select(rows: seq<Row>, server: string, from: int, to: int, th: Thresholds): seq<Row> {
    if rows == [] then []
    else
      var rest, r := Select(rows[..|rows| - 1], server, from, to, th), rows[|rows| - 1];
      if InScope(r, server, from, to) && Matches(r, th) then rest + [r] else rest
  }

  function Scope(rows: seq<Row>, server: string, from: int, to: int): seq<Row> {
    if rows == [] then []
    else
      var rest, r := Scope(rows[..|rows| - 1], server, from, to), rows[|rows| - 1];
      if InScope(r, server, from, to) then rest + [r] else rest
  }

  lemma EmitSnoc(rows: seq<Row>, r: Row, th: Thresholds)
    ensures EmitAll(rows + [r], th) == EmitAll(rows, th) + Emit(r, th)
  {
  }

  lemma EmitNext(rows: seq<Row>, n: nat, th: Thresholds)
    requires n < |rows|
    ensures EmitAll(rows[..n + 1], th) == EmitAll(rows[..n], th) + Emit(rows[n], th)
  {
    EmitSnoc(rows[..n], rows[n], th);
    assert rows[..n + 1] == rows[..n] + [rows[n]];
  }

  lemma EmitSplit(a: seq<Row>, b: seq<Row>, th: Thresholds)
    ensures EmitAll(a + b, th) == EmitAll(a, th) + EmitAll(b, th)
  {
    CollectSplit(Emitter(th), a, b);
  }

  /** Every record lost by the WHERE clause would come from a NULL column under a negative threshold. */
  ghost predicate NothingLost(rows: seq<Row>, th: Thresholds) {
    forall r | r in rows :: Matches(r, th) || !NullPasses(r, th)
  }

  lemma NothingLostSnoc(rows: seq<Row>, r: Row, th: Thresholds)
    ensures NothingLost(rows + [r], th) <==> NothingLost(rows, th) && (Matches(r, th) || !NullPasses(r, th))
  {
    assert r in rows + [r];
    assert forall x | x in rows :: x in rows + [r];
  }

  /** The anomalies found through the WHERE clause are those of the whole time and server selection, exactly if no
      row of it with a NULL column under a negative threshold goes unselected; otherwise they are fewer. */
  lemma {:induction false} FilteringLosesNothingExactlyWhen(
    rows: seq<Row>, server: string, from: int, to: int, th: Thresholds)
    ensures var found := EmitAll(Select(rows, server, from, to, th), th);
            var all := EmitAll(Scope(rows, server, from, to), th);
            && |found| <= |all|
            && (found == all <==> NothingLost(Scope(rows, server, from, to), th))
  {
    if rows != [] {
      var init, r := rows[..|rows| - 1], rows[|rows| - 1];
      FilteringLosesNothingExactlyWhen(init, server, from, to, th);
      if InScope(r, server, from, to) {
        var scope, sel := Scope(init, server, from, to), Select(init, server, from, to, th);
        FilterAgreesExactlyWhen(r, th);
        NothingLostSnoc(scope, r, th);
        EmitSnoc(scope, r, th);
        EmitSnoc(sel, r, th);
        if Matches(r, th) {
          SameTail(EmitAll(sel, th), EmitAll(scope, th), Emit(r, th));
        }
      }
    }
  }

  lemma SameTail(a: seq<Anomaly>, b: seq<Anomaly>, t: seq<Anomaly>)
    ensures a + t == b + t <==> a == b
  {
    if a + t == b + t {
      assert |a| == |b|;
      assert a == (a + t)[..|a|] && b == (b + t)[..|b|];
    }
  }

  /** A result the database may return for the anomaly query. */
  ghost predicate AnomalyResult(
    result: seq<Row>, rows: seq<Row>, server: string, from: int, to: int, th: Thresholds)
  {
    && multiset(result) == multiset(Select(rows, server, from, to, th))
    && forall a, b | 0 <= a <= b < |result| :: result[a].at >= result[b].at
  }

  /** In the time range, and of the named server if one is named. */
  predicate Asked(of: string, at: int, server: string, from: int, to: int) {
    from <= at <= to && (server == "" || of == server)
  }

  /** What the query is about: a row asked for, beyond a threshold. */
  predicate Wanted(r: Row, server: string, from: int, to: int, th: Thresholds) {
    Asked(r.server, r.at, server, from, to) && Matches(r, th)
  }

  /** The places of such rows. */
  ghost function Chosen(rows: seq<Row>, server: string, from: int, to: int, th: Thresholds): set<nat> {
    set k: nat | k < |rows| && Wanted(rows[k], server, from, to, th)
  }

  lemma ChosenSnoc(rows: seq<Row>, r: Row, server: string, from: int, to: int, th: Thresholds)
    ensures |Chosen(rows + [r], server, from, to, th)|
            == |Chosen(rows, server, from, to, th)| + if Wanted(r, server, from, to, th) then 1 else 0
  {
    var before, after := Chosen(rows, server, from, to, th), Chosen(rows + [r], server, from, to, th);
    if Wanted(r, server, from, to, th) {
      assert after == before + {|rows|};
    } else {
      assert after == before;
    }
  }

  lemma {:induction false} SelectedMatch(rows: seq<Row>, server: string, from: int, to: int, th: Thresholds)
    ensures forall r | r in Select(rows, server, from, to, th) :: r in rows && Wanted(r, server, from, to, th)
    ensures |Select(rows, server, from, to, th)| == |Chosen(rows, server, from, to, th)|
  {
    if rows != [] {
      var init, r := rows[..|rows| - 1], rows[|rows| - 1];
      SelectedMatch(init, server, from, to, th);
      ChosenSnoc(init, r, server, from, to, th);
      assert rows == init + [r];
      assert InScope(r, server, from, to) && Matches(r, th) <==> Wanted(r, server, from, to, th);
    }
  }

  lemma {:induction false} RecordsAsked(rows: seq<Row>, server: string, from: int, to: int, th: Thresholds)
    requires forall r | r in rows :: Asked(r.server, r.at, server, from, to)
    ensures forall a | a in EmitAll(rows, th) :: Asked(a.server, a.at, server, from, to)
  {
    if rows != [] {
      var init, last := rows[..|rows| - 1], rows[|rows| - 1];
      assert rows == init + [last];
      RecordsAsked(init, server, from, to, th);
      EmitSnoc(init, last, th);
      EmitSays(last, th);
      assert last in rows;
    }
  }

  /** Records of rows in time order, newest first, are in that order. */
  lemma {:induction false} RecordsNewestFirst(rows: seq<Row>, th: Thresholds)
    requires forall a, b | 0 <= a <= b < |rows| :: rows[a].at >= rows[b].at
    ensures forall a, b | 0 <= a <= b < |EmitAll(rows, th)| :: EmitAll(rows, th)[a].at >= EmitAll(rows, th)[b].at
  {
    if rows != [] {
      var init, last := rows[..|rows| - 1], rows[|rows| - 1];
      assert rows == init + [last];
      RecordsNewestFirst(init, th);
      RecordsAsked(init, "", last.at, rows[0].at, th);
      EmitSnoc(init, last, th);
      EmitSays(last, th);
      InOrder(EmitAll(init, th), Emit(last, th), last.at);
    }
  }

  lemma InOrder(a: seq<Anomaly>, b: seq<Anomaly>, at: int)
    requires forall i, j | 0 <= i <= j < |a| :: a[i].at >= a[j].at
    requires (forall x | x in a :: x.at >= at) && forall x | x in b :: x.at == at
    ensures forall i, j | 0 <= i <= j < |a + b| :: (a + b)[i].at >= (a + b)[j].at
  {
  }

  lemma ResultWanted(
    rows: seq<Row>, server: string, from: int, to: int, th: Thresholds, result: seq<Row>)
    requires AnomalyResult(result, rows, server, from, to, th)
    ensures forall r | r in result :: Wanted(r, server, from, to, th)
    ensures |result| == |Chosen(rows, server, from, to, th)|
  {
    var sel := Select(rows, server, from, to, th);
    SelectedMatch(rows, server, from, to, th);
    SameMembers(result, sel);
    assert forall r | r in result :: r in multiset(result) && r in multiset(sel);
  }

  /** The records of a page are of whom and when they should be. */
  lemma PageRecords(
    rows: seq<Row>, server: string, from: int, to: int, th: Thresholds, result: seq<Row>, page: int, size: int)
    requires AnomalyResult(result, rows, server, from, to, th)
    ensures var records := EmitAll(Page(result, page, size), th);
            && (forall a | a in records :: Asked(a.server, a.at, server, from, to))
            && forall a, b | 0 <= a <= b < |records| :: records[a].at >= records[b].at
  {
    ResultWanted(rows, server, from, to, th, result);
    var fetched := Page(result, page, size);
    forall r | r in fetched
      ensures Asked(r.server, r.at, server, from, to)
    {
      assert r in result;
      assert Wanted(r, server, from, to, th);
    }
    RecordsAsked(fetched, server, from, to, th);
    RecordsNewestFirst(fetched, th);
  }

  /** A record names its row's server and time, and is critical beyond 95 percent, or a relative change of 1. */
  predicate RecordSays(a: Anomaly, r: Row) {
    && a.server == r.server && a.at == r.at
    && (a.severity.Critical? <==> if a.kind.RateSpike? then a.value > 1.0 || a.value < -1.0 else a.value > 95.0)
  }

  lemma TestSays(r: Row, th: Thresholds, m: Metric)
    ensures forall a | a in Test(r, th, m) :: RecordSays(a, r)
  {
  }

  lemma EmitSays(r: Row, th: Thresholds)
    ensures forall a | a in Emit(r, th) :: RecordSays(a, r)
  {
    TestSays(r, th, CpuPercent);
    TestSays(r, th, MemUsedPercent);
    TestSays(r, th, DiskUtilPercent);
    TestSays(r, th, CpuPercentRate);
    TestSays(r, th, MemUsedPercentRate);
    FiveParts(r, Test(r, th, CpuPercent), Test(r, th, MemUsedPercent), Test(r, th, DiskUtilPercent),
              Test(r, th, CpuPercentRate), Test(r, th, MemUsedPercentRate));
  }

  lemma FiveParts(r: Row, a: seq<Anomaly>, b: seq<Anomaly>, c: seq<Anomaly>, d: seq<Anomaly>, e: seq<Anomaly>)
    requires forall s | s in a || s in b || s in c || s in d || s in e :: RecordSays(s, r)
    ensures forall s | s in a + b + c + d + e :: RecordSays(s, r)
  {
  }

  /** Emission does not care for the order of rows. */
  lemma {:induction false} EmitPermuted(a: seq<Row>, b: seq<Row>, th: Thresholds)
    requires multiset(a) == multiset(b)
    ensures multiset(EmitAll(a, th)) == multiset(EmitAll(b, th))
    decreases |a|
  {
    if a == [] {
      assert |multiset(b)| == 0;
      assert b == [];
    } else {
      var init, r := a[..|a| - 1], a[|a| - 1];
      assert a == init + [r];
      assert r in multiset(b);
      var k: nat :| k < |b| && b[k] == r;
      var front, back := b[..k], b[k + 1..];
      assert b == front + [r] + back;
      RemoveOne(init, front, back, r);
      EmitPermuted(init, front + back, th);
      EmitSnoc(init, r, th);
      EmitMiddle(front, r, back, th);
    }
  }

  lemma RemoveOne(a: seq<Row>, front: seq<Row>, back: seq<Row>, r: Row)
    requires multiset(a + [r]) == multiset(front + [r] + back)
    ensures multiset(a) == multiset(front + back)
  {
    assert multiset(a) == multiset(a + [r]) - multiset{r};
    assert multiset(front + back) == multiset(front + [r] + back) - multiset{r};
  }

  lemma EmitMiddle(front: seq<Row>, r: Row, back: seq<Row>, th: Thresholds)
    ensures multiset(EmitAll(front + [r] + back, th)) == multiset(EmitAll(front + back, th)) + multiset(Emit(r, th))
  {
    EmitSplit(front, back, th);
    EmitSplit(front + [r], back, th);
    EmitSnoc(front, r, th);
  }

  /** The records of pages 1 to n, one page after the other. */
  function AnomalyPages(result: seq<Row>, th: Thresholds, n: nat, size: int): seq<Anomaly> {
    if n == 0 then [] else AnomalyPages(result, th, n - 1, size) + EmitAll(Page(result, n, size), th)
  }

  lemma {:induction false} AnomalyPagesAre(result: seq<Row>, th: Thresholds, n: nat, size: int)
    ensures AnomalyPages(result, th, n, size) == EmitAll(Pages(result, n, size), th)
  {
    if n > 0 {
      AnomalyPagesAre(result, th, n - 1, size);
      EmitSplit(Pages(result, n - 1, size), Page(result, n, size), th);
    }
  }

  lemma {:induction false} RecordCount(rows: seq<Row>, th: Thresholds)
    requires forall r | r in rows :: Matches(r, th)
    ensures |rows| <= |EmitAll(rows, th)| <= 5 * |rows|
    ensures |EmitAll(rows, th)| == |rows| <==> forall r | r in rows :: |Emit(r, th)| == 1
  {
    if rows != [] {
      var init, r := rows[..|rows| - 1], rows[|rows| - 1];
      assert rows == init + [r];
      RecordCount(init, th);
      FilterAgreesExactlyWhen(r, th);
    }
  }

  /** Paging anomalies: the pages' records, one after the other, are the records of the whole ordered result; and
      total_count, which counts rows, equals the number of records exactly if every row yields a single one. */
  lemma AnomalyPaging(result: seq<Row>, th: Thresholds, last: nat, size: int)
    requires last >= 1 && Offset(last, size) <= INT_MAX && Offset(last + 1, size) >= |result|
    requires forall r | r in result :: Matches(r, th)
    ensures AnomalyPages(result, th, last, size) == EmitAll(result, th)
    ensures |result| <= |EmitAll(result, th)| <= 5 * |result|
    ensures |result| == |EmitAll(result, th)| <==> forall r | r in result :: |Emit(r, th)| == 1
  {
    PagesPartition(result, last, size);
    AnomalyPagesAre(result, th, last, size);
    RecordCount(result, th);
  }

  /** The anomaly query from the table to the pages: for every order the database may return, the records of all
      pages are those of the selected rows, and those of the whole time and server selection exactly if none is lost
      to a NULL column under a negative threshold. */
  lemma AnomaliesOfAllPages(
    rows: seq<Row>, server: string, from: int, to: int, th: Thresholds, result: seq<Row>, last: nat, size: int)
    requires AnomalyResult(result, rows, server, from, to, th)
    requires last >= 1 && Offset(last, size) <= INT_MAX && Offset(last + 1, size) >= |result|
    ensures var pages := multiset(AnomalyPages(result, th, last, size));
            && pages == multiset(EmitAll(Select(rows, server, from, to, th), th))
            && (pages == multiset(EmitAll(Scope(rows, server, from, to), th))
                <==> NothingLost(Scope(rows, server, from, to), th))
            && (NonNegative(th) ==> NothingLost(Scope(rows, server, from, to), th))
  {
    var sel, scope := Select(rows, server, from, to, th), Scope(rows, server, from, to);
    ResultWanted(rows, server, from, to, th, result);
    forall r | r in result
      ensures Matches(r, th)
    {
      assert Wanted(r, server, from, to, th);
    }
    AnomalyPaging(result, th, last, size);
    EmitPermuted(result, sel, th);
    FilteringLosesNothingExactlyWhen(rows, server, from, to, th);
    if multiset(EmitAll(sel, th)) == multiset(EmitAll(scope, th)) {
      assert |multiset(EmitAll(sel, th))| == |multiset(EmitAll(scope, th))|;
      EqualLength(rows, server, from, to, th);
    }
  }

  lemma {:induction false} EqualLength(rows: seq<Row>, server: string, from: int, to: int, th: Thresholds)
    requires |EmitAll(Select(rows, server, from, to, th), th)| == |EmitAll(Scope(rows, server, from, to), th)|
    ensures NothingLost(Scope(rows, server, from, to), th)
  {
    if rows != [] {
      var init, r := rows[..|rows| - 1], rows[|rows| - 1];
      var scope, sel := Scope(init, server, from, to), Select(init, server, from, to, th);
      FilteringLosesNothingExactlyWhen(init, server, from, to, th);
      if InScope(r, server, from, to) {
        FilterAgreesExactlyWhen(r, th);
        EmitSnoc(scope, r, th);
        EmitSnoc(sel, r, th);
        NothingLostSnoc(scope, r, th);
      }
      EqualLength(init, server, from, to, th);
    }
  }

  // ---- The latest row of every server ----

  function Servers(rows: seq<Row>): set<string> {
    set r | r in rows :: r.server
  }

  /** Row k has the greatest timestamp of its server. */
  ghost predicate IsLatest(rows: seq<Row>, r: Row) {
    forall x | x in rows && x.server == r.server :: x.at <= r.at
  }

  ghost function LatestAmong(rows: seq<Row>, all: seq<Row>): seq<Row> {
    if rows == [] then []
    else
      var rest, r := LatestAmong(rows[..|rows| - 1], all), rows[|rows| - 1];
      if IsLatest(all, r) then rest + [r] else rest
  }

  /** The inner join of the table with its greatest timestamp per server. */
  ghost function Latest(rows: seq<Row>): seq<Row> {
    LatestAmong(rows, rows)
  }

  lemma {:induction false} LatestMembers(rows: seq<Row>, all: seq<Row>)
    ensures forall r :: r in LatestAmong(rows, all) <==> r in rows && IsLatest(all, r)
  {
    if rows != [] {
      var init, r := rows[..|rows| - 1], rows[|rows| - 1];
      assert rows == init + [r];
      LatestMembers(init, all);
    }
  }

  lemma {:induction false} GreatestRow(rows: seq<Row>, server: string) returns (r: Row)
    requires server in Servers(rows)
    ensures r in rows && r.server == server && IsLatest(rows, r)
  {
    var init, x := rows[..|rows| - 1], rows[|rows| - 1];
    assert rows == init + [x];
    if server in Servers(init) {
      r := GreatestRow(init, server);
      if x.server == server && r.at < x.at {
        r := x;
      }
    } else {
      r := x;
      forall y | y in rows && y.server == server
        ensures y.at <= r.at
      {
        assert y !in init by {
          assert server !in Servers(init);
        }
      }
    }
  }

  /** No two rows of a list are for the same server. */
  ghost predicate DistinctServers(rows: seq<Row>) {
    forall a, b | 0 <= a < b < |rows| :: rows[a].server != rows[b].server
  }

  lemma {:induction false} ServerCount(rows: seq<Row>)
    ensures |Servers(rows)| <= |rows|
    ensures |Servers(rows)| == |rows| <==> DistinctServers(rows)
  {
    if rows != [] {
      var init, r := rows[..|rows| - 1], rows[|rows| - 1];
      assert rows == init + [r];
      ServerCount(init);
      ServersSnoc(init, r);
      DistinctSnoc(init, r);
    }
  }

  lemma ServersSnoc(rows: seq<Row>, r: Row)
    ensures Servers(rows + [r]) == Servers(rows) + {r.server}
  {
  }

  lemma DistinctSnoc(rows: seq<Row>, r: Row)
    ensures DistinctServers(rows + [r]) <==> DistinctServers(rows) && r.server !in Servers(rows)
  {
    var all := rows + [r];
    if r.server in Servers(rows) {
      var x :| x in rows && x.server == r.server;
      var a :| 0 <= a < |rows| && rows[a] == x;
      assert all[a].server == all[|rows|].server;
    } else {
      forall a | 0 <= a < |rows|
        ensures all[a].server != r.server
      {
        assert rows[a] in rows;
      }
    }
    if DistinctServers(all) {
      forall a, b | 0 <= a < b < |rows|
        ensures rows[a].server != rows[b].server
      {
        assert all[a].server != all[b].server;
      }
    }
  }

  /** The latest-row join: only rows with their server's greatest timestamp appear, every server appears, and the
      count reported for paging (distinct servers) is the number of rows exactly if no server has two rows with its
      greatest timestamp. */
  lemma LatestRowJoin(rows: seq<Row>)
    ensures forall r :: r in Latest(rows) <==>
              r in rows && forall x | x in rows && x.server == r.server :: x.at <= r.at
    ensures Servers(Latest(rows)) == Servers(rows)
    ensures |Servers(rows)| <= |Latest(rows)|
    ensures |Servers(rows)| == |Latest(rows)| <==> DistinctServers(Latest(rows))
  {
    LatestMembers(rows, rows);
    forall server | server in Servers(rows)
      ensures server in Servers(Latest(rows))
    {
      var r := GreatestRow(rows, server);
      assert r in Latest(rows);
    }
    ServerCount(Latest(rows));
  }

  datatype SortOrder = Asc | Desc

  /** A result the database may return for the join under ORDER BY score. */
  ghost predicate ByScore(order: SortOrder, result: seq<Row>, rows: seq<Row>) {
    && multiset(result) == multiset(Latest(rows))
    && forall a, b | 0 <= a <= b < |result| ::
         if order.Asc? then result[a].score <= result[b].score else result[a].score >= result[b].score
  }

  /** The score ranking, for one result order.  The first pages are the whole ranking, without gap or repeat, exactly
      if they have room for all latest rows; pages up to the count of distinct servers have, if no server has two
      latest rows, and then every server is ranked once. */
  lemma RankingPages(order: SortOrder, rows: seq<Row>, result: seq<Row>, last: nat, size: int)
    requires ByScore(order, result, rows) && last >= 1 && Offset(last, size) <= INT_MAX
    ensures Pages(result, last, size) == result <==> Offset(last + 1, size) >= |Latest(rows)|
    ensures Servers(result) == Servers(rows)
    ensures Offset(last + 1, size) >= |Servers(rows)| && DistinctServers(Latest(rows)) ==>
              Pages(result, last, size) == result && |result| == |Servers(rows)|
  {
    LatestRowJoin(rows);
    SameMembers(result, Latest(rows));
    PagesArePrefix(result, last, size);
    var shown := Min(Offset(last + 1, size), |result|);
    assert |result[..shown]| == shown && result[..|result|] == result;
  }

  lemma SameMembers(a: seq<Row>, b: seq<Row>)
    requires multiset(a) == multiset(b)
    ensures |a| == |b| && Servers(a) == Servers(b)
  {
    assert |multiset(a)| == |multiset(b)|;
    assert forall r :: r in a <==> r in multiset(a);
    assert forall r :: r in b <==> r in multiset(b);
    assert forall r :: r in a <==> r in b;
  }

  // ---- Cluster statistics ----

  datatype Status = Online | Offline

  datatype Summary = Summary(server: string, score: real, lastUpdate: int, status: Status)

  datatype ClusterStats = ClusterStats(
    total: nat, online: nat, offline: nat, avg: real, max: real, min: real, best: string, worst: string)

  function StatusOf(r: Row, now: int): Status {
    if Stale(now, r.at * SECOND) then Offline else Online
  }

  function SummaryOf(r: Row, now: int): Summary {
    Summary(r.server, r.score, r.at, StatusOf(r, now))
  }

  function CountStatus(rows: seq<Row>, now: int, status: Status): nat {
    if rows == [] then 0
    else CountStatus(rows[..|rows| - 1], now, status) + (if StatusOf(rows[|rows| - 1], now) == status then 1 else 0)
  }

  function SumScores(rows: seq<Row>): real {
    if rows == [] then 0.0 else SumScores(rows[..|rows| - 1]) + rows[|rows| - 1].score
  }

  lemma {:induction false} SumBounds(rows: seq<Row>, lo: real, hi: real)
    requires forall r | r in rows :: lo <= r.score <= hi
    ensures Times(lo, |rows| as real) <= SumScores(rows) <= Times(hi, |rows| as real)
  {
    TimesOneMore(lo, 0);
    TimesOneMore(hi, 0);
    if rows != [] {
      assert rows[|rows| - 1] in rows;
      assert forall r | r in rows[..|rows| - 1] :: r in rows;
      SumBounds(rows[..|rows| - 1], lo, hi);
      TimesOneMore(lo, |rows| - 1);
      TimesOneMore(hi, |rows| - 1);
    }
  }

  /** No row before k has a score at least (at most) as extreme. */
  ghost predicate FirstAtLeast(rows: seq<Row>, k: nat) {
    k < |rows| && (forall j | 0 <= j < |rows| :: rows[j].score <= rows[k].score)
    && forall j | 0 <= j < k :: rows[j].score < rows[k].score
  }

  ghost predicate FirstAtMost(rows: seq<Row>, k: nat) {
    k < |rows| && (forall j | 0 <= j < |rows| :: rows[k].score <= rows[j].score)
    && forall j | 0 <= j < k :: rows[k].score < rows[j].score
  }

  /** The running maximum over the first n rows: still the sentinel, or first reached at row i. */
  ghost predicate RunningMax(rows: seq<Row>, n: nat, max: real, best: string, i: int)
    requires n <= |rows|
  {
    if i < 0 then max == -1.0 && best == "" && forall j | 0 <= j < n :: rows[j].score <= -1.0
    else
      && i < n && max == rows[i].score > -1.0 && best == rows[i].server
      && (forall j | 0 <= j < n :: rows[j].score <= max)
      && forall j | 0 <= j < i :: rows[j].score < max
  }

  ghost predicate RunningMin(rows: seq<Row>, n: nat, min: real, worst: string, i: int)
    requires n <= |rows|
  {
    if i < 0 then min == 101.0 && worst == "" && forall j | 0 <= j < n :: 101.0 <= rows[j].score
    else
      && i < n && min == rows[i].score < 101.0 && worst == rows[i].server
      && (forall j | 0 <= j < n :: min <= rows[j].score)
      && forall j | 0 <= j < i :: min < rows[j].score
  }

  lemma MaxStep(rows: seq<Row>, n: nat, max: real, best: string, i: int)
    requires n < |rows| && RunningMax(rows, n, max, best, i)
    ensures if rows[n].score > max then RunningMax(rows, n + 1, rows[n].score, rows[n].server, n)
            else RunningMax(rows, n + 1, max, best, i)
  {
  }

  lemma MinStep(rows: seq<Row>, n: nat, min: real, worst: string, i: int)
    requires n < |rows| && RunningMin(rows, n, min, worst, i)
    ensures if rows[n].score < min then RunningMin(rows, n + 1, rows[n].score, rows[n].server, n)
            else RunningMin(rows, n + 1, min, worst, i)
  {
  }

  /** What the final statistics say about the extremes, and when the sentinels hide them. */
  ghost predicate ExtremesOf(result: seq<Row>, stats: ClusterStats) {
    && (forall k: nat | FirstAtLeast(result, k) ::
          && (stats.max == result[k].score <==> result[k].score >= 0.0)
          && stats.best == if result[k].score > -1.0 then result[k].server else "")
    && (forall k: nat | FirstAtMost(result, k) ::
          && (stats.min == result[k].score <==> result[k].score < 101.0)
          && stats.worst == if result[k].score < 101.0 then result[k].server else "")
  }

  lemma ExtremesReached(rows: seq<Row>, max: real, best: string, i: int, min: real, worst: string, j: int,
                        stats: ClusterStats)
    requires RunningMax(rows, |rows|, max, best, i) && RunningMin(rows, |rows|, min, worst, j)
    requires stats.max == (if max > 0.0 then max else 0.0) && stats.best == best
    requires stats.min == (if min < 101.0 then min else 0.0) && stats.worst == worst
    ensures ExtremesOf(rows, stats)
  {
  }

  lemma TallyNext(rows: seq<Row>, n: nat, now: int)
    requires n < |rows|
    ensures SumScores(rows[..n + 1]) == SumScores(rows[..n]) + rows[n].score
    ensures forall status :: CountStatus(rows[..n + 1], now, status)
                             == CountStatus(rows[..n], now, status) + if StatusOf(rows[n], now) == status then 1 else 0
    ensures Summaries(rows[..n + 1], now) == Summaries(rows[..n], now) + [SummaryOf(rows[n], now)]
  {
    assert rows[..n + 1][..n] == rows[..n];
  }

  function Summaries(rows: seq<Row>, now: int): (s: seq<Summary>)
    ensures |s| == |rows|
  {
    seq(|rows|, k requires 0 <= k < |rows| => SummaryOf(rows[k], now))
  }

  /** A summary is of its row, and the server is offline once the row is 61 seconds old, in nanoseconds. */
  predicate SummarySays(x: Summary, r: Row, now: int) {
    && x.server == r.server && x.score == r.score && x.lastUpdate == r.at
    && (x.status.Offline? <==> now - r.at * 1_000_000_000 >= 61_000_000_000)
  }

  lemma SummariesSay(rows: seq<Row>, now: int)
    ensures forall k | 0 <= k < |rows| :: SummarySays(Summaries(rows, now)[k], rows[k], now)
  {
    forall k | 0 <= k < |rows|
      ensures SummarySays(Summaries(rows, now)[k], rows[k], now)
    {
      StaleMeansAge61(now, rows[k].at * SECOND);
    }
  }

  /** The places of the rows that are less than 61 seconds old. */
  ghost function RecentRows(rows: seq<Row>, now: int): set<nat> {
    set k: nat | k < |rows| && now - rows[k].at * 1_000_000_000 < 61_000_000_000
  }

  lemma {:induction false} OnlineAreRecent(rows: seq<Row>, now: int)
    ensures CountStatus(rows, now, Online) == |RecentRows(rows, now)|
    ensures CountStatus(rows, now, Offline) == |rows| - |RecentRows(rows, now)|
  {
    if rows != [] {
      var init, r := rows[..|rows| - 1], rows[|rows| - 1];
      OnlineAreRecent(init, now);
      StaleMeansAge61(now, r.at * SECOND);
      assert forall k | 0 <= k < |init| :: init[k] == rows[k];
      assert RecentRows(init, now) == RecentRows(rows, now) - {|init|};
    }
  }

  predicate InScoreOrder(records: seq<Summary>, order: SortOrder) {
    forall a, b | 0 <= a <= b < |records| ::
      if order.Asc? then records[a].score <= records[b].score else records[a].score >= records[b].score
  }

  lemma SummariesInOrder(order: SortOrder, rows: seq<Row>, now: int)
    requires forall a, b | 0 <= a <= b < |rows| ::
               if order.Asc? then rows[a].score <= rows[b].score else rows[a].score >= rows[b].score
    ensures InScoreOrder(Summaries(rows, now), order)
  {
  }

  /** QueryScoreRank: one page of the join's result, with the number of distinct servers. */
  method QueryScoreRank(
    initialized: bool, rows: seq<Row>, ghost order: SortOrder, result: seq<Row>, page: int, size: int, now: int)
    returns (records: seq<Summary>, totalCount: nat)
    requires ByScore(order, result, rows)
    ensures !initialized ==> records == [] && totalCount == 0
    ensures initialized ==> records == Summaries(Page(result, page, size), now)
    ensures initialized ==> forall k | 0 <= k < |records| :: SummarySays(records[k], Page(result, page, size)[k], now)
    ensures InScoreOrder(records, order)
    ensures initialized ==> totalCount == |Servers(rows)| <= |result|
                            && (totalCount == |result| <==> DistinctServers(Latest(rows)))
  {
    records, totalCount := [], 0;
    if !initialized {
      return;
    }
    LatestRowJoin(rows);
    SameMembers(result, Latest(rows));
    totalCount := |Servers(rows)|;
    records := Summarise(Page(result, page, size), now);
    PageSummaries(order, rows, result, page, size, now);
  }

  /** The loop over the fetched rows. */
  method Summarise(fetched: seq<Row>, now: int) returns (records: seq<Summary>)
    ensures records == Summaries(fetched, now)
  {
    records := [];
    var n := 0;
    while n < |fetched|
      invariant 0 <= n <= |fetched|
      invariant records == Summaries(fetched[..n], now)
    {
      records := records + [SummaryOf(fetched[n], now)];
      n := n + 1;
    }
    assert fetched[..n] == fetched;
  }

  lemma PageSummaries(order: SortOrder, rows: seq<Row>, result: seq<Row>, page: int, size: int, now: int)
    requires ByScore(order, result, rows)
    ensures var fetched := Page(result, page, size);
            && InScoreOrder(Summaries(fetched, now), order)
            && forall k | 0 <= k < |fetched| :: SummarySays(Summaries(fetched, now)[k], fetched[k], now)
  {
    var fetched := Page(result, page, size);
    SummariesSay(fetched, now);
    SummariesInOrder(order, fetched, now);
  }

  /** What the statistics say of a result. */
  ghost predicate Describes(stats: ClusterStats, result: seq<Row>, now: int) {
    && stats.total == |result| == stats.online + stats.offline
    && stats.online == |RecentRows(result, now)|
    && stats.avg == (if result == [] then 0.0 else SumScores(result) / |result| as real)
    && ExtremesOf(result, stats)
    && (result == [] ==> stats == ClusterStats(0, 0, 0, 0.0, 0.0, 0.0, "", ""))
  }

  /** One pass over the latest rows in the order returned, with the running extremes started at -1 and 101. */
  method QueryLatestScore(result: seq<Row>, now: int) returns (records: seq<Summary>, stats: ClusterStats)
    ensures records == Summaries(result, now) && forall k | 0 <= k < |result| :: SummarySays(records[k], result[k], now)
    ensures Describes(stats, result, now)
  {
    records := [];
    var totalScore := 0.0;
    var maxScore, minScore := -1.0, 101.0;
    var best, worst := "", "";
    var online, offline := 0, 0;
    ghost var bestAt, worstAt := -1, -1;
    var n := 0;
    while n < |result|
      invariant 0 <= n <= |result| && records == Summaries(result[..n], now)
      invariant online == CountStatus(result[..n], now, Online) && offline == CountStatus(result[..n], now, Offline)
      invariant online + offline == n
      invariant totalScore == SumScores(result[..n])
      invariant RunningMax(result, n, maxScore, best, bestAt)
      invariant RunningMin(result, n, minScore, worst, worstAt)
    {
      var r := result[n];
      TallyNext(result, n, now);
      records := records + [SummaryOf(r, now)];
      if StatusOf(r, now) == Online {
        online := online + 1;
      } else {
        offline := offline + 1;
      }
      totalScore := totalScore + r.score;
      MaxStep(result, n, maxScore, best, bestAt);
      MinStep(result, n, minScore, worst, worstAt);
      if r.score > maxScore {
        maxScore, best, bestAt := r.score, r.server, n;
      }
      if r.score < minScore {
        minScore, worst, worstAt := r.score, r.server, n;
      }
      n := n + 1;
    }
    assert result[..n] == result;
    stats := ClusterStats(
      |records|, online, offline,
      if records == [] then 0.0 else totalScore / |records| as real,
      if maxScore > 0.0 then maxScore else 0.0,
      if minScore < 101.0 then minScore else 0.0,
      best, worst);
    SummariesSay(result, now);
    OnlineAreRecent(result, now);
    ExtremesReached(result, maxScore, best, bestAt, minScore, worst, worstAt, stats);
  }

  /** With the rows in descending order the extremes are the ends of the list: the first row holds the maximum, the
      last row the minimum, and the average lies between. */
  lemma EndsAreExtremes(rows: seq<Row>, result: seq<Row>)
    requires ByScore(Desc, result, rows) && result != []
    ensures FirstAtLeast(result, 0)
    ensures exists k: nat :: FirstAtMost(result, k) && result[k].score == result[|result| - 1].score
    ensures result[|result| - 1].score <= SumScores(result) / |result| as real <= result[0].score
  {
    AverageBetweenEnds(result);
    var k := FirstLowest(result, |result| - 1);
    assert FirstAtMost(result, k);
  }

  /** The statistics of a score-descending result of scores from 0 to 100: the maximum is that of the first row and
      the best server its server; the minimum is that of the last row and the worst server the first to attain it;
      and the average lies between. */
  lemma RankedStatistics(rows: seq<Row>, result: seq<Row>, now: int, stats: ClusterStats)
    requires result != []
    ensures ByScore(Desc, result, rows) && Describes(stats, result, now)
            && (forall r | r in result :: 0.0 <= r.score <= 100.0) ==>
              Ranked(stats, result)
  {
    if ByScore(Desc, result, rows) && Describes(stats, result, now)
       && forall r | r in result :: 0.0 <= r.score <= 100.0
    {
      EndsAreExtremes(rows, result);
      assert result[0] in result && result[|result| - 1] in result;
      var k: nat :| FirstAtMost(result, k) && result[k].score == result[|result| - 1].score;
      assert stats.worst == result[k].server;
    }
  }

  ghost predicate Ranked(stats: ClusterStats, result: seq<Row>)
    requires result != []
  {
    && stats.max == result[0].score && stats.best == result[0].server
    && stats.min == result[|result| - 1].score
    && (exists k: nat :: FirstAtMost(result, k) && stats.worst == result[k].server)
    && stats.min <= stats.avg <= stats.max
  }

  lemma AverageBetweenEnds(result: seq<Row>)
    requires result != [] && forall a, b | 0 <= a <= b < |result| :: result[a].score >= result[b].score
    ensures result[|result| - 1].score <= SumScores(result) / |result| as real <= result[0].score
  {
    var lo, hi := result[|result| - 1].score, result[0].score;
    forall r | r in result
      ensures lo <= r.score <= hi
    {
      var k :| 0 <= k < |result| && result[k] == r;
    }
    SumBounds(result, lo, hi);
    QuotientBounds(SumScores(result), |result| as real, lo, hi);
  }

  lemma {:induction false} FirstLowest(result: seq<Row>, last: nat) returns (k: nat)
    requires last < |result| && result[last].score == result[|result| - 1].score
    requires forall a, b | 0 <= a <= b < |result| :: result[a].score >= result[b].score
    ensures FirstAtMost(result, k) && result[k].score == result[|result| - 1].score
  {
    if last > 0 && result[last - 1].score == result[last].score {
      k := FirstLowest(result, last - 1);
    } else {
      k := last;
    }
  }

  /** The five threshold tests on one fetched row. */
  method AddAnomalies(r: Row, th: Thresholds) returns (records: seq<Anomaly>)
    ensures records == Emit(r, th) && forall a | a in records :: RecordSays(a, r)
  {
    EmitSays(r, th);
    records := [];
    var cpu, mem, disk := Fetch(r.cpu), Fetch(r.mem), Fetch(r.disk);
    var cpuRate, memRate := Fetch(r.cpuRate), Fetch(r.memRate);
    if cpu > th.cpu {
      records := records + [Record(r, CpuHigh, CpuPercent, cpu, th.cpu)];
    }
    assert records == Test(r, th, CpuPercent);
    if mem > th.mem {
      records := records + [Record(r, MemHigh, MemUsedPercent, mem, th.mem)];
    }
    assert records == Test(r, th, CpuPercent) + Test(r, th, MemUsedPercent);
    if disk > th.disk {
      records := records + [Record(r, DiskHigh, DiskUtilPercent, disk, th.disk)];
    }
    assert records == Test(r, th, CpuPercent) + Test(r, th, MemUsedPercent) + Test(r, th, DiskUtilPercent);
    if Abs(cpuRate) > th.change {
      records := records + [Record(r, RateSpike, CpuPercentRate, cpuRate, th.change)];
    }
    if Abs(memRate) > th.change {
      records := records + [Record(r, RateSpike, MemUsedPercentRate, memRate, th.change)];
    }
  }

  /** QueryAnomaly: one page of what the database returns for the WHERE clause, with the number of rows selected;
      nothing before Init or for a reversed time range. */
  method QueryAnomaly(
    initialized: bool, ghost rows: seq<Row>, ghost server: string, from: int, to: int, th: Thresholds,
    page: int, size: int, result: seq<Row>)
    returns (records: seq<Anomaly>, totalCount: nat)
    requires AnomalyResult(result, rows, server, from, to, th)
    ensures !initialized || to < from ==> records == [] && totalCount == 0
    ensures initialized && from <= to ==>
              && records == EmitAll(Page(result, page, size), th)
              && totalCount == |Chosen(rows, server, from, to, th)|
              && (forall a | a in records :: from <= a.at <= to && (server == "" || a.server == server))
              && forall a, b | 0 <= a <= b < |records| :: records[a].at >= records[b].at
  {
    ResultWanted(rows, server, from, to, th, result);
    PageRecords(rows, server, from, to, th, result, page, size);
    records, totalCount := [], 0;
    if !initialized || to < from {
      return;
    }
    totalCount := |result|;
    var fetched := Page(result, page, size);
    var n := 0;
    while n < |fetched|
      invariant 0 <= n <= |fetched|
      invariant records == EmitAll(fetched[..n], th)
    {
      var added := AddAnomalies(fetched[n], th);
      EmitNext(fetched, n, th);
      records := records + added;
      n := n + 1;
    }
    assert fetched[..n] == fetched;
  }
}

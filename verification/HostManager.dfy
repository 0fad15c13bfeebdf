/** The manager object (manager/src/host_manager.cpp): what its methods do when they run undisturbed.  That every
    interleaving of its threads amounts to the same is the subject of the Ingest modules; Undisturbed below ties the
    two together. */
module HostManagers {
  import opened Messages
  import opened Identity
  import opened Rates
  import opened Samples
  import opened Clock
  import opened Ingest
  import IngestHistory
  import Score
  import SafeQueues

  type Queue = SafeQueues.SafeQueue<MonitorInfo>

  /** A sample written, with its change rates. */
  datatype Row = Row(cell: Cell, sample: Sample, rates: RateRow)

  datatype Outcome = Outcome(mem: Memory, rows: seq<Row>)

  predicate Sized(c: Scenario, mem: Memory) {
    |mem.shards| == |mem.locals| == c.n
  }

  /** Performing updates one after the other on thread i: load, rate, store. */
  function Replay(c: Scenario, mem: Memory, i: nat, w: seq<Update>): (r: Outcome)
    requires Sized(c, mem) && i < c.n
    ensures Sized(c, r.mem) && |r.rows| == |w|
  {
    if w == [] then Outcome(mem, [])
    else
      Record(c, Replay(c, mem, i, w[..|w| - 1]), i, w[|w| - 1])
  }

  function Record(c: Scenario, r: Outcome, i: nat, u: Update): Outcome
    requires Sized(c, r.mem) && i < c.n
  {
    Outcome(Save(c, r.mem, i, u.cell, u.sample),
            r.rows + [Row(u.cell, u.sample, RatesOf(u.sample, Load(c, r.mem, i, u.cell)))])
  }

  // ---- Replaying is the sequential fold, cell by cell ----

  function RatesFor(rows: seq<Row>, x: Cell): seq<RateRow> {
    if rows == [] then []
    else
      var rest, r := RatesFor(rows[..|rows| - 1], x), rows[|rows| - 1];
      if r.cell == x then rest + [r.rates] else rest
  }

  lemma RatesForSnoc(rows: seq<Row>, r: Row, x: Cell)
    ensures RatesFor(rows + [r], x) == if r.cell == x then RatesFor(rows, x) + [r.rates] else RatesFor(rows, x)
  {
  }

  function LastOr(s: Sample, xs: seq<Sample>): Sample {
    if xs == [] then s else xs[|xs| - 1]
  }

  lemma {:induction false} FoldSnoc(s: Sample, xs: seq<Sample>, x: Sample)
    ensures FoldRates(s, xs + [x]) == FoldRates(s, xs) + [RatesOf(x, LastOr(s, xs))]
    decreases |xs|
  {
    if xs == [] {
      assert [] + [x] == [x];
      assert FoldRates(x, []) == [];
    } else {
      assert (xs + [x])[1..] == xs[1..] + [x];
      FoldSnoc(xs[0], xs[1..], x);
    }
  }

  /** Whatever the memory holds: for every history cell, the rates written by one message are the sequential fold,
      started from the stored sample, over the message's samples for that cell, repeated devices included; and the
      last of these is left stored. */
  lemma {:induction false} ReplayIsFold(c: Scenario, mem: Memory, i: nat, w: seq<Update>, x: Cell)
    requires Sized(c, mem) && i < c.n
    ensures var r, xs, s := Replay(c, mem, i, w), SamplesFor(w, x), Load(c, mem, i, x);
            RatesFor(r.rows, x) == FoldRates(s, xs) && Load(c, r.mem, i, x) == LastOr(s, xs)
  {
    if w != [] {
      var init, u := w[..|w| - 1], w[|w| - 1];
      ReplayIsFold(c, mem, i, init, x);
      var r := Replay(c, mem, i, init);
      IngestHistory.SaveLoad(c, r.mem, i, i, x, u.cell, u.sample);
      RatesForSnoc(r.rows, Row(u.cell, u.sample, RatesOf(u.sample, Load(c, r.mem, i, u.cell))), x);
      if u.cell == x {
        FoldSnoc(Load(c, mem, i, x), SamplesFor(init, x), u.sample);
      }
    }
  }

  // ---- ProcessData is what a consumer of the machine does if nobody interferes ----

  function EventOf(id: nat, r: Row): Event {
    Wrote(id, r.cell, r.sample, r.rates)
  }

  function EventsOf(id: nat, rows: seq<Row>): seq<Event> {
    seq(|rows|, k requires 0 <= k < |rows| => EventOf(id, rows[k]))
  }

  /** The updates whose samples the rows carry. */
  function UpdatesIn(rows: seq<Row>): (w: seq<Update>)
    ensures |w| == |rows|
  {
    seq(|rows|, k requires 0 <= k < |rows| => Update(rows[k].cell, rows[k].sample))
  }

  /** Replaying emits one row per update, in order, with that update's sample. */
  lemma {:induction false} ReplayRows(c: Scenario, mem: Memory, i: nat, w: seq<Update>)
    requires Sized(c, mem) && i < c.n
    ensures UpdatesIn(Replay(c, mem, i, w).rows) == w
  {
    if w != [] {
      ReplayRows(c, mem, i, w[..|w| - 1]);
      assert w == w[..|w| - 1] + [w[|w| - 1]];
    }
  }

  lemma {:induction false} ReplaySplit(c: Scenario, mem: Memory, i: nat, v: seq<Update>, w: seq<Update>)
    requires Sized(c, mem) && i < c.n
    ensures var r := Replay(c, mem, i, v);
            var t := Replay(c, r.mem, i, w);
            Replay(c, mem, i, v + w) == Outcome(t.mem, r.rows + t.rows)
  {
    if w == [] {
      assert v + w == v;
    } else {
      var init := w[..|w| - 1];
      assert (v + w)[..|v + w| - 1] == v + init;
      ReplaySplit(c, mem, i, v, init);
    }
  }

  lemma ReplayOne(c: Scenario, mem: Memory, i: nat, u: Update)
    requires Sized(c, mem) && i < c.n
    ensures Replay(c, mem, i, [u]) == Record(c, Outcome(mem, []), i, u)
  {
  }

  /** State s after k steps of consumer i, if it can make them. */
  ghost function Solo(c: Scenario, s: State, i: nat, k: nat): (r: Option<State>)
    requires Fits(c, s) && i < c.n
    ensures r.Some? ==> Fits(c, r.value)
    decreases k
  {
    if k == 0 then Some(s)
    else if Enabled(c, s, Consumer(i)) then Solo(c, Step(c, s, i), i, k - 1)
    else None
  }

  /** acts', which goes on from acts with steps of consumer i alone. */
  ghost predicate OnlyConsumer(acts: seq<Action>, acts': seq<Action>, i: nat) {
    acts <= acts' && forall k | |acts| <= k < |acts'| :: acts'[k] == Consumer(i)
  }

  lemma SoloFirst(c: Scenario, acts: seq<Action>, s: State, i: nat, l: nat) returns (t: State)
    requires Run(c, acts) == Some(s) && i < c.n && Solo(c, s, i, l + 1).Some?
    ensures Run(c, acts + [Consumer(i)]) == Some(t) && Solo(c, s, i, l + 1) == Solo(c, t, i, l)
  {
    t := Step(c, s, i);
    RunSnoc(c, acts, Consumer(i));
  }

  lemma {:induction false} SoloRuns(c: Scenario, acts: seq<Action>, s: State, i: nat, k: nat)
    returns (acts': seq<Action>)
    requires Run(c, acts) == Some(s) && i < c.n && Solo(c, s, i, k).Some?
    ensures OnlyConsumer(acts, acts', i) && Run(c, acts') == Solo(c, s, i, k)
    decreases k
  {
    acts' := acts;
    if k > 0 {
      var l: nat :| l + 1 == k;
      var t := SoloFirst(c, acts, s, i, l);
      acts' := SoloRuns(c, acts + [Consumer(i)], t, i, l);
      OnlyConsumerFront(acts, acts', i);
    }
  }

  lemma OnlyConsumerFront(acts: seq<Action>, acts': seq<Action>, i: nat)
    requires OnlyConsumer(acts + [Consumer(i)], acts', i)
    ensures OnlyConsumer(acts, acts', i)
  {
  }

  /** Consumer i, if only it runs, takes s to t. */
  ghost predicate LeadsTo(c: Scenario, s: State, i: nat, t: State)
    requires Fits(c, s) && i < c.n
  {
    exists k: nat :: Solo(c, s, i, k) == Some(t)
  }

  lemma LeadsHere(c: Scenario, s: State, i: nat)
    requires Fits(c, s) && i < c.n
    ensures LeadsTo(c, s, i, s)
  {
    assert Solo(c, s, i, 0) == Some(s);
  }

  /** A consumer in the middle of a message can make its next step. */
  lemma SoloNext(c: Scenario, s: State, i: nat, t: State, end: State)
    requires Fits(c, s) && i < c.n && InFlight(s.pcs[i]) && t == Step(c, s, i)
    ensures Fits(c, t) && (LeadsTo(c, t, i, end) ==> LeadsTo(c, s, i, end))
  {
    if LeadsTo(c, t, i, end) {
      var k: nat :| Solo(c, t, i, k) == Some(end);
      assert Solo(c, s, i, k + 1) == Some(end);
    }
  }

  /** Reading an entry: one step. */
  lemma ReadAlone(c: Scenario, s: State, i: nat, id: nat, at: int, j: nat, t: State)
    requires Fits(c, s) && i < c.n && s.pcs[i] == Working(id, at, j, None) && j < |Updates(c, id)|
    requires t == s.(pcs := s.pcs[i := Working(id, at, j, Some(Load(c, s.mem, i, Updates(c, id)[j].cell)))])
    ensures t == Step(c, s, i)
  {
  }

  /** State s once consumer i has made its write and gone on to pc. */
  function AfterUpdate(c: Scenario, s: State, i: nat, id: nat, u: Update, pc: Pc): State
    requires Fits(c, s) && i < c.n
  {
    s.(mem := Save(c, s.mem, i, u.cell, u.sample),
       log := s.log + [Wrote(id, u.cell, u.sample, RatesOf(u.sample, Load(c, s.mem, i, u.cell)))],
       pcs := s.pcs[i := pc])
  }

  /** Overwriting it: another. */
  lemma OverwriteAlone(c: Scenario, s: State, i: nat, id: nat, at: int, j: nat, t: State)
    requires Fits(c, s) && i < c.n && j < |Updates(c, id)|
    requires s.pcs[i] == Working(id, at, j, Some(Load(c, s.mem, i, Updates(c, id)[j].cell)))
    requires t == AfterUpdate(c, s, i, id, Updates(c, id)[j],
                              if j == 0 then Scoring(id, at) else Working(id, at, j + 1, None))
    ensures t == Step(c, s, i)
  {
  }

  lemma WriteAlone(c: Scenario, s: State, i: nat, id: nat, at: int, j: nat, t: State, end: State)
    requires Fits(c, s) && i < c.n && s.pcs[i] == Working(id, at, j, None) && j < |Updates(c, id)|
    requires t == AfterUpdate(c, s, i, id, Updates(c, id)[j],
                              if j == 0 then Scoring(id, at) else Working(id, at, j + 1, None))
    ensures Fits(c, t) && (LeadsTo(c, t, i, end) ==> LeadsTo(c, s, i, end))
  {
    var r := s.(pcs := s.pcs[i := Working(id, at, j, Some(Load(c, s.mem, i, Updates(c, id)[j].cell)))]);
    ReadAlone(c, s, i, id, at, j, r);
    SoloNext(c, s, i, r, end);
    assert r.pcs[i := t.pcs[i]] == t.pcs;
    OverwriteAlone(c, r, i, id, at, j, t);
    SoloNext(c, r, i, t, end);
  }

  /** State s after the last of a message's writes, all with outcome r. */
  function AfterRest(s: State, i: nat, id: nat, r: Outcome): State
    requires i < |s.pcs| == |s.done|
  {
    s.(mem := r.mem, log := s.log + EventsOf(id, r.rows), pcs := s.pcs[i := AtTest],
       done := s.done[i := s.done[i] + [id]])
  }

  function RestOf(c: Scenario, s: State, i: nat, id: nat, j: nat): State
    requires |s.pcs| == |s.done| == c.n && Sized(c, s.mem) && i < c.n && j <= |Updates(c, id)|
  {
    AfterRest(s, i, id, Replay(c, s.mem, i, Updates(c, id)[j..]))
  }

  lemma FinishAlone(c: Scenario, s: State, i: nat)
    requires Fits(c, s) && i < c.n && Finishes(c, s.pcs[i])
    ensures LeadsTo(c, s, i, AfterRest(s, i, s.pcs[i].id, Outcome(s.mem, [])))
  {
    var t := Step(c, s, i);
    SoloNext(c, s, i, t, t);
    LeadsHere(c, t, i);
    assert s.log + EventsOf(s.pcs[i].id, []) == s.log;
  }

  /** Consumer i from update j > 0 to the end of its message. */
  lemma {:induction false} RestAlone(c: Scenario, s: State, i: nat, id: nat, at: int, j: nat)
    requires Fits(c, s) && i < c.n && s.pcs[i] == Working(id, at, j, None) && 1 <= j <= |Updates(c, id)|
    ensures LeadsTo(c, s, i, RestOf(c, s, i, id, j))
    decreases |Updates(c, id)| - j
  {
    if j == |Updates(c, id)| {
      assert Updates(c, id)[j..] == [];
      FinishAlone(c, s, i);
    } else {
      var t := AfterUpdate(c, s, i, id, Updates(c, id)[j], Working(id, at, j + 1, None));
      WriteAlone(c, s, i, id, at, j, t, RestOf(c, s, i, id, j));
      assert t.pcs[i] == Working(id, at, j + 1, None);
      RestAlone(c, t, i, id, at, j + 1);
      RestJoin(c, s, t, i, id, j, t.pcs[i]);
    }
  }

  lemma RestJoin(c: Scenario, s: State, t: State, i: nat, id: nat, j: nat, pc: Pc)
    requires Fits(c, s) && i < c.n && j < |Updates(c, id)|
    requires t == AfterUpdate(c, s, i, id, Updates(c, id)[j], pc)
    ensures RestOf(c, t, i, id, j + 1) == RestOf(c, s, i, id, j)
  {
    var w := Updates(c, id);
    assert w[j..] == [w[j]] + w[j + 1..];
    ReplayOne(c, s.mem, i, w[j]);
    ReplaySplit(c, s.mem, i, [w[j]], w[j + 1..]);
    var one, rest := Replay(c, s.mem, i, [w[j]]), Replay(c, t.mem, i, w[j + 1..]);
    assert one.rows == [one.rows[0]];
    assert EventsOf(id, one.rows + rest.rows) == [EventOf(id, one.rows[0])] + EventsOf(id, rest.rows);
    assert t.log + EventsOf(id, rest.rows) == s.log + EventsOf(id, one.rows + rest.rows);
    assert t.pcs[i := AtTest] == s.pcs[i := AtTest];
  }

  /** What one message leaves behind: history, scores, and the record of both. */
  function AfterMessage(c: Scenario, s: State, i: nat, id: nat): State
    requires Fits(c, s) && i < c.n
  {
    var r := Replay(c, s.mem, i, Performed(c, id));
    if r.rows == [] then AfterRest(s, i, id, r)
    else
      var entry := HostScore(id, c.job(id).score, s.clock);
      AfterRest(s.(scores := s.scores[Key(c, id) := entry],
                   log := s.log + [EventOf(id, r.rows[0]), Scored(Key(c, id), entry, s.clock)]),
                i, id, Outcome(r.mem, r.rows[1..]))
  }

  /** State s once consumer i has recorded its score and gone on to pc. */
  function AfterScore(c: Scenario, s: State, i: nat, id: nat, at: int, pc: Pc): State
    requires Fits(c, s) && i < c.n
  {
    var entry := HostScore(id, c.job(id).score, at);
    s.(scores := s.scores[Key(c, id) := entry], log := s.log + [Scored(Key(c, id), entry, s.clock)],
       pcs := s.pcs[i := pc])
  }

  /** Recording the score: one step. */
  lemma RecordAlone(c: Scenario, s: State, i: nat, id: nat, at: int, t: State, end: State)
    requires Fits(c, s) && i < c.n && s.pcs[i] == Scoring(id, at)
    requires t == AfterScore(c, s, i, id, at, Connecting(id, at))
    ensures Fits(c, t) && (LeadsTo(c, t, i, end) ==> LeadsTo(c, s, i, end))
  {
    assert t == Step(c, s, i);
    SoloNext(c, s, i, t, end);
  }

  /** Getting a connection: one step. */
  lemma ConnectAlone(c: Scenario, s: State, i: nat, id: nat, at: int, t: State, end: State)
    requires Fits(c, s) && i < c.n && s.pcs[i] == Connecting(id, at) && c.connects(id)
    requires t == s.(pcs := s.pcs[i := Working(id, at, 1, None)])
    ensures Fits(c, t) && (LeadsTo(c, t, i, end) ==> LeadsTo(c, s, i, end))
  {
    assert t == Step(c, s, i);
    SoloNext(c, s, i, t, end);
  }

  /** From connecting to the end of the message. */
  lemma DetailsAlone(c: Scenario, s: State, i: nat, id: nat, at: int)
    requires Fits(c, s) && i < c.n && s.pcs[i] == Connecting(id, at)
    ensures LeadsTo(c, s, i, AfterRest(s, i, id, Replay(c, s.mem, i, Performed(c, id)[1..])))
  {
    if c.connects(id) {
      var t := s.(pcs := s.pcs[i := Working(id, at, 1, None)]);
      ConnectAlone(c, s, i, id, at, t, RestOf(c, t, i, id, 1));
      RestAlone(c, t, i, id, at, 1);
      assert t.pcs[i := AtTest] == s.pcs[i := AtTest];
    } else {
      FinishAlone(c, s, i);
      assert Performed(c, id)[1..] == [];
    }
  }

  /** From popping a message to connecting to the database. */
  lemma SnapshotAlone(c: Scenario, s: State, i: nat, id: nat, t: State, u: State, v: State, end: State)
    requires Fits(c, s) && i < c.n && s.pcs[i] == Holding(id) && Updates(c, id) != []
    requires t == s.(pcs := s.pcs[i := Working(id, s.clock, 0, None)]) && Fits(c, t)
    requires u == AfterUpdate(c, t, i, id, Updates(c, id)[0], Scoring(id, s.clock)) && Fits(c, u)
    requires v == AfterScore(c, u, i, id, s.clock, Connecting(id, s.clock)) && Fits(c, v)
    requires LeadsTo(c, v, i, end)
    ensures LeadsTo(c, s, i, end)
  {
    RecordAlone(c, u, i, id, s.clock, v, end);
    WriteAlone(c, t, i, id, s.clock, 0, u, end);
    assert t == Step(c, s, i);
    SoloNext(c, s, i, t, end);
  }

  lemma MessageAlone(c: Scenario, s: State, i: nat, id: nat)
    requires Fits(c, s) && i < c.n && s.pcs[i] == Holding(id) && Updates(c, id) != []
    ensures LeadsTo(c, s, i, AfterMessage(c, s, i, id))
  {
    var t := s.(pcs := s.pcs[i := Working(id, s.clock, 0, None)]);
    var u := AfterUpdate(c, t, i, id, Updates(c, id)[0], Scoring(id, s.clock));
    var v := AfterScore(c, u, i, id, s.clock, Connecting(id, s.clock));
    DetailsAlone(c, v, i, id, s.clock);
    assert v.pcs[i := AtTest] == s.pcs[i := AtTest];
    MessageJoin(c, s, t, u, v, i, id);
    SnapshotAlone(c, s, i, id, t, u, v, AfterMessage(c, s, i, id));
  }

  /** A consumer that has popped a message and runs on alone gets back to the top of its loop, and what it has then
      changed is exactly the replay of the message's updates, its score, and nothing else. */
  lemma Undisturbed(c: Scenario, acts: seq<Action>, s: State, i: nat) returns (acts': seq<Action>)
    requires Run(c, acts) == Some(s) && i < c.n && s.pcs[i].Holding?
    ensures OnlyConsumer(acts, acts', i) && Run(c, acts') == Some(AfterMessage(c, s, i, s.pcs[i].id))
  {
    var id := s.pcs[i].id;
    var end := AfterMessage(c, s, i, id);
    if Updates(c, id) == [] {
      FinishAlone(c, s, i);
    } else {
      MessageAlone(c, s, i, id);
    }
    assert LeadsTo(c, s, i, end);
    var k: nat :| Solo(c, s, i, k) == Some(end);
    acts' := SoloRuns(c, acts, s, i, k);
  }

  lemma MessageJoin(c: Scenario, s: State, t: State, u: State, v: State, i: nat, id: nat)
    requires Fits(c, s) && Fits(c, t) && Fits(c, u) && i < c.n && Updates(c, id) != []
    requires t == s.(pcs := t.pcs)
    requires u == AfterUpdate(c, t, i, id, Updates(c, id)[0], u.pcs[i])
    requires |v.pcs| == c.n && v == AfterScore(c, u, i, id, s.clock, v.pcs[i])
    requires v.pcs[i := AtTest] == s.pcs[i := AtTest]
    ensures AfterRest(v, i, id, Replay(c, v.mem, i, Performed(c, id)[1..])) == AfterMessage(c, s, i, id)
  {
    var w := Performed(c, id);
    assert w == [w[0]] + w[1..];
    ReplayOne(c, s.mem, i, w[0]);
    ReplaySplit(c, s.mem, i, [w[0]], w[1..]);
    var r := Replay(c, s.mem, i, w);
    assert r.rows[1..] == Replay(c, v.mem, i, w[1..]).rows;
    var score := Scored(Key(c, id), HostScore(id, c.job(id).score, s.clock), s.clock);
    assert s.log + [EventOf(id, r.rows[0])] + [score] == s.log + [EventOf(id, r.rows[0]), score];
  }

  // ---- The class ----

  /** What history accesses depend on: the thread count and the hash. */
  ghost function EnvOf(n: Pos, hash: string -> nat): Scenario {
    Scenario(n, (key: string) => hash(key) % n, (k: nat) => Job("", "", 0.0, []), (k: nat) => true)
  }

  lemma {:induction false} SameSlots(c: Scenario, d: Scenario, mem: Memory, i: nat, w: seq<Update>)
    requires c.n == d.n && forall key :: Slot(c, key) == Slot(d, key)
    requires Sized(c, mem) && i < c.n
    ensures Replay(c, mem, i, w) == Replay(d, mem, i, w)
  {
    if w != [] {
      SameSlots(c, d, mem, i, w[..|w| - 1]);
    }
  }

  /** The replay that Undisturbed finds in a run of a deployment is the one ProcessData is proved to perform. */
  lemma MachineAgrees(
    n: Pos, hash: string -> nat, message: nat -> MonitorInfo, connects: nat -> bool, mem: Memory, i: nat, id: nat)
    requires |mem.shards| == |mem.locals| == n && i < n
    ensures var c := Deployment(n, hash, message, connects);
            Replay(c, mem, i, Performed(c, id))
            == Replay(EnvOf(n, hash), mem, i, Kept(UpdatesOf(message(id)), connects(id)))
  {
    var c := Deployment(n, hash, message, connects);
    forall key
      ensures Slot(c, key) == Slot(EnvOf(n, hash), key)
    {
      SlotIsHashModulo(n, hash, message, connects, key);
    }
    SameSlots(c, EnvOf(n, hash), mem, i, Performed(c, id));
  }

  /** Replaying v and then w. */
  lemma Then(c: Scenario, start: Memory, i: nat, v: seq<Update>, one: Outcome, w: seq<Update>, two: Outcome)
    requires Sized(c, start) && i < c.n
    requires one == Replay(c, start, i, v) && two == Replay(c, one.mem, i, w)
    ensures Outcome(two.mem, one.rows + two.rows) == Replay(c, start, i, v + w)
  {
    ReplaySplit(c, start, i, v, w);
  }

  /** The score table after a message picked up at time now. */
  function Recorded(
    scores: map<string, HostScore<MonitorInfo>>, m: MonitorInfo, now: int): map<string, HostScore<MonitorInfo>>
  {
    if StoreKey(m) == "" then scores else scores[StoreKey(m) := HostScore(m, Score.CalcScore(m), now)]
  }

  /** The machine's score table with the messages in place of their numbers. */
  function Named(message: nat -> MonitorInfo, scores: map<string, HostScore<nat>>)
    : map<string, HostScore<MonitorInfo>>
  {
    map host | host in scores :: HostScore(message(scores[host].message), scores[host].score, scores[host].at)
  }

  /** What Undisturbed finds in the machine's score table is what ProcessData is proved to leave, and what the
      sweeper leaves in it is what Sweep is proved to leave. */
  lemma MachineScoresAgree(
    n: Pos, hash: string -> nat, message: nat -> MonitorInfo, connects: nat -> bool, s: State, i: nat, id: nat)
    requires Fits(Deployment(n, hash, message, connects), s) && i < n
    ensures Named(message, AfterMessage(Deployment(n, hash, message, connects), s, i, id).scores)
            == Recorded(Named(message, s.scores), message(id), s.clock)
    ensures forall now :: Named(message, Fresh(s.scores, now)) == Fresh(Named(message, s.scores), now)
  {
    var c := Deployment(n, hash, message, connects);
    var t, m := AfterMessage(c, s, i, id), message(id);
    assert c.job(id) == JobOf(m);
    JobSays(m);
    assert t.scores == if StoreKey(m) == "" then s.scores
                       else s.scores[StoreKey(m) := HostScore(id, Score.CalcScore(m), s.clock)];
    NamedUpdate(message, s.scores, StoreKey(m), id, Score.CalcScore(m), s.clock);
  }

  lemma NamedUpdate(
    message: nat -> MonitorInfo, scores: map<string, HostScore<nat>>, host: string, id: nat, score: real, at: int)
    ensures Named(message, scores[host := HostScore(id, score, at)])
            == Named(message, scores)[host := HostScore(message(id), score, at)]
  {
  }

  /** The rows written for a message, against the message: its snapshot first, and on a database connection its
      utilisation and details. */
  ghost predicate RowsSay(rows: seq<Row>, m: MonitorInfo, connected: bool) {
    if StoreKey(m) == "" then rows == []
    else
      && rows != [] && rows[0].cell == Cell(Perf, StoreKey(m), "") && SnapshotSays(rows[0].sample, m)
      && if connected then DetailsSay(UpdatesIn(rows[1..]), m) else |rows| == 1
  }

  lemma ReplaySays(c: Scenario, mem: Memory, i: nat, m: MonitorInfo, connected: bool)
    requires Sized(c, mem) && i < c.n
    ensures RowsSay(Replay(c, mem, i, Kept(UpdatesOf(m), connected)).rows, m, connected)
  {
    var w := Kept(UpdatesOf(m), connected);
    var rows := Replay(c, mem, i, w).rows;
    ReplayRows(c, mem, i, w);
    KeptParts(m, connected);
    if w != [] {
      PerfSampleSays(m);
      DatabaseUpdatesSay(m);
      FirstAndRest(rows, w);
      assert connected ==> w[1..] == DatabaseUpdates(m);
    }
  }

  lemma FirstAndRest(rows: seq<Row>, w: seq<Update>)
    requires UpdatesIn(rows) == w != []
    ensures rows[0].cell == w[0].cell && rows[0].sample == w[0].sample && UpdatesIn(rows[1..]) == w[1..]
  {
    assert UpdatesIn(rows)[0] == Update(rows[0].cell, rows[0].sample);
    assert UpdatesIn(rows[1..]) == UpdatesIn(rows)[1..];
  }

  /** One step of queue k, and of no other. */
  function At<T>(states: seq<SafeQueues.QState<T>>, k: nat, a: SafeQueues.QAction<T>): seq<SafeQueues.QState<T>>
    requires k < |states|
  {
    states[k := SafeQueues.Next(states[k], a)]
  }

  /** A queue with its stop flag set and nobody asleep. */
  function StoppedState<T>(q: SafeQueues.QState<T>): SafeQueues.QState<T> {
    SafeQueues.Next(q, SafeQueues.QAction.Stop)
  }

  /** The first k of these queues stopped. */
  function Stopped<T>(qs: seq<SafeQueues.QState<T>>, k: nat): (r: seq<SafeQueues.QState<T>>) {
    seq(|qs|, i requires 0 <= i < |qs| => if i < k then StoppedState(qs[i]) else qs[i])
  }

  lemma StoppedNext<T>(qs: seq<SafeQueues.QState<T>>, k: nat)
    requires k < |qs|
    ensures |Stopped(qs, k)| == |qs| && Stopped(qs, k)[k] == qs[k]
    ensures At(Stopped(qs, k), k, SafeQueues.QAction.Stop) == Stopped(qs, k + 1)
  {
  }

  lemma StoppedNone<T>(qs: seq<SafeQueues.QState<T>>)
    ensures Stopped(qs, 0) == qs
  {
  }

  class HostManager {
    const threads: Pos
    const hash: string -> nat
    var running: bool
    var queues: seq<Queue>
    var memory: Memory
    var scores: map<string, HostScore<MonitorInfo>>
    var consumers: seq<nat>        // the queue each consumer thread was started for, until it is joined
    var sweeping: bool             // whether there is a sweeper thread to be joined

    ghost function Env(): Scenario {
      EnvOf(threads, hash)
    }

    function Slot(key: string): (k: nat)
      ensures k < threads && k == Ingest.Slot(Env(), key)
    {
      hash(key) % threads
    }

    ghost predicate Valid()
      reads this, queues
    {
      && |queues| == threads && Sized(Env(), memory) && QueuesValid()
      && forall host | host in scores :: host != "" && 0.0 <= scores[host].score <= 100.0
    }

    /** A thread count below one becomes one.  Every queue gets its consumer thread. */
    constructor (threadCount: nat, hash: string -> nat)
      ensures Valid() && !running && threads == (if threadCount < 1 then 1 else threadCount) && this.hash == hash
      ensures memory == Init(Env()).mem && scores == map[] && !sweeping
      ensures |consumers| == threads && forall i | 0 <= i < threads :: consumers[i] == i
      ensures fresh(queues) && forall i | 0 <= i < |queues| :: queues[i].State() == SafeQueues.Fresh()
    {
      var n: Pos := if threadCount < 1 then 1 else threadCount;
      var qs: seq<Queue> := [];
      var started: seq<nat> := [];
      while |qs| < n
        invariant |qs| == |started| <= n && fresh(qs)
        invariant forall i | 0 <= i < |started| :: started[i] == i
        invariant forall i, j | 0 <= i < j < |qs| :: qs[i] != qs[j]
        invariant forall i | 0 <= i < |qs| :: qs[i].Valid() && qs[i].State() == SafeQueues.Fresh()
      {
        var q := new SafeQueues.SafeQueue<MonitorInfo>();
        started := started + [|qs|];
        qs := qs + [q];
      }
      this.threads, this.hash := n, hash;
      running, queues, scores := false, qs, map[];
      consumers, sweeping := started, false;
      memory := Memory(seq(n, _ => map[]), seq(n, _ => map[]));
    }

    /** Starting over a sweeper that was not joined ends the program. */
    method Start()
      requires Valid() && !sweeping
      modifies this`running, this`sweeping
      ensures Valid() && running && sweeping
    {
      running, sweeping := true, true;
    }

    ghost predicate QueuesValid()
      reads this`queues, queues
    {
      && (forall i, j | 0 <= i < j < |queues| :: queues[i] != queues[j])
      && forall i | 0 <= i < |queues| :: queues[i].Valid()
    }

    /** The states of all queues. */
    ghost function States(): (states: seq<SafeQueues.QState<MonitorInfo>>)
      reads this`queues, queues
      ensures |states| == |queues| && forall i | 0 <= i < |queues| :: states[i] == queues[i].State()
    {
      var qs := queues;
      seq(|qs|, i requires 0 <= i < |qs| reads qs => qs[i].State())
    }

    /** woken: the thread the push wakes, if any sleeps there. */
    method PushTo(k: nat, info: MonitorInfo) returns (ghost woken: nat)
      requires QueuesValid() && k < |queues|
      modifies queues[k]
      ensures QueuesValid() && SafeQueues.Enabled(old(States()[k]), SafeQueues.QAction.Push(info, woken))
      ensures States() == At(old(States()), k, SafeQueues.QAction.Push(info, woken))
    {
      woken :| queues[k].asleep == {} || woken in queues[k].asleep;
      queues[k].Push(info, woken);
    }

    method PopFrom(k: nat) returns (r: SafeQueues.Outcome<MonitorInfo>)
      requires QueuesValid() && k < |queues| && k !in States()[k].asleep
      modifies queues[k]
      ensures QueuesValid() && r == SafeQueues.PopOutcome(old(States()[k]))
      ensures States() == At(old(States()), k, SafeQueues.QAction.Pop(k))
    {
      r := queues[k].TryPop(k);
    }

    method StopQueue(k: nat)
      requires QueuesValid() && k < |queues|
      modifies queues[k]
      ensures QueuesValid() && States() == At(old(States()), k, SafeQueues.QAction.Stop)
    {
      queues[k].Stop();
    }

    /** Stops every queue and joins all threads, unless the manager is not running; no message is touched. */
    method Stop()
      requires Valid()
      modifies this`running, this`consumers, this`sweeping, queues
      ensures Valid() && !running
      ensures if old(running) then consumers == [] && !sweeping
              else consumers == old(consumers) && sweeping == old(sweeping)
      ensures States() == Stopped(old(States()), if old(running) then threads else 0)
    {
      StoppedNone(States());
      if !running {
        return;
      }
      running := false;
      StopQueues();
      consumers, sweeping := [], false;
    }

    method StopQueues()
      requires QueuesValid()
      modifies queues
      ensures QueuesValid() && States() == Stopped(old(States()), |queues|)
    {
      ghost var before := States();
      StoppedNone(before);
      var k := 0;
      while k < |queues|
        invariant 0 <= k <= |queues| && QueuesValid()
        invariant States() == Stopped(before, k)
      {
        StoppedNext(before, k);
        StopQueue(k);
        k := k + 1;
      }
    }

    /** The queue a message belongs to: the one its route key hashes to, or queue 0 if it has none. */
    function Target(info: MonitorInfo): (q: nat)
      ensures q < threads
    {
      if RouteKey(info) == "" then 0 else Slot(RouteKey(info))
    }

    /** Routes a message: it is pushed to its queue, which wakes one of the threads asleep there, if any; no other
        queue changes. */
    method OnDataReceived(info: MonitorInfo) returns (ghost woken: nat)
      requires Valid()
      modifies queues
      ensures Valid()
      ensures var q, push := Target(info), SafeQueues.QAction.Push(info, woken);
              SafeQueues.Enabled(old(States()[q]), push) && States() == At(old(States()), q, push)
    {
      var name := info.name;
      if info.hostInfo.Some? && info.hostInfo.value.hostname != "" {
        name := info.hostInfo.value.hostname;
      }
      var index := if name == "" then 0 else Slot(name);
      if index < |queues| {
        woken := PushTo(index, info);
      }
    }

    /** One history entry: rate it against the stored one, then store it. */
    method Write(i: nat, cell: Cell, sample: Sample) returns (row: Row)
      requires Sized(Env(), memory) && i < threads
      modifies this`memory
      ensures Sized(Env(), memory)
      ensures Outcome(memory, [row]) == Replay(Env(), old(memory), i, [Update(cell, sample)])
    {
      ReplayOne(Env(), memory, i, Update(cell, sample));
      var last := FRESH;
      if cell.table.Util? {
        var local := memory.locals[i];
        if cell in local {
          last := local[cell];
        }
        memory := memory.(locals := memory.locals[i := local[cell := sample]]);
      } else {
        var k := Slot(cell.host);
        var shard := memory.shards[k];
        if cell in shard {
          last := shard[cell];
        }
        memory := memory.(shards := memory.shards[k := shard[cell := sample]]);
      }
      row := Row(cell, sample, RatesOf(sample, last));
    }

    /** The entries of one table, one after the other. */
    method WriteAll(i: nat, w: seq<Update>) returns (rows: seq<Row>)
      requires Sized(Env(), memory) && i < threads
      modifies this`memory
      ensures Sized(Env(), memory) && Outcome(memory, rows) == Replay(Env(), old(memory), i, w)
    {
      ghost var c, start := Env(), memory;
      rows := [];
      var k := 0;
      while k < |w|
        invariant 0 <= k <= |w| && Sized(c, memory)
        invariant Outcome(memory, rows) == Replay(c, start, i, w[..k])
      {
        ghost var before := Outcome(memory, rows);
        var row := Write(i, w[k].cell, w[k].sample);
        Then(c, start, i, w[..k], before, [w[k]], Outcome(memory, [row]));
        assert w[..k + 1] == w[..k] + [w[k]];
        rows := rows + [row];
        k := k + 1;
      }
      assert w[..k] == w;
    }

    /** WriteToMysql on thread i, once connected. */
    method WriteDetails(i: nat, info: MonitorInfo) returns (rows: seq<Row>)
      requires Sized(Env(), memory) && i < threads
      modifies this`memory
      ensures Sized(Env(), memory) && Outcome(memory, rows) == Replay(Env(), old(memory), i, DatabaseUpdates(info))
    {
      var host := StoreKey(info);
      ghost var c, start, w := Env(), memory, [Update(UtilCell(host), UtilSample(info))];
      var row := Write(i, UtilCell(host), UtilSample(info));
      rows := [row];
      var tables := [NetUpdates(host, info.netInfo), SoftIrqUpdates(host, info.softIrq),
                     MemUpdates(host, info.memInfo), DiskUpdates(host, info.diskInfo)];
      ghost var before := Outcome(memory, rows);
      var more := WriteAll(i, tables[0]);
      Then(c, start, i, w, before, tables[0], Outcome(memory, more));
      rows, w, before := rows + more, w + tables[0], Outcome(memory, rows + more);
      more := WriteAll(i, tables[1]);
      Then(c, start, i, w, before, tables[1], Outcome(memory, more));
      rows, w, before := rows + more, w + tables[1], Outcome(memory, rows + more);
      more := WriteAll(i, tables[2]);
      Then(c, start, i, w, before, tables[2], Outcome(memory, more));
      rows, w, before := rows + more, w + tables[2], Outcome(memory, rows + more);
      more := WriteAll(i, tables[3]);
      Then(c, start, i, w, before, tables[3], Outcome(memory, more));
      rows := rows + more;
    }

    /** The identifier a message is stored under, "" if it has none.  Unless the message carries an address alone,
        it starts with the route key; and it gives the route key back if that has no underscore. */
    method Identify(info: MonitorInfo) returns (host: string)
      ensures host == StoreKey(info)
      ensures host == "" <==> RouteKey(info) == "" && !AddressOnly(info)
      ensures !AddressOnly(info) ==>
                RouteKey(info) <= host && (HostPart(host) == RouteKey(info) <==> '_' !in RouteKey(info))
    {
      RouteFromStore(info);
      host := "";
      if info.hostInfo.Some? {
        var hostname, ip := info.hostInfo.value.hostname, info.hostInfo.value.ipAddress;
        if hostname != "" && ip != "" {
          host := hostname + "_" + ip;
        } else if hostname != "" {
          host := hostname;
        } else if ip != "" {
          host := ip;
        }
      }
      if host == "" {
        host := info.name;
      }
    }

    /** The performance snapshot, field by field. */
    method Snapshot(info: MonitorInfo) returns (s: Sample)
      ensures s == PerfSample(info)
    {
      var cpu, load := CpuStat(0.0, 0.0, 0.0, 0.0, 0.0, 0.0, 0.0, 0.0), CpuLoad(0.0, 0.0, 0.0);
      var used, total, free, avail, netIn, netOut := 0.0, 0.0, 0.0, 0.0, 0.0, 0.0;
      if |info.netInfo| > 0 {
        netIn := info.netInfo[0].rcvRate / (1024.0 * 1024.0);
        netOut := info.netInfo[0].sendRate / (1024.0 * 1024.0);
      }
      if |info.cpuStat| > 0 {
        cpu := info.cpuStat[0];
      }
      if info.cpuLoad.Some? {
        load := info.cpuLoad.value;
      }
      if info.memInfo.Some? {
        used, total := info.memInfo.value.usedPercent, info.memInfo.value.total;
        free, avail := info.memInfo.value.free, info.memInfo.value.avail;
      }
      s := Sample([cpu.cpuPercent, cpu.usrPercent, cpu.systemPercent, cpu.nicePercent, cpu.idlePercent,
                   cpu.ioWaitPercent, cpu.irqPercent, cpu.softIrqPercent, load.loadAvg1, load.loadAvg3, load.loadAvg15,
                   used, total, free, avail, netIn, netOut], []);
    }

    /** Thread i processes a message at time now; connected: whether the database can be reached. */
    method ProcessData(i: nat, info: MonitorInfo, now: int, connected: bool) returns (rows: seq<Row>)
      requires Valid() && i < threads
      modifies this`memory, this`scores
      ensures Valid()
      ensures Outcome(memory, rows) == Replay(Env(), old(memory), i, Kept(UpdatesOf(info), connected))
      ensures scores == Recorded(old(scores), info, now)
      ensures RowsSay(rows, info, connected)
    {
      ReplaySays(Env(), memory, i, info, connected);
      var host := Identify(info);
      rows := [];
      if host != "" {
        rows := ProcessHost(i, host, info, now, connected);
      }
    }

    /** The same for a message that has an identifier. */
    method ProcessHost(i: nat, host: string, info: MonitorInfo, now: int, connected: bool) returns (rows: seq<Row>)
      requires Valid() && i < threads && host == StoreKey(info) && host != ""
      modifies this`memory, this`scores
      ensures Valid()
      ensures Outcome(memory, rows) == Replay(Env(), old(memory), i, Kept(UpdatesOf(info), connected))
      ensures scores == Recorded(old(scores), info, now)
    {
      KeptParts(info, connected);
      ghost var c, start, first := Env(), memory, Update(PerfCell(host), PerfSample(info));
      var row := RecordSnapshot(i, host, info, now);
      rows := [row];
      if !connected {
        return;
      }
      ghost var before := Outcome(memory, rows);
      var details := WriteDetails(i, info);
      Then(c, start, i, [first], before, DatabaseUpdates(info), Outcome(memory, details));
      rows := rows + details;
    }

    /** The snapshot and the score. */
    method RecordSnapshot(i: nat, host: string, info: MonitorInfo, now: int) returns (row: Row)
      requires Valid() && i < threads && host == StoreKey(info) && host != ""
      modifies this`memory, this`scores
      ensures Valid() && scores == Recorded(old(scores), info, now)
      ensures Outcome(memory, [row]) == Replay(Env(), old(memory), i, [Update(PerfCell(host), PerfSample(info))])
    {
      var score := Score.ComputeScore(info);
      var curr := Snapshot(info);
      row := Write(i, PerfCell(host), curr);
      scores := scores[host := HostScore(info, score, now)];
    }

    /** The body of ConsumeMessage's loop on thread i: what is popped, and nothing else, is processed.  Waits means
        that the thread went to sleep in Pop. */
    method Consume(i: nat, now: int, connected: bool) returns (r: SafeQueues.Outcome<MonitorInfo>, rows: seq<Row>)
      requires Valid() && i < threads && i !in States()[i].asleep
      modifies this`memory, this`scores, queues[i]
      ensures Valid() && r == SafeQueues.PopOutcome(old(queues[i].State()))
      ensures States() == At(old(States()), i, SafeQueues.QAction.Pop(i))
      ensures !r.Taken? ==> rows == [] && memory == old(memory) && scores == old(scores)
      ensures r.Taken? ==> Outcome(memory, rows) == Replay(Env(), old(memory), i, Kept(UpdatesOf(r.value), connected))
      ensures r.Taken? ==> scores == Recorded(old(scores), r.value, now)
    {
      rows := [];
      r := PopFrom(i);
      if r.Taken? {
        rows := ProcessData(i, r.value, now, connected);
      }
    }

    /** One pass of ProcessLoop at time now, erasing while iterating over the entries in any order: what is left is
        the table filtered by age. */
    method Sweep(now: int)
      requires Valid()
      modifies this`scores
      ensures Valid() && scores == Fresh(old(scores), now)
    {
      var rest := scores.Keys;
      while rest != {}
        invariant rest <= scores.Keys <= old(scores).Keys
        invariant forall host | host in scores :: scores[host] == old(scores)[host]
        invariant forall host | host in old(scores) ::
                    host in scores <==> host in rest || !Stale(now, old(scores)[host].at)
        decreases rest
      {
        var host :| host in rest;
        rest := rest - {host};
        if Stale(now, scores[host].at) {
          scores := scores - {host};
        }
      }
    }

    /** For every order of iteration: a host no other host outscores, and "" exactly if there is no host. */
    method GetBestHost() returns (best: string)
      requires Valid()
      ensures best == "" <==> scores == map[]
      ensures best != "" ==> best in scores && forall host | host in scores :: scores[host].score <= scores[best].score
    {
      best := "";
      var bestScore := -1.0;
      var rest := scores.Keys;
      while rest != {}
        invariant rest <= scores.Keys
        invariant best == "" <==> rest == scores.Keys
        invariant if best == "" then bestScore == -1.0 else best in scores && bestScore == scores[best].score
        invariant forall host | host in scores && host !in rest :: scores[host].score <= bestScore
        decreases rest
      {
        var host :| host in rest;
        rest := rest - {host};
        if scores[host].score > bestScore {
          best, bestScore := host, scores[host].score;
        }
      }
    }
  }
}

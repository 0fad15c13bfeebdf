/** The central result: under every interleaving the concurrent pipeline computes, for each host whose messages
    all go to one queue, exactly what one sequential pass over that host's messages computes. */
module IngestHistory {
  import opened Messages
  import opened Rates
  import opened Samples
  import opened Ingest
  import opened IngestQueues

  /** One recorded write to a history entry: by which message, and what. */
  datatype Entry = Entry(id: nat, sample: Sample)

  /** All jobs are lawful (as those of messages are). */
  ghost predicate LawfulJobs(c: Scenario) {
    forall id: nat :: Lawful(c.job(id))
  }

  lemma DeploymentLawful(n: Pos, hash: string -> nat, message: nat -> MonitorInfo, connects: nat -> bool)
    ensures LawfulJobs(Deployment(n, hash, message, connects))
  {
    forall id: nat
      ensures Lawful(Deployment(n, hash, message, connects).job(id))
    {
      assert Deployment(n, hash, message, connects).job(id) == JobOf(message(id));
    }
  }

  /** Every one of the first `count` messages stored under `host` is routed to queue q. */
  ghost predicate OneQueue(c: Scenario, count: nat, host: string, q: nat) {
    q < c.n && forall id: nat | id < count && Key(c, id) == host :: QueueOf(c, id) == q
  }

  // ---- What the run wrote ----

  predicate Concerns(e: Event, x: Cell) {
    e.Wrote? && e.cell == x
  }

  /** The writes to cell x, oldest first. */
  function Entries(log: seq<Event>, x: Cell): seq<Entry> {
    if log == [] then []
    else
      var es, e := Entries(log[..|log| - 1], x), log[|log| - 1];
      if Concerns(e, x) then es + [Entry(e.id, e.sample)] else es
  }

  /** The change rates emitted for cell x, oldest first. */
  function RatesAt(log: seq<Event>, x: Cell): seq<RateRow> {
    if log == [] then []
    else
      var rs, e := RatesAt(log[..|log| - 1], x), log[|log| - 1];
      if Concerns(e, x) then rs + [e.rates] else rs
  }

  lemma LogSnoc(log: seq<Event>, e: Event, x: Cell)
    ensures !Concerns(e, x) ==> Entries(log + [e], x) == Entries(log, x) && RatesAt(log + [e], x) == RatesAt(log, x)
    ensures Concerns(e, x) ==> Entries(log + [e], x) == Entries(log, x) + [Entry(e.id, e.sample)]
                               && RatesAt(log + [e], x) == RatesAt(log, x) + [e.rates]
  {
  }

  function SamplesOf(es: seq<Entry>): (xs: seq<Sample>)
    ensures |xs| == |es|
  {
    seq(|es|, k requires 0 <= k < |es| => es[k].sample)
  }

  // ---- What a sequential pass over the messages writes ----

  /** The writes to cell x among the updates w of message id, in order. */
  function Hits(id: nat, w: seq<Update>, x: Cell): (es: seq<Entry>)
    ensures |es| == |SamplesFor(w, x)|
  {
    var xs := SamplesFor(w, x);
    seq(|xs|, k requires 0 <= k < |xs| => Entry(id, xs[k]))
  }

  /** The sequential reference: process the first `count` messages one after the other. */
  function Stream(c: Scenario, count: nat, x: Cell): seq<Entry> {
    if count == 0 then [] else Stream(c, count - 1, x) + Hits(count - 1, Performed(c, count - 1), x)
  }

  /** The same for a given list of messages. */
  function Contributions(c: Scenario, ids: seq<nat>, x: Cell): seq<Entry> {
    if ids == [] then []
    else
      var id := ids[|ids| - 1];
      Contributions(c, ids[..|ids| - 1], x) + Hits(id, Performed(c, id), x)
  }

  /** A message stored under another host contributes nothing. */
  lemma OtherHostHitsNothing(c: Scenario, id: nat, x: Cell)
    requires LawfulJobs(c) && Key(c, id) != x.host
    ensures Hits(id, Performed(c, id), x) == []
  {
    assert Lawful(c.job(id));
    assert forall u | u in Performed(c, id) :: u in Updates(c, id);
    NoSamples(Performed(c, id), x);
  }

  lemma ContributionsSnoc(c: Scenario, ids: seq<nat>, id: nat, x: Cell)
    ensures Contributions(c, ids + [id], x) == Contributions(c, ids, x) + Hits(id, Performed(c, id), x)
  {
  }

  lemma Join(a: seq<Entry>, b: seq<Entry>, d: seq<Entry>)
    ensures (a + b) + d == a + (b + d)
  {
  }

  lemma {:induction false} ContributionsSplit(c: Scenario, a: seq<nat>, b: seq<nat>, x: Cell)
    ensures Contributions(c, a + b, x) == Contributions(c, a, x) + Contributions(c, b, x)
  {
    if b == [] {
      assert a + b == a;
    } else {
      var init, id := b[..|b| - 1], b[|b| - 1];
      assert a + b == (a + init) + [id] && b == init + [id];
      ContributionsSplit(c, a, init, x);
      ContributionsSnoc(c, a + init, id, x);
      ContributionsSnoc(c, init, id, x);
      Join(Contributions(c, a, x), Contributions(c, init, x), Hits(id, Performed(c, id), x));
    }
  }

  /** When one queue carries all of a host's messages, the reference pass is a pass over that queue alone. */
  lemma {:induction false} StreamIsQueue(c: Scenario, count: nat, x: Cell, q: nat)
    requires LawfulJobs(c) && OneQueue(c, count, x.host, q)
    ensures Stream(c, count, x) == Contributions(c, Routed(c, count, q), x)
  {
    if count > 0 {
      var id: nat :| id + 1 == count;
      StreamIsQueue(c, id, x, q);
      if QueueOf(c, id) == q {
        StreamOwn(c, id, x, q);
      } else {
        assert Key(c, id) != x.host;
        OtherHostHitsNothing(c, id, x);
        StreamOther(c, id, x, q);
      }
    }
  }

  lemma StreamOwn(c: Scenario, id: nat, x: Cell, q: nat)
    requires Stream(c, id, x) == Contributions(c, Routed(c, id, q), x) && QueueOf(c, id) == q
    ensures Stream(c, id + 1, x) == Contributions(c, Routed(c, id + 1, q), x)
  {
  }

  lemma StreamOther(c: Scenario, id: nat, x: Cell, q: nat)
    requires Stream(c, id, x) == Contributions(c, Routed(c, id, q), x)
    requires QueueOf(c, id) != q && Hits(id, Performed(c, id), x) == []
    ensures Stream(c, id + 1, x) == Contributions(c, Routed(c, id + 1, q), x)
  {
  }

  // ---- The invariants ----

  /** How many updates of its message a consumer has already written. */
  function Written(pc: Pc): nat {
    if pc.Working? then pc.j else if pc.Scoring? || pc.Connecting? then 1 else 0
  }

  /** The writes to x by the message in flight. */
  function Partial(c: Scenario, pc: Pc, x: Cell): seq<Entry> {
    if InFlight(pc) && Written(pc) <= |Performed(c, pc.id)| then
      Hits(pc.id, Performed(c, pc.id)[..Written(pc)], x)
    else []
  }

  /** The log holds exactly the writes of the messages a consumer has finished, and of the one it is on. */
  ghost predicate Progress(c: Scenario, log: seq<Event>, done: seq<nat>, pc: Pc, x: Cell) {
    Entries(log, x) == Contributions(c, done, x) + Partial(c, pc, x)
  }

  /** The stored entry is the last one written; what a consumer has read is still what is stored; and the rates
      so far are the chain of the samples so far. */
  ghost predicate Chained(c: Scenario, log: seq<Event>, stored: Sample, pc: Pc, x: Cell)
    requires PcFits(c, pc)
  {
    var xs := SamplesOf(Entries(log, x));
    && RatesAt(log, x) == Chain(xs)
    && stored == Before(xs, |xs|)
    && (Writes(pc) && Updates(c, pc.id)[pc.j].cell == x ==> pc.last.value == stored)
  }

  lemma SaveLoad(c: Scenario, mem: Memory, i: nat, k: nat, x: Cell, y: Cell, v: Sample)
    requires |mem.shards| == |mem.locals| == c.n && i < c.n && k < c.n
    ensures x == y && i == k ==> Load(c, Save(c, mem, i, y, v), k, x) == v
    ensures x != y ==> Load(c, Save(c, mem, i, y, v), k, x) == Load(c, mem, k, x)
  {
  }

  lemma HitsTake(id: nat, w: seq<Update>, j: nat, x: Cell)
    requires j < |w|
    ensures Hits(id, w[..j + 1], x) ==
            if w[j].cell == x then Hits(id, w[..j], x) + [Entry(id, w[j].sample)] else Hits(id, w[..j], x)
  {
    SamplesNext(w, j, x);
  }

  /** Writing update j of message id moves the writes in flight on by it. */
  lemma PartialNext(c: Scenario, pc: Pc, id: nat, j: nat, u: Update, next: Pc, x: Cell)
    requires PcFits(c, pc) && Writes(pc) && pc.id == id && pc.j == j && u == Updates(c, id)[j] && next == AfterWrite(pc)
    ensures Partial(c, next, x) ==
            if u.cell == x then Partial(c, pc, x) + [Entry(id, u.sample)] else Partial(c, pc, x)
  {
    var w := Performed(c, id);
    assert j < |w| && w[j] == u;
    HitsTake(id, w, j, x);
    assert Partial(c, pc, x) == Hits(id, w[..j], x);
    assert Partial(c, next, x) == Hits(id, w[..j + 1], x);
  }

  /** Writing extends the log by the next update of the message in flight. */
  lemma WriteProgress(c: Scenario, log: seq<Event>, done: seq<nat>, pc: Pc, e: Event, next: Pc, x: Cell)
    requires PcFits(c, pc) && Writes(pc) && e == WriteEvent(c, pc) && next == AfterWrite(pc)
    requires Progress(c, log, done, pc, x)
    ensures Progress(c, log + [e], done, next, x)
  {
    var u := Updates(c, pc.id)[pc.j];
    PartialNext(c, pc, pc.id, pc.j, u, next, x);
    LogSnoc(log, e, x);
    Join(Contributions(c, done, x), Partial(c, pc, x), [Entry(pc.id, u.sample)]);
  }

  /** What a writing step changes. */
  lemma StepWrites(c: Scenario, s: State, i: nat)
    requires Fits(c, s) && i < c.n && Writes(s.pcs[i])
    ensures var s', e := Step(c, s, i), WriteEvent(c, s.pcs[i]);
            && s'.log == s.log + [e] && s'.done == s.done && s'.mem == Save(c, s.mem, i, e.cell, e.sample)
            && s'.pcs == s.pcs[i := AfterWrite(s.pcs[i])]
  {
  }

  /** ... and the chain by the sample written. */
  lemma WriteChains(c: Scenario, log: seq<Event>, stored: Sample, pc: Pc, x: Cell)
    requires PcFits(c, pc) && Writes(pc) && Chained(c, log, stored, pc, x)
    ensures Chained(c, log + [WriteEvent(c, pc)],
                    if WriteEvent(c, pc).cell == x then WriteEvent(c, pc).sample else stored, AfterWrite(pc), x)
  {
    var e, es := WriteEvent(c, pc), Entries(log, x);
    LogSnoc(log, e, x);
    if e.cell == x {
      assert SamplesOf(es + [Entry(e.id, e.sample)]) == SamplesOf(es) + [e.sample];
      ChainSnoc(SamplesOf(es), e.sample);
    }
  }

  /** Finishing a message closes its contribution. */
  lemma FinishProgress(c: Scenario, log: seq<Event>, done: seq<nat>, pc: Pc, x: Cell)
    requires PcFits(c, pc) && Finishes(c, pc) && Progress(c, log, done, pc, x)
    ensures Progress(c, log, done + [pc.id], AtTest, x)
  {
    ContributionsSnoc(c, done, pc.id, x);
    assert Performed(c, pc.id)[..Written(pc)] == Performed(c, pc.id);
  }

  /** A step that neither writes nor finishes leaves the writes of the message in flight as they are. */
  lemma QuietPartial(c: Scenario, s: State, q: nat, x: Cell)
    requires Fits(c, s) && Enabled(c, s, Consumer(q)) && q < c.n
    requires !Writes(s.pcs[q]) && !Finishes(c, s.pcs[q])
    ensures Partial(c, NextPc(c, s, q), x) == Partial(c, s.pcs[q], x)
  {
  }

  /** Both invariants of a history cell x whose host is served by queue q. */
  ghost predicate HistoryOk(c: Scenario, s: State, x: Cell, q: nat)
    requires Fits(c, s) && q < c.n
  {
    && Progress(c, s.log, s.done[q], s.pcs[q], x)
    && Chained(c, s.log, Load(c, s.mem, q, x), s.pcs[q], x)
  }

  lemma OwnWrite(c: Scenario, s: State, x: Cell, q: nat)
    requires Fits(c, s) && q < c.n && HistoryOk(c, s, x, q) && Writes(s.pcs[q])
    ensures HistoryOk(c, Step(c, s, q), x, q)
  {
    var pc, s' := s.pcs[q], Step(c, s, q);
    var e := WriteEvent(c, pc);
    StepWrites(c, s, q);
    SaveLoad(c, s.mem, q, q, x, e.cell, e.sample);
    assert Progress(c, s'.log, s'.done[q], s'.pcs[q], x) by {
      WriteProgress(c, s.log, s.done[q], pc, e, s'.pcs[q], x);
    }
    assert Chained(c, s'.log, Load(c, s'.mem, q, x), s'.pcs[q], x) by {
      WriteChains(c, s.log, Load(c, s.mem, q, x), pc, x);
    }
  }

  lemma OwnFinish(c: Scenario, s: State, x: Cell, q: nat)
    requires Fits(c, s) && q < c.n && HistoryOk(c, s, x, q) && Finishes(c, s.pcs[q])
    ensures HistoryOk(c, Step(c, s, q), x, q)
  {
    FinishProgress(c, s.log, s.done[q], s.pcs[q], x);
  }

  /** What a consumer reads is what is stored, so reading keeps the chain. */
  lemma QuietChained(c: Scenario, s: State, x: Cell, q: nat)
    requires Fits(c, s) && q < c.n && Enabled(c, s, Consumer(q)) && !Writes(s.pcs[q])
    requires Chained(c, s.log, Load(c, s.mem, q, x), s.pcs[q], x) && PcFits(c, NextPc(c, s, q))
    ensures Chained(c, s.log, Load(c, s.mem, q, x), NextPc(c, s, q), x)
  {
  }

  /** Logging a score changes nothing for x. */
  lemma ScoreLog(c: Scenario, log: seq<Event>, done: seq<nat>, stored: Sample, pc: Pc, e: Event, x: Cell)
    requires PcFits(c, pc) && !Concerns(e, x)
    requires Progress(c, log, done, pc, x) && Chained(c, log, stored, pc, x)
    ensures Progress(c, log + [e], done, pc, x) && Chained(c, log + [e], stored, pc, x)
  {
  }

  lemma OwnQuiet(c: Scenario, s: State, x: Cell, q: nat)
    requires Fits(c, s) && q < c.n && Enabled(c, s, Consumer(q)) && HistoryOk(c, s, x, q)
    requires !Writes(s.pcs[q]) && !Finishes(c, s.pcs[q])
    ensures HistoryOk(c, Step(c, s, q), x, q)
  {
    var s', pc, stored := Step(c, s, q), s.pcs[q], Load(c, s.mem, q, x);
    assert s'.mem == s.mem && s'.done == s.done && s'.pcs[q] == NextPc(c, s, q);
    QuietPartial(c, s, q, x);
    QuietChained(c, s, x, q);
    if pc.Scoring? {
      ScoreLog(c, s.log, s.done[q], stored, s'.pcs[q], Scored(Key(c, pc.id), ScoreOf(c, pc), s.clock), x);
    }
  }

  /** A consumer working for another host does not disturb cell x. */
  lemma OtherStep(c: Scenario, s: State, i: nat, x: Cell, q: nat)
    requires Fits(c, s) && q < c.n && Enabled(c, s, Consumer(i)) && i != q && HistoryOk(c, s, x, q)
    requires InFlight(s.pcs[i]) ==> Lawful(c.job(s.pcs[i].id)) && Key(c, s.pcs[i].id) != x.host
    ensures HistoryOk(c, Step(c, s, i), x, q)
  {
    var pc := s.pcs[i];
    if Writes(pc) {
      var e := WriteEvent(c, pc);
      assert Updates(c, pc.id)[pc.j] in Updates(c, pc.id);
      LogSnoc(s.log, e, x);
      SaveLoad(c, s.mem, i, q, x, e.cell, e.sample);
    } else if pc.Scoring? {
      LogSnoc(s.log, Scored(Key(c, pc.id), ScoreOf(c, pc), s.clock), x);
    }
  }

  lemma ConsumerKeepsHistory(c: Scenario, s: State, i: nat, x: Cell, q: nat)
    requires Fits(c, s) && Enabled(c, s, Consumer(i)) && LawfulJobs(c) && Conserved(c, s)
    requires OneQueue(c, s.arrived, x.host, q) && HistoryOk(c, s, x, q)
    ensures HistoryOk(c, Step(c, s, i), x, q)
  {
    if i != q {
      if InFlight(s.pcs[i]) {
        InFlightRouted(c, s, i);
        assert Lawful(c.job(s.pcs[i].id));
      }
      OtherStep(c, s, i, x, q);
    } else if Writes(s.pcs[q]) {
      OwnWrite(c, s, x, q);
    } else if Finishes(c, s.pcs[q]) {
      OwnFinish(c, s, x, q);
    } else {
      OwnQuiet(c, s, x, q);
    }
  }

  /** Producers, Start, Stop, spurious wakeups, the sweeper and the clock leave the histories alone. */
  lemma EnvironmentKeepsHistory(c: Scenario, s: State, a: Action, x: Cell, q: nat)
    requires Fits(c, s) && Enabled(c, s, a) && !a.Consumer? && q < c.n && HistoryOk(c, s, x, q)
    ensures HistoryOk(c, Next(c, s, a), x, q)
  {
    var s' := Next(c, s, a);
    EnvironmentStep(c, s, a, q);
    if s'.log != s.log {
      LogSnoc(s.log, s'.log[|s.log|], x);
    }
  }

  lemma EnvironmentStep(c: Scenario, s: State, a: Action, q: nat)
    requires Fits(c, s) && Enabled(c, s, a) && !a.Consumer? && q < c.n
    ensures var s' := Next(c, s, a);
            && s'.mem == s.mem && s'.done == s.done
            && (s'.pcs[q] == s.pcs[q] || (s.pcs[q].Sleeping? && s'.pcs[q].Notified?))
            && (s'.log == s.log || exists now :: s'.log == s.log + [Swept(now)])
  {
  }

  lemma StepKeepsHistory(c: Scenario, s: State, a: Action, x: Cell, q: nat)
    requires Fits(c, s) && Enabled(c, s, a) && LawfulJobs(c) && Conserved(c, s)
    requires OneQueue(c, s.arrived, x.host, q) && HistoryOk(c, s, x, q)
    ensures HistoryOk(c, Next(c, s, a), x, q)
  {
    if a.Consumer? {
      ConsumerKeepsHistory(c, s, a.i, x, q);
    } else {
      EnvironmentKeepsHistory(c, s, a, x, q);
    }
  }

  /** Messages only arrive. */
  lemma ArrivedGrows(c: Scenario, s: State, a: Action)
    requires Fits(c, s) && Enabled(c, s, a)
    ensures Next(c, s, a).arrived >= s.arrived
  {
  }

  lemma {:induction false} HistoryAlways(c: Scenario, acts: seq<Action>, s: State, x: Cell, q: nat)
    requires Run(c, acts) == Some(s) && LawfulJobs(c) && OneQueue(c, s.arrived, x.host, q)
    ensures HistoryOk(c, s, x, q)
    decreases |acts|
  {
    if acts != [] {
      var init, a := acts[..|acts| - 1], acts[|acts| - 1];
      var s0 := Run(c, init).value;
      ArrivedGrows(c, s0, a);
      HistoryAlways(c, init, s0, x, q);
      QueuesSound(c, init, s0);
      StepKeepsHistory(c, s0, a, x, q);
    }
  }
}

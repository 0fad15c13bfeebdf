/** The sequential reading of the pipeline: what the concurrent runs of IngestHistory mean for the messages of one
    host, stated against a pass over the message stream that knows nothing of threads. */
module IngestSequential {
  import opened Messages
  import opened Identity
  import opened Rates
  import opened Samples
  import opened Ingest
  import opened IngestQueues
  import opened IngestHistory

  lemma PartialPrefix(c: Scenario, pc: Pc, x: Cell)
    ensures Partial(c, pc, x) <= Contributions(c, Current(pc), x)
  {
    if InFlight(pc) {
      ContributionsSnoc(c, [], pc.id, x);
      assert [] + [pc.id] == Current(pc);
      if Written(pc) <= |Performed(c, pc.id)| {
        SamplesPrefix(Performed(c, pc.id), Written(pc), x);
      }
    }
  }

  /** For every interleaving of producers, consumers, sweeper, Start and Stop: if all messages stored under a host
      go to one queue, the samples written to any of the host's history cells are a prefix of what one sequential
      pass over the messages in push order writes, every rate is the rate against the preceding sample of that
      pass, and once the queue is drained nothing is missing. */
  lemma PerHostSequential(c: Scenario, acts: seq<Action>, s: State, x: Cell, q: nat)
    requires Run(c, acts) == Some(s) && LawfulJobs(c) && OneQueue(c, s.arrived, x.host, q)
    ensures Entries(s.log, x) <= Stream(c, s.arrived, x)
    ensures RatesAt(s.log, x) <= FoldRates(FRESH, SamplesOf(Stream(c, s.arrived, x)))
    ensures Load(c, s.mem, q, x) == Before(SamplesOf(Entries(s.log, x)), |Entries(s.log, x)|)
    ensures s.queues[q] == [] && !InFlight(s.pcs[q]) ==> Entries(s.log, x) == Stream(c, s.arrived, x)
  {
    HistoryAlways(c, acts, s, x, q);
    QueuesSound(c, acts, s);
    assert ConservedAt(c, s, q);
    StreamIsQueue(c, s.arrived, x, q);
    var done, cur, rest := s.done[q], Current(s.pcs[q]), s.queues[q];
    ContributionsSplit(c, done + cur, rest, x);
    ContributionsSplit(c, done, cur, x);
    PartialPrefix(c, s.pcs[q], x);
    PrefixGlue(Contributions(c, done, x), Partial(c, s.pcs[q], x), Contributions(c, cur, x), Contributions(c, rest, x));
    var xs, ys := SamplesOf(Entries(s.log, x)), SamplesOf(Stream(c, s.arrived, x));
    assert xs <= ys;
    ChainPrefix(xs, ys);
    ChainIsFold(ys);
  }

  lemma PrefixGlue(a: seq<Entry>, p: seq<Entry>, b: seq<Entry>, r: seq<Entry>)
    requires p <= b
    ensures a + p <= (a + b) + r
  {
  }

  // ---- The same over messages ----

  /** What processing one message on its own stores in cell x: its performance snapshot, always; its detail
      samples only if its database connection succeeds, a device named twice counting twice. */
  function MessageSamples(m: MonitorInfo, connected: bool, x: Cell): seq<Sample> {
    if StoreKey(m) == "" then []
    else if x.table.Perf? then (if x == PerfCell(StoreKey(m)) then [PerfSample(m)] else [])
    else if connected then SamplesFor(DatabaseUpdates(m), x)
    else []
  }

  /** What a sequential pass over the first `count` messages stores in cell x. */
  function Reference(message: nat -> MonitorInfo, connects: nat -> bool, count: nat, x: Cell): seq<Sample> {
    if count == 0 then []
    else Reference(message, connects, count - 1, x) + MessageSamples(message(count - 1), connects(count - 1), x)
  }

  /** What a message's updates add to cell x. */
  lemma OneMessage(m: MonitorInfo, connected: bool, x: Cell)
    ensures SamplesFor(Kept(UpdatesOf(m), connected), x) == MessageSamples(m, connected, x)
  {
    KeptParts(m, connected);
    if StoreKey(m) != "" {
      var first := Update(PerfCell(StoreKey(m)), PerfSample(m));
      SamplesOfOne(first, x);
      if connected {
        SamplesForSplit([first], DatabaseUpdates(m), x);
        if x.table.Perf? {
          NoSamples(DatabaseUpdates(m), x);
        }
      }
    }
  }

  lemma StreamStep(c: Scenario, id: nat, m: MonitorInfo, x: Cell)
    requires c.job(id) == JobOf(m)
    ensures SamplesOf(Stream(c, id + 1, x)) == SamplesOf(Stream(c, id, x)) + MessageSamples(m, c.connects(id), x)
  {
    OneMessage(m, c.connects(id), x);
    assert SamplesOf(Hits(id, Performed(c, id), x)) == SamplesFor(Performed(c, id), x);
    SamplesOfConcat(Stream(c, id, x), Hits(id, Performed(c, id), x));
  }

  lemma SamplesOfConcat(a: seq<Entry>, b: seq<Entry>)
    ensures SamplesOf(a + b) == SamplesOf(a) + SamplesOf(b)
  {
  }

  lemma {:induction false} StreamOfMessages(c: Scenario, message: nat -> MonitorInfo, count: nat, x: Cell)
    requires forall id: nat :: c.job(id) == JobOf(message(id))
    ensures SamplesOf(Stream(c, count, x)) == Reference(message, c.connects, count, x)
  {
    if count > 0 {
      var id: nat :| id + 1 == count;
      StreamOfMessages(c, message, id, x);
      ReferenceStep(c, message, id, x);
    }
  }

  lemma ReferenceStep(c: Scenario, message: nat -> MonitorInfo, id: nat, x: Cell)
    requires c.job(id) == JobOf(message(id))
    requires SamplesOf(Stream(c, id, x)) == Reference(message, c.connects, id, x)
    ensures SamplesOf(Stream(c, id + 1, x)) == Reference(message, c.connects, id + 1, x)
  {
    StreamStep(c, id, message(id), x);
  }

  /** Those of the first `count` messages that are stored under this key are well-formed. */
  ghost predicate WellFormedHost(message: nat -> MonitorInfo, count: nat, host: string) {
    forall id: nat | id < count && StoreKey(message(id)) == host :: WellFormed(message(id))
  }

  /** Well-formed messages of one host are all routed by the part of its key before the underscore. */
  lemma WellFormedOneQueue(
    n: Pos, hash: string -> nat, message: nat -> MonitorInfo, connects: nat -> bool, count: nat, host: string)
    requires WellFormedHost(message, count, host)
    ensures OneQueue(Deployment(n, hash, message, connects), count, host, hash(HostPart(host)) % n)
  {
    var c := Deployment(n, hash, message, connects);
    forall id: nat | id < count && Key(c, id) == host
      ensures QueueOf(c, id) == hash(HostPart(host)) % n
    {
      RouteFromStore(message(id));
    }
  }

  /** What has been written to cell x is a prefix of the sequential fold over the reference samples, and all of it
      once queue q is drained and its consumer idle. */
  ghost predicate IsSequential(s: State, x: Cell, q: nat, reference: seq<Sample>) {
    && q < |s.queues| == |s.pcs|
    && RatesAt(s.log, x) <= FoldRates(FRESH, reference)
    && SamplesOf(Entries(s.log, x)) <= reference
    && (s.queues[q] == [] && !InFlight(s.pcs[q]) ==> RatesAt(s.log, x) == FoldRates(FRESH, reference))
  }

  /** The ingest theorem.  For any thread count, hash function, messages and database outcomes, and any run: if a
      host's messages are well-formed, the performance rates written for it are a prefix of the sequential fold
      over all its messages, the rates written for any of its detail entries are a prefix of the sequential fold
      over its connected messages alone, and both are complete once its queue is drained. */
  lemma IngestIsSequential(
    n: Pos, hash: string -> nat, message: nat -> MonitorInfo, connects: nat -> bool,
    acts: seq<Action>, x: Cell)
    ensures var r := Run(Deployment(n, hash, message, connects), acts);
            r.Some? && WellFormedHost(message, r.value.arrived, x.host) ==>
              IsSequential(r.value, x, hash(HostPart(x.host)) % n, Reference(message, connects, r.value.arrived, x))
  {
    var c := Deployment(n, hash, message, connects);
    var r := Run(c, acts);
    if r.Some? && WellFormedHost(message, r.value.arrived, x.host) {
      var s, q := r.value, hash(HostPart(x.host)) % n;
      WellFormedOneQueue(n, hash, message, connects, s.arrived, x.host);
      PerHostSequential(c, acts, s, x, q);
      StreamOfMessages(c, message, s.arrived, x);
      HistoryAlways(c, acts, s, x, q);
      ChainIsFold(SamplesOf(Entries(s.log, x)));
    }
  }

  /** Some message of the host was routed to queue i. */
  ghost predicate Served(c: Scenario, count: nat, host: string, i: nat) {
    exists id: nat :: id < count && Key(c, id) == host && QueueOf(c, id) == i
  }

  /** A thread keeps disk utilisation only of hosts some message of which was routed to it. */
  ghost predicate LocalsHome(c: Scenario, s: State)
    requires Fits(c, s)
  {
    forall i: nat, x | i < c.n && x in s.mem.locals[i] :: Served(c, s.arrived, x.host, i)
  }

  lemma StepKeepsLocalsHome(c: Scenario, s: State, a: Action)
    requires Fits(c, s) && Enabled(c, s, a) && LawfulJobs(c) && Conserved(c, s) && LocalsHome(c, s)
    ensures LocalsHome(c, Next(c, s, a))
  {
    var s' := Next(c, s, a);
    ArrivedGrows(c, s, a);
    forall i: nat, x | i < c.n && x in s'.mem.locals[i]
      ensures Served(c, s'.arrived, x.host, i)
    {
      if x in s.mem.locals[i] {
        assert Served(c, s.arrived, x.host, i);
      } else {
        assert a.Consumer? && a.i == i && Writes(s.pcs[i]);
        InFlightRouted(c, s, i);
        var pc := s.pcs[i];
        assert Lawful(c.job(pc.id));
        assert Updates(c, pc.id)[pc.j] in Updates(c, pc.id);
        assert pc.id < s'.arrived && Key(c, pc.id) == x.host && QueueOf(c, pc.id) == i;
      }
    }
  }

  lemma OnlyHome(c: Scenario, acts: seq<Action>, s: State, host: string, q: nat)
    requires Run(c, acts) == Some(s) && LawfulJobs(c) && OneQueue(c, s.arrived, host, q)
    ensures forall i: nat, x | i < c.n && x in s.mem.locals[i] && x.host == host :: i == q
  {
    LocalsAlwaysHome(c, acts, s);
    forall i: nat, x | i < c.n && x in s.mem.locals[i] && x.host == host
      ensures i == q
    {
      assert Served(c, s.arrived, host, i);
    }
  }

  /** In every reachable state the thread-local utilisation of a host with one queue is kept by that queue's
      consumer only, and is the sample of the last connected message written for it. */
  lemma ThreadLocalsAgree(c: Scenario, acts: seq<Action>, s: State, host: string, q: nat)
    requires Run(c, acts) == Some(s) && LawfulJobs(c) && OneQueue(c, s.arrived, host, q)
    ensures forall i: nat, x | i < c.n && x in s.mem.locals[i] && x.host == host :: i == q
    ensures var es := Entries(s.log, UtilCell(host));
            Load(c, s.mem, q, UtilCell(host)) == if es == [] then FRESH else es[|es| - 1].sample
  {
    OnlyHome(c, acts, s, host, q);
    LoadsLast(c, acts, s, UtilCell(host), q);
  }

  lemma LoadsLast(c: Scenario, acts: seq<Action>, s: State, x: Cell, q: nat)
    requires Run(c, acts) == Some(s) && LawfulJobs(c) && OneQueue(c, s.arrived, x.host, q)
    ensures var es := Entries(s.log, x);
            Load(c, s.mem, q, x) == if es == [] then FRESH else es[|es| - 1].sample
  {
    HistoryAlways(c, acts, s, x, q);
    StoredIsLast(c, s, x, q);
  }

  lemma StoredIsLast(c: Scenario, s: State, x: Cell, q: nat)
    requires Fits(c, s) && q < c.n && HistoryOk(c, s, x, q)
    ensures var es := Entries(s.log, x);
            Load(c, s.mem, q, x) == if es == [] then FRESH else es[|es| - 1].sample
  {
  }

  lemma {:induction false} LocalsAlwaysHome(c: Scenario, acts: seq<Action>, s: State)
    requires Run(c, acts) == Some(s) && LawfulJobs(c)
    ensures LocalsHome(c, s)
    decreases |acts|
  {
    if acts != [] {
      var init, a := acts[..|acts| - 1], acts[|acts| - 1];
      var s0 := Run(c, init).value;
      LocalsAlwaysHome(c, init, s0);
      QueuesSound(c, init, s0);
      StepKeepsLocalsHome(c, s0, a);
    }
  }
}

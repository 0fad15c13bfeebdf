/** The vector of sharded history maps: one flat map for every hash function, but not one shard per thread. */
module IngestShards {
  import opened Messages
  import opened Identity
  import opened Rates
  import opened Samples
  import opened Ingest
  import opened IngestQueues
  import opened IngestHistory
  import opened IngestOrder

  /** The last sample written to each sharded cell, read off the log; no hash is involved. */
  function Flat(log: seq<Event>): map<Cell, Sample> {
    if log == [] then map[]
    else
      var flat, e := Flat(log[..|log| - 1]), log[|log| - 1];
      if e.Wrote? && !e.cell.table.Util? then flat[e.cell := e.sample] else flat
  }

  lemma FlatSnoc(log: seq<Event>, e: Event)
    ensures Flat(log + [e]) ==
            if e.Wrote? && !e.cell.table.Util? then Flat(log)[e.cell := e.sample] else Flat(log)
  {
  }

  /** The shards hold exactly the flat map, every key in the shard of its host's hash. */
  ghost predicate RefinesFlat(c: Scenario, mem: Memory, flat: map<Cell, Sample>)
    requires |mem.shards| == c.n
  {
    && (forall k: nat, x | k < c.n && x in mem.shards[k] ::
          k == ShardOf(c, x.host) && x in flat && flat[x] == mem.shards[k][x])
    && (forall x | x in flat :: x in mem.shards[ShardOf(c, x.host)])
  }

  lemma SaveRefines(c: Scenario, mem: Memory, i: nat, x: Cell, v: Sample, flat: map<Cell, Sample>)
    requires |mem.shards| == |mem.locals| == c.n && i < c.n && RefinesFlat(c, mem, flat)
    ensures RefinesFlat(c, Save(c, mem, i, x, v), if x.table.Util? then flat else flat[x := v])
  {
  }

  lemma ConsumerShardStep(c: Scenario, s: State, i: nat)
    requires Fits(c, s) && Enabled(c, s, Consumer(i)) && RefinesFlat(c, s.mem, Flat(s.log))
    ensures RefinesFlat(c, Step(c, s, i).mem, Flat(Step(c, s, i).log))
  {
    var pc := s.pcs[i];
    if Writes(pc) {
      var e := WriteEvent(c, pc);
      FlatSnoc(s.log, e);
      SaveRefines(c, s.mem, i, e.cell, e.sample, Flat(s.log));
    } else if pc.Scoring? {
      FlatSnoc(s.log, Scored(Key(c, pc.id), ScoreOf(c, pc), s.clock));
    }
  }

  lemma ShardStep(c: Scenario, s: State, a: Action)
    requires Fits(c, s) && Enabled(c, s, a) && RefinesFlat(c, s.mem, Flat(s.log))
    ensures RefinesFlat(c, Next(c, s, a).mem, Flat(Next(c, s, a).log))
  {
    if a.Consumer? {
      ConsumerShardStep(c, s, a.i);
    } else {
      var s' := Next(c, s, a);
      assert s'.mem == s.mem;
      if a.Sweep? && s.sweeper.Sampled? {
        FlatSnoc(s.log, Swept(s.sweeper.now));
        assert Flat(s'.log) == Flat(s.log);
      } else {
        assert s'.log == s.log;
      }
    }
  }

  /** For every hash function, every message stream and every run: the sharded histories are the flat map of last
      writes, cut up by hash, and reading through the shards reads the flat map. */
  lemma {:induction false} ShardsAreFlat(c: Scenario, acts: seq<Action>, s: State)
    requires Run(c, acts) == Some(s)
    ensures RefinesFlat(c, s.mem, Flat(s.log))
    ensures forall i: nat, x: Cell | i < c.n && !x.table.Util? ::
              Load(c, s.mem, i, x) == if x in Flat(s.log) then Flat(s.log)[x] else FRESH
    decreases |acts|
  {
    if acts != [] {
      var init, a := acts[..|acts| - 1], acts[|acts| - 1];
      ShardsAreFlat(c, init, Run(c, init).value);
      ShardStep(c, Run(c, init).value, a);
    }
  }

  /** The shard that consumer i is about to read or write. */
  function Touches(c: Scenario, pc: Pc): Option<nat>
    requires PcFits(c, pc)
  {
    if pc.Working? && pc.j < |Updates(c, pc.id)| && !Updates(c, pc.id)[pc.j].cell.table.Util?
    then Some(ShardOf(c, Updates(c, pc.id)[pc.j].cell.host)) else None
  }

  /** A consumer touches the shard of its own number exactly for messages whose store key hashes to the queue they
      were pushed to: for messages with a route key, if their two keys hash alike; always if the keys are equal, or
      with a single thread. */
  lemma OwnShardExactlyWhen(c: Scenario, acts: seq<Action>, s: State, i: nat)
    requires Run(c, acts) == Some(s) && LawfulJobs(c) && i < c.n
    ensures Touches(c, s.pcs[i]).Some? ==>
              var job := c.job(s.pcs[i].id);
              && (Touches(c, s.pcs[i]) == Some(i) <==>
                  Slot(c, job.key) == if job.route == "" then 0 else Slot(c, job.route))
              && (job.route == job.key || c.n == 1 ==> Touches(c, s.pcs[i]) == Some(i))
  {
    if Touches(c, s.pcs[i]).Some? {
      TouchesForOwn(c, acts, s, i);
    }
  }

  lemma FirstAccessTouches(c: Scenario, pc: Pc, id: nat)
    requires PcFits(c, pc) && AtFirstAccess(pc, id) && Lawful(c.job(id)) && Key(c, id) != ""
    ensures Touches(c, pc) == Some(Slot(c, Key(c, id)))
  {
  }

  lemma WaitsInQueue(c: Scenario, acts: seq<Action>, s: State, id: nat)
    requires Run(c, acts) == Some(s) && id < s.arrived
    requires forall i: nat | i < c.n :: s.pcs[i] == AtTest && s.done[i] == []
    ensures id in s.queues[QueueOf(c, id)]
  {
    var q := QueueOf(c, id);
    QueuesSound(c, acts, s);
    assert ConservedAt(c, s, q);
    RoutedMember(c, s.arrived, q, id);
  }

  /** Any two messages, routed to different threads, whose histories share a shard: some run has both threads at
      work in that shard at once. */
  lemma SharedShard(c: Scenario, a: nat, b: nat) returns (acts: seq<Action>, t: State)
    requires LawfulJobs(c) && QueueOf(c, a) != QueueOf(c, b)
    requires Key(c, a) != "" && Key(c, b) != "" && Slot(c, Key(c, a)) == Slot(c, Key(c, b))
    ensures Run(c, acts) == Some(t)
    ensures Touches(c, t.pcs[QueueOf(c, a)]) == Touches(c, t.pcs[QueueOf(c, b)]) == Some(Slot(c, Key(c, a)))
  {
    var acts0, s0 := Fill(c, a + b + 1);
    WaitsInQueue(c, acts0, s0, a);
    WaitsInQueue(c, acts0, s0, b);
    var acts1, s1 := DriveToAccess(c, acts0, s0, QueueOf(c, a), a);
    acts, t := DriveToAccess(c, acts1, s1, QueueOf(c, b), b);
    assert Lawful(c.job(a)) && Lawful(c.job(b));
    FirstAccessTouches(c, t.pcs[QueueOf(c, a)], a);
    FirstAccessTouches(c, t.pcs[QueueOf(c, b)], b);
  }

  /** No two threads are about to access one shard. */
  ghost predicate NoCollision(c: Scenario, s: State)
    requires Fits(c, s)
  {
    forall i, k | 0 <= i < k < c.n && Touches(c, s.pcs[i]).Some? :: Touches(c, s.pcs[k]) != Touches(c, s.pcs[i])
  }

  ghost predicate NeverCollide(c: Scenario) {
    forall acts :: Run(c, acts).Some? ==> NoCollision(c, Run(c, acts).value)
  }

  /** Messages that have a history in one shard are pushed to one queue. */
  ghost predicate OneQueuePerShard(c: Scenario) {
    forall a: nat, b: nat | Key(c, a) != "" && Key(c, b) != "" && Slot(c, Key(c, a)) == Slot(c, Key(c, b)) ::
      QueueOf(c, a) == QueueOf(c, b)
  }

  /** A thread about to access a shard does so for a message from its own queue, stored there. */
  lemma TouchesForOwn(c: Scenario, acts: seq<Action>, s: State, i: nat)
    requires Run(c, acts) == Some(s) && LawfulJobs(c) && i < c.n && Touches(c, s.pcs[i]).Some?
    ensures var id := s.pcs[i].id;
            QueueOf(c, id) == i && Key(c, id) != "" && Touches(c, s.pcs[i]) == Some(Slot(c, Key(c, id)))
  {
    QueuesSound(c, acts, s);
    var pc := s.pcs[i];
    assert Lawful(c.job(pc.id));
    assert Updates(c, pc.id)[pc.j] in Updates(c, pc.id);
  }

  /** The shards are free of races, whatever the interleaving, if and only if all messages with a history in one
      shard are pushed to one queue. */
  lemma RaceFreeExactlyWhen(c: Scenario)
    requires LawfulJobs(c)
    ensures NeverCollide(c) <==> OneQueuePerShard(c)
  {
    if OneQueuePerShard(c) {
      forall acts | Run(c, acts).Some?
        ensures NoCollision(c, Run(c, acts).value)
      {
        OneQueuePerShardIsSafe(c, acts, Run(c, acts).value);
      }
    } else {
      var a: nat, b: nat :| Key(c, a) != "" && Key(c, b) != "" && Slot(c, Key(c, a)) == Slot(c, Key(c, b))
                            && QueueOf(c, a) != QueueOf(c, b);
      var acts, t := SharedShard(c, a, b);
      assert !NoCollision(c, Run(c, acts).value);
    }
  }

  lemma OneQueuePerShardIsSafe(c: Scenario, acts: seq<Action>, s: State)
    requires Run(c, acts) == Some(s) && LawfulJobs(c) && OneQueuePerShard(c)
    ensures NoCollision(c, s)
  {
    forall i, k | 0 <= i < k < c.n && Touches(c, s.pcs[i]).Some?
      ensures Touches(c, s.pcs[k]) != Touches(c, s.pcs[i])
    {
      TouchesForOwn(c, acts, s, i);
      if Touches(c, s.pcs[k]).Some? {
        TouchesForOwn(c, acts, s, k);
      }
    }
  }

  /** A machine called `name` with an address, and nothing to report. */
  function Idle(name: string, ip: string): MonitorInfo {
    MonitorInfo(name, Some(HostInfo(name, ip)), [], None, [], None, [], [])
  }

  lemma IdleKeys(name: string, ip: string)
    requires name != "" && ip != "" && '_' !in name
    ensures WellFormed(Idle(name, ip)) && RouteKey(Idle(name, ip)) == name
    ensures StoreKey(Idle(name, ip)) == name + "_" + ip && |StoreKey(Idle(name, ip))| == |name| + 1 + |ip|
  {
  }

  lemma ExampleMessages() returns (message: nat -> MonitorInfo)
    ensures forall id: nat :: WellFormed(message(id))
    ensures RouteKey(message(0)) == "alpha" && |StoreKey(message(0))| == 8
    ensures RouteKey(message(1)) == "beta" && |StoreKey(message(1))| == 7
  {
    var a, b := Idle("alpha", "10"), Idle("beta", "11");
    IdleKeys("alpha", "10");
    IdleKeys("beta", "11");
    message := (id: nat) => if id == 1 then b else a;
  }

  /** Such messages exist even when both are well-formed. */
  lemma SharedShardExample(hash: string -> nat, connects: nat -> bool)
    returns (message: nat -> MonitorInfo, acts: seq<Action>, t: State)
    requires forall key :: hash(key) == if key == "beta" then 1 else 0
    ensures forall id: nat :: WellFormed(message(id))
    ensures var c := Deployment(2, hash, message, connects);
            && Run(c, acts) == Some(t)
            && Touches(c, t.pcs[0]) == Touches(c, t.pcs[1]) == Some(0)
  {
    message := ExampleMessages();
    var c := Deployment(2, hash, message, connects);
    DeploymentLawful(2, hash, message, connects);
    DeploymentKeys(2, hash, message, connects, 0);
    DeploymentKeys(2, hash, message, connects, 1);
    SlotsOfExample(c, hash, StoreKey(message(0)), StoreKey(message(1)));
    acts, t := SharedShard(c, 0, 1);
  }

  lemma DeploymentKeys(n: Pos, hash: string -> nat, message: nat -> MonitorInfo, connects: nat -> bool, id: nat)
    ensures var job := Deployment(n, hash, message, connects).job(id);
            job.route == RouteKey(message(id)) && job.key == StoreKey(message(id))
  {
  }

  lemma SlotsOfExample(c: Scenario, hash: string -> nat, alphaKey: string, betaKey: string)
    requires c.n == 2 && forall key :: hash(key) == if key == "beta" then 1 else 0
    requires forall key :: c.slot(key) == hash(key) % 2
    requires c.job(0).route == "alpha" && c.job(0).key == alphaKey && |alphaKey| == 8
    requires c.job(1).route == "beta" && c.job(1).key == betaKey && |betaKey| == 7
    ensures QueueOf(c, 0) == 0 && QueueOf(c, 1) == 1 && Slot(c, alphaKey) == Slot(c, betaKey) == 0
  {
  }
}

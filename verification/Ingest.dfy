/** The manager's ingest pipeline as a machine of atomic steps: gRPC producers, one queue and one consumer thread
    per worker, the sharded and thread-local histories, the score table, the sweeper, and Start/Stop.

    A Scenario fixes what the environment decides independently of scheduling: the messages in the order they are
    pushed, whether the database connection made for each of them succeeds, and the hash function.  A run is a
    list of actions; everything that may interleave is a separate action.  The machine sees a message only through
    its Job: the two keys, the score and the history updates it causes. */
module Ingest {
  import opened Messages
  import opened Identity
  import opened Rates
  import opened Samples
  import opened Clock
  import Score

  type Pos = n: nat | n >= 1 witness 1

  datatype Job = Job(route: string, key: string, score: real, updates: seq<Update>)

  function JobOf(m: MonitorInfo): (job: Job)
    ensures Lawful(job)
  {
    Job(RouteKey(m), StoreKey(m), Score.CalcScore(m), UpdatesOf(m))
  }

  lemma JobSays(m: MonitorInfo)
    ensures JobOf(m).key == StoreKey(m) && JobOf(m).score == Score.CalcScore(m)
  {
  }

  /** What every message's job satisfies: all its updates are to its own host, the performance snapshot comes
      first and only once, and only a message without identifier has none. */
  ghost predicate Lawful(job: Job) {
    && (job.updates == [] <==> job.key == "")
    && (forall u | u in job.updates :: u.cell.host == job.key)
    && (job.updates != [] ==> job.updates[0].cell == PerfCell(job.key))
    && (forall j | 1 <= j < |job.updates| :: !job.updates[j].cell.table.Perf?)
  }

  datatype Scenario = Scenario(
    n: Pos,                        // worker threads
    slot: string -> nat,           // hash of a key modulo n
    job: nat -> Job,               // the k-th message pushed
    connects: nat -> bool)         // whether its database connection succeeds

  /** The scenario of a stream of messages. */
  function Deployment(n: Pos, hash: string -> nat, message: nat -> MonitorInfo, connects: nat -> bool): Scenario {
    Scenario(n, (key: string) => hash(key) % n, (k: nat) => JobOf(message(k)), connects)
  }

  /** The index of a key.  In every deployment slot is already below n, so the second branch is never taken. */
  function Slot(c: Scenario, key: string): (k: nat)
    ensures k < c.n
  {
    if c.slot(key) < c.n then c.slot(key) else 0
  }

  lemma SlotIsHashModulo(n: Pos, hash: string -> nat, message: nat -> MonitorInfo, connects: nat -> bool, key: string)
    ensures Slot(Deployment(n, hash, message, connects), key) == hash(key) % n
  {
  }

  /** The histories: one map per shard for the sharded tables, one map per thread for disk utilisation. */
  datatype Memory = Memory(shards: seq<map<Cell, Sample>>, locals: seq<map<Cell, Sample>>)

  /** Where a consumer thread is.  Messages are named by their arrival number. */
  datatype Pc =
    | AtTest                                                       // while (running_)
    | InPop                                                        // about to take the queue lock
    | Sleeping                                                     // waiting on the condition variable
    | Notified                                                     // woken, must take the lock again
    | Holding(id: nat)                                             // Pop returned true
    | Working(id: nat, at: int, j: nat, last: Option<Sample>)      // before reading or writing update j
    | Scoring(id: nat, at: int)                                    // before host_scores_ is updated
    | Connecting(id: nat, at: int)                                 // before mysql_real_connect
    | Exited

  datatype Sweeper = Off | Looping | Asleep | Sampled(now: int)

  /** An entry of host_scores_.  The machine names messages by their arrival number. */
  datatype HostScore<M> = HostScore(message: M, score: real, at: int)

  /** History variable: what the threads have written so far, in order. */
  datatype Event =
    | Wrote(id: nat, cell: Cell, sample: Sample, rates: RateRow)
    | Scored(host: string, entry: HostScore<nat>, when: int)
    | Swept(now: int)

  datatype State = State(
    arrived: nat,
    queues: seq<seq<nat>>,
    stopped: seq<bool>,
    pcs: seq<Pc>,
    running: bool,
    stopping: Option<nat>,         // Stop() is about to stop this queue
    mem: Memory,
    scores: map<string, HostScore<nat>>,
    sweeper: Sweeper,
    clock: int,
    done: seq<seq<nat>>,           // history variable: messages each consumer has finished
    log: seq<Event>)

  datatype Action =
    | Receive                      // OnDataReceived for the next message
    | Start
    | BeginStop                    // running_ = false
    | StopQueue                    // the next queue->Stop()
    | Consumer(i: nat)             // consumer i does its next step
    | Spurious(i: nat)             // consumer i wakes without notification
    | Sweep                        // the sweeper does its next step
    | Tick(d: nat)

  function Key(c: Scenario, id: nat): string {
    c.job(id).key
  }

  /** The queue OnDataReceived pushes a message to: its hash modulo the thread count, or queue 0 if it has no
      identifier. */
  function QueueOf(c: Scenario, id: nat): (q: nat)
    ensures q < c.n
  {
    var k := c.job(id).route;
    if k == "" then 0 else Slot(c, k)
  }

  /** The shard that holds a host's history. */
  function ShardOf(c: Scenario, host: string): (k: nat)
    ensures k < c.n
  {
    Slot(c, host)
  }

  function Updates(c: Scenario, id: nat): seq<Update> {
    c.job(id).updates
  }

  /** The history writes processing a message performs: all of them, or only the performance snapshot if the
      database cannot be reached. */
  function Performed(c: Scenario, id: nat): seq<Update> {
    Kept(Updates(c, id), c.connects(id))
  }

  /** Reading a history entry creates a zero entry if there is none, which reads the same as a missing one. */
  function Load(c: Scenario, mem: Memory, i: nat, x: Cell): Sample
    requires |mem.shards| == |mem.locals| == c.n && i < c.n
  {
    if x.table.Util? then
      if x in mem.locals[i] then mem.locals[i][x] else FRESH
    else
      var shard := mem.shards[ShardOf(c, x.host)];
      if x in shard then shard[x] else FRESH
  }

  function Save(c: Scenario, mem: Memory, i: nat, x: Cell, v: Sample): Memory
    requires |mem.shards| == |mem.locals| == c.n && i < c.n
  {
    if x.table.Util? then
      mem.(locals := mem.locals[i := mem.locals[i][x := v]])
    else
      var k := ShardOf(c, x.host);
      mem.(shards := mem.shards[k := mem.shards[k][x := v]])
  }

  function Fresh<M>(scores: map<string, HostScore<M>>, now: int): map<string, HostScore<M>> {
    map host | host in scores && !Stale(now, scores[host].at) :: scores[host]
  }

  predicate InFlight(pc: Pc) {
    pc.Holding? || pc.Working? || pc.Scoring? || pc.Connecting?
  }

  function Current(pc: Pc): seq<nat> {
    if InFlight(pc) then [pc.id] else []
  }

  /** A consumer's position within a message agrees with that message. */
  predicate PcFits(c: Scenario, pc: Pc) {
    match pc
    case Working(id, _, j, last) =>
      && Updates(c, id) != [] && j <= |Updates(c, id)|
      && (j == 0 || c.connects(id)) && (last.Some? ==> j < |Updates(c, id)|)
    case Scoring(id, _) => Updates(c, id) != []
    case Connecting(id, _) => Updates(c, id) != []
    case _ => true
  }

  ghost predicate Fits(c: Scenario, s: State) {
    && |s.queues| == |s.stopped| == |s.pcs| == |s.done| == |s.mem.shards| == |s.mem.locals| == c.n
    && (s.stopping.Some? ==> s.stopping.value < c.n)
    && forall i | 0 <= i < c.n :: PcFits(c, s.pcs[i])
  }

  function Init(c: Scenario): State {
    State(0, seq(c.n, _ => []), seq(c.n, _ => false), seq(c.n, _ => AtTest), false, None,
          Memory(seq(c.n, _ => map[]), seq(c.n, _ => map[])), map[], Off, 0, seq(c.n, _ => []), [])
  }

  predicate Enabled(c: Scenario, s: State, a: Action)
    requires |s.pcs| == c.n
  {
    match a
    case Start => !s.running && s.stopping.None?
    case BeginStop => s.running
    case StopQueue => s.stopping.Some?
    case Consumer(i) => i < c.n && !s.pcs[i].Sleeping? && !s.pcs[i].Exited?
    case Spurious(i) => i < c.n && s.pcs[i].Sleeping?
    case Sweep => !s.sweeper.Off?
    case _ => true
  }

  function Wake(pc: Pc): Pc {
    if pc.Sleeping? then Notified else pc
  }

  ghost function Next(c: Scenario, s: State, a: Action): (s': State)
    requires Fits(c, s) && Enabled(c, s, a)
    ensures Fits(c, s')
  {
    match a
    case Receive =>
      // the push and its notify_one happen under the queue lock
      var q := QueueOf(c, s.arrived);
      s.(arrived := s.arrived + 1, queues := s.queues[q := s.queues[q] + [s.arrived]],
         pcs := s.pcs[q := Wake(s.pcs[q])])
    case Start => s.(running := true, sweeper := Looping)
    case BeginStop => s.(running := false, stopping := Some(0))
    case StopQueue =>
      var q := s.stopping.value;
      s.(stopped := s.stopped[q := true], pcs := s.pcs[q := Wake(s.pcs[q])],
         stopping := if q + 1 < c.n then Some(q + 1) else None)
    case Consumer(i) => Step(c, s, i)
    case Spurious(i) => s.(pcs := s.pcs[i := Notified])
    case Sweep => SweepStep(s)
    case Tick(d) => s.(clock := s.clock + d)
  }

  /** Consumer i is in Pop and its queue is not empty. */
  predicate Takes(s: State, i: nat)
    requires i < |s.pcs| == |s.queues|
  {
    (s.pcs[i].InPop? || s.pcs[i].Notified?) && s.queues[i] != []
  }

  /** Consumer i is about to leave ProcessData: the message has no identifier, or the database could not be
      reached, or every update has been written. */
  predicate Finishes(c: Scenario, pc: Pc) {
    match pc
    case Holding(id) => Updates(c, id) == []
    case Working(id, _, j, last) => last.None? && j == |Updates(c, id)|
    case Connecting(id, _) => !c.connects(id)
    case _ => false
  }

  /** Consumer i is about to overwrite a history entry it has read. */
  predicate Writes(pc: Pc) {
    pc.Working? && pc.last.Some?
  }

  function AfterWrite(pc: Pc): Pc
    requires Writes(pc)
  {
    if pc.j == 0 then Scoring(pc.id, pc.at) else Working(pc.id, pc.at, pc.j + 1, None)
  }

  /** Where ConsumeMessage (and what it calls) goes next. */
  function NextPc(c: Scenario, s: State, i: nat): Pc
    requires |s.pcs| == |s.queues| == |s.stopped| == |s.mem.shards| == |s.mem.locals| == c.n
    requires i < c.n && PcFits(c, s.pcs[i])
  {
    match s.pcs[i]
    case AtTest => if s.running then InPop else Exited
    case Holding(id) => if Updates(c, id) == [] then AtTest else Working(id, s.clock, 0, None)
    case Working(id, at, j, None) =>
      if j == |Updates(c, id)| then AtTest
      else Working(id, at, j, Some(Load(c, s.mem, i, Updates(c, id)[j].cell)))
    case Working(_, _, _, Some(_)) => AfterWrite(s.pcs[i])
    case Scoring(id, at) => Connecting(id, at)
    case Connecting(id, at) => if c.connects(id) then Working(id, at, 1, None) else AtTest
    case _ =>
      // InPop and Notified: the critical section of Pop takes the front, or gives up, or waits
      if s.queues[i] != [] then Holding(s.queues[i][0]) else if s.stopped[i] then AtTest else Sleeping
  }

  /** The history write a consumer is about to make, with the rates against what it has read. */
  function WriteEvent(c: Scenario, pc: Pc): Event
    requires Writes(pc) && PcFits(c, pc)
  {
    var u := Updates(c, pc.id)[pc.j];
    Wrote(pc.id, u.cell, u.sample, RatesOf(u.sample, pc.last.value))
  }

  function ScoreOf(c: Scenario, pc: Pc): HostScore<nat>
    requires pc.Scoring?
  {
    HostScore(pc.id, c.job(pc.id).score, pc.at)
  }

  function NextLog(c: Scenario, log: seq<Event>, pc: Pc, clock: int): seq<Event>
    requires PcFits(c, pc)
  {
    if Writes(pc) then log + [WriteEvent(c, pc)]
    else if pc.Scoring? then log + [Scored(Key(c, pc.id), ScoreOf(c, pc), clock)]
    else log
  }

  function NextMemory(c: Scenario, mem: Memory, i: nat, pc: Pc): (m: Memory)
    requires |mem.shards| == |mem.locals| == c.n && i < c.n && PcFits(c, pc)
    ensures |m.shards| == |m.locals| == c.n
  {
    if Writes(pc) then
      var u := Updates(c, pc.id)[pc.j];
      Save(c, mem, i, u.cell, u.sample)
    else mem
  }

  /** One atomic step of consumer thread i. */
  ghost function Step(c: Scenario, s: State, i: nat): (s': State)
    requires Fits(c, s) && Enabled(c, s, Consumer(i))
    ensures Fits(c, s')
  {
    var pc := s.pcs[i];
    s.(pcs := s.pcs[i := NextPc(c, s, i)],
       queues := if Takes(s, i) then s.queues[i := s.queues[i][1..]] else s.queues,
       done := if Finishes(c, pc) then s.done[i := s.done[i] + [pc.id]] else s.done,
       mem := NextMemory(c, s.mem, i, pc),
       scores := if pc.Scoring? then s.scores[Key(c, pc.id) := ScoreOf(c, pc)] else s.scores,
       log := NextLog(c, s.log, pc, s.clock))
  }

  /** ProcessLoop: the clock is sampled before the score table is locked. */
  function SweepStep(s: State): State {
    match s.sweeper
    case Off => s
    case Looping => s.(sweeper := if s.running then Asleep else Off)
    case Asleep => s.(sweeper := Sampled(s.clock))
    case Sampled(now) => s.(scores := Fresh(s.scores, now), log := s.log + [Swept(now)], sweeper := Looping)
  }

  /** The state a list of actions leads to, if each is possible when its turn comes. */
  ghost function Run(c: Scenario, acts: seq<Action>): (r: Option<State>)
    ensures r.Some? ==> Fits(c, r.value)
  {
    if acts == [] then Some(Init(c))
    else
      var r := Run(c, acts[..|acts| - 1]);
      var a := acts[|acts| - 1];
      if r.Some? && Enabled(c, r.value, a) then Some(Next(c, r.value, a)) else None
  }

  lemma RunSnoc(c: Scenario, acts: seq<Action>, a: Action)
    requires Run(c, acts).Some? && Enabled(c, Run(c, acts).value, a)
    ensures Run(c, acts + [a]) == Some(Next(c, Run(c, acts).value, a))
  {
  }
}

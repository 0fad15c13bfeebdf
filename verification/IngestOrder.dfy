/** Exactly when the pipeline processes a host's messages in the order they were pushed. */
module IngestOrder {
  import opened Messages
  import opened Identity
  import opened Samples
  import opened Ingest
  import opened IngestQueues
  import opened IngestHistory
  import opened IngestSequential
  import opened IngestProgress

  /** The messages of a host among the first `count`, in push order. */
  function HostIds(c: Scenario, count: nat, host: string): seq<nat> {
    if count == 0 then []
    else if Key(c, count - 1) == host then HostIds(c, count - 1, host) + [count - 1]
    else HostIds(c, count - 1, host)
  }

  /** The messages whose performance snapshot has been stored for a host, in the order that happened. */
  function ProcessedIds(log: seq<Event>, host: string): seq<nat> {
    IdsOf(Entries(log, PerfCell(host)))
  }

  function IdsOf(es: seq<Entry>): (ids: seq<nat>)
    ensures |ids| == |es|
  {
    seq(|es|, k requires 0 <= k < |es| => es[k].id)
  }

  ghost predicate InPushOrder(c: Scenario, s: State, host: string) {
    ProcessedIds(s.log, host) <= HostIds(c, s.arrived, host)
  }

  /** Every run that has received at most `count` messages keeps to the push order for this host. */
  ghost predicate AlwaysInPushOrder(c: Scenario, count: nat, host: string) {
    forall acts :: Run(c, acts).Some? && Run(c, acts).value.arrived <= count ==>
                     InPushOrder(c, Run(c, acts).value, host)
  }

  // ---- One queue is enough ----

  lemma PerfHits(c: Scenario, id: nat, host: string)
    requires Lawful(c.job(id)) && host != ""
    ensures var hits := Hits(id, Performed(c, id), PerfCell(host));
            if Key(c, id) == host then |hits| == 1 && hits[0].id == id else hits == []
  {
    var w := Performed(c, id);
    if w != [] {
      var x := PerfCell(host);
      assert w == w[..1] + w[1..] && w[..1] == [Updates(c, id)[0]];
      forall u | u in w[1..]
        ensures u.cell != x
      {
        var k: nat :| k < |w[1..]| && w[1..][k] == u;
        assert u == Updates(c, id)[k + 1];
      }
      NoSamples(w[1..], x);
      SamplesForSplit(w[..1], w[1..], x);
      assert w[..1][..0] == [];
    }
  }

  lemma {:induction false} StreamIds(c: Scenario, count: nat, host: string)
    requires LawfulJobs(c) && host != ""
    ensures IdsOf(Stream(c, count, PerfCell(host))) == HostIds(c, count, host)
  {
    if count > 0 {
      var id: nat :| id + 1 == count;
      StreamIds(c, id, host);
      assert Lawful(c.job(id));
      PerfHits(c, id, host);
      var a, b := Stream(c, id, PerfCell(host)), Hits(id, Performed(c, id), PerfCell(host));
      assert IdsOf(a + b) == IdsOf(a) + IdsOf(b);
    }
  }

  lemma OneQueueKeepsOrder(c: Scenario, count: nat, host: string, q: nat)
    requires LawfulJobs(c) && host != "" && OneQueue(c, count, host, q)
    ensures AlwaysInPushOrder(c, count, host)
  {
    forall acts | Run(c, acts).Some? && Run(c, acts).value.arrived <= count
      ensures InPushOrder(c, Run(c, acts).value, host)
    {
      var s := Run(c, acts).value;
      PerHostSequential(c, acts, s, PerfCell(host), q);
      StreamIds(c, s.arrived, host);
    }
  }

  // ---- Two queues break it ----

  /** Everything written so far was written by consumer q. */
  ghost predicate WrittenBy(c: Scenario, log: seq<Event>, q: nat) {
    forall e | e in log && e.Wrote? :: QueueOf(c, e.id) == q
  }

  ghost predicate Logged(log: seq<Event>, id: nat, x: Cell) {
    exists e :: e in log && e.Wrote? && e.id == id && e.cell == x
  }

  /** Message id has been received by queue q and its snapshot has not been stored yet. */
  ghost predicate Waiting(c: Scenario, s: State, q: nat, id: nat)
    requires Fits(c, s) && q < c.n
  {
    id in s.queues[q] || (InFlight(s.pcs[q]) && s.pcs[q].id == id && Written(s.pcs[q]) == 0)
  }

  /** Letting only consumer q run stores the snapshot of any message waiting in its queue. */
  lemma {:induction false} Drive(c: Scenario, acts: seq<Action>, s: State, q: nat, id: nat)
    returns (acts': seq<Action>, t: State)
    requires Run(c, acts) == Some(s) && q < c.n && LawfulJobs(c)
    requires s.running && !s.pcs[q].Exited? && !s.pcs[q].Sleeping?
    requires Waiting(c, s, q, id) && Key(c, id) != "" && WrittenBy(c, s.log, q)
    ensures Run(c, acts') == Some(t) && t.arrived == s.arrived
    ensures WrittenBy(c, t.log, q) && Logged(t.log, id, PerfCell(Key(c, id)))
    decreases |s.queues[q]| + |Current(s.pcs[q])|, DrivePhase(s.pcs[q]), Remaining(c, s.pcs[q])
  {
    var s' := Step(c, s, q);
    acts', t := acts + [Consumer(q)], s';
    RunSnoc(c, acts, Consumer(q));
    QueuesSound(c, acts, s);
    assert Lawful(c.job(id));
    DriveStep(c, s, q, id);
    DriveLog(c, s, q, id);
    if !Logged(s'.log, id, PerfCell(Key(c, id))) {
      acts', t := Drive(c, acts', s', q, id);
    }
  }

  /** Message id is being processed by consumer q, which has not passed its first history access. */
  predicate AtFirstAccess(pc: Pc, id: nat) {
    pc.Working? && pc.id == id && pc.j == 0
  }

  /** Letting only consumer q run takes it to the first history access of any message waiting in its queue. */
  lemma {:induction false} DriveToAccess(c: Scenario, acts: seq<Action>, s: State, q: nat, id: nat)
    returns (acts': seq<Action>, t: State)
    requires Run(c, acts) == Some(s) && q < c.n && LawfulJobs(c) && Key(c, id) != "" && Waiting(c, s, q, id)
    requires s.running && !s.pcs[q].Exited? && !s.pcs[q].Sleeping?
    ensures Run(c, acts') == Some(t) && t.running && AtFirstAccess(t.pcs[q], id)
    ensures forall k | 0 <= k < c.n && k != q :: t.pcs[k] == s.pcs[k] && t.queues[k] == s.queues[k]
    decreases |s.queues[q]| + |Current(s.pcs[q])|, DrivePhase(s.pcs[q]), Remaining(c, s.pcs[q])
  {
    acts', t := acts, s;
    if !AtFirstAccess(s.pcs[q], id) {
      var s' := Step(c, s, q);
      RunSnoc(c, acts, Consumer(q));
      assert Lawful(c.job(id));
      DriveStep(c, s, q, id);
      OthersStay(c, s, q);
      acts', t := DriveToAccess(c, acts + [Consumer(q)], s', q, id);
    }
  }

  lemma OthersStay(c: Scenario, s: State, q: nat)
    requires Fits(c, s) && Enabled(c, s, Consumer(q))
    ensures var t := Step(c, s, q);
            forall k | 0 <= k < c.n && k != q :: t.pcs[k] == s.pcs[k] && t.queues[k] == s.queues[k]
  {
  }

  function DrivePhase(pc: Pc): nat {
    if pc.AtTest? then 2 else if InFlight(pc) then 0 else 1
  }

  /** The measure of Drive falls. */
  ghost predicate Nearer(c: Scenario, t: State, s: State, q: nat)
    requires Fits(c, s) && Fits(c, t) && q < c.n
  {
    var before, after := |s.queues[q]| + |Current(s.pcs[q])|, |t.queues[q]| + |Current(t.pcs[q])|;
    || after < before
    || (after == before
        && (DrivePhase(t.pcs[q]) < DrivePhase(s.pcs[q])
            || (DrivePhase(t.pcs[q]) == DrivePhase(s.pcs[q]) && Remaining(c, t.pcs[q]) < Remaining(c, s.pcs[q]))))
  }

  /** One step of consumer q on the way to message id. */
  lemma DriveStep(c: Scenario, s: State, q: nat, id: nat)
    requires Fits(c, s) && q < c.n && Lawful(c.job(id)) && Key(c, id) != "" && Waiting(c, s, q, id)
    requires s.running && !s.pcs[q].Exited? && !s.pcs[q].Sleeping?
    ensures var t := Step(c, s, q);
            && t.arrived == s.arrived && t.running && !t.pcs[q].Exited? && !t.pcs[q].Sleeping?
            && (Waiting(c, t, q, id) || (Writes(s.pcs[q]) && s.pcs[q].id == id && s.pcs[q].j == 0))
            && Nearer(c, t, s, q)
  {
    if InFlight(s.pcs[q]) {
      StepWithinMessage(c, s, q);
    } else {
      DriveTake(c, s, q, id);
    }
  }

  lemma DriveLog(c: Scenario, s: State, q: nat, id: nat)
    requires Fits(c, s) && Enabled(c, s, Consumer(q)) && Lawful(c.job(id))
    requires InFlight(s.pcs[q]) ==> QueueOf(c, s.pcs[q].id) == q
    requires WrittenBy(c, s.log, q)
    ensures WrittenBy(c, Step(c, s, q).log, q)
    ensures Writes(s.pcs[q]) && s.pcs[q].id == id && s.pcs[q].j == 0 ==>
              Logged(Step(c, s, q).log, id, PerfCell(Key(c, id)))
  {
    var pc, t := s.pcs[q], Step(c, s, q);
    if Writes(pc) {
      var e := WriteEvent(c, pc);
      assert t.log == s.log + [e];
      assert e in t.log;
    } else {
      assert forall f | f in t.log && f.Wrote? :: f in s.log;
    }
  }

  lemma DriveTake(c: Scenario, s: State, q: nat, id: nat)
    requires Fits(c, s) && q < c.n && !InFlight(s.pcs[q]) && id in s.queues[q]
    requires s.running && !s.pcs[q].Exited? && !s.pcs[q].Sleeping?
    ensures var t := Step(c, s, q);
            && t.log == s.log && !t.pcs[q].Exited? && !t.pcs[q].Sleeping?
            && Waiting(c, t, q, id) && Nearer(c, t, s, q)
  {
  }

  /** A run that starts the manager and then only receives. */
  lemma {:induction false} Fill(c: Scenario, count: nat) returns (acts: seq<Action>, s: State)
    ensures Run(c, acts) == Some(s) && s.arrived == count && s.running && s.log == []
    ensures forall i: nat | i < c.n :: s.pcs[i] == AtTest && s.done[i] == []
  {
    if count == 0 {
      acts := [] + [Start];
      RunSnoc(c, [], Start);
      s := Next(c, Init(c), Start);
    } else {
      acts, s := Fill(c, count - 1);
      RunSnoc(c, acts, Receive);
      acts, s := acts + [Receive], Next(c, s, Receive);
    }
  }

  lemma {:induction false} HostIdsSorted(c: Scenario, count: nat, host: string)
    ensures forall id | id in HostIds(c, count, host) :: id < count
    ensures forall id: nat | id < count && Key(c, id) == host :: id in HostIds(c, count, host)
    ensures forall a, b | 0 <= a < b < |HostIds(c, count, host)| ::
              HostIds(c, count, host)[a] < HostIds(c, count, host)[b]
  {
    if count > 0 {
      var k: nat :| k + 1 == count;
      HostIdsSorted(c, k, host);
      var ids := HostIds(c, k, host);
      assert forall a | 0 <= a < |ids| :: ids[a] in ids;
    }
  }

  lemma {:induction false} LoggedIsProcessed(log: seq<Event>, id: nat, host: string)
    ensures Logged(log, id, PerfCell(host)) <==> id in ProcessedIds(log, host)
  {
    if log != [] {
      var init, e := log[..|log| - 1], log[|log| - 1];
      LoggedIsProcessed(init, id, host);
      assert log == init + [e];
      LogSnoc(init, e, PerfCell(host));
      var es := Entries(init, PerfCell(host));
      if Concerns(e, PerfCell(host)) {
        assert IdsOf(es + [Entry(e.id, e.sample)]) == IdsOf(es) + [e.id];
      }
    }
  }

  lemma NotPrefix(done: seq<nat>, ids: seq<nat>, id1: nat, id2: nat)
    requires forall a, b | 0 <= a < b < |ids| :: ids[a] < ids[b]
    requires id1 < id2 && id1 in ids && id2 in done && id1 !in done
    ensures !(done <= ids)
  {
  }

  lemma TwoQueuesBreakOrder(c: Scenario, count: nat, host: string, id1: nat, id2: nat)
    requires LawfulJobs(c) && host != "" && id1 < id2 < count
    requires Key(c, id1) == Key(c, id2) == host && QueueOf(c, id1) != QueueOf(c, id2)
    ensures !AlwaysInPushOrder(c, count, host)
  {
    var q := QueueOf(c, id2);
    var acts, s := Fill(c, id2 + 1);
    QueuesSound(c, acts, s);
    assert ConservedAt(c, s, q);
    RoutedMember(c, id2 + 1, q, id2);
    var acts', t := Drive(c, acts, s, q, id2);
    LoggedIsProcessed(t.log, id1, host);
    LoggedIsProcessed(t.log, id2, host);
    HostIdsSorted(c, t.arrived, host);
    NotPrefix(ProcessedIds(t.log, host), HostIds(c, t.arrived, host), id1, id2);
    assert !InPushOrder(c, Run(c, acts').value, host);
  }

  /** The pipeline processes a host's messages in push order under every interleaving if and only if all of them
      are routed to one queue. */
  lemma PushOrderExactlyWhen(c: Scenario, count: nat, host: string)
    requires LawfulJobs(c) && host != ""
    ensures AlwaysInPushOrder(c, count, host) <==> exists q :: OneQueue(c, count, host, q)
  {
    if q :| OneQueue(c, count, host, q) {
      OneQueueKeepsOrder(c, count, host, q);
    } else {
      assert !OneQueue(c, count, host, 0);
      var a: nat :| a < count && Key(c, a) == host;
      assert !OneQueue(c, count, host, QueueOf(c, a));
      var b: nat :| b < count && Key(c, b) == host && QueueOf(c, b) != QueueOf(c, a);
      if a < b {
        TwoQueuesBreakOrder(c, count, host, a, b);
      } else {
        TwoQueuesBreakOrder(c, count, host, b, a);
      }
    }
  }

  /** A deployment where it is not: two admitted messages, stored as "web_1_9" but routed as "web" and as "web_1", with
      two threads and any hash that tells those apart. */
  lemma PushOrderBrokenExample(hash: string -> nat, connects: nat -> bool) returns (message: nat -> MonitorInfo)
    requires hash("web") % 2 != hash("web_1") % 2
    ensures forall id: nat :: Admitted(message(id)) && StoreKey(message(id)) == "web_1_9"
    ensures !AlwaysInPushOrder(Deployment(2, hash, message, connects), 2, "web_1_9")
  {
    var a, b := StoreKeyCollision();
    message := (id: nat) => if id == 0 then a else b;
    DeploymentLawful(2, hash, message, connects);
    NotEmpty();
    RoutedByHash(hash, message, connects, 0);
    RoutedByHash(hash, message, connects, 1);
    TwoQueuesBreakOrder(Deployment(2, hash, message, connects), 2, "web_1_9", 0, 1);
  }

  lemma NotEmpty()
    ensures "web" != "" && "web_1" != "" && "web_1_9" != ""
  {
    assert |"web"| == 3 && |"web_1"| == 5 && |"web_1_9"| == 7;
  }

  lemma RoutedByHash(hash: string -> nat, message: nat -> MonitorInfo, connects: nat -> bool, id: nat)
    requires RouteKey(message(id)) != ""
    ensures var c := Deployment(2, hash, message, connects);
            QueueOf(c, id) == hash(RouteKey(message(id))) % 2 && Key(c, id) == StoreKey(message(id))
  {
  }
}

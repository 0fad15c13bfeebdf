/** What every reachable state keeps about the queues: no message is lost, duplicated or reordered, and no
    consumer sleeps through work or through Stop. */
module IngestQueues {
  import opened Messages
  import opened Ingest

  /** The first `count` messages that are routed to queue q, in push order. */
  function Routed(c: Scenario, count: nat, q: nat): seq<nat> {
    if count == 0 then []
    else if QueueOf(c, count - 1) == q then Routed(c, count - 1, q) + [count - 1]
    else Routed(c, count - 1, q)
  }

  lemma {:induction false} RoutedMember(c: Scenario, count: nat, q: nat, id: nat)
    ensures id in Routed(c, count, q) <==> id < count && QueueOf(c, id) == q
  {
    if count > 0 {
      RoutedMember(c, count - 1, q, id);
    }
  }

  /** Routed lists each such message once, in increasing order. */
  lemma {:induction false} RoutedComplete(c: Scenario, count: nat, q: nat)
    ensures forall id: nat :: id in Routed(c, count, q) <==> id < count && QueueOf(c, id) == q
    ensures forall a, b | 0 <= a < b < |Routed(c, count, q)| :: Routed(c, count, q)[a] < Routed(c, count, q)[b]
  {
    if count > 0 {
      RoutedComplete(c, count - 1, q);
      var r := Routed(c, count - 1, q);
      forall k | 0 <= k < |r|
        ensures r[k] < count - 1
      {
        RoutedMember(c, count - 1, q, r[k]);
      }
    }
    forall id: nat
      ensures id in Routed(c, count, q) <==> id < count && QueueOf(c, id) == q
    {
      RoutedMember(c, count, q, id);
    }
  }

  /** Pushed = finished ++ in flight ++ waiting, for one queue. */
  ghost predicate ConservedAt(c: Scenario, s: State, i: nat)
    requires Fits(c, s) && i < c.n
  {
    s.done[i] + Current(s.pcs[i]) + s.queues[i] == Routed(c, s.arrived, i)
  }

  ghost predicate Conserved(c: Scenario, s: State)
    requires Fits(c, s)
  {
    forall i: nat | i < c.n :: ConservedAt(c, s, i)
  }

  /** A sleeping consumer has nothing to take and has not been told to stop. */
  ghost predicate Awake(c: Scenario, s: State)
    requires Fits(c, s)
  {
    forall i | 0 <= i < c.n && s.pcs[i].Sleeping? :: s.queues[i] == [] && !s.stopped[i]
  }

  lemma ReceiveConserves(c: Scenario, s: State, i: nat)
    requires Fits(c, s) && i < c.n && ConservedAt(c, s, i)
    ensures ConservedAt(c, Next(c, s, Receive), i)
  {
  }

  lemma ConsumerConserves(c: Scenario, s: State, i: nat)
    requires Fits(c, s) && Enabled(c, s, Consumer(i)) && ConservedAt(c, s, i)
    ensures ConservedAt(c, Step(c, s, i), i)
  {
  }

  /** A step of one consumer leaves the other consumers and their queues alone. */
  lemma ConsumerLocal(c: Scenario, s: State, i: nat, k: nat)
    requires Fits(c, s) && Enabled(c, s, Consumer(i)) && k < c.n && k != i
    ensures var s' := Step(c, s, i);
            s'.pcs[k] == s.pcs[k] && s'.queues[k] == s.queues[k] && s'.done[k] == s.done[k]
            && s'.stopped == s.stopped && s'.arrived == s.arrived
  {
  }

  lemma StepConservesAt(c: Scenario, s: State, a: Action, i: nat)
    requires Fits(c, s) && Enabled(c, s, a) && i < c.n && ConservedAt(c, s, i)
    ensures ConservedAt(c, Next(c, s, a), i)
  {
    if a.Receive? {
      ReceiveConserves(c, s, i);
    } else if a.Consumer? {
      if a.i == i {
        ConsumerConserves(c, s, i);
      } else {
        ConsumerLocal(c, s, a.i, i);
      }
    }
  }

  lemma StepConserves(c: Scenario, s: State, a: Action)
    requires Fits(c, s) && Enabled(c, s, a) && Conserved(c, s)
    ensures Conserved(c, Next(c, s, a))
  {
    forall i: nat | i < c.n
      ensures ConservedAt(c, Next(c, s, a), i)
    {
      assert ConservedAt(c, s, i);
      StepConservesAt(c, s, a, i);
    }
  }

  lemma StepKeepsAwake(c: Scenario, s: State, a: Action)
    requires Fits(c, s) && Enabled(c, s, a) && Awake(c, s)
    ensures Awake(c, Next(c, s, a))
  {
  }

  /** In every reachable state each queue satisfies pushed = finished ++ in flight ++ waiting, nobody sleeps on a
      non-empty or stopped queue, and what a consumer holds was pushed to its own queue. */
  lemma {:induction false} QueuesSound(c: Scenario, acts: seq<Action>, s: State)
    requires Run(c, acts) == Some(s)
    ensures Conserved(c, s) && Awake(c, s)
    ensures forall i | 0 <= i < c.n && InFlight(s.pcs[i]) :: QueueOf(c, s.pcs[i].id) == i && s.pcs[i].id < s.arrived
    decreases |acts|
  {
    if acts == [] {
      assert forall i | 0 <= i < c.n :: Routed(c, 0, i) == [];
    } else {
      var init := acts[..|acts| - 1];
      QueuesSound(c, init, Run(c, init).value);
      StepConserves(c, Run(c, init).value, acts[|acts| - 1]);
      StepKeepsAwake(c, Run(c, init).value, acts[|acts| - 1]);
    }
    forall i | 0 <= i < c.n && InFlight(s.pcs[i])
      ensures QueueOf(c, s.pcs[i].id) == i && s.pcs[i].id < s.arrived
    {
      InFlightRouted(c, s, i);
    }
  }

  lemma InFlightRouted(c: Scenario, s: State, i: nat)
    requires Fits(c, s) && Conserved(c, s) && i < c.n && InFlight(s.pcs[i])
    ensures QueueOf(c, s.pcs[i].id) == i && s.pcs[i].id < s.arrived
  {
    var id := s.pcs[i].id;
    assert id in Current(s.pcs[i]);
    assert id in s.done[i] + Current(s.pcs[i]) + s.queues[i];
    assert ConservedAt(c, s, i);
    RoutedMember(c, s.arrived, i, id);
  }
}

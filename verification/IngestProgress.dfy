/** How far a consumer is from its next message or its exit, and what Stop guarantees. */
module IngestProgress {
  import opened Messages
  import opened Ingest
  import opened IngestQueues

  /** Steps left on the message in flight. */
  function Remaining(c: Scenario, pc: Pc): nat
    requires PcFits(c, pc)
  {
    match pc
    case Holding(id) => 4 * |Updates(c, id)| + 2
    case Working(id, _, j, last) => 4 * (|Updates(c, id)| - j) + (if last.None? then 1 else 0)
    case Scoring(id, _) => 4 * |Updates(c, id)| - 1
    case Connecting(id, _) => 4 * |Updates(c, id)| - 2
    case _ => 0
  }

  lemma StepWithinMessage(c: Scenario, s: State, i: nat)
    requires Fits(c, s) && Enabled(c, s, Consumer(i)) && InFlight(s.pcs[i])
    ensures var pc, pc' := s.pcs[i], NextPc(c, s, i);
            if Finishes(c, pc) then pc' == AtTest
            else InFlight(pc') && pc'.id == pc.id && PcFits(c, pc') && Remaining(c, pc') < Remaining(c, pc)
  {
  }

  // ---- Shutdown ----

  /** Once running_ is clear and the queue is stopped, how many own steps consumer i can still take is bounded by
      this pair, lexicographically. */
  function Phase(pc: Pc): nat {
    match pc
    case Exited => 0
    case AtTest => 1
    case InPop => 3
    case Notified => 3
    case Sleeping => 4
    case _ => 2
  }

  ghost predicate Closer(c: Scenario, pc': Pc, pc: Pc)
    requires PcFits(c, pc) && PcFits(c, pc')
  {
    Phase(pc') < Phase(pc) || (Phase(pc') == Phase(pc) && Remaining(c, pc') < Remaining(c, pc))
  }

  /** After Stop has cleared running_ and stopped queue i: consumer i is never blocked before it has exited, each
      of its own steps brings it closer to Exited, and no step of anybody else moves it.  The queue stays stopped
      until Start. */
  lemma StoppedConsumerExits(c: Scenario, acts: seq<Action>, s: State, i: nat, a: Action)
    requires Run(c, acts) == Some(s) && i < c.n && !s.running && s.stopped[i]
    requires Enabled(c, s, a) && !a.Start?
    ensures s.pcs[i].Exited? || Enabled(c, s, Consumer(i))
    ensures var s' := Next(c, s, a);
            && !s'.running && s'.stopped[i]
            && (if a == Consumer(i) then Closer(c, s'.pcs[i], s.pcs[i]) else s'.pcs[i] == s.pcs[i])
  {
    QueuesSound(c, acts, s);
    if a.Consumer? && a.i == i {
      if InFlight(s.pcs[i]) {
        StepWithinMessage(c, s, i);
      }
    } else if a.Consumer? {
      ConsumerLocal(c, s, a.i, i);
    }
  }

  /** How many queues have been stopped in these actions. */
  function Stops(acts: seq<Action>): nat
    decreases |acts|
  {
    if acts == [] then 0 else Stops(acts[1..]) + if acts[0].StopQueue? then 1 else 0
  }

  /** Stop() has cleared running_ and stopped the first k queues. */
  ghost predicate StoppedSoFar(c: Scenario, s: State, k: nat)
    requires Fits(c, s)
  {
    && !s.running && k <= c.n && s.stopping == (if k < c.n then Some(k) else None)
    && forall i | 0 <= i < k :: s.stopped[i]
  }

  lemma StopStep(c: Scenario, s: State, a: Action, k: nat)
    requires Fits(c, s) && Enabled(c, s, a) && !a.Start? && StoppedSoFar(c, s, k)
    ensures StoppedSoFar(c, Next(c, s, a), k + if a.StopQueue? then 1 else 0)
  {
    if a.Consumer? {
      assert Step(c, s, a.i).stopped == s.stopped && Step(c, s, a.i).stopping == s.stopping;
    }
  }

  lemma {:induction false} StopGoesOn(c: Scenario, s: State, acts: seq<Action>, t: State, k: nat)
    requires Fits(c, s) && Fits(c, t) && StoppedSoFar(c, s, k)
    requires Leads(c, s, acts, t) && forall a | a in acts :: !a.Start?
    ensures StoppedSoFar(c, t, k + Stops(acts))
    decreases |acts|
  {
    if acts != [] {
      assert acts[0] in acts;
      StopStep(c, s, acts[0], k);
      StopGoesOn(c, Next(c, s, acts[0]), acts[1..], t, k + if acts[0].StopQueue? then 1 else 0);
    }
  }

  /** Stop() on a running manager clears running_ for good, and its steps stop one queue each until all are stopped,
      whatever the other threads do in between. */
  lemma StopStopsAll(c: Scenario, s: State, acts: seq<Action>, t: State)
    requires Fits(c, s) && Fits(c, t) && s.running
    requires Leads(c, s, [BeginStop] + acts, t) && forall a | a in acts :: !a.Start?
    ensures !t.running && Stops(acts) <= c.n && (Stops(acts) < c.n ==> Enabled(c, t, StopQueue))
    ensures forall i | 0 <= i < Stops(acts) :: t.stopped[i]
  {
    assert ([BeginStop] + acts)[1..] == acts;
    StopGoesOn(c, Next(c, s, BeginStop), acts, t, 0);
  }

  /** Whether consumer i may still enter ProcessData without testing running_ again. */
  function Admission(pc: Pc): nat {
    if pc.InPop? || pc.Sleeping? || pc.Notified? then 1 else 0
  }

  /** Messages consumer i has begun to process. */
  function Begun(s: State, i: nat): nat
    requires i < |s.pcs| == |s.done|
  {
    |s.done[i]| + (if InFlight(s.pcs[i]) then 1 else 0)
  }

  lemma BegunStep(c: Scenario, s: State, a: Action, i: nat)
    requires Fits(c, s) && Enabled(c, s, a) && i < c.n && !s.running && !a.Start?
    ensures !Next(c, s, a).running
    ensures Begun(Next(c, s, a), i) + Admission(Next(c, s, a).pcs[i]) <= Begun(s, i) + Admission(s.pcs[i])
    ensures Begun(Next(c, s, a), i) >= Begun(s, i)
  {
  }

  /** The states a run passes through after a given state. */
  ghost predicate Leads(c: Scenario, s: State, acts: seq<Action>, t: State)
    requires Fits(c, s)
    decreases |acts|
  {
    if acts == [] then t == s
    else Enabled(c, s, acts[0]) && Leads(c, Next(c, s, acts[0]), acts[1..], t)
  }

  /** However long a run goes on after Stop has cleared running_ (and until Start sets it), each consumer begins to
      process at most one further message. */
  lemma {:induction false} AtMostOneMore(c: Scenario, s: State, acts: seq<Action>, t: State, i: nat)
    requires Fits(c, s) && Fits(c, t) && i < c.n && !s.running
    requires Leads(c, s, acts, t) && forall a | a in acts :: !a.Start?
    ensures Begun(s, i) <= Begun(t, i) <= Begun(s, i) + 1
    ensures Begun(t, i) + Admission(t.pcs[i]) <= Begun(s, i) + Admission(s.pcs[i])
    decreases |acts|
  {
    if acts != [] {
      assert acts[0] in acts;
      BegunStep(c, s, acts[0], i);
      AtMostOneMore(c, Next(c, s, acts[0]), acts[1..], t, i);
    }
  }

  /** A consumer that has exited (also one that did so before Start) stays exited: whatever happens next, its
      finished messages are frozen and its queue only grows at the end. */
  lemma ExitedIsFinal(c: Scenario, s: State, a: Action, i: nat)
    requires Fits(c, s) && Enabled(c, s, a) && i < c.n && s.pcs[i].Exited?
    ensures var s' := Next(c, s, a);
            s'.pcs[i].Exited? && s'.done[i] == s.done[i] && s.queues[i] <= s'.queues[i]
  {
  }

  lemma {:induction false} ExitedForever(c: Scenario, s: State, acts: seq<Action>, t: State, i: nat)
    requires Fits(c, s) && Fits(c, t) && i < c.n && s.pcs[i].Exited? && Leads(c, s, acts, t)
    ensures t.pcs[i].Exited? && t.done[i] == s.done[i] && s.queues[i] <= t.queues[i]
    decreases |acts|
  {
    if acts != [] {
      ExitedIsFinal(c, s, acts[0], i);
      ExitedForever(c, Next(c, s, acts[0]), acts[1..], t, i);
    }
  }

  /** Before Start, a consumer is gone exactly if it has made a step, and is at its loop test otherwise. */
  lemma {:induction false} GoneBeforeStartExactlyWhen(c: Scenario, acts: seq<Action>, s: State, i: nat)
    requires Run(c, acts) == Some(s) && i < c.n && Start !in acts
    ensures !s.running && s.done[i] == []
    ensures s.pcs[i] == if Consumer(i) in acts then Exited else AtTest
    decreases |acts|
  {
    if acts != [] {
      var init, a := acts[..|acts| - 1], acts[|acts| - 1];
      assert acts == init + [a];
      GoneBeforeStartExactlyWhen(c, init, Run(c, init).value, i);
      IdleBeforeStart(c, Run(c, init).value, a, i);
    }
  }

  lemma IdleBeforeStart(c: Scenario, s: State, a: Action, i: nat)
    requires Fits(c, s) && Enabled(c, s, a) && i < c.n && !a.Start? && !s.running
    requires s.pcs[i] == AtTest || s.pcs[i] == Exited
    ensures var t := Next(c, s, a);
            !t.running && t.done[i] == s.done[i] && t.pcs[i] == if a == Consumer(i) then Exited else s.pcs[i]
  {
    if a.Consumer? && a.i != i {
      ConsumerLocal(c, s, a.i, i);
    }
  }

  /** Any consumer can exit before Start; by ExitedForever its queue then keeps every message it is ever sent. */
  lemma ExitBeforeStart(c: Scenario, i: nat)
    requires i < c.n
    ensures var r := Run(c, [Consumer(i)]);
            r.Some? && r.value.pcs[i].Exited? && !r.value.running && r.value.done[i] == []
  {
  }
}

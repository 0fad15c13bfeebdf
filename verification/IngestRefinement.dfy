/** The queues inside the ingest machine are the SafeQueue of safe_queue.h: every step of the machine is, as queue i
    sees it, one step of that protocol or none. */
module IngestRefinement {
  import opened Messages
  import opened Ingest
  import opened IngestQueues
  import SafeQueues

  /** Queue i as its own state: the one thread that can wait on it is consumer i. */
  function View(c: Scenario, s: State, i: nat): SafeQueues.QState<nat>
    requires |s.queues| == |s.stopped| == |s.pcs| == |s.done| == c.n && i < c.n
  {
    SafeQueues.QState(
      s.queues[i], s.stopped[i],
      if s.pcs[i].Sleeping? then {i} else {}, if s.pcs[i].Notified? then {i} else {},
      Routed(c, s.arrived, i), s.done[i] + Current(s.pcs[i]))
  }

  /** s leads to s' by the given step of the queue protocol, or looks the same. */
  ghost predicate Simulates<T>(s: SafeQueues.QState<T>, a: Option<SafeQueues.QAction<T>>, s': SafeQueues.QState<T>) {
    if a.None? then s' == s else SafeQueues.Enabled(s, a.value) && s' == SafeQueues.Next(s, a.value)
  }

  /** The step of queue i that an action of the machine is. */
  function QueueAction(c: Scenario, s: State, a: Action, i: nat): Option<SafeQueues.QAction<nat>>
    requires |s.pcs| == c.n && i < c.n
  {
    if a.Receive? && QueueOf(c, s.arrived) == i then Some(SafeQueues.QAction.Push(s.arrived, i))
    else if a.StopQueue? && s.stopping == Some(i) then Some(SafeQueues.QAction.Stop)
    else if a == Spurious(i) then Some(SafeQueues.QAction.Spurious(i))
    else if a == Consumer(i) && (s.pcs[i].InPop? || s.pcs[i].Notified?) then Some(SafeQueues.QAction.Pop(i))
    else None
  }

  lemma ConsumerSimulates(c: Scenario, s: State, i: nat)
    requires Fits(c, s) && Enabled(c, s, Consumer(i))
    ensures Simulates(View(c, s, i), QueueAction(c, s, Consumer(i), i), View(c, Step(c, s, i), i))
  {
    var s' := Step(c, s, i);
    var pc, pc' := s.pcs[i], s'.pcs[i];
    assert s'.arrived == s.arrived && s'.stopped == s.stopped;
    if pc.InPop? || pc.Notified? {
      assert s'.done[i] == s.done[i] && Current(pc) == [];
    } else {
      assert s'.queues == s.queues;
      assert s'.done[i] + Current(pc') == s.done[i] + Current(pc);
    }
  }

  lemma ReceiveSimulates(c: Scenario, s: State, i: nat)
    requires Fits(c, s) && i < c.n
    ensures Simulates(View(c, s, i), QueueAction(c, s, Receive, i), View(c, Next(c, s, Receive), i))
  {
  }

  lemma OtherSimulates(c: Scenario, s: State, a: Action, i: nat)
    requires Fits(c, s) && Enabled(c, s, a) && i < c.n && !a.Consumer? && !a.Receive?
    ensures Simulates(View(c, s, i), QueueAction(c, s, a, i), View(c, Next(c, s, a), i))
  {
    OtherStep(c, s, a, i);
  }

  /** Neither the queues nor what was taken from them change; queue i may be stopped, and its sleeper woken. */
  lemma OtherStep(c: Scenario, s: State, a: Action, i: nat)
    requires Fits(c, s) && Enabled(c, s, a) && i < c.n && !a.Consumer? && !a.Receive?
    ensures var s' := Next(c, s, a);
            var stops := a.StopQueue? && s.stopping == Some(i);
            && s'.queues == s.queues && s'.arrived == s.arrived && s'.done == s.done
            && s'.stopped[i] == (stops || s.stopped[i])
            && s'.pcs[i] == if stops then Wake(s.pcs[i]) else if a == Spurious(i) then Notified else s.pcs[i]
  {
  }

  /** Every action of the machine is a step of every queue's protocol, or none. */
  lemma MachineRefinesQueues(c: Scenario, s: State, a: Action, i: nat)
    requires Fits(c, s) && Enabled(c, s, a) && i < c.n
    ensures Simulates(View(c, s, i), QueueAction(c, s, a, i), View(c, Next(c, s, a), i))
  {
    if a.Consumer? {
      if a.i == i {
        ConsumerSimulates(c, s, i);
      } else {
        ConsumerLocal(c, s, a.i, i);
      }
    } else if a.Receive? {
      ReceiveSimulates(c, s, i);
    } else {
      OtherSimulates(c, s, a, i);
    }
  }

  /** Hence the queue invariants hold of every queue in every reachable state of the machine. */
  lemma {:induction false} QueuesStaySound(c: Scenario, acts: seq<Action>, s: State, i: nat)
    requires Run(c, acts) == Some(s) && i < c.n
    ensures SafeQueues.Sound(View(c, s, i))
    decreases |acts|
  {
    if acts != [] {
      var init, a := acts[..|acts| - 1], acts[|acts| - 1];
      var s0 := Run(c, init).value;
      QueuesStaySound(c, init, s0, i);
      MachineRefinesQueues(c, s0, a, i);
      if QueueAction(c, s0, a, i).Some? {
        SafeQueues.SoundStep(View(c, s0, i), QueueAction(c, s0, a, i).value);
      }
    }
  }
}

/** The blocking queue (manager/include/utils/safe_queue.h): a monitor with a condition variable, for any number of
    pushing and popping threads. */
module SafeQueues {

  /** asleep: threads inside cond_.wait.  notified: threads woken (by a notification or spuriously) that have not
      yet taken the lock again.  pushed and popped are history. */
  datatype QState<T> = QState(
    items: seq<T>, stop: bool, asleep: set<nat>, notified: set<nat>, pushed: seq<T>, popped: seq<T>)

  /** What one evaluation of Pop's wait predicate leads to. */
  datatype Outcome<T> = Taken(value: T) | Refused | Waits

  datatype QAction<T> =
    | Push(value: T, wake: nat)     // notify_one wakes this sleeper, if anybody sleeps
    | Pop(t: nat)                   // thread t enters Pop, or a notified thread has the lock again
    | Spurious(t: nat)
    | Stop

  const NO_THREADS: set<nat> := {}

  function Fresh<T>(): QState<T> {
    QState([], false, NO_THREADS, NO_THREADS, [], [])
  }

  predicate Enabled<T>(s: QState<T>, a: QAction<T>) {
    match a
    case Push(_, wake) => s.asleep == {} || wake in s.asleep
    case Pop(t) => t !in s.asleep
    case Spurious(t) => t in s.asleep
    case Stop => true
  }

  function PopOutcome<T>(s: QState<T>): Outcome<T> {
    if s.items != [] then Taken(s.items[0]) else if s.stop then Refused else Waits
  }

  function Next<T>(s: QState<T>, a: QAction<T>): QState<T> {
    match a
    case Push(v, wake) =>
      var woken := if wake in s.asleep then {wake} else {};
      s.(items := s.items + [v], pushed := s.pushed + [v],
         asleep := s.asleep - woken, notified := s.notified + woken)
    case Pop(t) =>
      match PopOutcome(s) {
        case Taken(v) => s.(items := s.items[1..], popped := s.popped + [v], notified := s.notified - {t})
        case Refused => s.(notified := s.notified - {t})
        case Waits => s.(asleep := s.asleep + {t}, notified := s.notified - {t})
      }
    case Spurious(t) => s.(asleep := s.asleep - {t}, notified := s.notified + {t})
    case Stop => s.(stop := true, asleep := {}, notified := s.notified + s.asleep)
  }

  ghost predicate Possible<T>(s: QState<T>, acts: seq<QAction<T>>)
    decreases |acts|
  {
    acts == [] || (Enabled(s, acts[0]) && Possible(Next(s, acts[0]), acts[1..]))
  }

  function Run<T>(s: QState<T>, acts: seq<QAction<T>>): QState<T>
    decreases |acts|
  {
    if acts == [] then s else Run(Next(s, acts[0]), acts[1..])
  }

  // ---- Invariants ----

  /** Popped values followed by the contents are the pushed values; if anybody sleeps, the threads on their way to
      the lock are at least as many as the items; nobody sleeps once stopped. */
  ghost predicate Sound<T>(s: QState<T>) {
    && s.popped + s.items == s.pushed
    && s.asleep !! s.notified
    && (s.asleep == {} || |s.notified| >= |s.items|)
    && (s.stop ==> s.asleep == {})
  }

  lemma SoundStep<T>(s: QState<T>, a: QAction<T>)
    requires Sound(s) && Enabled(s, a)
    ensures Sound(Next(s, a))
  {
  }

  /** No lost wakeup, and FIFO, for any number of producers and consumers and any interleaving, with spurious
      wakeups and with threads that overtake a notified waiter: whenever an item is available while a thread
      sleeps, some other thread is already on its way to the lock; after Stop nobody sleeps; and the popped
      values are always the first pushed ones, in order. */
  lemma {:induction false} NoLostWakeup<T>(s: QState<T>, acts: seq<QAction<T>>)
    requires Sound(s) && Possible(s, acts)
    ensures var t := Run(s, acts);
            && Sound(t)
            && (t.items != [] && t.asleep != {} ==> t.notified != {})
            && (t.stop ==> t.asleep == {})
            && t.popped <= t.pushed
    decreases |acts|
  {
    if acts == [] {
      NotifiedExist(s);
    } else {
      SoundStep(s, acts[0]);
      NoLostWakeup(Next(s, acts[0]), acts[1..]);
    }
  }

  lemma NotifiedExist<T>(s: QState<T>)
    requires Sound(s)
    ensures s.items != [] && s.asleep != {} ==> s.notified != {}
  {
  }

  // ---- Stopping ----

  /** From items and popped, some of the items have been popped in order, leaving rest and taken. */
  ghost predicate Drained<T>(items: seq<T>, popped: seq<T>, rest: seq<T>, taken: seq<T>) {
    |rest| <= |items|
    && var k := |items| - |rest|;
       rest == items[k..] && taken == popped + items[..k]
  }

  lemma StepWithoutPush<T>(s: QState<T>, a: QAction<T>)
    requires s.stop && !a.Push?
    ensures var t := Next(s, a);
            && t.stop
            && (if a.Pop? && s.items != [] then t.items == s.items[1..] && t.popped == s.popped + [s.items[0]]
                else t.items == s.items && t.popped == s.popped)
  {
  }

  lemma TakeOne<T>(items: seq<T>, popped: seq<T>, rest: seq<T>, taken: seq<T>)
    requires items != [] && Drained(items[1..], popped + [items[0]], rest, taken)
    ensures Drained(items, popped, rest, taken)
  {
    var k := |items| - 1 - |rest|;
    assert popped + [items[0]] + items[1..][..k] == popped + items[..k + 1];
    assert items[1..][k..] == items[k + 1..];
  }

  lemma AllTaken<T>(items: seq<T>, popped: seq<T>, rest: seq<T>, taken: seq<T>)
    requires Drained(items, popped, rest, taken)
    ensures rest == [] <==> taken == popped + items
  {
    assert items[..|items|] == items;
    assert |popped + items| == |popped| + |items|;
  }

  /** From a stopped queue on, as long as nobody pushes: every Pop returns, the values come out in order, and false
      is returned only once they have all been taken. */
  lemma {:induction false} DrainsInOrder<T>(s: QState<T>, acts: seq<QAction<T>>)
    requires s.stop && Possible(s, acts) && forall a | a in acts :: !a.Push?
    ensures var t := Run(s, acts);
            && t.stop && Drained(s.items, s.popped, t.items, t.popped)
            && !PopOutcome(t).Waits? && (PopOutcome(t).Refused? <==> t.popped == s.popped + s.items)
    decreases |acts|
  {
    var t := Run(s, acts);
    if acts != [] {
      assert acts[0] in acts;
      StepWithoutPush(s, acts[0]);
      DrainsInOrder(Next(s, acts[0]), acts[1..]);
      if acts[0].Pop? && s.items != [] {
        TakeOne(s.items, s.popped, t.items, t.popped);
      }
    }
    AllTaken(s.items, s.popped, t.items, t.popped);
  }

  /** On a stopped and empty queue a Pop attempted at any later point returns false if and only if nobody pushes in
      the meantime: Push does not look at the stop flag. */
  lemma {:induction false} FalseIsFinalExactlyWhen<T>(s: QState<T>, acts: seq<QAction<T>>)
    requires s.stop && s.items == [] && Possible(s, acts)
    ensures (forall k | 0 <= k <= |acts| :: PopOutcome(Run(s, acts[..k])).Refused?)
            <==> (forall a | a in acts :: !a.Push?)
    decreases |acts|
  {
    if acts != [] {
      var s', rest := Next(s, acts[0]), acts[1..];
      if acts[0].Push? {
        assert acts[..1] == [acts[0]];
        assert Run(s, acts[..1]) == Run(s', acts[..1][1..]) == s';
        assert PopOutcome(Run(s, acts[..1])).Taken?;
        assert acts[0] in acts;
      } else {
        FalseIsFinalExactlyWhen(s', rest);
        forall k | 0 <= k <= |acts|
          ensures PopOutcome(Run(s, acts[..k])).Refused? <==>
                  k == 0 || PopOutcome(Run(s', rest[..k - 1])).Refused?
        {
          if k > 0 {
            assert acts[..k][0] == acts[0] && acts[..k][1..] == rest[..k - 1];
          }
        }
        if forall k | 0 <= k <= |acts| :: PopOutcome(Run(s, acts[..k])).Refused? {
          forall j | 0 <= j <= |rest|
            ensures PopOutcome(Run(s', rest[..j])).Refused?
          {
            assert PopOutcome(Run(s, acts[..j + 1])).Refused?;
            assert rest[..j + 1 - 1] == rest[..j];
          }
        }
        assert acts == [acts[0]] + rest;
      }
    }
  }

  // ---- The class ----

  class SafeQueue<T> {
    var queue: seq<T>
    var stopped: bool
    ghost var asleep: set<nat>
    ghost var notified: set<nat>
    ghost var pushed: seq<T>
    ghost var popped: seq<T>

    ghost function State(): QState<T>
      reads this
    {
      QState(queue, stopped, asleep, notified, pushed, popped)
    }

    ghost predicate Valid()
      reads this
    {
      Sound(State())
    }

    constructor ()
      ensures Valid() && State() == Fresh()
    {
      queue, stopped := [], false;
      asleep, notified, pushed, popped := {}, {}, [], [];
    }

    method Push(value: T, ghost wake: nat)
      requires Valid() && (asleep == {} || wake in asleep)
      modifies this
      ensures Valid() && State() == Next(old(State()), QAction.Push(value, wake))
    {
      SoundStep(State(), QAction.Push(value, wake));
      queue := queue + [value];
      pushed := pushed + [value];
      if wake in asleep {
        asleep, notified := asleep - {wake}, notified + {wake};
      }
    }

    /** Pop with the lock held: returns false on a stopped, empty queue; Waits releases the lock and sleeps. */
    method TryPop(ghost t: nat) returns (r: Outcome<T>)
      requires Valid() && t !in asleep
      modifies this
      ensures Valid() && State() == Next(old(State()), Pop(t)) && r == PopOutcome(old(State()))
    {
      ghost var next := Next(State(), Pop(t));
      SoundStep(State(), Pop(t));
      notified := notified - {t};
      if |queue| == 0 && !stopped {
        asleep := asleep + {t};
        assert State() == next;
        return Waits;
      }
      if |queue| == 0 && stopped {
        assert State() == next;
        return Refused;
      }
      r := Taken(queue[0]);
      popped := popped + [queue[0]];
      queue := queue[1..];
      assert State() == next;
    }

    method Stop()
      requires Valid()
      modifies this
      ensures Valid() && State() == Next(old(State()), QAction.Stop)
    {
      SoundStep(State(), QAction.Stop);
      stopped := true;
      asleep, notified := {}, notified + asleep;
    }

    /** The two observers agree with the history: what was pushed and not yet popped. */
    method Empty() returns (b: bool)
      requires Valid()
      ensures b <==> pushed == popped
    {
      b := |queue| == 0;
      assert popped + queue == pushed;
    }

    method Size() returns (n: nat)
      requires Valid()
      ensures n == |pushed| - |popped|
    {
      n := |queue|;
      assert |popped + queue| == |pushed|;
    }
  }
}

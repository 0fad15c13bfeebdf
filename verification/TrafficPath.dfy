/** The traffic counters from the packets to the rates: what the kernel side (TrafficMap) counts between the scans of
    the user side (NetEbpfMonitors) is what the rates account for. */
module TrafficPath {
  import opened Messages
  import opened Words
  import opened Sampler
  import opened TrafficMap
  import opened NetEbpfMonitors

  /** The interface's cell is final, and nobody is about to add to an older one. */
  ghost predicate Settled(s: State, i: nat) {
    Quiet(s, i)
    && forall x | x in s.execs && x.ifindex == i :: x.pc.Entered? || x.pc.Done? || Target(x.pc) == Some(s.live[i])
  }

  lemma {:induction false} TrafficUpdate(execs: seq<Exec>, e: nat, x: Exec, i: nat, f: Field)
    requires e < |execs|
    ensures Traffic(execs[e := x], i, f) == Traffic(execs, i, f) - Share(execs[e], i, f) + Share(x, i, f)
  {
    var n := |execs| - 1;
    if e == n {
      assert execs[e := x][..n] == execs[..n];
    } else {
      TrafficUpdate(execs[..n], e, x, i, f);
      assert execs[e := x][..n] == execs[..n][e := x];
    }
  }

  /** What a step of an execution adds to the interface's traffic it adds to the interface's cell. */
  lemma ShareIsCredit(s: State, a: Action, i: nat, f: Field)
    requires Fits(s) && Enabled(s, a) && Settled(s, i) && !a.Packet?
    ensures var t, k := Next(s, a), s.live[i];
            && t.execs == s.execs[a.e := t.execs[a.e]]
            && Share(t.execs[a.e], i, f) - Share(s.execs[a.e], i, f)
               == Credit(t.execs[a.e], k, f) - Credit(s.execs[a.e], k, f) >= 0
  {
    var x, t := s.execs[a.e], Next(s, a);
    assert x in s.execs && ExecFits(s.cells, x) && ExecFits(t.cells, t.execs[a.e]);
    if x.ifindex == i {
      NotMissed(s, a.e, i);
    }
    assert t.execs[a.e].ifindex == x.ifindex;
  }

  lemma NotMissed(s: State, e: nat, i: nat)
    requires Fits(s) && Quiet(s, i) && e < |s.execs| && s.execs[e].ifindex == i
    ensures !s.execs[e].pc.Missed?
  {
    assert e !in Missing(s, i);
  }

  /** From s to t the interface's cell has stayed, and has received all that was counted. */
  ghost predicate Onward(s: State, t: State, i: nat, f: Field) {
    && i in s.live && i in t.live && t.live[i] == s.live[i]
    && Traffic(t.execs, i, f) - Traffic(s.execs, i, f) == Sum(t.execs, s.live[i], f) - Sum(s.execs, s.live[i], f) >= 0
  }

  lemma OnwardStep(s: State, a: Action, i: nat, f: Field)
    requires Fits(s) && Enabled(s, a) && Settled(s, i)
    ensures Onward(s, Next(s, a), i, f)
  {
    var t, k := Next(s, a), s.live[i];
    MissStep(s, a, i);
    if a.Packet? {
      if t != s {
        var x := Exec(a.ifindex, a.len, a.rx, Entered);
        assert (s.execs + [x])[..|s.execs|] == s.execs;
        SumSnoc(s.execs, x, k, f);
      }
    } else {
      ShareIsCredit(s, a, i, f);
      SumUpdate(s.execs, a.e, t.execs[a.e], k, f);
      TrafficUpdate(s.execs, a.e, t.execs[a.e], i, f);
    }
  }

  lemma SettledStep(s: State, a: Action, i: nat)
    requires Fits(s) && Enabled(s, a) && Settled(s, i)
    ensures Settled(Next(s, a), i)
  {
    var t := Next(s, a);
    MissStep(s, a, i);
    forall x | x in t.execs && x.ifindex == i
      ensures x.pc.Entered? || x.pc.Done? || Target(x.pc) == Some(s.live[i])
    {
      var e: nat :| e < |t.execs| && t.execs[e] == x;
      if e < |s.execs| {
        assert s.execs[e] in s.execs && s.execs[e].ifindex == i;
        NotMissed(s, e, i);
      }
    }
  }

  lemma {:induction false} OnwardRun(s: State, acts: seq<Action>, t: State, i: nat, f: Field)
    requires Fits(s) && Leads(s, acts, t) && Settled(s, i)
    ensures Fits(t) && Settled(t, i) && Onward(s, t, i, f)
    decreases |acts|
  {
    if acts != [] {
      SettledStep(s, acts[0], i);
      OnwardStep(s, acts[0], i, f);
      OnwardRun(Next(s, acts[0]), acts[1..], t, i, f);
    }
  }

  // ---- Reading the cell again and again ----

  /** runs[0] leads from the empty map to the first state, and runs[n] from each state to the next. */
  ghost predicate Successive(runs: seq<seq<Action>>, states: seq<State>) {
    && |runs| == |states| > 0 && Leads(EMPTY, runs[0], states[0])
    && forall n | 0 < n < |states| :: Follows(states[n - 1], runs[n], states[n])
  }

  ghost predicate Follows(s: State, acts: seq<Action>, t: State) {
    Fits(s) && Leads(s, acts, t)
  }

  /** What arrived at the interface after the first state and up to the n-th. */
  function ArrivedBy(runs: seq<seq<Action>>, n: nat, i: nat, f: Field): nat
    requires n < |runs|
  {
    if n == 0 then 0 else ArrivedBy(runs, n - 1, i, f) + Arrived(runs[n], i, f)
  }

  /** Every execution of the interface has finished. */
  ghost predicate Finished(s: State, i: nat) {
    forall x | x in s.execs && x.ifindex == i :: x.pc.Done?
  }

  /** The n-th sample of the history is what the interface's cell showed in the n-th state. */
  ghost predicate ReadIn(h: History, states: seq<State>, i: nat) {
    && |h| == |states|
    && forall n | 0 <= n < |states| ::
         i in states[n].live && states[n].live[i] < |states[n].cells|
         && h[n].curr.stats == states[n].cells[states[n].live[i]].counters
  }

  /** What the n-th state inherits from the first one. */
  lemma {:induction false} LaterState(runs: seq<seq<Action>>, states: seq<State>, i: nat, f: Field, n: nat)
    requires n < |states| && Successive(runs, states) && Settled(states[0], i)
    ensures Fits(states[n]) && AllCounted(states[n]) && Settled(states[n], i)
    ensures Onward(states[0], states[n], i, f)
    ensures n > 0 ==> i in states[n - 1].live && Onward(states[n - 1], states[n], i, f)
  {
    if n == 0 {
      AlwaysCounted(EMPTY, runs[0], states[0]);
    } else {
      LaterState(runs, states, i, f, n - 1);
      assert Follows(states[n - 1], runs[n], states[n]);
      AlwaysCounted(states[n - 1], runs[n], states[n]);
      OnwardRun(states[n - 1], runs[n], states[n], i, f);
    }
  }

  /** Traffic never shrinks along the states. */
  lemma {:induction false} TrafficGrows(runs: seq<seq<Action>>, states: seq<State>, i: nat, f: Field, n: nat)
    requires n < |states| && Successive(runs, states) && Settled(states[0], i)
    ensures Traffic(states[n].execs, i, f) <= Traffic(states[|states| - 1].execs, i, f)
    decreases |states| - n
  {
    if n < |states| - 1 {
      LaterState(runs, states, i, f, n + 1);
      TrafficGrows(runs, states, i, f, n + 1);
    }
  }

  /** A sample's counter is what had been put into the cell by then. */
  lemma SampleValue(runs: seq<seq<Action>>, states: seq<State>, h: History, i: nat, f: Field, n: nat)
    requires n < |states| && Successive(runs, states) && Settled(states[0], i)
    requires ReadIn(h, states, i) && 1000 * Traffic(states[|states| - 1].execs, i, f) < TWO63
    ensures i in states[n].live
    ensures Value(h[n].curr.stats, f) == Sum(states[n].execs, states[n].live[i], f)
    ensures 1000 * Value(h[n].curr.stats, f) < TWO63
  {
    LaterState(runs, states, i, f, n);
    TrafficGrows(runs, states, i, f, n);
    CellShows(states[n], i, f, states[n].live[i]);
  }

  /** Samples read from a settled state on never fall. */
  lemma SamplesNeverFall(runs: seq<seq<Action>>, states: seq<State>, h: History, i: nat, f: Field)
    requires Successive(runs, states) && Settled(states[0], i)
    requires ReadIn(h, states, i) && 1000 * Traffic(states[|states| - 1].execs, i, f) < TWO63
    ensures NoReset(h, f) && InRange(h, f)
  {
    forall n | 0 <= n < |h|
      ensures 1000 * Value(h[n].curr.stats, f) < TWO63
      ensures n > 0 ==> Value(h[n - 1].curr.stats, f) <= Value(h[n].curr.stats, f)
    {
      SampleValue(runs, states, h, i, f, n);
      if n > 0 {
        SampleValue(runs, states, h, i, f, n - 1);
        LaterState(runs, states, i, f, n);
      }
    }
  }

  // ---- What is counted is what arrives ----

  /** Executions keep their packet, and finished ones stay as they are. */
  ghost predicate Continues(a: seq<Exec>, b: seq<Exec>) {
    |a| <= |b|
    && forall e | 0 <= e < |a| ::
         b[e].ifindex == a[e].ifindex && b[e].len == a[e].len && b[e].rx == a[e].rx && (a[e].pc.Done? ==> b[e] == a[e])
  }

  lemma {:induction false} RunContinues(s: State, acts: seq<Action>, t: State)
    requires Fits(s) && Leads(s, acts, t)
    ensures Continues(s.execs, t.execs)
    decreases |acts|
  {
    if acts != [] {
      RunContinues(Next(s, acts[0]), acts[1..], t);
    }
  }

  /** Finished traffic is the traffic offered, as far as all of it counts in one cell. */
  lemma {:induction false} FinishedDifference(a: seq<Exec>, b: seq<Exec>, i: nat, k: nat, f: Field)
    requires Continues(a, b) && LaterUse(b, |a|, i, k)
    requires forall x | x in a && x.ifindex == i :: x.pc.Done?
    requires forall x | x in b && x.ifindex == i :: x.pc.Done?
    ensures Traffic(b, i, f) - Traffic(a, i, f) == Offered(b, i, f) - Offered(a, i, f)
    decreases |b|
  {
    if b != [] {
      var init, x := b[..|b| - 1], b[|b| - 1];
      assert x in b && forall y | y in init :: y in b;
      if |a| == |b| {
        var a', y := a[..|a| - 1], a[|a| - 1];
        assert y in a && forall z | z in a' :: z in a;
        FinishedDifference(a', init, i, k, f);
      } else {
        FinishedDifference(a, init, i, k, f);
      }
    }
  }

  lemma {:induction false} LaterOffer(runs: seq<seq<Action>>, states: seq<State>, i: nat, f: Field, n: nat)
    requires n < |states| && Successive(runs, states) && Settled(states[0], i)
    ensures Fits(states[n]) && Continues(states[0].execs, states[n].execs)
    ensures i in states[0].live && LaterUse(states[n].execs, |states[0].execs|, i, states[0].live[i])
    ensures Offered(states[n].execs, i, f) == Offered(states[0].execs, i, f) + ArrivedBy(runs, n, i, f)
  {
    LaterState(runs, states, i, f, n);
    if n > 0 {
      LaterOffer(runs, states, i, f, n - 1);
      LaterState(runs, states, i, f, n - 1);
      assert Follows(states[n - 1], runs[n], states[n]);
      RunContinues(states[n - 1], runs[n], states[n]);
      StaysQuiet(states[n - 1], runs[n], states[n], i, |states[0].execs|);
      OfferedIsArrived(states[n - 1], runs[n], states[n], i, f);
    }
  }

  /** Between two states with all executions finished, an interface counts exactly what arrives. */
  lemma CountedIsArrived(runs: seq<seq<Action>>, states: seq<State>, i: nat, f: Field)
    requires Successive(runs, states) && Settled(states[0], i)
    requires Finished(states[0], i) && Finished(states[|states| - 1], i)
    ensures Traffic(states[|states| - 1].execs, i, f) - Traffic(states[0].execs, i, f)
            == ArrivedBy(runs, |states| - 1, i, f)
  {
    var last := |states| - 1;
    LaterOffer(runs, states, i, f, last);
    FinishedDifference(states[0].execs, states[last].execs, i, states[0].live[i], f);
  }

  /** From the packets to the rates.  Take any run of the kernel side to a state that is settled for an interface, any
      states it goes on to, and any run of scans whose samples of the interface were read in those states.  Then the
      counters read never fall, and the rates sent, times their spans, account for exactly what was counted from
      the first to the last reading, up to rounding and to spans of less than a millisecond; and that is what
      arrived in between, if no execution was under way at either of the two. */
  lemma RatesAccountForPackets(
    runs: seq<seq<Action>>, states: seq<State>, scans: seq<(seq<Reading>, int)>, i: nat, f: Field)
    requires Successive(runs, states) && Settled(states[0], i)
    requires ReadIn(HistoryOf(Scans(UNUSED, scans).cache.log, i), states, i)
    requires 1000 * Traffic(states[|states| - 1].execs, i, f) < TWO63
    ensures var h := HistoryOf(Scans(UNUSED, scans).cache.log, i);
            var counted := Traffic(states[|states| - 1].execs, i, f) - Traffic(states[0].execs, i, f);
            && NoReset(h, f)
            && 0 <= 1000 * (counted - Unreported(h, f)) - Reported(h, f) <= Slack(h)
            && (Spaced(h) ==> Unreported(h, f) == 0)
            && (Finished(states[0], i) && Finished(states[|states| - 1], i) ==>
                  counted == ArrivedBy(runs, |states| - 1, i, f))
  {
    var h, last := HistoryOf(Scans(UNUSED, scans).cache.log, i), |states| - 1;
    SamplesNeverFall(runs, states, h, i, f);
    RatesAccountForTraffic(scans, i, f);
    SampleValue(runs, states, h, i, f, 0);
    SampleValue(runs, states, h, i, f, last);
    LaterState(runs, states, i, f, last);
    if Finished(states[0], i) && Finished(states[last], i) {
      CountedIsArrived(runs, states, i, f);
    }
  }
}

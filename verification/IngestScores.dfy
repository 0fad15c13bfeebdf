/** The live score table: what is in it, how old it can get, and that sweeping it changes nothing else. */
module IngestScores {
  import opened Messages
  import opened Identity
  import Score
  import opened Samples
  import opened Clock
  import opened Ingest
  import opened IngestQueues
  import opened IngestHistory
  import opened IngestOrder

  // ---- The table as a reading of the log ----

  function Apply(t: map<string, HostScore<nat>>, e: Event): map<string, HostScore<nat>> {
    if e.Scored? then t[e.host := e.entry]
    else if e.Swept? then Fresh(t, e.now)
    else t
  }

  function Table(log: seq<Event>): map<string, HostScore<nat>> {
    if log == [] then map[] else Apply(Table(log[..|log| - 1]), log[|log| - 1])
  }

  lemma TableSnoc(log: seq<Event>, e: Event)
    ensures Table(log + [e]) == Apply(Table(log), e)
  {
  }

  /** Event k is the last score recorded for the host. */
  ghost predicate LastScore(log: seq<Event>, host: string, k: nat) {
    && k < |log| && log[k].Scored? && log[k].host == host
    && forall j | k < j < |log| && log[j].Scored? :: log[j].host != host
  }

  /** No sweep after event k found its entry stale. */
  ghost predicate Survives(log: seq<Event>, k: nat)
    requires k < |log| && log[k].Scored?
  {
    forall j | k < j < |log| && log[j].Swept? :: !Stale(log[j].now, log[k].entry.at)
  }

  /** A host is in the table exactly when no sweep since its last score found that score stale, and then its entry
      is that score. */
  lemma {:induction false} TableExactly(log: seq<Event>, host: string)
    ensures host in Table(log) <==> exists k: nat :: LastScore(log, host, k) && Survives(log, k)
    ensures forall k: nat | LastScore(log, host, k) && host in Table(log) :: Table(log)[host] == log[k].entry
  {
    if log != [] {
      var init, e := log[..|log| - 1], log[|log| - 1];
      TableExactly(init, host);
      assert log == init + [e];
      TableSnoc(init, e);
      if e.Scored? && e.host == host {
        assert LastScore(log, host, |init|) && Survives(log, |init|);
      } else {
        forall k: nat
          ensures LastScore(log, host, k) <==> LastScore(init, host, k)
        {
          LastScoreInit(init, e, host, k);
        }
        forall k: nat | LastScore(init, host, k)
          ensures Survives(log, k) <==> Survives(init, k) && (e.Swept? ==> !Stale(e.now, init[k].entry.at))
        {
          SurvivesInit(init, e, k);
        }
        if host in Table(init) {
          var k: nat :| LastScore(init, host, k) && Survives(init, k);
          assert Table(init)[host] == init[k].entry;
          assert LastScore(log, host, k);
        }
        if k: nat :| LastScore(log, host, k) && Survives(log, k) {
          assert LastScore(init, host, k) && Survives(init, k);
        }
        forall k: nat | LastScore(log, host, k) && host in Table(log)
          ensures Table(log)[host] == log[k].entry
        {
          assert LastScore(init, host, k);
        }
      }
    }
  }

  lemma LastScoreInit(init: seq<Event>, e: Event, host: string, k: nat)
    requires !(e.Scored? && e.host == host)
    ensures LastScore(init + [e], host, k) <==> LastScore(init, host, k)
  {
    var log := init + [e];
    if LastScore(log, host, k) {
      assert forall j | k < j < |init| && init[j].Scored? :: log[j] == init[j];
    }
  }

  lemma SurvivesInit(init: seq<Event>, e: Event, k: nat)
    requires k < |init| && init[k].Scored?
    ensures Survives(init + [e], k) <==> Survives(init, k) && (e.Swept? ==> !Stale(e.now, init[k].entry.at))
  {
    var log := init + [e];
    if Survives(log, k) {
      assert forall j | k < j < |init| && init[j].Swept? :: log[j] == init[j];
      assert log[|init|] == e;
    }
  }

  /** In every reachable state host_scores_ is the table its log describes. */
  lemma {:induction false} ScoresAreTable(c: Scenario, acts: seq<Action>, s: State)
    requires Run(c, acts) == Some(s)
    ensures s.scores == Table(s.log)
    decreases |acts|
  {
    if acts != [] {
      var init, a := acts[..|acts| - 1], acts[|acts| - 1];
      var s0 := Run(c, init).value;
      ScoresAreTable(c, init, s0);
      TableStep(c, s0, a);
    }
  }

  lemma TableStep(c: Scenario, s: State, a: Action)
    requires Fits(c, s) && Enabled(c, s, a) && s.scores == Table(s.log)
    ensures Next(c, s, a).scores == Table(Next(c, s, a).log)
  {
    if a.Consumer? {
      ScoreStep(c, s, a.i);
    } else if a.Sweep? && s.sweeper.Sampled? {
      TableSnoc(s.log, Swept(s.sweeper.now));
    } else {
      assert Next(c, s, a).scores == s.scores && Next(c, s, a).log == s.log;
    }
  }

  lemma ScoreStep(c: Scenario, s: State, i: nat)
    requires Fits(c, s) && Enabled(c, s, Consumer(i)) && s.scores == Table(s.log)
    ensures Step(c, s, i).scores == Table(Step(c, s, i).log)
  {
  }

  // ---- The entry belongs to the last processed message ----

  /** The messages whose score has been recorded for a host, in that order. */
  function ScoredIds(log: seq<Event>, host: string): seq<nat> {
    if log == [] then []
    else
      var ids, e := ScoredIds(log[..|log| - 1], host), log[|log| - 1];
      if e.Scored? && e.host == host then ids + [e.entry.message] else ids
  }

  lemma ScoredSnoc(log: seq<Event>, e: Event, host: string)
    ensures ScoredIds(log + [e], host) ==
            if e.Scored? && e.host == host then ScoredIds(log, host) + [e.entry.message] else ScoredIds(log, host)
    ensures ProcessedIds(log + [e], host) ==
            if Concerns(e, PerfCell(host)) then ProcessedIds(log, host) + [e.id] else ProcessedIds(log, host)
  {
  }

  /** Every processed message has been scored, except one whose consumer is about to. */
  ghost predicate ScoresFollow(c: Scenario, log: seq<Event>, pc: Pc, host: string) {
    ProcessedIds(log, host) ==
    ScoredIds(log, host) + (if pc.Scoring? && Key(c, pc.id) == host then [pc.id] else [])
  }

  /** Storing the snapshot of a message leaves its consumer about to score it; other writes are no snapshots. */
  lemma WriteScores(c: Scenario, log: seq<Event>, pc: Pc, e: Event, next: Pc, host: string)
    requires PcFits(c, pc) && Writes(pc) && e == WriteEvent(c, pc) && next == AfterWrite(pc)
    requires Lawful(c.job(pc.id)) && host != "" && ScoresFollow(c, log, pc, host)
    ensures ScoresFollow(c, log + [e], next, host)
  {
    SnapshotFirst(c, pc, e, host);
    ScoredSnoc(log, e, host);
  }

  lemma SnapshotFirst(c: Scenario, pc: Pc, e: Event, host: string)
    requires PcFits(c, pc) && Writes(pc) && e == WriteEvent(c, pc) && Lawful(c.job(pc.id))
    ensures Concerns(e, PerfCell(host)) <==> pc.j == 0 && Key(c, pc.id) == host
  {
    assert Updates(c, pc.id)[pc.j] in Updates(c, pc.id);
  }

  lemma RecordScores(c: Scenario, log: seq<Event>, pc: Pc, e: Event, host: string)
    requires pc.Scoring? && e.Scored? && e.host == Key(c, pc.id) && e.entry.message == pc.id
    requires ScoresFollow(c, log, pc, host)
    ensures ProcessedIds(log + [e], host) == ScoredIds(log + [e], host)
  {
    ScoredSnoc(log, e, host);
  }

  lemma OwnScoreStep(c: Scenario, s: State, q: nat, host: string)
    requires Fits(c, s) && Enabled(c, s, Consumer(q)) && host != ""
    requires InFlight(s.pcs[q]) ==> Lawful(c.job(s.pcs[q].id))
    requires ScoresFollow(c, s.log, s.pcs[q], host)
    ensures ScoresFollow(c, Step(c, s, q).log, Step(c, s, q).pcs[q], host)
  {
    var pc, s' := s.pcs[q], Step(c, s, q);
    if Writes(pc) {
      StepWrites(c, s, q);
      WriteScores(c, s.log, pc, WriteEvent(c, pc), s'.pcs[q], host);
    } else if pc.Scoring? {
      RecordScores(c, s.log, pc, Scored(Key(c, pc.id), ScoreOf(c, pc), s.clock), host);
      assert s'.pcs[q] == Connecting(pc.id, pc.at);
    } else {
      assert s'.log == s.log && !s'.pcs[q].Scoring?;
    }
  }

  lemma OtherScoreStep(c: Scenario, s: State, i: nat, q: nat, host: string)
    requires Fits(c, s) && Enabled(c, s, Consumer(i)) && q < c.n && i != q
    requires InFlight(s.pcs[i]) ==> Lawful(c.job(s.pcs[i].id)) && Key(c, s.pcs[i].id) != host
    requires ScoresFollow(c, s.log, s.pcs[q], host)
    ensures ScoresFollow(c, Step(c, s, i).log, Step(c, s, i).pcs[q], host)
  {
  }

  lemma ScoresFollowStep(c: Scenario, s: State, a: Action, host: string, q: nat)
    requires Fits(c, s) && Enabled(c, s, a) && LawfulJobs(c) && Conserved(c, s) && host != ""
    requires OneQueue(c, s.arrived, host, q) && ScoresFollow(c, s.log, s.pcs[q], host)
    ensures ScoresFollow(c, Next(c, s, a).log, Next(c, s, a).pcs[q], host)
  {
    if a.Consumer? {
      if InFlight(s.pcs[a.i]) {
        InFlightRouted(c, s, a.i);
        assert Lawful(c.job(s.pcs[a.i].id));
      }
      if a.i == q {
        OwnScoreStep(c, s, q, host);
      } else {
        OtherScoreStep(c, s, a.i, q, host);
      }
    } else {
      EnvironmentStep(c, s, a, q);
      if Next(c, s, a).log != s.log {
        ScoredSnoc(s.log, Next(c, s, a).log[|s.log|], host);
      }
    }
  }

  lemma {:induction false} ScoresFollowAlways(c: Scenario, acts: seq<Action>, s: State, host: string, q: nat)
    requires Run(c, acts) == Some(s) && LawfulJobs(c) && host != "" && OneQueue(c, s.arrived, host, q)
    ensures ScoresFollow(c, s.log, s.pcs[q], host)
    decreases |acts|
  {
    if acts != [] {
      var init, a := acts[..|acts| - 1], acts[|acts| - 1];
      var s0 := Run(c, init).value;
      ArrivedGrows(c, s0, a);
      ScoresFollowAlways(c, init, s0, host, q);
      QueuesSound(c, init, s0);
      ScoresFollowStep(c, s0, a, host, q);
    }
  }

  lemma {:induction false} LastScoreIsLastId(log: seq<Event>, host: string, k: nat)
    requires LastScore(log, host, k)
    ensures var ids := ScoredIds(log, host);
            ids != [] && log[k].entry.message == ids[|ids| - 1]
  {
    var init, e := log[..|log| - 1], log[|log| - 1];
    assert log == init + [e];
    if k < |init| {
      LastScoreInit(init, e, host, k);
      LastScoreIsLastId(init, host, k);
    }
  }

  /** In every reachable state, a host whose messages share a queue and whose consumer is not just between storing
      history and score has the score of its last processed message in the table, provided no sweep since then
      found it stale; and the messages scored for it are the first ones pushed for it, in order. */
  lemma TableHoldsLastProcessed(c: Scenario, acts: seq<Action>, s: State, host: string, q: nat)
    requires Run(c, acts) == Some(s) && LawfulJobs(c) && host != "" && OneQueue(c, s.arrived, host, q)
    ensures ScoredIds(s.log, host) <= HostIds(c, s.arrived, host)
    ensures !s.pcs[q].Scoring? ==> ScoredIds(s.log, host) == ProcessedIds(s.log, host)
    ensures host in s.scores <==> exists k: nat :: LastScore(s.log, host, k) && Survives(s.log, k)
    ensures host in s.scores ==>
              var ids := ScoredIds(s.log, host);
              ids != [] && s.scores[host].message == ids[|ids| - 1]
  {
    ScoredInOrder(c, acts, s, host, q);
    ScoresAreTable(c, acts, s);
    EntryIsLastScored(s.log, host);
  }

  lemma ScoredInOrder(c: Scenario, acts: seq<Action>, s: State, host: string, q: nat)
    requires Run(c, acts) == Some(s) && LawfulJobs(c) && host != "" && OneQueue(c, s.arrived, host, q)
    ensures ScoredIds(s.log, host) <= HostIds(c, s.arrived, host)
    ensures !s.pcs[q].Scoring? ==> ScoredIds(s.log, host) == ProcessedIds(s.log, host)
  {
    OneQueueKeepsOrder(c, s.arrived, host, q);
    assert InPushOrder(c, Run(c, acts).value, host);
    ScoresFollowAlways(c, acts, s, host, q);
  }

  lemma EntryIsLastScored(log: seq<Event>, host: string)
    ensures host in Table(log) <==> exists k: nat :: LastScore(log, host, k) && Survives(log, k)
    ensures host in Table(log) ==>
              var ids := ScoredIds(log, host);
              ids != [] && Table(log)[host].message == ids[|ids| - 1]
  {
    TableExactly(log, host);
    if host in Table(log) {
      var k: nat :| LastScore(log, host, k) && Survives(log, k);
      LastScoreIsLastId(log, host, k);
    }
  }

  // ---- The entry is the message's own ----

  /** Every entry belongs to one of the first `count` messages, under its identifier and with its score. */
  ghost predicate TrueScores(message: nat -> MonitorInfo, scores: map<string, HostScore<nat>>, count: nat) {
    forall host | host in scores :: TrueEntry(message, host, scores[host], count)
  }

  predicate TrueEntry(message: nat -> MonitorInfo, host: string, e: HostScore<nat>, count: nat) {
    e.message < count && host == StoreKey(message(e.message)) && e.score == Score.CalcScore(message(e.message))
  }

  /** A step leaves the table as it is, or records one score, or drops entries. */
  lemma TableChanges(c: Scenario, s: State, a: Action)
    requires Fits(c, s) && Enabled(c, s, a)
    ensures var s' := Next(c, s, a);
            && s'.arrived >= s.arrived
            && (if a.Consumer? && s.pcs[a.i].Scoring? then
                  s'.scores == s.scores[Key(c, s.pcs[a.i].id) := ScoreOf(c, s.pcs[a.i])]
                else forall host | host in s'.scores :: host in s.scores && s'.scores[host] == s.scores[host])
  {
  }

  lemma TrueScoresStep(c: Scenario, message: nat -> MonitorInfo, s: State, a: Action)
    requires Fits(c, s) && Enabled(c, s, a) && Conserved(c, s) && TrueScores(message, s.scores, s.arrived)
    requires JobsOf(c, message)
    ensures TrueScores(message, Next(c, s, a).scores, Next(c, s, a).arrived)
  {
    var s' := Next(c, s, a);
    TableChanges(c, s, a);
    if a.Consumer? && s.pcs[a.i].Scoring? {
      var id := s.pcs[a.i].id;
      InFlightRouted(c, s, a.i);
      JobSays(message(id));
      assert c.job(id) == JobOf(message(id));
      RecordTrue(message, s.scores, s.arrived, s'.arrived, Key(c, id), ScoreOf(c, s.pcs[a.i]));
    }
  }

  lemma RecordTrue(
    message: nat -> MonitorInfo, scores: map<string, HostScore<nat>>, count: nat, count': nat, host: string,
    e: HostScore<nat>)
    requires TrueScores(message, scores, count) && TrueEntry(message, host, e, count) && count <= count'
    ensures TrueScores(message, scores[host := e], count')
  {
  }

  /** The jobs are those of these messages. */
  ghost predicate JobsOf(c: Scenario, message: nat -> MonitorInfo) {
    forall id: nat :: c.job(id) == JobOf(message(id))
  }

  lemma {:induction false} AlwaysTrueScores(c: Scenario, message: nat -> MonitorInfo, acts: seq<Action>, s: State)
    requires Run(c, acts) == Some(s)
    ensures JobsOf(c, message) ==> TrueScores(message, s.scores, s.arrived)
    decreases |acts|
  {
    if acts != [] && JobsOf(c, message) {
      var init, a := acts[..|acts| - 1], acts[|acts| - 1];
      var s0 := Run(c, init).value;
      AlwaysTrueScores(c, message, init, s0);
      QueuesSound(c, init, s0);
      TrueScoresStep(c, message, s0, a);
    }
  }

  /** In every run of every deployment each entry of the table is that of a message pushed before, under the
      identifier the message is stored by and with the score of its own metrics. */
  lemma ScoresAreOfMessages(
    n: Pos, hash: string -> nat, message: nat -> MonitorInfo, connects: nat -> bool, acts: seq<Action>, host: string)
    ensures var r := Run(Deployment(n, hash, message, connects), acts);
            r.Some? && host in r.value.scores ==>
              var m := message(r.value.scores[host].message);
              && r.value.scores[host].message < r.value.arrived
              && host == StoreKey(m) && r.value.scores[host].score == Score.CalcScore(m)
  {
    var c := Deployment(n, hash, message, connects);
    if Run(c, acts).Some? {
      AlwaysTrueScores(c, message, acts, Run(c, acts).value);
    }
  }

  // ---- Age ----

  /** The time that passes in these actions. */
  function Elapsed(acts: seq<Action>): nat {
    if acts == [] then 0
    else
      var a := acts[|acts| - 1];
      Elapsed(acts[..|acts| - 1]) + if a.Tick? then a.d else 0
  }

  lemma {:induction false} ClockIsElapsed(c: Scenario, acts: seq<Action>, s: State)
    requires Run(c, acts) == Some(s)
    ensures s.clock == Elapsed(acts)
    decreases |acts|
  {
    if acts != [] {
      var init, a := acts[..|acts| - 1], acts[|acts| - 1];
      ClockIsElapsed(c, init, Run(c, init).value);
      ClockStep(c, Run(c, init).value, a);
    }
  }

  lemma ClockStep(c: Scenario, s: State, a: Action)
    requires Fits(c, s) && Enabled(c, s, a)
    ensures Next(c, s, a).clock == s.clock + if a.Tick? then a.d else 0
  {
  }

  /** Scores and sweeps are logged in the order of the clock. */
  ghost predicate Timely(s: State) {
    && (forall k | 0 <= k < |s.log| && s.log[k].Scored? :: s.log[k].when <= s.clock)
    && (forall j, k | 0 <= j < k < |s.log| && s.log[j].Swept? && s.log[k].Scored? :: s.log[j].now <= s.log[k].when)
    && (forall j | 0 <= j < |s.log| && s.log[j].Swept? :: s.log[j].now <= s.clock)
    && (s.sweeper.Sampled? ==> s.sweeper.now <= s.clock)
  }

  lemma TimelyStep(c: Scenario, s: State, a: Action)
    requires Fits(c, s) && Enabled(c, s, a) && Timely(s)
    ensures Timely(Next(c, s, a))
  {
    var s' := Next(c, s, a);
    assert s'.clock >= s.clock;
    assert s'.log == s.log
        || (|s'.log| == |s.log| + 1 && s'.log[..|s.log|] == s.log
            && (s'.log[|s.log|].Scored? ==> s'.log[|s.log|].when == s.clock)
            && (s'.log[|s.log|].Swept? ==> s.sweeper.Sampled? && s'.log[|s.log|].now == s.sweeper.now)) by {
      if a.Consumer? {
        assert s'.log == NextLog(c, s.log, s.pcs[a.i], s.clock);
      }
    }
    TimelyLog(s, s');
  }

  lemma TimelyLog(s: State, s': State)
    requires Timely(s) && s'.clock >= s.clock
    requires s'.sweeper.Sampled? ==> s'.sweeper.now <= s'.clock
    requires s'.log == s.log
          || (|s'.log| == |s.log| + 1 && s'.log[..|s.log|] == s.log
              && (s'.log[|s.log|].Scored? ==> s'.log[|s.log|].when == s.clock)
              && (s'.log[|s.log|].Swept? ==> s.sweeper.Sampled? && s'.log[|s.log|].now == s.sweeper.now))
    ensures Timely(s')
  {
  }

  lemma {:induction false} TimelyAlways(c: Scenario, acts: seq<Action>, s: State)
    requires Run(c, acts) == Some(s)
    ensures Timely(s)
    decreases |acts|
  {
    if acts != [] {
      var init, a := acts[..|acts| - 1], acts[|acts| - 1];
      TimelyAlways(c, init, Run(c, init).value);
      TimelyStep(c, Run(c, init).value, a);
    }
  }

  /** The sweeper keeps up: some sweep sampled the clock at most `period` ago, or, as before the first sweep, nothing
      was scored longer ago than that. */
  ghost predicate KeepsUp(s: State, period: nat) {
    || (exists l: nat :: l < |s.log| && s.log[l].Swept? && s.clock - s.log[l].now <= period)
    || (forall k | 0 <= k < |s.log| && s.log[k].Scored? :: s.clock - s.log[k].when <= period)
  }

  /** If the sweeper keeps up and every score was recorded at most `delay` after its message was picked up, then no
      entry of the table is older than 61 seconds (or the delay, if longer) plus the period. */
  lemma AgeBound(c: Scenario, acts: seq<Action>, s: State, host: string, period: nat, delay: nat)
    requires Run(c, acts) == Some(s) && host in s.scores && KeepsUp(s, period)
    requires forall k | 0 <= k < |s.log| && s.log[k].Scored? :: s.log[k].when - s.log[k].entry.at <= delay
    ensures s.clock - s.scores[host].at < period + if delay < 61 * SECOND then 61 * SECOND else delay + 1
  {
    ScoresAreTable(c, acts, s);
    TableExactly(s.log, host);
    TimelyAlways(c, acts, s);
    var k: nat :| LastScore(s.log, host, k) && Survives(s.log, k);
    EntryAge(s, k, period, delay);
  }

  lemma EntryAge(s: State, k: nat, period: nat, delay: nat)
    requires Timely(s) && KeepsUp(s, period)
    requires k < |s.log| && s.log[k].Scored? && Survives(s.log, k)
    requires s.log[k].when - s.log[k].entry.at <= delay
    ensures s.clock - s.log[k].entry.at < period + if delay < 61 * SECOND then 61 * SECOND else delay + 1
  {
    if l: nat :| l < |s.log| && s.log[l].Swept? && s.clock - s.log[l].now <= period {
      if k < l {
        StaleMeansAge61(s.log[l].now, s.log[k].entry.at);
      } else {
        assert s.log[l].now <= s.log[k].when;
      }
    }
  }

  // ---- Sweeping goes on ----

  /** In every reachable state a running manager has a sweeper. */
  lemma {:induction false} RunningSweeps(c: Scenario, acts: seq<Action>, s: State)
    requires Run(c, acts) == Some(s)
    ensures s.running ==> !s.sweeper.Off?
    decreases |acts|
  {
    if acts != [] {
      var init, a := acts[..|acts| - 1], acts[|acts| - 1];
      RunningSweeps(c, init, Run(c, init).value);
      SweeperStays(c, Run(c, init).value, a);
    }
  }

  lemma SweeperStays(c: Scenario, s: State, a: Action)
    requires Fits(c, s) && Enabled(c, s, a) && (s.running ==> !s.sweeper.Off?)
    ensures Next(c, s, a).running ==> !Next(c, s, a).sweeper.Off?
  {
  }

  /** Three steps of the sweeper are one pass over the table at the present time. */
  lemma SweepRound(c: Scenario, acts: seq<Action>, s: State)
    requires Run(c, acts) == Some(s) && s.running && s.sweeper == Looping
    ensures Run(c, acts + [Sweep] + [Sweep] + [Sweep])
            == Some(s.(scores := Fresh(s.scores, s.clock), log := s.log + [Swept(s.clock)]))
  {
    RunSnoc(c, acts, Sweep);
    RunSnoc(c, acts + [Sweep], Sweep);
    RunSnoc(c, acts + [Sweep] + [Sweep], Sweep);
  }

  // ---- Sweeping interferes with nothing ----

  function WithoutSweeps(log: seq<Event>): seq<Event> {
    if log == [] then []
    else
      var rest, e := WithoutSweeps(log[..|log| - 1]), log[|log| - 1];
      if e.Swept? then rest else rest + [e]
  }

  lemma WithoutSweepsSnoc(log: seq<Event>, e: Event)
    ensures WithoutSweeps(log + [e]) == if e.Swept? then WithoutSweeps(log) else WithoutSweeps(log) + [e]
  {
  }

  lemma {:induction false} SweepsWriteNothing(log: seq<Event>, x: Cell)
    ensures RatesAt(WithoutSweeps(log), x) == RatesAt(log, x)
    ensures Entries(WithoutSweeps(log), x) == Entries(log, x)
  {
    if log != [] {
      var init, e := log[..|log| - 1], log[|log| - 1];
      assert log == init + [e];
      SweepsWriteNothing(init, x);
      WithoutSweepsSnoc(init, e);
      LogSnoc(init, e, x);
      LogSnoc(WithoutSweeps(init), e, x);
    }
  }

  /** Equal except for the score table, the sweeper and the record of sweeps. */
  ghost predicate SameButSweeps(s: State, t: State) {
    && WithoutSweeps(s.log) == WithoutSweeps(t.log)
    && s == t.(scores := s.scores, sweeper := s.sweeper, log := s.log)
  }

  lemma SameStep(c: Scenario, s: State, t: State, a: Action)
    requires Fits(c, s) && Fits(c, t) && SameButSweeps(s, t) && !a.Sweep? && Enabled(c, s, a)
    ensures Enabled(c, t, a) && SameButSweeps(Next(c, s, a), Next(c, t, a))
  {
    if a.Consumer? {
      var pc := s.pcs[a.i];
      if Writes(pc) {
        WithoutSweepsSnoc(s.log, WriteEvent(c, pc));
        WithoutSweepsSnoc(t.log, WriteEvent(c, pc));
      } else if pc.Scoring? {
        WithoutSweepsSnoc(s.log, Scored(Key(c, pc.id), ScoreOf(c, pc), s.clock));
        WithoutSweepsSnoc(t.log, Scored(Key(c, pc.id), ScoreOf(c, pc), s.clock));
      }
      SameConsumer(c, s, t, a.i);
    }
  }

  lemma SameConsumer(c: Scenario, s: State, t: State, i: nat)
    requires Fits(c, s) && Fits(c, t) && Enabled(c, s, Consumer(i))
    requires s == t.(scores := s.scores, sweeper := s.sweeper, log := s.log)
    ensures Enabled(c, t, Consumer(i))
    ensures var s', t' := Step(c, s, i), Step(c, t, i);
            s' == t'.(scores := s'.scores, sweeper := s'.sweeper, log := s'.log)
  {
  }

  function DropSweeps(acts: seq<Action>): seq<Action> {
    if acts == [] then []
    else
      var rest, a := DropSweeps(acts[..|acts| - 1]), acts[|acts| - 1];
      if a.Sweep? then rest else rest + [a]
  }

  /** Deleting every step of the sweeper from a run leaves a run, and every computed sample and rate is the same. */
  lemma {:induction false} SweepsChangeNoRate(c: Scenario, acts: seq<Action>, s: State)
    requires Run(c, acts) == Some(s)
    ensures var r := Run(c, DropSweeps(acts));
            && r.Some? && SameButSweeps(s, r.value)
            && forall x :: RatesAt(r.value.log, x) == RatesAt(s.log, x)
    decreases |acts|
  {
    if acts != [] {
      var init, a := acts[..|acts| - 1], acts[|acts| - 1];
      var s0 := Run(c, init).value;
      SweepsChangeNoRate(c, init, s0);
      var t0 := Run(c, DropSweeps(init)).value;
      if a.Sweep? {
        if s0.sweeper.Sampled? {
          WithoutSweepsSnoc(s0.log, Swept(s0.sweeper.now));
        }
      } else {
        SameStep(c, s0, t0, a);
        RunSnoc(c, DropSweeps(init), a);
      }
    }
    var t := Run(c, DropSweeps(acts)).value;
    forall x
      ensures RatesAt(t.log, x) == RatesAt(s.log, x)
    {
      SweepsWriteNothing(s.log, x);
      SweepsWriteNothing(t.log, x);
    }
  }
}

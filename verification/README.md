# Distributed host monitoring: a verified model

Workers sample a machine (CPU times from a kernel module, disk counters, network counters kept by an eBPF program) and
push one message at a time to a manager.  The manager routes every message to one of N queues, each drained by its own
thread; the threads compute change rates against per-host history kept in sharded maps, keep a table of live scores,
and write rows to a database, which the query side reads back page by page.

The Dafny files model the parts of this whose correctness is not visible in any single function:

- **The ingest pipeline** as a machine of atomic steps (`Ingest.dfy`): producers, one queue and one consumer per
  thread with an explicit program counter, the sharded and thread-local histories, the score table, the sweeper, and
  Start/Stop.  A *scenario* fixes what does not depend on scheduling (the messages in push order, which database
  connections succeed, the hash function); a *run* is any list of possible actions.  The main theorem
  (`IngestSequential.IngestIsSequential`) says that for every run and every hash function, a host with well-formed
  messages gets exactly the rates of one sequential pass over its messages.  It rests on queue conservation
  (`IngestQueues.dfy`) and on an invariant for each history cell (`IngestHistory.dfy`).  `IngestRefinement.dfy` proves
  that the queues inside the machine are the queue of `SafeQueue.dfy`; `HostManager.dfy` proves that the methods of the
  manager object do what a consumer of the machine does.
- **The blocking queue** (`SafeQueue.dfy`) with sleeping and notified threads, spurious wakeups and barging.
- **Traffic counting**: the eBPF program on any number of CPUs, one step per lookup, map update and atomic add
  (`TrafficMap.dfy`), the user-space monitor that turns counters into integer rates (`NetEbpfMonitor.dfy`), and the two
  joined (`TrafficPath.dfy`).
- **Counter samplers** for CPU and disk (`Sampler.dfy`, `CpuStatMonitor.dfy`, `DiskMonitor.dfy`).
- **Query post-processing** (`QueryManager.dfy`, `Paging.dfy`): the anomaly filter against the emission loop, paging,
  the latest-row join, the ranking and the one-pass cluster statistics.
- **Admission and identity** (`GrpcServer.dfy`, `Identity.dfy`), the score (`Score.dfy`) and the rate arithmetic
  (`Rates.dfy`).

Conventions.  Metrics are exact reals, counters exact integers with their 64-bit wrap written out where the code's
arithmetic depends on it.  A message is *well-formed* when its route key is not empty and has no underscore (hostnames
in the syntax of section 2.1 of RFC 1123 have none) and it does not carry an address without a hostname.  One access to
a history entry, and one critical section of a mutex, is one step: races inside the standard containers are outside the
model.  The five vectors of sharded maps are one vector of maps whose keys carry the table, host and device; a sample
is a list of columns, and an absent entry reads as zeros, as a value-initialised struct does.  The database build is
modelled, and each connection attempt may succeed or fail.  The state classes keep ghost logs only to state properties of whole runs.

## What the code does differently from what it says

- `manager/src/host_manager.cpp:63-64` and `:502-503` say that sharding sends a host to the same thread and makes the
  maps free of races.  Routing and storing use different keys: push order survives every interleaving exactly when all
  of a host's messages share a queue (`IngestOrder.PushOrderExactlyWhen`), which well-formed messages do and others
  need not (`IngestOrder.PushOrderBrokenExample`); and even well-formed messages of two hosts can have two threads at work in
  one shard (`IngestShards.SharedShardExample`).  The maps are free of races exactly if all messages with a history in
  one shard are pushed to one queue (`IngestShards.RaceFreeExactlyWhen`).
- The 60 second threshold fires at an age of 61 seconds, ages being cut to whole seconds (`Clock.StaleMeansAge61`).
- `SafeQueue::Push` does not test the stop flag, so Pop can return true again after it returned false
  (`SafeQueues.FalseIsFinalExactlyWhen`); a consumer that makes a step before Start is gone
  (`IngestProgress.GoneBeforeStartExactlyWhen`), after which its queue only grows (`IngestProgress.ExitedForever`).
- Growth between two samples is cached but in no rate, for the network exactly if they are less than a millisecond
  apart or it is less than one per second (`NetEbpfMonitors.NothingReportedExactlyWhen`), for a disk if they are of
  one second (`DiskMonitors.RunAccountsForGrowth`).  A reader of the traffic map misses what went to replaced cells,
  exactly if there are any (`TrafficMap.ShowsAllExactlyWhen`).  Disk
  utilisation exceeds 100 percent exactly if the disk was busy longer than the whole seconds counted
  (`DiskMonitors.UtilWithin100ExactlyWhen`); for a disk that is always busy that depends on where in their seconds the
  two samples fall (`DiskMonitors.BusyWithin100ExactlyWhen`).
- The change rate of a 64-bit error counter that falls is positive (`Rates.CounterRateExact`).
- A NULL column fails the anomaly query's test but reads as zero in the loop, so under a negative threshold a row can
  yield records without being selected (`QueryManagers.FilterAgreesExactlyWhen`, `QueryManagers.NullRowExample`).  The
  RPC service replaces thresholds that are not positive, so no request gets there
  (`QueryManagers.FilterAgreesInService`).
- An int page offset overflows; exactly when a page then goes wrong is `Paging.PageExactlyWhen` for all results and
  `Paging.PageWrongExactlyWhen` for a given one.
- The sentinels of the running extremes, and the tests against 0 and 101, show for scores below 0 or from 101 on, which
  the manager never writes: `QueryManagers.QueryLatestScore` has the exact conditions, `QueryManagers.RankedStatistics`
  the statistics for scores from 0 to 100.

## Model

| member | source | states |
|---|---|---|
| `IngestSequential.IngestIsSequential` | manager/src/host_manager.cpp:183-240 | For every thread count, hash function, message stream, database outcome and run: the rates written for any history entry of a host with well-formed messages are a prefix of the sequential fold (rate against the last sample, then replace it, from zeros) over that host's messages in push order, and all of it once its queue is drained; detail entries fold over connected messages only. |
| `IngestSequential.PerHostSequential` | manager/src/host_manager.cpp:204-216 | The same for any host whose messages share one queue, whatever their form; and the stored entry is the last sample written. |
| `IngestSequential.OneMessage` | manager/src/host_manager.cpp:434-444 | A message adds its performance snapshot always, its detail samples only if its connection succeeds, and a device named twice adds twice. |
| `IngestSequential.StreamOfMessages` | manager/src/host_manager.cpp:544-589 | The machine's reference stream for an entry is the pass over the messages that knows of no queues, threads or positions in a message. |
| `IngestSequential.WellFormedOneQueue` | manager/src/host_manager.cpp:184-197 | Well-formed messages stored under one key are all pushed to the queue of the part of that key before its first underscore. |
| `IngestSequential.ThreadLocalsAgree` | manager/src/host_manager.cpp:502-510 | The thread-local disk utilisations together are one map: only the host's own consumer holds its entry, and that is the utilisation of its last connected write. |
| `IngestHistory.HistoryAlways` | manager/src/host_manager.cpp:311-338 | In every reachable state the log holds exactly the writes of the messages finished by the host's consumer and of the one in flight, each rated against the one before. |
| `IngestHistory.StreamIsQueue` | manager/src/host_manager.cpp:196-201 | If one queue carries all messages of a host, the pass over all messages equals the pass over that queue alone. |
| `IngestOrder.OneQueueKeepsOrder` | manager/src/host_manager.cpp:204-216 | A host with one queue is processed in push order under every interleaving. |
| `IngestOrder.TwoQueuesBreakOrder` | manager/src/host_manager.cpp:196-201 | Two messages of one host in different queues: some run processes the later one and not the earlier. |
| `IngestOrder.PushOrderExactlyWhen` | manager/src/host_manager.cpp:502-503 | Push order is kept under every interleaving if and only if all messages of the host share a queue. |
| `IngestOrder.PushOrderBrokenExample` | manager/src/host_manager.cpp:184-240 | Two admitted messages stored as one host, two threads and any hash that sends their route keys to different queues: push order is broken. |
| `IngestQueues.QueuesSound` | manager/src/host_manager.cpp:121-129 | In every reachable state pushed = finished ++ in flight ++ waiting for each queue, no consumer sleeps on a non-empty or stopped queue, and a consumer holds only messages of its own queue. |
| `IngestQueues.RoutedComplete` | manager/src/host_manager.cpp:183-202 | The pushed sequence of a queue lists every message routed to it once, in push order. |
| `IngestProgress.StoppedConsumerExits` | manager/src/host_manager.cpp:142-155 | After Stop has cleared the flag and stopped its queue a consumer is never blocked, each of its steps lowers a well-founded measure until it exits, and no other step moves it. |
| `IngestProgress.StopStopsAll` | manager/src/host_manager.cpp:142-149 | Stop on a running manager clears the flag for good, and its steps stop one queue each, in order, until all are stopped, whatever other threads do in between. |
| `IngestProgress.AtMostOneMore` | manager/src/host_manager.cpp:209-215 | However a run goes on after Stop clears the flag, each consumer begins to process at most one more message. |
| `IngestProgress.ExitedForever` | manager/src/host_manager.cpp:205-216 | After a consumer has exited its finished messages are frozen and its queue only grows at the end. |
| `IngestProgress.GoneBeforeStartExactlyWhen` | manager/src/host_manager.cpp:102-128 | In every run before Start, a consumer is gone exactly if it has made a step, and is at its loop test otherwise, having processed nothing. |
| `IngestProgress.ExitBeforeStart` | manager/src/host_manager.cpp:205-209 | The one-step run that takes a given consumer there. |
| `IngestScores.TableExactly` | manager/src/host_manager.cpp:163-180 | A host is in the table described by a log exactly when no sweep since its last score found that score stale, and its entry is that score. |
| `IngestScores.ScoresAreTable` | manager/src/host_manager.cpp:340-344 | In every reachable state the score table is the one its log describes. |
| `IngestScores.TableHoldsLastProcessed` | manager/src/host_manager.cpp:337-344 | For a host with one queue the entry belongs to its last scored message, the scored messages are the first ones pushed for it, and they are the processed ones except while its consumer is between history and score. |
| `IngestScores.ScoresAreOfMessages` | manager/src/host_manager.cpp:272-344 | In every run of every deployment each entry of the score table is that of a message pushed before, under the identifier it is stored by and with the score of its own metrics. |
| `IngestScores.ClockIsElapsed` | manager/src/host_manager.cpp:163-180 | The clock shows the time that has passed in the run. |
| `IngestScores.AgeBound` | manager/src/host_manager.cpp:164-176 | If some sweep sampled the clock within a period, or, as before the first sweep, nothing was scored longer ago than that, and scores are recorded within a delay of being stamped, every entry is younger than that period plus 61 seconds (or the delay, if longer). |
| `IngestScores.RunningSweeps` | manager/src/host_manager.cpp:136-140 | In every reachable state a running manager has a sweeper. |
| `IngestScores.SweepRound` | manager/src/host_manager.cpp:163-180 | Three sweeper steps are one pass over the table with the clock of their start: exactly the entries not stale by it are left. |
| `IngestScores.SweepsChangeNoRate` | manager/src/host_manager.cpp:163-180 | Deleting all sweeper steps from a run leaves a run with the same samples and rates. |
| `IngestShards.ShardsAreFlat` | manager/src/host_manager.cpp:242-244 | For every hash function the vector of shards is one flat map of last writes: a key is only in the shard of its host's hash, and reads through the shards read the flat map. |
| `IngestShards.OwnShardExactlyWhen` | manager/src/host_manager.cpp:446-448 | A consumer touches the shard of its own number exactly for messages whose store key hashes to the queue they were pushed to (queue 0 for messages without a route key); always if the keys are equal or there is one thread. |
| `IngestShards.RaceFreeExactlyWhen` | manager/src/host_manager.cpp:63-68 | No run ever has two threads at one shard if and only if all messages with a history in one shard are pushed to one queue. |
| `IngestShards.SharedShard` | manager/src/host_manager.cpp:311-312 | For any two messages of a stream with different queues and one shard some run has both threads in that shard at once. |
| `IngestShards.SharedShardExample` | manager/src/host_manager.cpp:63-68 | Two well-formed messages and a hash function for which this happens. |
| `IngestRefinement.MachineRefinesQueues` | manager/include/utils/safe_queue.h:18-45 | Every action of the pipeline machine is, for each queue, one step of the queue protocol or none. |
| `IngestRefinement.QueuesStaySound` | manager/include/utils/safe_queue.h:18-45 | So the queue invariants hold of every queue in every reachable state. |
| `Ingest.JobOf` | manager/src/host_manager.cpp:219-240 | All history updates of a message are to its own host, its snapshot comes first and once, and only a message without identifier has none.  Its score and keys are the subject of ScoresAreOfMessages and WellFormedOneQueue. |
| `SafeQueues.NoLostWakeup` | manager/include/utils/safe_queue.h:18-45 | For any number of threads, with spurious wakeups and barging: popped ++ contents = pushed; if anybody sleeps, the notified threads are at least as many as the items; nobody sleeps after Stop. |
| `SafeQueues.SoundStep` | manager/include/utils/safe_queue.h:26-45 | Each step of the protocol keeps these. |
| `SafeQueues.DrainsInOrder` | manager/include/utils/safe_queue.h:29-38 | After Stop, without further pushes, every Pop returns, the contents come out in order, and false appears exactly when all have been taken. |
| `SafeQueues.FalseIsFinalExactlyWhen` | manager/include/utils/safe_queue.h:18-33 | On a stopped, empty queue every later Pop returns false if and only if nobody pushes. |
| `SafeQueues.SafeQueue.Push` | manager/include/utils/safe_queue.h:18-22 | Appends, wakes one sleeper if there is one, keeps the invariants. |
| `SafeQueues.SafeQueue.TryPop` | manager/include/utils/safe_queue.h:26-38 | The critical section of Pop: takes the front, refuses when stopped and empty, or goes to sleep. |
| `SafeQueues.SafeQueue.Stop` | manager/include/utils/safe_queue.h:41-45 | Sets the flag and wakes every sleeper. |
| `SafeQueues.SafeQueue.Empty` | manager/include/utils/safe_queue.h:47-50 | True exactly when everything pushed has been popped. |
| `SafeQueues.SafeQueue.Size` | manager/include/utils/safe_queue.h:52-55 | The number of values pushed and not yet popped. |
| `HostManagers.HostManager.constructor` | manager/src/host_manager.cpp:101-130 | At least one thread; as many distinct empty queues, each with its own consumer; empty histories and scores. |
| `HostManagers.HostManager.Start` | manager/src/host_manager.cpp:136-140 | Sets the running flag and starts the sweeper. |
| `HostManagers.HostManager.Stop` | manager/src/host_manager.cpp:142-161 | Clears the flag, stops every queue, waking its sleepers and touching no message, and joins all threads; does nothing if not running. |
| `HostManagers.HostManager.OnDataReceived` | manager/src/host_manager.cpp:183-202 | In every valid state, whoever sleeps where: the message is pushed to the queue its route key hashes to, or queue 0 if it has none, waking one sleeper of that queue if there is one; every other queue stays as it is. |
| `HostManagers.HostManager.Consume` | manager/src/host_manager.cpp:205-216 | One iteration of a consumer: the front of its own queue is popped and exactly that message is processed; otherwise histories and scores stay. |
| `HostManagers.HostManager.Identify` | manager/src/host_manager.cpp:220-240 | The identifier the branches arrive at is empty exactly for a message with neither route key nor bare address; without a bare address it starts with the route key, and its host part is the route key exactly if that has no underscore. |
| `HostManagers.HostManager.ProcessData` | manager/src/host_manager.cpp:219-357 | Leaves exactly the histories and rows of replaying the message's updates (only its snapshot if the database cannot be reached) and its score in the table; a message without identifier changes nothing.  The rows are given column by column against the message: the snapshot's seventeen columns, the greatest disk utilisation, and every interface, soft-interrupt, memory and disk entry under its own name. |
| `HostManagers.HostManager.Snapshot` | manager/src/host_manager.cpp:276-309 | The snapshot gathered field by field is the one whose history the pipeline keeps. |
| `HostManagers.HostManager.WriteDetails` | manager/src/host_manager.cpp:462-726 | The database part: utilisation, then network, soft-interrupt, memory and disk details, in this order. |
| `HostManagers.HostManager.WriteAll` | manager/src/host_manager.cpp:543-726 | The loop over the entries of a table (interfaces, soft interrupts, memory, disks) is the replay of its updates, each rated against what the one before left. |
| `HostManagers.HostManager.Sweep` | manager/src/host_manager.cpp:167-178 | Erasing while iterating, in any order, equals filtering by age. |
| `HostManagers.HostManager.GetBestHost` | manager/src/host_manager.cpp:364-375 | For every iteration order: a host that no host outscores, and "" exactly for the empty table. |
| `HostManagers.ReplayIsFold` | manager/src/host_manager.cpp:558-588 | Replaying a message is, for every history entry, the sequential fold over the message's samples for it, started from the stored one, and leaves the last of them stored. |
| `HostManagers.Undisturbed` | manager/src/host_manager.cpp:209-215 | A consumer of the machine that has popped a message and runs on alone reaches its loop test having changed exactly what the replay, the score and their record say. |
| `HostManagers.MachineAgrees` | manager/src/host_manager.cpp:434-444 | The machine's replay in a deployment is the one ProcessData performs. |
| `HostManagers.MachineScoresAgree` | manager/src/host_manager.cpp:340-344 | The machine's score table after a message, and after a sweep, is the one ProcessData and Sweep leave. |
| `GrpcServers.GrpcServer.SetMonitorInfo` | manager/src/rpc/grpc_server.cpp:7-39 | Accepts exactly the messages that can be routed by hash; files them and pushes them to the queue of their route key, so the queue 0 fallback is never taken; a refused request changes nothing. |
| `GrpcServers.IdleManagerServes` | manager/src/rpc/grpc_server.cpp:33-36 | With every consumer asleep, a message is accepted, wakes the one thread that waits on its queue, and is what that thread then gets; all others sleep on. |
| `GrpcServers.IdleManager` | manager/src/host_manager.cpp:101-130 | A new manager of any thread count gets to that state. |
| `Identity.HostPart` | manager/src/host_manager.cpp:227-233 | The part of a key before its first underscore. |
| `Identity.HostPartUnique` | manager/src/host_manager.cpp:227-233 | Those properties leave one value. |
| `Identity.RouteFromStore` | manager/src/host_manager.cpp:184-240 | Exactly when the host part of a message's store key is its route key. |
| `Identity.StoreKeyDeterminesRoute` | manager/src/host_manager.cpp:184-240 | For well-formed messages equal store keys mean equal route keys. |
| `Identity.StoreKeyCollision` | manager/src/host_manager.cpp:227-228 | Two admitted messages with one store key and different route keys. |
| `Identity.AdmissionIsRoutability` | manager/src/rpc/grpc_server.cpp:16-23 | The admission test passes exactly the messages with a route key, and those have a store key. |
| `Samples.UpdatesOf` | manager/src/host_manager.cpp:283-338 | A message with an identifier writes its snapshot first, then its database updates, all for its own host; one without writes nothing. |
| `Samples.PerfSampleSays` | manager/src/host_manager.cpp:283-309 | The snapshot, column by column against the message, with zeros for absent parts. |
| `Samples.DatabaseUpdatesSay` | manager/src/host_manager.cpp:497-695 | The database updates, column by column against the message, each under its own device. |
| `Samples.TablesAgree` | manager/src/host_manager.cpp:277-309 | A message's snapshot and utilisation agree with its own detail samples: memory totals, first interface, greatest disk utilisation. |
| `Samples.SnapshotMatchesScore` | manager/src/host_manager.cpp:386-405 | The metrics the score is computed from are those the snapshot stores. |
| `Rates.ChainIsFold` | manager/src/host_manager.cpp:312-338 | Rating each sample against its predecessor is the sequential fold from zeros. |
| `Rates.RatesCompound` | manager/src/host_manager.cpp:314-317 | Over values that are never zero the product of (1 + rate) is the last value over the first. |
| `Rates.RateColumns` | manager/src/host_manager.cpp:319-335 | Each rate belongs to its own column: (1 + rate) times the last value is the new value, and a counter's rate times its last value is the 64-bit difference, and the rate is zero if the last value is. |
| `Rates.CounterRateExact` | manager/src/host_manager.cpp:560-563 | The rate of a 64-bit counter is its relative change exactly if it did not fall or started at zero, and is never negative. |
| `Score.ComputeScore` | manager/src/host_manager.cpp:378-420 | Gathering the metrics and the loop over the disks compute the score, within 0 and 100, from the message's own fields; every cpu_stat entry after the first is a core, and there is at least one. |
| `Score.FinalClampIsIdle` | manager/src/host_manager.cpp:415-419 | The final clamp never changes the weighted sum. |
| `Score.ScoreAntitone` | manager/src/host_manager.cpp:409-417 | A host no busier in any metric never scores lower. |
| `Score.ScoreStrict` | manager/src/host_manager.cpp:409-417 | Within the working range it scores strictly higher if it is less busy in any one metric. |
| `Score.PercentCosts` | manager/src/host_manager.cpp:380-384 | The cost of each percent of CPU, memory and disk, independent of the other metrics. |
| `Score.LoadAndNetCosts` | manager/src/host_manager.cpp:411-413 | The cost of load per core and of network rate. |
| `Score.MaxUtilIsGreatest` | manager/src/host_manager.cpp:402-405 | The disk metric is the greatest utilisation reported, and 0 if none is positive. |
| `Score.DiskOrderIrrelevant` | manager/src/host_manager.cpp:402-405 | More disks never raise the score; the order and repetition of disks do not matter. |
| `Clock.StaleMeansAge61` | manager/src/host_manager.cpp:170-172 | The age test fires exactly from 61 seconds on. |
| `TrafficMap.TrafficConserved` | worker/src/ebpf/net_stats.bpf.c:55-83 | For any interleaving of any number of CPUs: per interface, direction and kind, all cells ever installed add up to what executions have counted, modulo 2^64 and exactly below it, and that is at most what arrived. |
| `TrafficMap.NothingDropped` | worker/src/ebpf/net_stats.bpf.c:44-49 | With at most 64 interfaces no execution is dropped. |
| `TrafficMap.OfferedIsArrived` | worker/src/ebpf/net_stats.bpf.c:91-126 | The executions are exactly those of the packets that arrived, each in its direction; packets without interface or length count nowhere. |
| `TrafficMap.FinishedTrafficIsCounted` | worker/src/ebpf/net_stats.bpf.c:55-83 | Then, once an interface's executions have finished, its cells add up to all bytes and packets that arrived in each direction. |
| `TrafficMap.MapBounded` | worker/src/ebpf/net_stats.bpf.c:44-49 | The map never holds more than 64 interfaces. |
| `TrafficMap.AllFinishedAllCounted` | worker/src/ebpf/net_stats.bpf.c:74-81 | Finished executions have counted at most their traffic, and all of it if none was dropped. |
| `TrafficMap.OnlyEarlyMissesReplace` | worker/src/ebpf/net_stats.bpf.c:62-72 | Once an interface has a cell, only executions whose lookup came before that can install another. |
| `TrafficMap.LiveCellIsFinal` | worker/src/ebpf/net_stats.bpf.c:62-72 | Once those have finished, the visible cell never changes identity, and every later execution past its lookup counts in it: none is dropped. |
| `TrafficMap.LiveCellCountsAll` | worker/src/ebpf/net_stats.bpf.c:73-82 | Its counters show what earlier executions put into it plus everything counted by later ones, modulo 2^64. |
| `TrafficMap.LaterFinishedLaterCounted` | worker/src/ebpf/net_stats.bpf.c:73-82 | Once the later executions have finished, what they counted is all their traffic. |
| `TrafficMap.AlwaysCounted` | worker/src/ebpf/net_stats.bpf.c:75-81 | Every counter of every cell always shows what executions have added to it. |
| `TrafficMap.ShowsAllExactlyWhen` | worker/src/ebpf/net_stats.bpf.c:62-72 | In every reachable state, below 2^64: the visible cell shows all traffic its interface has counted if and only if no other cell was installed for it. |
| `NetEbpfMonitors.NetEbpfMonitor.UpdateOnce` | worker/src/monitor/net_ebpf_monitor.cpp:222-317 | One walk over the map: one row per named interface other than loopback, under the name kept for it, against its cached sample, which is replaced; all rates are zero for a first sample; a name once kept stays. |
| `NetEbpfMonitors.RateExact` | worker/src/monitor/net_ebpf_monitor.cpp:279-294 | In 64-bit range a rate is never negative, and times its span misses 1000 times the growth by less than the span, resets included. |
| `NetEbpfMonitors.RateColumns` | worker/src/monitor/net_ebpf_monitor.cpp:291-300 | Each of the four rates comes from its own counter, and is 0 for spans below a millisecond. |
| `NetEbpfMonitors.ScansConsistent` | worker/src/monitor/net_ebpf_monitor.cpp:270-311 | Over any run of scans each interface is compared with its own previous sample, whatever other interfaces do. |
| `NetEbpfMonitors.RatesAccountForTraffic` | worker/src/monitor/net_ebpf_monitor.cpp:271-311 | Over any run of scans: no rate is negative; 0 <= 1000 (growth - unreported) - sum of rate times span <= sum of (span - 1); without resets growth is last minus first; nothing is unreported if samples are a millisecond apart. |
| `TrafficPath.RatesAccountForPackets` | worker/src/monitor/net_ebpf_monitor.cpp:255-311 | Kernel and user side joined: for any run to a settled state of an interface, any later states and any scans that read its cell in them, the counters read never fall, and the rates account for exactly what was counted between first and last reading, up to rounding and spans below a millisecond; and that is what arrived in between, if no execution was under way at either. |
| `TrafficPath.CountedIsArrived` | worker/src/ebpf/net_stats.bpf.c:91-126 | Between two such states with all executions finished an interface counts exactly the packets that arrive. |
| `TrafficPath.OnwardRun` | worker/src/ebpf/net_stats.bpf.c:73-82 | From a settled state on, the visible cell stays and receives all that is counted. |
| `TrafficPath.SamplesNeverFall` | worker/src/monitor/net_ebpf_monitor.cpp:279-288 | Counters read from it never fall, so the reset branch is never taken. |
| `NetEbpfMonitors.NothingReportedExactlyWhen` | worker/src/monitor/net_ebpf_monitor.cpp:277-311 | A rate is zero exactly for spans below a millisecond and for growth of less than one per second of the span; in spans of at least a millisecond a rate misses the growth by less than the span, resets included. |
| `Sampler.TakeConsistent` | worker/src/monitor/cpu_stat_monitor.cpp:28-90 | Sampling any key keeps every key's history chained and its cache entry the last sample. |
| `CpuStatMonitors.CpuStatMonitor.UpdateOnce` | worker/src/monitor/cpu_stat_monitor.cpp:11-101 | One pass over the shared array up to its first empty name: rows for the CPUs seen before, all of them cached; without the device nothing. |
| `CpuStatMonitors.RowAddsUp` | worker/src/monitor/cpu_stat_monitor.cpp:32-67 | Busy, idle and I/O wait make up 100 percent exactly when total time moved; if no time went back every entry is within 0 and 100. |
| `CpuStatMonitors.RowColumns` | worker/src/monitor/cpu_stat_monitor.cpp:45-76 | Each entry, the busy one included, is its own time's share of the total. |
| `CpuStatMonitors.RunAccountsForBusyTime` | worker/src/monitor/cpu_stat_monitor.cpp:26-91 | Over any run of calls the percentages, weighted with the time they cover, add up to the busy time that passed. |
| `CpuStatMonitors.BusyTelescopes` | worker/src/monitor/cpu_stat_monitor.cpp:39-46 | The same for a single chained history. |
| `DiskMonitors.DiskMonitor.UpdateOnce` | worker/src/monitor/disk_monitor.cpp:20-81 | One pass over the lines: one row per line whose name starts neither with "loop" nor with "ram", in order, against the disk's last sample, which is replaced. |
| `DiskMonitors.NoRates` | worker/src/monitor/disk_monitor.cpp:69-77 | A disk's first sample, and one of the same second as the last, is sent with zeros. |
| `DiskMonitors.RateTimesDifference` | worker/src/monitor/disk_monitor.cpp:54-68 | Each rate times its interval is the 64-bit difference of its own counter, in its own unit. |
| `DiskMonitors.RateTimesInterval` | worker/src/monitor/disk_monitor.cpp:54-68 | That is the counter's growth exactly if the counter did not fall. |
| `DiskMonitors.LatencyTimesOperations` | worker/src/monitor/disk_monitor.cpp:58-67 | Each latency times its operations is the time spent on them. |
| `DiskMonitors.RunAccountsForGrowth` | worker/src/monitor/disk_monitor.cpp:50-79 | Over any run of calls the rates account for exactly the growth of the counter, apart from growth between samples of one second. |
| `DiskMonitors.GrowthTelescopes` | worker/src/monitor/disk_monitor.cpp:50-79 | The same for a single chained history. |
| `DiskMonitors.UtilBound` | worker/src/monitor/disk_monitor.cpp:23-68 | A disk busy no longer than the true time that passed shows less than 100 (dt + 1) / dt, at most 200 percent. |
| `DiskMonitors.UtilWithin100ExactlyWhen` | worker/src/monitor/disk_monitor.cpp:51-68 | Utilisation is at most 100 percent exactly if the disk was busy no longer than the whole seconds counted. |
| `DiskMonitors.BusyWithin100ExactlyWhen` | worker/src/monitor/disk_monitor.cpp:23-68 | For a disk busy all the time: exactly if the last sample was taken no later within its second than the first within its own. |
| `DiskMonitors.BusyAbove100Example` | worker/src/monitor/disk_monitor.cpp:23-68 | Such a disk with more than 150 percent. |
| `Paging.PageExactlyWhen` | manager/src/query_manager.cpp:336-371 | A request returns its page of every result exactly when its offset fits an int. |
| `Paging.PageDefaults` | manager/src/query_manager.cpp:336-337 | Without a positive page number the first page is meant; without a positive size, pages of 100. |
| `Paging.PageWrongExactlyWhen` | manager/src/query_manager.cpp:336-371 | On a given result of up to 2^31 - 1 rows it goes wrong exactly if the offset does not fit and, cut to an int, lands on a row. |
| `Paging.WrongPageExample` | manager/src/query_manager.cpp:336-371 | Page 65537 of size 65536 of a short result is all of it instead of nothing. |
| `Paging.PagesPartition` | manager/src/query_manager.cpp:365-371 | Pages up to the last partition the result without gap or repeat, and full where they can be. |
| `QueryManagers.FilterAgreesExactlyWhen` | manager/src/query_manager.cpp:349-435 | A selected row yields 1 to 5 records; a row yields records exactly if it is selected or has a NULL column under a negative threshold. |
| `QueryManagers.FilterAgreesInService` | manager/src/rpc/query_service.cpp:158-167 | With the thresholds the service passes on, whatever is requested, a row is selected exactly if it yields 1 to 5 records. |
| `QueryManagers.DefaultSelection` | manager/src/rpc/query_service.cpp:158-167 | Without thresholds requested: more than 80 percent of CPU, 90 of memory or 85 of disk, or a relative change beyond one half. |
| `QueryManagers.NullRowExample` | manager/src/query_manager.cpp:388-421 | A row that yields a record without being selected. |
| `QueryManagers.FilteringLosesNothingExactlyWhen` | manager/src/query_manager.cpp:342-435 | Emitting over the filtered table equals emitting over the whole time and server selection exactly if no unselected row of it has a NULL column under a negative threshold. |
| `QueryManagers.AnomalyPaging` | manager/src/query_manager.cpp:356-436 | The pages' records concatenate to those of the whole ordered result; the reported count, of rows, equals the number of records exactly if each row yields one. |
| `QueryManagers.QueryAnomaly` | manager/src/query_manager.cpp:320-448 | For every result the database may return for the filtered table, newest first: the requested page's records, newest first, each within the time range and of the named server if one is named; and the number of table rows in the range, of the server and beyond a threshold.  Nothing if not initialised or the range is reversed. |
| `QueryManagers.AnomaliesOfAllPages` | manager/src/query_manager.cpp:342-436 | From table to pages: for every such result the records of all pages are, as a multiset, those of the selected rows, and those of the whole selection exactly if none is lost to a NULL column under a negative threshold, so always for nonnegative thresholds. |
| `QueryManagers.AddAnomalies` | manager/src/query_manager.cpp:394-435 | The five tests yield one record per metric beyond its limit, in order, with its row's server and time, critical beyond 95 percent or a relative change of 1. |
| `QueryManagers.LatestRowJoin` | manager/src/query_manager.cpp:466-486 | The join keeps only rows with their server's greatest timestamp, at least one per server; the distinct-server count equals the row count exactly if no server has two. |
| `QueryManagers.RankingPages` | manager/src/query_manager.cpp:463-486 | For one result order, ascending or descending, the first pages are the whole ranking exactly if they have room for all latest rows; those up to the reported count have, if no server has two, and then rank every server once. |
| `QueryManagers.QueryScoreRank` | manager/src/query_manager.cpp:451-528 | The fetch loop summarises the requested page, in the score order asked for; the count is that of the distinct servers, and equals the number of joined rows exactly if no server has two. |
| `QueryManagers.QueryLatestScore` | manager/src/query_manager.cpp:563-618 | One pass: a summary per row, offline from 61 seconds on; online is the number of rows younger than that, and online + offline = total; the exact average, and the extremes with the first row attaining each, exactly as far as the sentinels allow. |
| `QueryManagers.EndsAreExtremes` | manager/src/query_manager.cpp:564-618 | In descending order the ends of the list are the extremes and the average lies between. |
| `QueryManagers.RankedStatistics` | manager/src/query_manager.cpp:564-618 | For scores from 0 to 100 in descending order the statistics are the ends of the list: maximum and best server of the first row, minimum of the last, the first row attaining it as worst, and min <= avg <= max. |

## Left out

- gRPC and protobuf transport, console output, the worker's pusher and RPC client: input and output only.
- MySQL client calls, SQL text and date formatting: a query's result is a sequence of rows; QueryTrend's grouping is the database's.
- libbpf loading, TC attachment, and the kernel's recycling of replaced cells: an execution can always still add to the cell it found.
- RatesAccountForPackets: a scan's reading of a cell is one step, and its first reading is in a settled state; growth of more than 2^63 / 1000 is excluded as for RateExact.
- The kernel module, the hrtimer and mmap: the shared array is an input of the CPU monitor.
- /proc parsing and the memory, load, soft-interrupt, user and procfs network monitors: copies, or weaker forms of the samplers modelled.
- Races between raw memory accesses: growth of the queue vector while consumers start, and simultaneous use of one std::map; the step system assumes history accesses are atomic.
- Floating-point rounding and NaN: a CPU percentage over no time is a value of its own (`Undefined`), and the sum of a CPU's eight times is not cut to 64 bits.
- A clock that runs backwards, and a second Start of the machine while it is running.
- The destructor and the re-use of the static shards by a second manager with another thread count.
- The raw counters copied beside rates into rows (disk reads, writes and times), the constant zero rates, and kbyte scaling of the send and receive columns.
- Guest times of a CPU (cached, never used) and weighted and in-progress I/O of a disk (copied only).
- String metric and anomaly names and severities are enumerations; collation of server names; rows with a NULL timestamp, score or name.
- QueryPerformance and the detail queries (same paging), SQL errors while fetching, GetMonitorInfo, GetAllHostScores and GetAllHostData (copies).
- RateExact: counters from 2^63 on and growth whose product with 1000 leaves the int64 range are excluded by its precondition, as signed overflow there has no defined result.
- Start: not called while a sweeper is unjoined, as replacing a joinable thread ends the program.
- Stop: that joined threads come to their end is StoppedConsumerExits; the class only records them as joined.
- A service without a callback: the RPC service is modelled as connected to a manager.
- ProcessData: states what happens when no other thread interferes; interleavings are the subject of the Ingest modules, tied to it by Undisturbed and MachineAgrees.
- StoppedConsumerExits: a measure that falls with each step; that the scheduler gives a consumer its steps is not modelled.
- AgeBound: that the sweeper keeps up, and scores come at most a delay after their stamp, are premises about the schedule.

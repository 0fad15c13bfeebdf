/** The RPC service workers push to (manager/src/rpc/grpc_server.cpp), connected to the manager as its callback. */
module GrpcServers {
  import opened Messages
  import opened Identity
  import opened HostManagers
  import SafeQueues

  datatype Status = Ok | InvalidArgument

  /** A stored message with its time of receipt. */
  datatype HostData = HostData(info: MonitorInfo, at: int)

  /** The name a message is filed under by the service; note that it prefers the name, routing the hostname. */
  function FileKey(m: MonitorInfo): (key: string)
    ensures key != "" <==> Admitted(m)
  {
    if m.name == "" && m.hostInfo.Some? then m.hostInfo.value.hostname else m.name
  }

  class GrpcServer {
    var hostData: map<string, HostData>
    const manager: HostManager

    constructor (manager: HostManager)
      ensures this.manager == manager && hostData == map[]
    {
      this.manager, hostData := manager, map[];
    }

    /** Accepts a message exactly if it can be routed by its hash; then it is filed and pushed to the queue its
        route key hashes to, never to queue 0 for want of a key.  A refused request changes nothing. */
    method SetMonitorInfo(request: Option<MonitorInfo>, now: int) returns (status: Status, ghost woken: nat)
      requires manager.Valid()
      modifies this, manager.queues
      ensures manager.Valid()
      ensures status == Ok <==> request.Some? && RouteKey(request.value) != ""
      ensures status != Ok ==> hostData == old(hostData) && manager.States() == old(manager.States())
      ensures status == Ok ==>
                var m := request.value;
                var q, push := manager.Slot(RouteKey(m)), SafeQueues.QAction.Push(m, woken);
                && hostData == old(hostData)[FileKey(m) := HostData(m, now)]
                && SafeQueues.Enabled(old(manager.States())[q], push)
                && manager.States() == At(old(manager.States()), q, push)
    {
      if request.None? {
        return InvalidArgument, 0;
      }
      var m := request.value;
      AdmissionIsRoutability(m);
      var hostname := m.name;
      if hostname == "" && m.hostInfo.Some? {
        hostname := m.hostInfo.value.hostname;
      }
      if hostname == "" {
        return InvalidArgument, 0;
      }
      woken := Accept(hostname, m, now);
      status := Ok;
    }

    /** Files an admitted message and hands it to the callback. */
    method Accept(hostname: string, m: MonitorInfo, now: int) returns (ghost woken: nat)
      requires manager.Valid() && RouteKey(m) != ""
      modifies this, manager.queues
      ensures manager.Valid() && hostData == old(hostData)[hostname := HostData(m, now)]
      ensures var q, push := manager.Slot(RouteKey(m)), SafeQueues.QAction.Push(m, woken);
              && SafeQueues.Enabled(old(manager.States())[q], push)
              && manager.States() == At(old(manager.States()), q, push)
    {
      hostData := hostData[hostname := HostData(m, now)];
      woken := manager.OnDataReceived(m);
    }

    method GetHostData(hostname: string) returns (r: Option<HostData>)
      ensures r.Some? <==> hostname in hostData
      ensures r.Some? ==> r.value == hostData[hostname]
    {
      r := if hostname in hostData then Some(hostData[hostname]) else None;
    }
  }

  /** An empty queue whose thread t sleeps, or has not come to it yet. */
  ghost predicate Waiting<T>(q: SafeQueues.QState<T>, t: nat, asleep: bool) {
    q.items == [] && !q.stop && q.notified == {} && q.asleep == if asleep then {t} else {}
  }

  /** A manager all of whose consumers have gone to sleep. */
  method IdleManager(threadCount: nat, hash: string -> nat, now: int) returns (manager: HostManager)
    ensures fresh(manager) && fresh(manager.queues) && manager.Valid() && manager.hash == hash
    ensures manager.threads == if threadCount < 1 then 1 else threadCount
    ensures forall k | 0 <= k < manager.threads :: Waiting(manager.States()[k], k, true)
  {
    manager := new HostManager(threadCount, hash);
    AllWait(manager, now);
  }

  method AllWait(manager: HostManager, now: int)
    requires manager.Valid() && forall k | 0 <= k < manager.threads :: Waiting(manager.States()[k], k, false)
    modifies manager`memory, manager`scores, manager.queues
    ensures manager.Valid() && forall k | 0 <= k < manager.threads :: Waiting(manager.States()[k], k, true)
  {
    var i := 0;
    while i < manager.threads
      invariant 0 <= i <= manager.threads && manager.Valid()
      invariant forall k | 0 <= k < manager.threads :: Waiting(manager.States()[k], k, k < i)
    {
      var r, rows := manager.Consume(i, now, true);
      i := i + 1;
    }
  }

  /** In a manager whose consumers all wait, a message is accepted, wakes the one thread that waits on its queue, and
      is what that thread then gets; all other threads sleep on. */
  method IdleManagerServes(server: GrpcServer, m: MonitorInfo, now: int)
    returns (status: Status, r: SafeQueues.Outcome<MonitorInfo>)
    requires server.manager.Valid() && RouteKey(m) != ""
    requires forall k | 0 <= k < server.manager.threads :: Waiting(server.manager.States()[k], k, true)
    modifies server, server.manager, server.manager.queues
    ensures server.manager.Valid() && status == Ok && r == SafeQueues.Taken(m)
    ensures forall k | 0 <= k < server.manager.threads ::
              Waiting(server.manager.States()[k], k, k != server.manager.Slot(RouteKey(m)))
  {
    var q := server.manager.Slot(RouteKey(m));
    ghost var woken;
    status, woken := server.SetMonitorInfo(Some(m), now);
    assert woken == q;
    var rows;
    r, rows := server.manager.Consume(q, now, true);
  }
}

/** The two identities a message has inside the manager: the key that picks its queue and the key under which
    its history is stored. */
module Identity {
  import opened Messages

  /** The key hashed by OnDataReceived to pick a queue. */
  function RouteKey(m: MonitorInfo): string {
    if m.hostInfo.Some? && m.hostInfo.value.hostname != "" then m.hostInfo.value.hostname else m.name
  }

  /** The key under which ProcessData stores history and scores. */
  function StoreKey(m: MonitorInfo): string {
    var fromHost :=
      match m.hostInfo
      case None => ""
      case Some(h) =>
        if h.hostname != "" && h.ipAddress != "" then h.hostname + "_" + h.ipAddress
        else if h.hostname != "" then h.hostname
        else h.ipAddress;
    if fromHost == "" then m.name else fromHost
  }

  /** The admission test of SetMonitorInfo: a name, or failing that a hostname, must be present. */
  predicate Admitted(m: MonitorInfo) {
    m.name != "" || (m.hostInfo.Some? && m.hostInfo.value.hostname != "")
  }

  /** The host information carries an address but no hostname, so storing ignores the name used for routing. */
  predicate AddressOnly(m: MonitorInfo) {
    m.hostInfo.Some? && m.hostInfo.value.hostname == "" && m.hostInfo.value.ipAddress != ""
  }

  /** Messages as workers build them: a hostname without underscore identifies the sender. */
  predicate WellFormed(m: MonitorInfo) {
    RouteKey(m) != "" && '_' !in RouteKey(m) && !AddressOnly(m)
  }

  /** The part of a store key before its first underscore. */
  function HostPart(s: string): (p: string)
    ensures p <= s && '_' !in p
    ensures p == s || s[|p|] == '_'
  {
    if s == "" || s[0] == '_' then ""
    else
      var p := HostPart(s[1..]);
      assert [s[0]] + p <= s by { assert s == [s[0]] + s[1..]; }
      [s[0]] + p
  }

  /** The three properties that specify HostPart leave one value. */
  lemma {:induction false} HostPartUnique(s: string, p: string)
    requires p <= s && '_' !in p
    requires p == s || s[|p|] == '_'
    ensures HostPart(s) == p
  {
  }

  /** Exactly when the store key alone gives back the key the message was routed by. */
  lemma RouteFromStore(m: MonitorInfo)
    ensures HostPart(StoreKey(m)) == RouteKey(m) <==>
            if AddressOnly(m) then HostPart(m.hostInfo.value.ipAddress) == m.name else '_' !in RouteKey(m)
  {
    if !AddressOnly(m) {
      var r := RouteKey(m);
      assert r <= StoreKey(m);
      assert r == StoreKey(m) || StoreKey(m)[|r|] == '_';
      if '_' !in r {
        HostPartUnique(StoreKey(m), r);
      }
    }
  }

  /** For well-formed messages the store key determines the route key. */
  lemma StoreKeyDeterminesRoute(a: MonitorInfo, b: MonitorInfo)
    requires WellFormed(a) && WellFormed(b)
    requires StoreKey(a) == StoreKey(b)
    ensures RouteKey(a) == RouteKey(b)
  {
    RouteFromStore(a);
    RouteFromStore(b);
  }

  /** Without well-formedness it does not: two messages stored under one key but routed by different keys. */
  lemma StoreKeyCollision()
    returns (a: MonitorInfo, b: MonitorInfo)
    ensures Admitted(a) && Admitted(b)
    ensures StoreKey(a) == StoreKey(b) == "web_1_9"
    ensures RouteKey(a) == "web" && RouteKey(b) == "web_1"
  {
    a := MonitorInfo("web", Some(HostInfo("web", "1_9")), [], None, [], None, [], []);
    b := MonitorInfo("web_1", Some(HostInfo("web_1", "9")), [], None, [], None, [], []);
    assert "web" + "_" + "1_9" == "web_1_9";
    assert "web_1" + "_" + "9" == "web_1_9";
  }

  /** The RPC admission test lets through exactly the messages that can be routed by hash, so the fallback to
      queue 0 is never taken on that path; a message it refuses is stored only when it carries a bare address. */
  lemma AdmissionIsRoutability(m: MonitorInfo)
    ensures Admitted(m) <==> RouteKey(m) != ""
    ensures Admitted(m) ==> StoreKey(m) != ""
    ensures !Admitted(m) ==> (StoreKey(m) != "" <==> AddressOnly(m))
  {
  }
}

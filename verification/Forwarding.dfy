/** Forwarding over all nodes once every daemon has processed the same published data. */
module Forwarding {
  import opened Text
  import opened IPv4
  import opened Network
  import opened RouteMap
  import opened RoutePlan
  import D = RouteDaemon

  datatype Node = Node(env: Env, base: HostState, events: seq<D.Event>)

  ghost function Final(n: Node): D.Daemon
    requires ValidEnv(n.env)
  {
    D.Run(n.env, D.Daemon(n.base, None, false), n.events)
  }

  /** The daemon saw some legal history, is still running, and the last data delivered to it is `m`. */
  ghost predicate UpToDate(n: Node, m: Data) {
    && ValidEnv(n.env)
    && D.LegalRun(None, n.events) && (forall e :: e in n.events ==> D.AllowedEvent(false, n.env, n.base, e))
    && !Final(n).exited
    && D.Contents(D.Held(D.LastDelivered(None, n.events))) == m
  }

  ghost predicate Cluster(nodes: map<string, Node>, m: Data, rules: string) {
    forall ip :: ip in nodes ==>
      UpToDate(nodes[ip], m) && nodes[ip].env.localIP == ip && nodes[ip].env.remoteSubnetNAT == rules
  }

  /** Where a node sends packets for the remote subnets. */
  function Hop(env: Env, d: RouteData): string {
    if OnVpnNode(env, d) then d.vpnPodIP else d.workerNodeIP
  }

  lemma NodeState(n: Node, m: Data)
    requires UpToDate(n, m)
    ensures var d := MapToRouteData(m);
            var p := PlanOf(n.env, d);
            && Final(n).host.routes == Change(Add, n.base, p).routes
            && Final(n).host.rules == Change(Add, n.base, p).rules
            && (Complete(d) ==> PlanOk(p) && TidyFor(n.base, p))
  {
    D.ReconcilerRuns(n.env, n.base, n.events);
    D.RunSavedClean(n.env, n.base, n.events);
    if Complete(MapToRouteData(m)) {
      AcceptedPlanOk(n.env, MapToRouteData(m));
    }
  }

  lemma PlannedVpn(env: Env, d: RouteData)
    requires ValidEnv(env) && Complete(d) && !HostNetworking(d)
    ensures var p := PlanOf(env, d);
            && p.table == d.routeTable && p.allRule && p.vpnHop.via == Hop(env, d)
            && p.vpnKeys == ListKeys(Split(Remapped(env, d), ','), d.routeTable)
  {
  }

  lemma AllRuleInstalled(base: HostState, p: Plan)
    requires PlanOk(p) && p.allRule && TidyFor(base, p)
    ensures Rule(p.table, "all", p.table) in Change(Add, base, p).rules
  {
    var exist := HasRoutes(ChangeRoutes(Add, base.routes, p.tunnelKeys, TUNNEL_HOP), TUNNEL_TABLE);
    var added := ChangeRules(Add, base.rules, p.tunnelSources, TUNNEL_TABLE, exist);
    AddRulesBounds(base.rules, p.tunnelSources, TUNNEL_TABLE, exist);
    AllRuleAfterSources(base.rules, added, p.table);
    AllLookupExact(added, p.table);
  }

  lemma NodeRoute(n: Node, m: Data, key: RouteKey)
    requires UpToDate(n, m)
    requires var d := MapToRouteData(m);
             Complete(d) && !HostNetworking(d)
             && key in ListKeys(Split(Remapped(n.env, d), ','), d.routeTable) && key !in n.base.routes
    ensures var d, s := MapToRouteData(m), Final(n).host;
            && key in s.routes && s.routes[key].via == Hop(n.env, d)
            && Rule(d.routeTable, "all", d.routeTable) in s.rules
  {
    var d, p := MapToRouteData(m), PlanOf(n.env, MapToRouteData(m));
    NodeState(n, m);
    PlannedVpn(n.env, d);
    AllRuleInstalled(n.base, p);
    AddedRoute(n.base, p, key);
  }

  lemma AddedRoute(base: HostState, p: Plan, key: RouteKey)
    requires PlanOk(p) && key in p.vpnKeys && key !in base.routes
    ensures var rs := Change(Add, base, p).routes; key in rs && rs[key] == p.vpnHop
  {
    assert key !in p.tunnelKeys;
  }

  // ---------- packets ----------

  predicate Matches(rs: Routes, table: string, a: nat, key: RouteKey) {
    key in rs && key.table == table && InNet(a, key.dest)
  }

  predicate Longest(rs: Routes, table: string, a: nat, key: RouteKey) {
    Matches(rs, table, a, key) && forall k | k in rs :: Matches(rs, table, a, k) ==> k.dest.len <= key.dest.len
  }

  lemma LongestExists(rs: Routes, table: string, a: nat, some: RouteKey)
    requires Matches(rs, table, a, some)
    ensures exists key :: Longest(rs, table, a, key)
  {
    var best, rest := some, rs.Keys;
    while rest != {}
      invariant rest <= rs.Keys && Matches(rs, table, a, best)
      invariant forall k :: k in rs && k !in rest && Matches(rs, table, a, k) ==> k.dest.len <= best.dest.len
    {
      var k :| k in rest;
      if Matches(rs, table, a, k) && k.dest.len > best.dest.len {
        best := k;
      }
      rest := rest - {k};
    }
    assert Longest(rs, table, a, best);
  }

  /** The next hop by longest prefix in the table, if any route matches. */
  ghost function NextHopOf(rs: Routes, table: string, a: nat): Option<string> {
    if exists key :: Longest(rs, table, a, key) then
      var key :| Longest(rs, table, a, key);
      Some(rs[key].via)
    else None
  }

  /** The address a packet to `a` is handed to, by the lookup in the table at each node on the way. */
  ghost function Follow(nodes: map<string, Node>, at: string, table: string, a: nat, steps: nat): string
    requires forall ip :: ip in nodes ==> ValidEnv(nodes[ip].env)
    decreases steps
  {
    if steps == 0 || at !in nodes then at
    else
      var hop := NextHopOf(Final(nodes[at]).host.routes, table, a);
      if hop.None? then at else Follow(nodes, hop.value, table, a, steps - 1)
  }

  /** Some remote subnet contains the address. */
  predicate IsRemote(env: Env, d: RouteData, a: nat)
    requires ValidEnv(env)
  {
    AddrInList(a, Split(Remapped(env, d), ','))
  }

  /** Nothing else in the table, such as another release's routes, concerns the address. */
  predicate Unrouted(base: HostState, table: string, a: nat) {
    forall k | k in base.routes :: !Matches(base.routes, table, a, k)
  }

  lemma PlannedLookup(base: HostState, p: Plan, rs: Routes, a: nat, key: RouteKey)
    requires PlanOk(p) && rs == Change(Add, base, p).routes && Unrouted(base, p.table, a)
    requires key in p.vpnKeys && InNet(a, key.dest)
    ensures NextHopOf(rs, p.table, a) == Some(p.vpnHop.via)
  {
    assert key.table == p.table && key in rs;
    LongestExists(rs, p.table, a, key);
    forall k | Longest(rs, p.table, a, k) ensures rs[k] == p.vpnHop {
      assert k !in base.routes && k !in p.tunnelKeys;
    }
  }

  /** Whatever remote subnets are nested, the lookup at an up-to-date node gives one next hop. */
  lemma NodeLookup(n: Node, m: Data, a: nat)
    requires UpToDate(n, m)
    requires var d := MapToRouteData(m);
             Complete(d) && !HostNetworking(d) && IsRemote(n.env, d, a) && Unrouted(n.base, d.routeTable, a)
    ensures NextHopOf(Final(n).host.routes, MapToRouteData(m).routeTable, a) == Some(Hop(n.env, MapToRouteData(m)))
  {
    var d, p := MapToRouteData(m), PlanOf(n.env, MapToRouteData(m));
    NodeState(n, m);
    PlannedVpn(n.env, d);
    var key := RemoteKey(Split(Remapped(n.env, d), ','), d.routeTable, a);
    PlannedLookup(n.base, p, Final(n).host.routes, a, key);
  }

  lemma RemoteKey(list: seq<string>, table: string, a: nat) returns (key: RouteKey)
    requires AddrInList(a, list)
    ensures key in ListKeys(list, table) && InNet(a, key.dest)
  {
    var c :| c in list && ParseCIDR(c).Some? && InNet(a, ParseCIDR(c).value.net);
    key := RouteKey(table, ParseCIDR(c).value.net);
  }

  /** From every node a packet to a remote address reaches the VPN pod in at most two hops, without a loop. */
  lemma TwoHops(nodes: map<string, Node>, m: Data, rules: string, at: string, a: nat)
    requires Cluster(nodes, m, rules) && at in nodes
    requires var d := MapToRouteData(m);
             && Complete(d) && d.workerNodeIP in nodes && d.vpnPodIP !in nodes
             && IsRemote(nodes[at].env, d, a) && forall ip :: ip in nodes ==> Unrouted(nodes[ip].base, d.routeTable, a)
    ensures var d := MapToRouteData(m);
            && Follow(nodes, at, d.routeTable, a, 2) == d.vpnPodIP
            && Follow(nodes, at, d.routeTable, a, 1) == (if at == d.workerNodeIP then d.vpnPodIP else d.workerNodeIP)
  {
    var d := MapToRouteData(m);
    assert UpToDate(nodes[at], m) && UpToDate(nodes[d.workerNodeIP], m);
    assert Remapped(nodes[at].env, d) == Remapped(nodes[d.workerNodeIP].env, d);
    NodeLookup(nodes[at], m, a);
    NodeLookup(nodes[d.workerNodeIP], m, a);
    var next := Hop(nodes[at].env, d);
    assert Follow(nodes, next, d.routeTable, a, 0) == next;
    assert Follow(nodes, at, d.routeTable, a, 2) == Follow(nodes, next, d.routeTable, a, 1);
    if at != d.workerNodeIP {
      assert Follow(nodes, d.vpnPodIP, d.routeTable, a, 0) == d.vpnPodIP;
    }
  }
}

/**
 What one published configuration means for one node (strongswan/routedaemon.go:87-238): the routes, rules and
 NAT entries it asks for, and the node state after they are added or deleted.
 */
module RoutePlan {
  import opened Text
  import opened IPv4
  import opened Network
  import opened RouteMap
  import opened Remap
  import Service

  const TUNNEL_TABLE := "199"
  const TUNNEL_HOP := NextHop("", "tunl0", false)

  /** The globals of the route daemon that are fixed once it is initialized; `devices` is the device lookup result. */
  datatype Env = Env(
    localIP: string,
    localSubnet: string,
    nonClusterSubnet: string,
    localSubnetNAT: string,
    remoteSubnetNAT: string,
    routingTable: seq<RoutingInfo>,
    devices: map<string, string>)

  predicate ValidEnv(env: Env) {
    && (env.localSubnetNAT != "" ==> WellSplit(env.localSubnetNAT))
    && (env.remoteSubnetNAT != "" ==> WellSplit(env.remoteSubnetNAT))
  }

  datatype Plan = Plan(
    tunnelKeys: set<RouteKey>,
    tunnelSources: seq<string>,
    table: string,
    vpnKeys: set<RouteKey>,
    vpnHop: NextHop,
    allRule: bool,
    entries: seq<NatEntry>)

  function Change(action: Action, s: HostState, p: Plan): HostState {
    var tunnelRoutes := ChangeRoutes(action, s.routes, p.tunnelKeys, TUNNEL_HOP);
    var tunnelRules := ChangeRules(action, s.rules, p.tunnelSources, TUNNEL_TABLE,
        HasRoutes(tunnelRoutes, TUNNEL_TABLE));
    var routes := ChangeRoutes(action, tunnelRoutes, p.vpnKeys, p.vpnHop);
    var rules := if p.allRule then ChangeRule(action, tunnelRules, "all", p.table, HasRoutes(routes, p.table))
                 else tunnelRules;
    HostState(routes, rules, ChangeNat(action, s.chain, p.entries))
  }

  // ---------- from the configuration to the plan ----------

  predicate Complete(d: RouteData) {
    d.remoteSubnet != "" && d.routeTable != "" && d.workerNodeIP != "" && d.workerSubnet != ""
  }

  predicate OnVpnNode(env: Env, d: RouteData) {
    env.localIP == d.workerNodeIP
  }

  predicate HostNetworking(d: RouteData) {
    d.workerNodeIP == d.vpnPodIP
  }

  function Remapped(env: Env, d: RouteData): string
    requires ValidEnv(env)
  {
    if env.remoteSubnetNAT == "" then d.remoteSubnet else RemapText(d.remoteSubnet, ParseRules(env.remoteSubnetNAT))
  }

  function Originals(text: string): seq<string>
    requires text != "" ==> WellSplit(text)
  {
    if text == "" then []
    else var rules := ParseRules(text); seq(|rules|, i requires 0 <= i < |rules| => rules[i].orig)
  }

  /** The subnets behind the VPN that may need a tunnel route: the shared ones and the insides of the local NAT. */
  function LocalSubnets(env: Env, localSubnetList: string): seq<string>
    requires ValidEnv(env)
  {
    Split(localSubnetList, ',') + Originals(env.localSubnetNAT)
  }

  predicate NeedsTunnel(env: Env, subnet: string) {
    subnet != env.localSubnet && TunnelNeeded(subnet, env.routingTable)
  }

  function TunnelKeys(env: Env, subnets: seq<string>): set<RouteKey> {
    set s | s in subnets && NeedsTunnel(env, s) && ParseCIDR(s).value.ip == ParseCIDR(s).value.net.base
      :: RouteKey(TUNNEL_TABLE, ParseCIDR(s).value.net)
  }

  predicate RuleNeeded(env: Env, subnets: seq<string>) {
    exists s | s in subnets :: NeedsTunnel(env, s)
  }

  function TrimEach(list: seq<string>): seq<string> {
    seq(|list|, i requires 0 <= i < |list| => TrimSuffix(list[i], "/32"))
  }

  function Masquerades(subnets: seq<string>, workerSubnet: string): seq<NatEntry> {
    if subnets == [] then []
    else (if subnets[0] == workerSubnet then [] else [Masquerade(subnets[0])]) + Masquerades(subnets[1..], workerSubnet)
  }

  function NonClusterEntries(env: Env, d: RouteData): seq<NatEntry> {
    if env.nonClusterSubnet == "" then [] else Masquerades(Split(env.nonClusterSubnet, ','), d.workerSubnet)
  }

  function SnatEntries(env: Env, d: RouteData): seq<NatEntry> {
    if d.connectUsingLB != "true" then []
    else (if OnVpnNode(env, d) then [SnatEntry(d.remoteGateway, d.vpnPodIP, d.loadBalancerIP)] else [])
         + [Masquerade(d.remoteGateway)]
  }

  function Device(env: Env, d: RouteData): string {
    if d.workerNodeIP in env.devices then env.devices[d.workerNodeIP] else ""
  }

  function VpnHop(env: Env, d: RouteData): NextHop {
    if OnVpnNode(env, d) then NextHop(d.vpnPodIP, d.vpnPodDevice, false)
    else NextHop(d.workerNodeIP, Device(env, d), env.localSubnet != d.workerSubnet || Device(env, d) == "tunl0")
  }

  const NO_PLAN := Plan({}, [], "", {}, TUNNEL_HOP, false, [])

  function PlanOf(env: Env, d: RouteData): Plan
    requires ValidEnv(env)
  {
    if !Complete(d) then NO_PLAN
    else
      var list := Split(Remapped(env, d), ',');
      var subnets := LocalSubnets(env, d.localSubnet);
      var tunnelKeys := if OnVpnNode(env, d) then TunnelKeys(env, subnets) else {};
      var tunnelSources := if OnVpnNode(env, d) && RuleNeeded(env, subnets) then TrimEach(list) else [];
      if OnVpnNode(env, d) && HostNetworking(d)
      then Plan(tunnelKeys, tunnelSources, d.routeTable, {}, VpnHop(env, d), false, [])
      else
        Plan(tunnelKeys, tunnelSources, d.routeTable, ListKeys(list, d.routeTable), VpnHop(env, d), true,
             (if OnVpnNode(env, d) then NonClusterEntries(env, d) else []) + SnatEntries(env, d))
  }

  // ---------- fatal errors ----------

  predicate IPInRemoteSubnet(ipAddr: string, list: seq<string>) {
    || ParseIP(ipAddr).None?
    || (exists p | p in list :: ParseCIDR(p).None?)
    || AddrInList(ParseIP(ipAddr).value, list)
  }

  predicate LocalRouteDefined(routingTable: seq<RoutingInfo>, list: seq<string>) {
    exists r | r in routingTable :: r.dest in list
  }

  predicate Rejected(env: Env, d: RouteData)
    requires ValidEnv(env)
  {
    var list := Split(Remapped(env, d), ',');
    IPInRemoteSubnet(env.localIP, list) || LocalRouteDefined(env.routingTable, list)
  }

  predicate NoDevice(env: Env, d: RouteData) {
    !OnVpnNode(env, d) && d.workerNodeIP !in env.devices
  }

  /** `handleRoutes` ends the process. */
  predicate Fatal(env: Env, action: Action, d: RouteData)
    requires ValidEnv(env)
  {
    Complete(d) && ((action == Add && Rejected(env, d)) || NoDevice(env, d))
  }

  // ---------- delete undoes add ----------

  predicate PlanOk(p: Plan) {
    && p.table != TUNNEL_TABLE
    && (p.allRule ==> PlainKey(p.table, "all"))
    && "all" !in p.tunnelSources && (forall s | s in p.tunnelSources :: PlainKey(TUNNEL_TABLE, s))
    && (forall k | k in p.tunnelKeys :: k.table == TUNNEL_TABLE)
    && (forall k | k in p.vpnKeys :: k.table == p.table)
  }

  predicate TidyFor(s: HostState, p: Plan) {
    Tidy(s.rules, TUNNEL_TABLE) && (p.allRule ==> Tidy(s.rules, p.table))
  }

  predicate RoutesFresh(rs: Routes, p: Plan) {
    && (forall k | k in p.tunnelKeys && k in rs :: rs[k] != TUNNEL_HOP)
    && (forall k | k in p.vpnKeys && k in rs :: rs[k] != p.vpnHop)
  }

  predicate RulesFresh(rules: set<Rule>, p: Plan) {
    forall r | r in rules && r.table == TUNNEL_TABLE :: r.src !in p.tunnelSources
  }

  /** The all-rule of the table is present exactly when the table has routes. */
  predicate Mirrors(s: HostState, table: string) {
    Rule(table, "all", table) in s.rules <==> HasRoutes(s.routes, table)
  }

  lemma RoutesUndone(rs: Routes, p: Plan)
    requires PlanOk(p)
    ensures var added := AddRoutes(AddRoutes(rs, p.tunnelKeys, TUNNEL_HOP), p.vpnKeys, p.vpnHop);
            var undone := DelRoutes(DelRoutes(added, p.tunnelKeys, TUNNEL_HOP), p.vpnKeys, p.vpnHop);
            undone == rs <==> RoutesFresh(rs, p)
  {
    assert p.tunnelKeys !! p.vpnKeys;
    var added := AddRoutes(AddRoutes(rs, p.tunnelKeys, TUNNEL_HOP), p.vpnKeys, p.vpnHop);
    var undone := DelRoutes(DelRoutes(added, p.tunnelKeys, TUNNEL_HOP), p.vpnKeys, p.vpnHop);
    if RoutesFresh(rs, p) {
      assert undone.Keys == rs.Keys;
    } else if exists k :: k in p.tunnelKeys && k in rs && rs[k] == TUNNEL_HOP {
      var k :| k in p.tunnelKeys && k in rs && rs[k] == TUNNEL_HOP;
      assert k !in undone;
    } else {
      var k :| k in p.vpnKeys && k in rs && rs[k] == p.vpnHop;
      assert k !in undone;
    }
  }

  lemma AllRuleAfterSources(s: set<Rule>, added: set<Rule>, table: string)
    requires table != TUNNEL_TABLE && Tidy(s, table) && PlainKey(table, "all") && Tidy(added, TUNNEL_TABLE)
    requires s <= added && forall r :: r in added && r !in s ==> r.table == TUNNEL_TABLE
    ensures AddRule(added, "all", table) == added + (AddRule(s, "all", table) - s)
    ensures Tidy(added, table)
  {
    assert Tidy(added, table);
    AllLookupExact(s, table);
    AllLookupExact(added, table);
  }

  function KeptRules(rules: set<Rule>, sources: seq<string>): set<Rule> {
    set r | r in rules && !(r.src in sources && r.table == TUNNEL_TABLE)
  }

  /** Deleting the source rules leaves what adding the all-rule to the kept rules would give. */
  lemma SourcesDeleted(rules: set<Rule>, p: Plan, before: bool, after: bool)
    requires PlanOk(p) && p.allRule && Tidy(rules, TUNNEL_TABLE) && Tidy(rules, p.table)
    ensures var added := ChangeRules(Add, rules, p.tunnelSources, TUNNEL_TABLE, before);
            var deleted := ChangeRules(Delete, AddRule(added, "all", p.table), p.tunnelSources, TUNNEL_TABLE, after);
            deleted == AddRule(KeptRules(rules, p.tunnelSources), "all", p.table)
  {
    AddRulesBounds(rules, p.tunnelSources, TUNNEL_TABLE, before);
    var added := ChangeRules(Add, rules, p.tunnelSources, TUNNEL_TABLE, before);
    var kept := KeptRules(rules, p.tunnelSources);
    AllRuleAfterSources(rules, added, p.table);
    AddRuleOtherTable(added, p.table, TUNNEL_TABLE);
    DelRulesExact(AddRule(added, "all", p.table), p.tunnelSources, TUNNEL_TABLE, after);
    AllLookupExact(rules, p.table);
    AllLookupExact(kept, p.table);
  }

  /** The rules after a full add and delete. */
  lemma RulesUndone(rules: set<Rule>, p: Plan, before: bool, middle: bool, after: bool, last: bool)
    requires PlanOk(p) && Tidy(rules, TUNNEL_TABLE) && (p.allRule ==> Tidy(rules, p.table))
    ensures var added := ChangeRules(Add, rules, p.tunnelSources, TUNNEL_TABLE, before);
            var all := if p.allRule then ChangeRule(Add, added, "all", p.table, middle) else added;
            var deleted := ChangeRules(Delete, all, p.tunnelSources, TUNNEL_TABLE, after);
            var undone := if p.allRule then ChangeRule(Delete, deleted, "all", p.table, last) else deleted;
            undone == rules <==>
              RulesFresh(rules, p) && (p.allRule ==> (Rule(p.table, "all", p.table) in rules <==> last))
  {
    var kept := KeptRules(rules, p.tunnelSources);
    assert RulesFresh(rules, p) <==> kept == rules;
    if p.allRule {
      SourcesDeleted(rules, p, before, after);
      AllRuleUndone(rules, kept, p.table, last);
    } else {
      AddRulesBounds(rules, p.tunnelSources, TUNNEL_TABLE, before);
      DelRulesExact(ChangeRules(Add, rules, p.tunnelSources, TUNNEL_TABLE, before), p.tunnelSources, TUNNEL_TABLE,
          after);
    }
  }

  lemma AllRuleUndone(rules: set<Rule>, kept: set<Rule>, table: string, last: bool)
    requires kept <= rules && PlainKey(table, "all") && Tidy(rules, table)
    requires Rule(table, "all", table) in rules ==> Rule(table, "all", table) in kept
    ensures DelRule(AddRule(kept, "all", table), "all", table, last) == rules
            <==> kept == rules && (Rule(table, "all", table) in rules <==> last)
  {
    AllRuleRestored(kept, table, false, last);
    assert forall r :: r in AddRule(kept, "all", table) && r !in kept ==> r == Rule(table, "all", table);
  }

  lemma AddRuleOtherTable(rules: set<Rule>, table: string, other: string)
    requires Tidy(rules, other) && PlainKey(table, "all") && table != other
    ensures Tidy(AddRule(rules, "all", table), other)
  {
    assert PlainRule(Rule(table, "all", table));
  }

  /**
   The core of the reconciler: through every branch, deleting a configuration restores the routes and rules
   exactly when none of them was there before and the all-rule mirrored its table.
   */
  lemma DeleteUndoesAdd(s: HostState, p: Plan)
    requires PlanOk(p) && TidyFor(s, p)
    ensures var u := Change(Delete, Change(Add, s, p), p);
            && (u.routes == s.routes && u.rules == s.rules
                <==> RoutesFresh(s.routes, p) && RulesFresh(s.rules, p) && (p.allRule ==> Mirrors(s, p.table)))
            && multiset(u.chain) == multiset(s.chain)
            && ((forall e :: e in p.entries ==> e !in s.chain) ==> u.chain == s.chain)
  {
    var a := Change(Add, s, p);
    var u := Change(Delete, a, p);
    RoutesUndone(s.routes, p);
    var routes1 := ChangeRoutes(Add, s.routes, p.tunnelKeys, TUNNEL_HOP);
    var routes3 := ChangeRoutes(Delete, a.routes, p.tunnelKeys, TUNNEL_HOP);
    RulesUndone(s.rules, p, HasRoutes(routes1, TUNNEL_TABLE), HasRoutes(a.routes, p.table),
                HasRoutes(routes3, TUNNEL_TABLE), HasRoutes(u.routes, p.table));
    NatConserved(s.chain, p.entries);
    if forall e :: e in p.entries ==> e !in s.chain {
      NatRestored(s.chain, p.entries);
    }
  }

  // ---------- the plans of accepted configurations ----------

  lemma CidrChars(s: string)
    requires ParseCIDR(s).Some?
    ensures AddressChars(s) && AddressChars(TrimSuffix(s, "/32"))
    ensures PlainKey(TUNNEL_TABLE, TrimSuffix(s, "/32")) && TrimSuffix(s, "/32") != "all"
  {
    CIDRChars(s);
    var t := TrimSuffix(s, "/32");
    assert forall c :: c in t ==> c in s;
    AddressKey(TUNNEL_TABLE, t);
  }

  /** A published table is never the tunnel table, and the rule lookup for it is exact. */
  lemma PublishedTable(loadBalancerIP: string)
    requires Service.CalculateRouterTable(loadBalancerIP).Some?
    ensures var t := Service.CalculateRouterTable(loadBalancerIP).value;
            t != TUNNEL_TABLE && PlainKey(t, "all")
  {
    Service.TableRange(loadBalancerIP);
  }

  /** A configuration that passes the checks of an add yields a well-behaved plan. */
  lemma AcceptedPlanOk(env: Env, d: RouteData)
    requires ValidEnv(env) && !Fatal(env, Add, d)
    requires Complete(d) ==> d.routeTable != TUNNEL_TABLE && PlainKey(d.routeTable, "all")
    ensures PlanOk(PlanOf(env, d))
    ensures PlanOf(env, d).allRule ==> PlanOf(env, d).vpnKeys != {}
  {
    if Complete(d) {
      var p := PlanOf(env, d);
      var list := Split(Remapped(env, d), ',');
      forall x | x in p.tunnelSources ensures PlainKey(TUNNEL_TABLE, x) && x != "all" {
        var i :| 0 <= i < |p.tunnelSources| && p.tunnelSources[i] == x;
        assert list[i] in list && x == TrimSuffix(list[i], "/32");
        CidrChars(list[i]);
      }
      assert list[0] in list;
      assert RouteKey(d.routeTable, ParseCIDR(list[0]).value.net) in ListKeys(list, d.routeTable);
    } else {
      assert "" != TUNNEL_TABLE;
    }
  }

  // ---------- the plan in terms of the configuration ----------

  /** The left side of a rule `orig=mapped`. */
  predicate LeftSideIn(rules: seq<string>, s: string) {
    exists rule | rule in rules :: s == Split(rule, '=')[0]
  }

  /** An entry of the shared subnets, or the left side of a local NAT rule of this node. */
  predicate NamedLocally(env: Env, d: RouteData, s: string) {
    || s in Split(d.localSubnet, ',')
    || (env.localSubnetNAT != "" && LeftSideIn(Split(env.localSubnetNAT, ','), s))
  }

  /** The network of `s` holds the gateway of some route through a tunnel. */
  predicate BehindTunnel(env: Env, s: string) {
    && ParseCIDR(s).Some?
    && exists r | r in env.routingTable ::
         r.dev == "tunl0" && ParseIP(r.via).Some? && InNet(ParseIP(r.via).value, ParseCIDR(s).value.net)
  }

  predicate TunnelSubnet(env: Env, d: RouteData, s: string) {
    NamedLocally(env, d, s) && s != env.localSubnet && BehindTunnel(env, s)
  }

  predicate HasNetwork(s: string, dest: Net) {
    ParseCIDR(s).Some? && ParseCIDR(s).value.net == dest
  }

  predicate Canonical(s: string) {
    ParseCIDR(s).Some? && ParseCIDR(s).value.ip == ParseCIDR(s).value.net.base
  }

  lemma LeftSides(rules: seq<string>, origs: seq<string>, s: string)
    requires |origs| == |rules| && forall i :: 0 <= i < |rules| ==> origs[i] == Split(rules[i], '=')[0]
    ensures s in origs <==> LeftSideIn(rules, s)
  {
    if s in origs {
      var i :| 0 <= i < |origs| && origs[i] == s;
      assert rules[i] in rules && s == Split(rules[i], '=')[0];
    }
    if LeftSideIn(rules, s) {
      var rule :| rule in rules && s == Split(rule, '=')[0];
      var i :| 0 <= i < |rules| && rules[i] == rule;
      assert origs[i] == s;
    }
  }

  lemma LocalSubnetsExact(env: Env, d: RouteData, s: string)
    requires ValidEnv(env)
    ensures s in LocalSubnets(env, d.localSubnet) <==> NamedLocally(env, d, s)
  {
    var shared, origs := Split(d.localSubnet, ','), Originals(env.localSubnetNAT);
    assert s in shared + origs <==> s in shared || s in origs;
    if env.localSubnetNAT != "" {
      LeftSides(Split(env.localSubnetNAT, ','), origs, s);
    } else {
      assert origs == [];
    }
  }

  lemma TunnelSubnetExact(env: Env, d: RouteData, s: string)
    requires ValidEnv(env)
    ensures s in LocalSubnets(env, d.localSubnet) && NeedsTunnel(env, s) <==> TunnelSubnet(env, d, s)
  {
    LocalSubnetsExact(env, d, s);
  }

  /** One source for each remote subnet, without the `/32` of a single address. */
  predicate SourcesOf(sources: seq<string>, list: seq<string>) {
    && |sources| == |list|
    && forall i | 0 <= i < |list| ::
         list[i] == sources[i] + "/32" || (list[i] == sources[i] && !HasSuffix(list[i], "/32"))
  }

  lemma TrimEachSources(list: seq<string>)
    ensures SourcesOf(TrimEach(list), list)
  {
  }

  /** A tunnel route: only on the VPN node, in table 199, to the network of a local subnet without host bits. */
  ghost predicate TunnelRouteWanted(env: Env, d: RouteData, k: RouteKey) {
    && env.localIP == d.workerNodeIP && k.table == "199"
    && exists s :: TunnelSubnet(env, d, s) && Canonical(s) && k.dest == ParseCIDR(s).value.net
  }

  /**
   The tunnel routes and source rules asked for: a route for every canonical subnet that is named locally, is not
   the node's own and lies behind a tunnel; the rules for all remote subnets as soon as there is such a subnet.
   */
  lemma TunnelPlan(env: Env, d: RouteData)
    requires ValidEnv(env) && Complete(d)
    ensures var p := PlanOf(env, d);
            && (forall k :: k in p.tunnelKeys <==> TunnelRouteWanted(env, d, k))
            && (p.tunnelSources != [] <==> env.localIP == d.workerNodeIP && exists s :: TunnelSubnet(env, d, s))
            && (p.tunnelSources != [] ==> SourcesOf(p.tunnelSources, Split(Remapped(env, d), ',')))
  {
    var p, subnets := PlanOf(env, d), LocalSubnets(env, d.localSubnet);
    forall s ensures s in subnets && NeedsTunnel(env, s) <==> TunnelSubnet(env, d, s) {
      TunnelSubnetExact(env, d, s);
    }
    TrimEachSources(Split(Remapped(env, d), ','));
    forall k | env.localIP == d.workerNodeIP
      ensures k in TunnelKeys(env, subnets) <==> TunnelRouteWanted(env, d, k)
    {
      if TunnelRouteWanted(env, d, k) {
        var s :| TunnelSubnet(env, d, s) && Canonical(s) && k.dest == ParseCIDR(s).value.net;
        assert s in subnets && NeedsTunnel(env, s) && k == RouteKey(TUNNEL_TABLE, ParseCIDR(s).value.net);
      }
    }
  }

  lemma TrimmedMember(list: seq<string>, x: string)
    requires x in list
    ensures TrimSuffix(x, "/32") in TrimEach(list)
  {
    var i :| 0 <= i < |list| && list[i] == x;
    assert TrimEach(list)[i] == TrimSuffix(list[i], "/32");
  }

  /** One subnet behind a tunnel is enough: then a rule is asked for from every remote subnet. */
  lemma SourcesAsked(env: Env, d: RouteData, s: string)
    requires ValidEnv(env) && Complete(d) && env.localIP == d.workerNodeIP && TunnelSubnet(env, d, s)
    ensures forall x :: x in Split(Remapped(env, d), ',') ==> TrimSuffix(x, "/32") in PlanOf(env, d).tunnelSources
  {
    TunnelSubnetExact(env, d, s);
    forall x | x in Split(Remapped(env, d), ',') ensures TrimSuffix(x, "/32") in PlanOf(env, d).tunnelSources {
      TrimmedMember(Split(Remapped(env, d), ','), x);
    }
  }

  lemma {:induction false} MasqueradesExact(subnets: seq<string>, workerSubnet: string, e: NatEntry)
    ensures e in Masquerades(subnets, workerSubnet)
            <==> e.Masquerade? && e.dest in subnets && e.dest != workerSubnet
  {
    if subnets == [] {
    } else {
      assert subnets == [subnets[0]] + subnets[1..];
      MasqueradesExact(subnets[1..], workerSubnet, e);
    }
  }

  /** The next hop of the VPN routes, in the words of `ip route add`. */
  predicate HopTo(env: Env, d: RouteData, hop: NextHop) {
    if env.localIP == d.workerNodeIP then hop == NextHop(d.vpnPodIP, d.vpnPodDevice, false)
    else
      && hop.via == d.workerNodeIP
      && (d.workerNodeIP in env.devices ==> hop.dev == env.devices[d.workerNodeIP])
      && (hop.onlink <==> env.localSubnet != d.workerSubnet || hop.dev == "tunl0")
  }

  /** The pod uses its node's network, and this is that node: nothing is routed to the pod. */
  predicate NothingToRoute(env: Env, d: RouteData) {
    env.localIP == d.workerNodeIP && d.workerNodeIP == d.vpnPodIP
  }

  /** A route to the VPN: in the published table, to the network of a remote subnet after the remote NAT. */
  ghost predicate VpnRouteWanted(env: Env, d: RouteData, k: RouteKey)
    requires ValidEnv(env)
  {
    && !NothingToRoute(env, d) && k.table == d.routeTable
    && exists s :: s in Split(Remapped(env, d), ',') && HasNetwork(s, k.dest)
  }

  /** The routes to the pod or its node, and the rule for their table. */
  lemma VpnPlan(env: Env, d: RouteData)
    requires ValidEnv(env) && Complete(d)
    ensures var p := PlanOf(env, d);
            && (forall k :: k in p.vpnKeys <==> VpnRouteWanted(env, d, k))
            && HopTo(env, d, p.vpnHop)
            && p.table == d.routeTable && (p.allRule <==> !NothingToRoute(env, d))
  {
    forall k: RouteKey | !NothingToRoute(env, d)
      ensures k in PlanOf(env, d).vpnKeys <==> VpnRouteWanted(env, d, k)
    {
      if VpnRouteWanted(env, d, k) {
        var s :| s in Split(Remapped(env, d), ',') && HasNetwork(s, k.dest);
        assert k == RouteKey(d.routeTable, ParseCIDR(s).value.net);
      }
    }
  }

  /** The NAT entries, by their addresses. */
  lemma EntryPlan(env: Env, d: RouteData, e: NatEntry)
    requires ValidEnv(env) && Complete(d)
    ensures e in PlanOf(env, d).entries <==>
              && !NothingToRoute(env, d)
              && (|| (env.localIP == d.workerNodeIP && env.nonClusterSubnet != "" && e.Masquerade?
                      && e.dest in Split(env.nonClusterSubnet, ',') && e.dest != d.workerSubnet)
                  || (d.connectUsingLB == "true" && e == Masquerade(d.remoteGateway))
                  || (d.connectUsingLB == "true" && env.localIP == d.workerNodeIP && d.vpnPodIP != ""
                      && e == SourceNat(d.remoteGateway, d.vpnPodIP, d.loadBalancerIP)))
  {
    MasqueradesExact(Split(env.nonClusterSubnet, ','), d.workerSubnet, e);
    assert forall x: NatEntry, y: NatEntry :: e in [x] + [y] <==> e == x || e == y;
  }

  function Translated(env: Env, x: string): string
    requires ValidEnv(env)
  {
    if env.remoteSubnetNAT == "" then x else RemapEntry(x, ParseRules(env.remoteSubnetNAT))
  }

  predicate RoutedAs(env: Env, x: string, dest: Net)
    requires ValidEnv(env)
  {
    ParseCIDR(Translated(env, x)).Some? && ParseCIDR(Translated(env, x)).value.net == dest
  }

  /** Each remote subnet is translated by the first remote NAT rule for it. */
  lemma RemappedEntries(env: Env, d: RouteData, items: seq<string>)
    requires ValidEnv(env) && items == Split(d.remoteSubnet, ',')
    requires env.remoteSubnetNAT != "" ==> Separate(items, ParseRules(env.remoteSubnetNAT))
    ensures var list := Split(Remapped(env, d), ',');
            |list| == |items| && forall i :: 0 <= i < |items| ==> list[i] == Translated(env, items[i])
  {
    JoinOfSplit(d.remoteSubnet, ',');
    SplitPartsClean(d.remoteSubnet, ',');
    if env.remoteSubnetNAT != "" {
      RemapIsElementwise(items, ParseRules(env.remoteSubnetNAT));
    }
  }

  lemma MatchingEntry(items: seq<string>, list: seq<string>, i: nat, dest: Net, env: Env)
    requires ValidEnv(env) && i < |items| == |list| && list[i] == Translated(env, items[i])
    ensures HasNetwork(list[i], dest) <==> RoutedAs(env, items[i], dest)
    ensures items[i] in items && list[i] in list
  {
  }

  lemma RoutedExactly(env: Env, items: seq<string>, list: seq<string>, dest: Net)
    requires ValidEnv(env)
    requires |list| == |items| && forall i :: 0 <= i < |items| ==> list[i] == Translated(env, items[i])
    ensures (exists s :: s in list && HasNetwork(s, dest)) <==> exists x :: x in items && RoutedAs(env, x, dest)
  {
    if s :| s in list && HasNetwork(s, dest) {
      var i :| 0 <= i < |list| && list[i] == s;
      MatchingEntry(items, list, i, dest, env);
    }
    if x :| x in items && RoutedAs(env, x, dest) {
      var i :| 0 <= i < |items| && items[i] == x;
      MatchingEntry(items, list, i, dest, env);
    }
  }

  /** The networks routed to the VPN are those of the remote subnets, each as the remote NAT rules translate it. */
  lemma RoutedNetworks(env: Env, d: RouteData)
    requires ValidEnv(env) && Complete(d) && !NothingToRoute(env, d)
    requires env.remoteSubnetNAT != "" ==> Separate(Split(d.remoteSubnet, ','), ParseRules(env.remoteSubnetNAT))
    ensures forall k :: k in PlanOf(env, d).vpnKeys <==>
              && k.table == d.routeTable
              && exists x :: x in Split(d.remoteSubnet, ',') && RoutedAs(env, x, k.dest)
  {
    var items := Split(d.remoteSubnet, ',');
    VpnPlan(env, d);
    RemappedEntries(env, d, items);
    forall k: RouteKey
      ensures k in PlanOf(env, d).vpnKeys <==>
                k.table == d.routeTable && exists x :: x in items && RoutedAs(env, x, k.dest)
    {
      RoutedExactly(env, items, Split(Remapped(env, d), ','), k.dest);
    }
  }

  /** What an accepted configuration never routes: the node's own address. */
  lemma OwnAddressNotRouted(env: Env, d: RouteData)
    requires ValidEnv(env) && Complete(d) && !Fatal(env, Add, d)
    ensures ParseIP(env.localIP).Some?
    ensures forall k :: k in PlanOf(env, d).vpnKeys ==> !InNet(ParseIP(env.localIP).value, k.dest)
  {
  }

  /** Exactly the configurations that end the process when they are added. */
  lemma RefusedExactly(env: Env, d: RouteData, list: seq<string>)
    requires ValidEnv(env) && Complete(d) && list == Split(Remapped(env, d), ',')
    ensures Fatal(env, Add, d) <==>
              || ParseIP(env.localIP).None?
              || (exists s :: s in list && ParseCIDR(s).None?)
              || (exists s :: s in list && InNet(ParseIP(env.localIP).value, ParseCIDR(s).value.net))
              || (exists s, r :: s in list && r in env.routingTable && r.dest == s)
              || (env.localIP != d.workerNodeIP && d.workerNodeIP !in env.devices)
    ensures Fatal(env, Delete, d) <==> env.localIP != d.workerNodeIP && d.workerNodeIP !in env.devices
  {
  }

  function HopAfter(s: HostState, p: Plan, k: RouteKey): NextHop {
    if k in s.routes then s.routes[k] else if k.table == "199" then NextHop("", "tunl0", false) else p.vpnHop
  }

  /** What adding a plan does to the node: routes that were there stay, and nothing is added that was not planned. */
  lemma AddEffect(s: HostState, p: Plan)
    requires PlanOk(p) && TidyFor(s, p)
    ensures var a := Change(Add, s, p);
            && a.routes.Keys == s.routes.Keys + p.tunnelKeys + p.vpnKeys
            && (forall k :: k in a.routes ==> a.routes[k] == HopAfter(s, p, k))
            && (p.allRule ==> Rule(p.table, "all", p.table) in a.rules)
            && (forall x :: x in p.tunnelSources ==> exists r :: r in a.rules && r.table == "199" && x <= r.src)
            && a.chain == s.chain + p.entries
  {
    AddRulesEffect(s, p);
  }

  lemma AddRulesEffect(s: HostState, p: Plan)
    requires PlanOk(p) && TidyFor(s, p)
    ensures var rules := Change(Add, s, p).rules;
            && (p.allRule ==> Rule(p.table, "all", p.table) in rules)
            && (forall x :: x in p.tunnelSources ==> exists r :: r in rules && r.table == "199" && x <= r.src)
  {
    var exist := HasRoutes(ChangeRoutes(Add, s.routes, p.tunnelKeys, TUNNEL_HOP), TUNNEL_TABLE);
    var sources := p.tunnelSources;
    SomeRuleExtends(s.rules, sources, TUNNEL_TABLE, exist, |sources|);
    assert sources[..|sources|] == sources;
    var added := ChangeRules(Add, s.rules, sources, TUNNEL_TABLE, exist);
    AddRulesBounds(s.rules, sources, TUNNEL_TABLE, exist);
    if p.allRule {
      AllRuleAfterSources(s.rules, added, p.table);
      AllLookupExact(added, p.table);
    }
    assert added <= Change(Add, s, p).rules;
  }
}

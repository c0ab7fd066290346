/** The route daemon: config map events drive the reconciler (strongswan/routedaemon.go, strongswan/main.go). */
module RouteDaemon {
  import opened Text
  import opened IPv4
  import opened Network
  import opened RouteMap
  import opened Remap
  import opened RoutePlan

  /** `saved` is `savedRouteMap`; `None` is Go's nil map, which reads as an empty map. */
  datatype Daemon = Daemon(host: HostState, saved: Option<Data>, exited: bool)

  datatype Event =
    | Created(data: Option<Data>)
    | Deleted(data: Option<Data>)
    | Updated(before: Option<Data>, after: Option<Data>)
    | Signal

  function Contents(d: Option<Data>): Data {
    if d.None? then map[] else d.value
  }

  function Route(d: Option<Data>): RouteData {
    MapToRouteData(Contents(d))
  }

  ghost function Handle(env: Env, action: Action, st: Daemon, d: Option<Data>): Daemon
    requires ValidEnv(env)
  {
    if Fatal(env, action, Route(d)) then st.(exited := true)
    else st.(host := Change(action, st.host, PlanOf(env, Route(d))))
  }

  /** The addresses dialled: only the VPN node's daemon dials, after an add, unless the pod is on host networking. */
  function Wakeups(env: Env, action: Action, d: RouteData): seq<string> {
    if action == Add && Complete(d) && d.connectUsingLB == "true" && OnVpnNode(env, d) && !HostNetworking(d)
    then [d.vpnPodIP + ":4500"] else []
  }

  ghost predicate SameText(a: Option<Data>, b: Option<Data>) {
    SortedString(Contents(a)) == SortedString(Contents(b))
  }

  /** The update handler once it knows what is installed. */
  ghost function Replace(env: Env, st: Daemon, after: Option<Data>): Daemon
    requires ValidEnv(env)
  {
    if SameText(st.saved, after) then st
    else
      var deleted := Handle(env, Delete, st, st.saved);
      if deleted.exited then deleted
      else
        var added := Handle(env, Add, deleted.(saved := None), after);
        if added.exited then added else added.(saved := after)
  }

  /** One handler invocation, up to its return or the end of the process. */
  ghost function Step(env: Env, st: Daemon, e: Event): Daemon
    requires ValidEnv(env)
  {
    match e
    case Created(d) =>
      var added := Handle(env, Add, st, d);
      if added.exited then added else added.(saved := d)
    case Deleted(d) =>
      Handle(env, Delete, st.(saved := None), d)
    case Updated(before, after) =>
      Replace(env, if st.saved.None? then st.(saved := before) else st, after)
    case Signal =>
      Handle(env, Delete, st, st.saved).(exited := true)
  }

  // ---------- the handlers ----------

  lemma TunnelKeysConcat(env: Env, xs: seq<string>, ys: seq<string>)
    ensures TunnelKeys(env, xs + ys) == TunnelKeys(env, xs) + TunnelKeys(env, ys)
    ensures RuleNeeded(env, xs + ys) <==> RuleNeeded(env, xs) || RuleNeeded(env, ys)
  {
    assert forall s :: s in xs + ys <==> s in xs || s in ys;
  }

  /** One more subnet in a loop over local subnets. */
  lemma TunnelStep(env: Env, action: Action, rs: Routes, list: seq<string>, i: nat)
    requires i < |list|
    ensures ChangeRoutes(action, rs, TunnelKeys(env, list[..i + 1]), TUNNEL_HOP)
            == ChangeRoutes(action, ChangeRoutes(action, rs, TunnelKeys(env, list[..i]), TUNNEL_HOP),
                            TunnelKeys(env, [list[i]]), TUNNEL_HOP)
    ensures RuleNeeded(env, list[..i + 1]) <==> RuleNeeded(env, list[..i]) || NeedsTunnel(env, list[i])
  {
    var xs, x := list[..i], list[i];
    assert list[..i + 1] == xs + [x];
    TunnelKeysConcat(env, xs, [x]);
    assert x in [x];
    ChangeRoutesTwice(action, rs, TunnelKeys(env, xs), TunnelKeys(env, [x]), TUNNEL_HOP);
  }

  lemma {:induction false} MasqueradesAppend(xs: seq<string>, x: string, workerSubnet: string)
    ensures Masquerades(xs + [x], workerSubnet)
            == Masquerades(xs, workerSubnet) + (if x == workerSubnet then [] else [Masquerade(x)])
  {
    if xs == [] {
      assert (xs + [x])[1..] == [];
    } else {
      assert (xs + [x])[1..] == xs[1..] + [x];
      MasqueradesAppend(xs[1..], x, workerSubnet);
    }
  }

  lemma ChangeNatAppend(action: Action, chain: seq<NatEntry>, es: seq<NatEntry>, fs: seq<NatEntry>)
    ensures ChangeNat(action, ChangeNat(action, chain, es), fs) == ChangeNat(action, chain, es + fs)
  {
    if action == Add {
      assert chain + es + fs == chain + (es + fs);
    } else {
      RemoveEachAppend(chain, es, fs);
    }
  }

  lemma NoKeysNoChange(action: Action, rs: Routes, hop: NextHop)
    ensures ChangeRoutes(action, rs, {}, hop) == rs
  {
  }

  lemma AllUntrimmed()
    ensures TrimSuffix("all", "/32") == "all"
  {
    assert "all"[0..3][0] != "/32"[0];
  }

  lemma NoEntriesNoChange(action: Action, chain: seq<NatEntry>)
    ensures ChangeNat(action, chain, []) == chain
  {
    assert chain + [] == chain;
  }

  lemma NoPlanNoChange(action: Action, s: HostState)
    ensures Change(action, s, NO_PLAN) == s
  {
    NoKeysNoChange(action, s.routes, TUNNEL_HOP);
    assert s.chain + [] == s.chain;
  }

  class RouteDaemon {
    const env: Env
    const host: Host
    var saved: Option<Data>
    var exited: bool
    /** Addresses dialled to wake up a VPN pod. */
    var dials: seq<string>

    ghost function State(): Daemon
      reads this, host
    {
      Daemon(host.State(), saved, exited)
    }

    constructor (env: Env, host: Host)
      requires ValidEnv(env)
      ensures this.env == env && this.host == host && State() == Daemon(host.State(), None, false)
      ensures dials == []
    {
      this.env, this.host := env, host;
      saved, exited, dials := None, false, [];
    }

    /** main.go:129-143; `ok` is false where the original ends the process. */
    method ValidateIPNotInRemoteSubnet(ipAddr: string, remoteSubnet: string) returns (ok: bool)
      ensures ok <==> !IPInRemoteSubnet(ipAddr, Split(remoteSubnet, ','))
    {
      var ip := ParseIP(ipAddr);
      if ip.None? {
        return false;
      }
      var list := Split(remoteSubnet, ',');
      for i := 0 to |list|
        invariant forall j :: 0 <= j < i ==> ParseCIDR(list[j]).Some? && !InNet(ip.value, ParseCIDR(list[j]).value.net)
      {
        var net := ParseCIDR(list[i]);
        assert list[i] in list;
        if net.None? || InNet(ip.value, net.value.net) {
          return false;
        }
      }
      ok := true;
    }

    method ValidateRoutesForRemoteSubnet(remoteSubnet: string) returns (ok: bool)
      ensures ok <==> !LocalRouteDefined(env.routingTable, Split(remoteSubnet, ','))
    {
      var list := Split(remoteSubnet, ',');
      for i := 0 to |list|
        invariant forall j, r :: 0 <= j < i && r in env.routingTable ==> r.dest != list[j]
      {
        for k := 0 to |env.routingTable|
          invariant forall m :: 0 <= m < k ==> env.routingTable[m].dest != list[i]
        {
          if env.routingTable[k].dest == list[i] {
            assert env.routingTable[k] in env.routingTable && list[i] in list;
            return false;
          }
        }
      }
      ok := true;
    }

    /** One local subnet of `handleRoutesVpnNode`. */
    method TunnelRoute(action: Action, localSub: string) returns (needed: bool)
      modifies host`routes
      ensures needed <==> NeedsTunnel(env, localSub)
      ensures host.routes == ChangeRoutes(action, old(host.routes), TunnelKeys(env, [localSub]), TUNNEL_HOP)
    {
      needed := false;
      if localSub != env.localSubnet {
        needed := TunnelNeededToReachSubnet(localSub, env.routingTable);
        if needed {
          var dest := ParseCIDR(localSub).value;
          assert localSub in [localSub];
          assert TunnelKeys(env, [localSub]) == DestKey(dest, TUNNEL_TABLE);
          host.UpdateRoute(action, dest, TUNNEL_TABLE, TUNNEL_HOP);
        }
      }
      if !needed {
        assert TunnelKeys(env, [localSub]) == {};
      }
    }

    /** First loop of `handleRoutesVpnNode`: the shared local subnets. */
    method TunnelRoutesShared(action: Action, list: seq<string>) returns (ruleNeeded: bool)
      modifies host`routes
      ensures host.routes == ChangeRoutes(action, old(host.routes), TunnelKeys(env, list), TUNNEL_HOP)
      ensures ruleNeeded <==> RuleNeeded(env, list)
    {
      ruleNeeded := false;
      for i := 0 to |list|
        invariant host.routes == ChangeRoutes(action, old(host.routes), TunnelKeys(env, list[..i]), TUNNEL_HOP)
        invariant ruleNeeded <==> RuleNeeded(env, list[..i])
      {
        var needed := TunnelRoute(action, list[i]);
        ruleNeeded := ruleNeeded || needed;
        TunnelStep(env, action, old(host.routes), list, i);
      }
      assert list[..|list|] == list;
    }

    /** Second loop: the inside networks of the local NAT rules. */
    method TunnelRoutesNat(action: Action) returns (ruleNeeded: bool)
      requires env.localSubnetNAT != "" && WellSplit(env.localSubnetNAT)
      modifies host`routes
      ensures var keys := TunnelKeys(env, Originals(env.localSubnetNAT));
              host.routes == ChangeRoutes(action, old(host.routes), keys, TUNNEL_HOP)
      ensures ruleNeeded <==> RuleNeeded(env, Originals(env.localSubnetNAT))
    {
      ruleNeeded := false;
      ghost var origs := Originals(env.localSubnetNAT);
      var rules := Split(env.localSubnetNAT, ',');
      for i := 0 to |rules|
        invariant host.routes == ChangeRoutes(action, old(host.routes), TunnelKeys(env, origs[..i]), TUNNEL_HOP)
        invariant ruleNeeded <==> RuleNeeded(env, origs[..i])
      {
        var localSub := Split(rules[i], '=')[0];
        assert origs[i] == localSub;
        var needed := TunnelRoute(action, localSub);
        ruleNeeded := ruleNeeded || needed;
        TunnelStep(env, action, old(host.routes), origs, i);
      }
      assert origs[..|rules|] == origs;
    }

    /** Third loop: one rule per remote subnet. */
    method TunnelSourceRules(action: Action, remotes: seq<string>)
      modifies host`rules
      ensures host.rules == ChangeRules(action, old(host.rules), TrimEach(remotes), TUNNEL_TABLE,
          HasRoutes(host.routes, TUNNEL_TABLE))
    {
      ghost var trimmed := TrimEach(remotes);
      for i := 0 to |remotes|
        invariant host.rules
            == ChangeRules(action, old(host.rules), trimmed[..i], TUNNEL_TABLE, HasRoutes(host.routes, TUNNEL_TABLE))
      {
        assert trimmed[..i + 1] == trimmed[..i] + [trimmed[i]];
        ChangeRulesAppend(action, old(host.rules), trimmed[..i], trimmed[i], TUNNEL_TABLE,
            HasRoutes(host.routes, TUNNEL_TABLE));
        host.UpdateRouteRule(action, remotes[i], TUNNEL_TABLE);
      }
      assert trimmed[..|remotes|] == trimmed;
    }

    method HandleRoutesVpnNode(action: Action, localSubnetList: string, remoteSubnetList: string)
      requires ValidEnv(env)
      modifies host`routes, host`rules
      ensures var subnets := LocalSubnets(env, localSubnetList);
              && host.routes == ChangeRoutes(action, old(host.routes), TunnelKeys(env, subnets), TUNNEL_HOP)
              && host.rules == ChangeRules(action, old(host.rules),
                   if RuleNeeded(env, subnets) then TrimEach(Split(remoteSubnetList, ',')) else [],
                   TUNNEL_TABLE, HasRoutes(host.routes, TUNNEL_TABLE))
    {
      ghost var list, origs := Split(localSubnetList, ','), Originals(env.localSubnetNAT);
      var ruleNeeded := TunnelRoutesShared(action, Split(localSubnetList, ','));
      if env.localSubnetNAT != "" {
        var natNeeded := TunnelRoutesNat(action);
        ruleNeeded := ruleNeeded || natNeeded;
      } else {
        NoKeysNoChange(action, host.routes, TUNNEL_HOP);
      }
      TunnelKeysConcat(env, list, origs);
      ChangeRoutesTwice(action, old(host.routes), TunnelKeys(env, list), TunnelKeys(env, origs), TUNNEL_HOP);
      if ruleNeeded {
        TunnelSourceRules(action, Split(remoteSubnetList, ','));
      }
    }

    method HandleRoutesNonCluster(action: Action, d: RouteData)
      requires env.nonClusterSubnet != ""
      modifies host`chain
      ensures host.chain == ChangeNat(action, old(host.chain), NonClusterEntries(env, d))
    {
      var list := Split(env.nonClusterSubnet, ',');
      for i := 0 to |list|
        invariant host.chain == ChangeNat(action, old(host.chain), Masquerades(list[..i], d.workerSubnet))
      {
        assert list[..i + 1] == list[..i] + [list[i]];
        MasqueradesAppend(list[..i], list[i], d.workerSubnet);
        if d.workerSubnet == list[i] {
          assert Masquerades(list[..i + 1], d.workerSubnet) == Masquerades(list[..i], d.workerSubnet);
          continue;
        }
        ChangeNatAppend(action, old(host.chain), Masquerades(list[..i], d.workerSubnet), [Masquerade(list[i])]);
        host.ConfigureSNAT(action, list[i], "", "");
      }
      assert list[..|list|] == list;
    }

    method HandleRoutesSNAT(action: Action, d: RouteData)
      requires d.connectUsingLB == "true"
      modifies host`chain, this`dials
      ensures host.chain == ChangeNat(action, old(host.chain), SnatEntries(env, d))
      ensures dials == old(dials) + if action == Add && OnVpnNode(env, d) then [d.vpnPodIP + ":4500"] else []
    {
      if env.localIP == d.workerNodeIP {
        host.ConfigureSNAT(action, d.remoteGateway, d.vpnPodIP, d.loadBalancerIP);
        ChangeNatAppend(action, old(host.chain), [SnatEntry(d.remoteGateway, d.vpnPodIP, d.loadBalancerIP)],
            [Masquerade(d.remoteGateway)]);
      } else {
        assert [] + [Masquerade(d.remoteGateway)] == [Masquerade(d.remoteGateway)];
      }
      host.ConfigureSNAT(action, d.remoteGateway, "", "");
      if action == Add && env.localIP == d.workerNodeIP {
        dials := dials + [d.vpnPodIP + ":4500"];
      }
    }

    /** routedaemon.go:105-118; `ok` is false where the original ends the process. */
    method CheckRoutes(action: Action, d: RouteData, remapped: string) returns (ok: bool)
      requires ValidEnv(env) && Complete(d) && remapped == Remapped(env, d)
      ensures ok <==> !Fatal(env, action, d)
    {
      if action == Add {
        var free := ValidateIPNotInRemoteSubnet(env.localIP, remapped);
        if !free {
          return false;
        }
        var noLocal := ValidateRoutesForRemoteSubnet(remapped);
        if !noLocal {
          return false;
        }
      }
      ok := env.localIP == d.workerNodeIP || d.workerNodeIP in env.devices;
    }

    /** A fatal error happens before any change of the node. */
    method HandleRoutes(action: Action, cmData: Option<Data>)
      requires ValidEnv(env) && !exited
      modifies host, this`exited, this`dials
      ensures State() == Handle(env, action, old(State()), cmData)
      ensures exited ==> host.State() == old(host.State()) && dials == old(dials)
      ensures !exited ==> dials == old(dials) + Wakeups(env, action, Route(cmData))
    {
      var d := MapToRouteData(Contents(cmData));
      if d.remoteSubnet == "" || d.routeTable == "" || d.workerNodeIP == "" || d.workerSubnet == "" {
        NoPlanNoChange(action, host.State());
        return;
      }
      var remapped := RemapSubnets(d.remoteSubnet, env.remoteSubnetNAT);
      var ok := CheckRoutes(action, d, remapped);
      if !ok {
        exited := true;
        return;
      }
      var deviceName := "";
      if env.localIP != d.workerNodeIP {
        deviceName := env.devices[d.workerNodeIP];
      }
      ApplyPlan(action, d, remapped, deviceName);
    }

    /** routedaemon.go:120-126: tunnel routes and rules, on the VPN node only. */
    method ApplyTunnels(action: Action, d: RouteData, remapped: string)
      requires ValidEnv(env) && Complete(d) && remapped == Remapped(env, d)
      modifies host`routes, host`rules
      ensures var p := PlanOf(env, d);
              && host.routes == ChangeRoutes(action, old(host.routes), p.tunnelKeys, TUNNEL_HOP)
              && host.rules == ChangeRules(action, old(host.rules), p.tunnelSources, TUNNEL_TABLE,
                  HasRoutes(host.routes, TUNNEL_TABLE))
    {
      NoKeysNoChange(action, host.routes, TUNNEL_HOP);
      if env.localIP == d.workerNodeIP {
        if exists r | r in env.routingTable :: r.dev == "tunl0" {
          HandleRoutesVpnNode(action, d.localSubnet, remapped);
        } else {
          ghost var subnets := LocalSubnets(env, d.localSubnet);
          assert !RuleNeeded(env, subnets) && TunnelKeys(env, subnets) == {};
        }
      }
    }

    /** routedaemon.go:130-153 and 159-161, past the early return for host networking. */
    method ApplyVpn(action: Action, d: RouteData, remapped: string, hop: NextHop)
      requires ValidEnv(env) && Complete(d) && !(OnVpnNode(env, d) && HostNetworking(d))
      requires remapped == Remapped(env, d) && hop == VpnHop(env, d)
      modifies host, this`dials
      ensures var p := PlanOf(env, d);
              && host.routes == ChangeRoutes(action, old(host.routes), p.vpnKeys, p.vpnHop)
              && host.rules == ChangeRule(action, old(host.rules), "all", p.table, HasRoutes(host.routes, p.table))
              && host.chain == ChangeNat(action, old(host.chain), p.entries)
      ensures dials == old(dials) + Wakeups(env, action, d)
    {
      ghost var early := if OnVpnNode(env, d) then NonClusterEntries(env, d) else [];
      NoEntriesNoChange(action, host.chain);
      if env.localIP == d.workerNodeIP && env.nonClusterSubnet != "" {
        HandleRoutesNonCluster(action, d);
      }
      assert host.chain == ChangeNat(action, old(host.chain), early);
      host.RouteRemoteSubnet(action, remapped, d.routeTable, hop);
      AllUntrimmed();
      host.UpdateRouteRule(action, "all", d.routeTable);
      ChangeNatAppend(action, old(host.chain), early, SnatEntries(env, d));
      if d.connectUsingLB == "true" {
        HandleRoutesSNAT(action, d);
      } else {
        assert early + [] == early;
      }
    }

    /** The part of `handleRoutes` after its checks (routedaemon.go:120-165). */
    method ApplyPlan(action: Action, d: RouteData, remapped: string, deviceName: string)
      requires ValidEnv(env) && Complete(d)
      requires remapped == Remapped(env, d) && (!OnVpnNode(env, d) ==> deviceName == Device(env, d))
      modifies host, this`dials
      ensures host.State() == Change(action, old(host.State()), PlanOf(env, d))
      ensures dials == old(dials) + Wakeups(env, action, d)
    {
      ApplyTunnels(action, d, remapped);
      if env.localIP == d.workerNodeIP && d.workerNodeIP == d.vpnPodIP {
        NoKeysNoChange(action, host.routes, VpnHop(env, d));
        NoEntriesNoChange(action, host.chain);
        return;
      }
      var hop: NextHop;
      if env.localIP == d.workerNodeIP {
        hop := NextHop(d.vpnPodIP, d.vpnPodDevice, false);
      } else {
        hop := NextHop(d.workerNodeIP, deviceName, env.localSubnet != d.workerSubnet || deviceName == "tunl0");
      }
      ApplyVpn(action, d, remapped, hop);
    }

    method ConfigMapCreated(data: Option<Data>)
      requires ValidEnv(env) && !exited
      modifies this`saved, this`exited, this`dials, host
      ensures State() == Step(env, old(State()), Created(data))
    {
      HandleRoutes(Add, data);
      if !exited {
        saved := data;
      }
    }

    method ConfigMapDeleted(data: Option<Data>)
      requires ValidEnv(env) && !exited
      modifies this`saved, this`exited, this`dials, host
      ensures State() == Step(env, old(State()), Deleted(data))
    {
      saved := None;
      HandleRoutes(Delete, data);
    }

    /** The update handler past its early return: routedaemon.go:78-83. */
    method ReplaceRoutes(after: Option<Data>)
      requires ValidEnv(env) && !exited && !SameText(saved, after)
      modifies this`saved, this`exited, this`dials, host
      ensures State() == Replace(env, old(State()), after)
      ensures !exited ==> dials == old(dials) + Wakeups(env, Add, Route(after))
    {
      HandleRoutes(Delete, saved);
      if exited {
        return;
      }
      assert dials == old(dials);
      saved := None;
      HandleRoutes(Add, after);
      if !exited {
        saved := after;
      }
    }

    method ConfigMapUpdated(before: Option<Data>, after: Option<Data>)
      requires ValidEnv(env) && !exited
      modifies this`saved, this`exited, this`dials, host
      ensures State() == Step(env, old(State()), Updated(before, after))
      ensures var known := if old(saved).None? then before else old(saved);
              !exited ==> dials == old(dials) + if SameText(known, after) then [] else Wakeups(env, Add, Route(after))
    {
      if saved.None? {
        saved := before;
      }
      var savedData := MapToSortedString(Contents(saved));
      var newData := MapToSortedString(Contents(after));
      if savedData == newData {
        return;
      }
      ReplaceRoutes(after);
    }

    method HandleSignal()
      requires ValidEnv(env) && !exited
      modifies this`exited, this`dials, host
      ensures State() == Step(env, old(State()), Signal)
    {
      HandleRoutes(Delete, saved);
      exited := true;
    }
  }

  // ---------- one event, in terms of the configuration ----------

  /** Without a remote subnet, a table, or the VPN node's address and subnet, nothing happens. */
  lemma IncompleteDoesNothing(env: Env, action: Action, st: Daemon, d: Option<Data>)
    requires ValidEnv(env)
    requires "" in {Route(d).remoteSubnet, Route(d).routeTable, Route(d).workerNodeIP, Route(d).workerSubnet}
    ensures Handle(env, action, st, d) == st && Wakeups(env, action, Route(d)) == []
  {
    NoPlanNoChange(action, st.host);
  }

  /** The routes after an accepted add: those before, the tunnel routes and the routes to the VPN. */
  lemma AddedRoutes(env: Env, st: Daemon, d: Option<Data>)
    requires ValidEnv(env) && Complete(Route(d)) && Route(d).routeTable != "199" && !Fatal(env, Add, Route(d))
    ensures var after := Handle(env, Add, st, d);
            && after == st.(host := after.host)
            && (forall k :: k in after.host.routes <==>
                  k in st.host.routes || TunnelRouteWanted(env, Route(d), k) || VpnRouteWanted(env, Route(d), k))
            && (forall k :: k in after.host.routes ==>
                  if k in st.host.routes then after.host.routes[k] == st.host.routes[k]
                  else if k.table == "199" then after.host.routes[k] == NextHop("", "tunl0", false)
                  else HopTo(env, Route(d), after.host.routes[k]))
  {
    TunnelPlan(env, Route(d));
    VpnPlan(env, Route(d));
  }

  /** After an accepted add the VPN node looks up the tunnel table for every remote subnet, if a tunnel is needed. */
  lemma AddedSourceRules(env: Env, st: Daemon, d: Option<Data>, s: string)
    requires ValidEnv(env) && Complete(Route(d)) && !Fatal(env, Add, Route(d)) && OnVpnNode(env, Route(d))
    requires Route(d).routeTable != "199" && PlainKey(Route(d).routeTable, "all")
    requires TidyFor(st.host, PlanOf(env, Route(d)))
    requires TunnelSubnet(env, Route(d), s)
    ensures forall x :: x in Split(Remapped(env, Route(d)), ',') ==>
              exists r :: r in Handle(env, Add, st, d).host.rules && r.table == "199" && TrimSuffix(x, "/32") <= r.src
  {
    AcceptedPlanOk(env, Route(d));
    SourcesAsked(env, Route(d), s);
    AddRulesEffect(st.host, PlanOf(env, Route(d)));
  }

  /** A non-cluster subnet of this node, other than the worker subnet, holds the destination. */
  predicate NonClusterHolds(env: Env, d: RouteData, a: nat) {
    env.nonClusterSubnet != ""
    && exists s | s in Split(env.nonClusterSubnet, ',') :: s != d.workerSubnet && AddrMatches(s, a)
  }

  lemma NonClusterMatches(env: Env, d: RouteData, p: Datagram)
    requires !NonClusterHolds(env, d, p.dst)
    ensures NoneMatches(NonClusterEntries(env, d), p)
  {
    forall e | e in NonClusterEntries(env, d) ensures !EntryMatches(e, p) {
      MasqueradesExact(Split(env.nonClusterSubnet, ','), d.workerSubnet, e);
    }
  }

  lemma NoneMatchesConcat(xs: seq<NatEntry>, ys: seq<NatEntry>, p: Datagram)
    requires NoneMatches(xs, p) && NoneMatches(ys, p)
    ensures NoneMatches(xs + ys, p)
  {
  }

  /** The source address of a packet to the gateway, when the load balancer's address is used. */
  function GatewaySource(env: Env, d: RouteData, p: Datagram): Source {
    if env.localIP == d.workerNodeIP && p.udp && ParseIP(d.vpnPodIP) == Some(p.src) && ParseIP(d.loadBalancerIP).Some?
    then To(ParseIP(d.loadBalancerIP).value)
    else NodeAddress
  }

  function EarlyEntries(env: Env, d: RouteData): seq<NatEntry> {
    if OnVpnNode(env, d) then NonClusterEntries(env, d) else []
  }

  lemma ChainAfterAdd(env: Env, st: Daemon, d: Option<Data>)
    requires ValidEnv(env) && Complete(Route(d)) && !Fatal(env, Add, Route(d)) && !NothingToRoute(env, Route(d))
    ensures Handle(env, Add, st, d).host.chain
            == (st.host.chain + EarlyEntries(env, Route(d))) + SnatEntries(env, Route(d))
  {
  }

  lemma SnatDecides(env: Env, d: RouteData, p: Datagram)
    requires d.connectUsingLB == "true" && ParseIP(d.remoteGateway) == Some(p.dst)
    requires ParseIP(d.vpnPodIP).Some? && ParseIP(d.loadBalancerIP).Some?
    ensures SourceAfter(SnatEntries(env, d), p) == GatewaySource(env, d, p)
  {
    IPChars(d.vpnPodIP);
    if OnVpnNode(env, d) {
      LastTwoDecide(d.remoteGateway, d.vpnPodIP, d.loadBalancerIP, p);
      assert [SnatEntry(d.remoteGateway, d.vpnPodIP, d.loadBalancerIP)] + [Masquerade(d.remoteGateway)]
          == [SourceNat(d.remoteGateway, d.vpnPodIP, d.loadBalancerIP), Masquerade(d.remoteGateway)];
    } else {
      assert SnatEntries(env, d) == [Masquerade(d.remoteGateway)];
    }
  }

  /**
   After an accepted add with `connectUsingLB`, packets to the gateway leave every node with the node's address, but
   UDP from the pod leaves its node with the load balancer's, unless older entries or non-cluster subnets decide.
   */
  lemma SourceAfterAdd(env: Env, st: Daemon, d: Option<Data>, p: Datagram)
    requires ValidEnv(env) && Complete(Route(d)) && !Fatal(env, Add, Route(d)) && !NothingToRoute(env, Route(d))
    requires Route(d).connectUsingLB == "true" && ParseIP(Route(d).remoteGateway) == Some(p.dst)
    requires ParseIP(Route(d).vpnPodIP).Some? && ParseIP(Route(d).loadBalancerIP).Some?
    requires NoneMatches(st.host.chain, p)
    requires OnVpnNode(env, Route(d)) ==> !NonClusterHolds(env, Route(d), p.dst)
    ensures SourceAfter(Handle(env, Add, st, d).host.chain, p) == GatewaySource(env, Route(d), p)
  {
    var early := EarlyEntries(env, Route(d));
    if OnVpnNode(env, Route(d)) {
      NonClusterMatches(env, Route(d), p);
    }
    NoneMatchesConcat(st.host.chain, early, p);
    ChainAfterAdd(env, st, d);
    SourceAfterPrefix(st.host.chain + early, SnatEntries(env, Route(d)), p);
    SnatDecides(env, Route(d), p);
  }

  // ---------- whole runs ----------

  /** What the environment guarantees about a delivered configuration, relative to the node's starting state. */
  ghost predicate Clean(env: Env, base: HostState, d: Option<Data>)
    requires ValidEnv(env)
  {
    && WellFormed(Contents(d))
    && (Complete(Route(d)) ==>
          var p := PlanOf(env, Route(d));
          && p.table != TUNNEL_TABLE && PlainKey(p.table, "all")
          && TidyFor(base, p) && RoutesFresh(base.routes, p) && RulesFresh(base.rules, p)
          && (p.allRule ==> Mirrors(base, p.table)))
  }

  /** No NAT entry of the configuration was there before; needed only for the order of the entries. */
  ghost predicate FreshEntries(env: Env, base: HostState, d: Option<Data>)
    requires ValidEnv(env)
  {
    forall e :: e in PlanOf(env, Route(d)).entries ==> e !in base.chain
  }

  ghost predicate Allowed(ordered: bool, env: Env, base: HostState, d: Option<Data>)
    requires ValidEnv(env)
  {
    Clean(env, base, d) && (ordered ==> FreshEntries(env, base, d))
  }

  /** Equal routes and rules and the same NAT entries, with `ordered` also in the same order. */
  ghost predicate Alike(ordered: bool, s: HostState, t: HostState) {
    && s.routes == t.routes && s.rules == t.rules && multiset(s.chain) == multiset(t.chain)
    && (ordered ==> s.chain == t.chain)
  }

  lemma ChangeAlike(ordered: bool, action: Action, s: HostState, t: HostState, p: Plan)
    requires Alike(ordered, s, t)
    ensures Alike(ordered, Change(action, s, p), Change(action, t, p))
  {
    RemoveEachCount(s.chain, p.entries);
    RemoveEachCount(t.chain, p.entries);
  }

  /** The node with exactly the effect of one configuration on top of its starting state. */
  ghost function Installed(env: Env, base: HostState, d: Option<Data>): HostState
    requires ValidEnv(env)
  {
    Change(Add, base, PlanOf(env, Route(d)))
  }

  lemma DeleteRestoresBase(ordered: bool, env: Env, base: HostState, d: Option<Data>)
    requires ValidEnv(env) && Allowed(ordered, env, base, d) && !Fatal(env, Add, Route(d))
    ensures Alike(ordered, Change(Delete, Installed(env, base, d), PlanOf(env, Route(d))), base)
  {
    if Complete(Route(d)) {
      AcceptedPlanOk(env, Route(d));
      DeleteUndoesAdd(base, PlanOf(env, Route(d)));
    } else {
      NoPlanNoChange(Add, base);
      NoPlanNoChange(Delete, base);
    }
  }

  /** The informer delivers the history of one config map: `last` is what it delivered, if the map exists. */
  ghost predicate Legal(last: Option<Option<Data>>, e: Event) {
    match e
    case Created(_) => last.None?
    case Deleted(d) => last == Some(d)
    case Updated(before, _) => last == Some(before)
    case Signal => true
  }

  ghost function Delivered(last: Option<Option<Data>>, e: Event): Option<Option<Data>> {
    match e
    case Created(d) => Some(d)
    case Deleted(_) => None
    case Updated(_, after) => Some(after)
    case Signal => last
  }

  ghost predicate LegalRun(last: Option<Option<Data>>, events: seq<Event>)
    decreases |events|
  {
    events == [] || (Legal(last, events[0]) && LegalRun(Delivered(last, events[0]), events[1..]))
  }

  ghost predicate AllowedEvent(ordered: bool, env: Env, base: HostState, e: Event)
    requires ValidEnv(env)
  {
    match e
    case Created(d) => Allowed(ordered, env, base, d)
    case Deleted(d) => Allowed(ordered, env, base, d)
    case Updated(before, after) => Allowed(ordered, env, base, before) && Allowed(ordered, env, base, after)
    case Signal => true
  }

  ghost function Run(env: Env, st: Daemon, events: seq<Event>): Daemon
    requires ValidEnv(env)
    decreases |events|
  {
    if events == [] || st.exited then st else Run(env, Step(env, st, events[0]), events[1..])
  }

  ghost function LastDelivered(last: Option<Option<Data>>, events: seq<Event>): Option<Option<Data>>
    decreases |events|
  {
    if events == [] then last else LastDelivered(Delivered(last, events[0]), events[1..])
  }

  ghost function Held(last: Option<Option<Data>>): Option<Data> {
    if last.None? then None else last.value
  }

  /** While it runs, the daemon's memory is the last delivered configuration, and the node shows exactly its effect. */
  ghost predicate Inv(ordered: bool, env: Env, base: HostState, st: Daemon, last: Option<Option<Data>>)
    requires ValidEnv(env)
  {
    if st.exited then Alike(ordered, st.host, base)
    else
      && Contents(st.saved) == Contents(Held(last))
      && Allowed(ordered, env, base, st.saved) && !Fatal(env, Add, Route(st.saved))
      && Alike(ordered, st.host, Installed(env, base, st.saved))
  }

  /** Deleting what is remembered goes through and leaves the starting state. */
  lemma DeleteStep(ordered: bool, env: Env, base: HostState, st: Daemon, d: Option<Data>)
    requires ValidEnv(env) && !st.exited && Allowed(ordered, env, base, d) && !Fatal(env, Add, Route(d))
    requires Alike(ordered, st.host, Installed(env, base, d))
    ensures var deleted := Handle(env, Delete, st, d);
            deleted == st.(host := deleted.host) && Alike(ordered, deleted.host, base)
  {
    DeleteRestoresBase(ordered, env, base, d);
    ChangeAlike(ordered, Delete, st.host, Installed(env, base, d), PlanOf(env, Route(d)));
  }

  /** An add on the starting state either ends the process with nothing changed, or shows exactly its effect. */
  lemma AddStep(ordered: bool, env: Env, base: HostState, st: Daemon, d: Option<Data>)
    requires ValidEnv(env) && !st.exited && Alike(ordered, st.host, base)
    ensures var added := Handle(env, Add, st, d);
            && (added.exited <==> Fatal(env, Add, Route(d))) && added.saved == st.saved
            && Alike(ordered, added.host, if added.exited then base else Installed(env, base, d))
  {
    ChangeAlike(ordered, Add, st.host, base, PlanOf(env, Route(d)));
  }

  lemma EmptyInstalled(ordered: bool, env: Env, base: HostState, d: Option<Data>)
    requires ValidEnv(env) && Contents(d) == map[]
    ensures Installed(env, base, d) == base && Allowed(ordered, env, base, d) && !Fatal(env, Add, Route(d))
  {
    NoPlanNoChange(Add, base);
  }

  lemma CreatedKeepsInv(ordered: bool, env: Env, base: HostState, st: Daemon, d: Option<Data>)
    requires ValidEnv(env) && !st.exited && Inv(ordered, env, base, st, None) && Allowed(ordered, env, base, d)
    ensures Inv(ordered, env, base, Step(env, st, Created(d)), Some(d))
  {
    EmptyInstalled(ordered, env, base, st.saved);
    AddStep(ordered, env, base, st, d);
  }

  lemma DeletedKeepsInv(ordered: bool, env: Env, base: HostState, st: Daemon, d: Option<Data>)
    requires ValidEnv(env) && !st.exited && Inv(ordered, env, base, st, Some(d))
    ensures Inv(ordered, env, base, Step(env, st, Deleted(d)), None)
  {
    assert Contents(st.saved) == Contents(d) && Route(st.saved) == Route(d);
    DeleteStep(ordered, env, base, st.(saved := None), d);
    EmptyInstalled(ordered, env, base, None);
  }

  lemma UpdatedKeepsInv(ordered: bool, env: Env, base: HostState, st: Daemon, before: Option<Data>, after: Option<Data>)
    requires ValidEnv(env) && !st.exited && Inv(ordered, env, base, st, Some(before))
    requires Allowed(ordered, env, base, after)
    ensures Inv(ordered, env, base, Step(env, st, Updated(before, after)), Some(after))
  {
    var known := if st.saved.None? then st.(saved := before) else st;
    assert Contents(known.saved) == Contents(st.saved) && Route(known.saved) == Route(st.saved);
    assert Inv(ordered, env, base, known, Some(before));
    ReplaceKeepsInv(ordered, env, base, known, before, after);
  }

  /** The update handler once it knows what is installed. */
  lemma ReplaceOutcome(ordered: bool, env: Env, base: HostState, st: Daemon, before: Option<Data>, after: Option<Data>)
    requires ValidEnv(env) && !st.exited && Inv(ordered, env, base, st, Some(before))
    requires Allowed(ordered, env, base, after)
    ensures var next := Replace(env, st, after);
            && (next.exited <==> Contents(after) != Contents(before) && Fatal(env, Add, Route(after)))
            && Alike(ordered, next.host, if next.exited then base else Installed(env, base, after))
            && (!next.exited ==> next.saved == if SameText(st.saved, after) then st.saved else after)
  {
    SortedStringInjective(Contents(st.saved), Contents(after));
    if SameText(st.saved, after) {
      assert Route(st.saved) == Route(after);
    } else {
      DeleteStep(ordered, env, base, st, st.saved);
      AddStep(ordered, env, base, Handle(env, Delete, st, st.saved).(saved := None), after);
    }
  }

  lemma ReplaceKeepsInv(ordered: bool, env: Env, base: HostState, st: Daemon, before: Option<Data>, after: Option<Data>)
    requires ValidEnv(env) && !st.exited && Inv(ordered, env, base, st, Some(before))
    requires Allowed(ordered, env, base, after)
    ensures Inv(ordered, env, base, Replace(env, st, after), Some(after))
  {
    ReplaceOutcome(ordered, env, base, st, before, after);
    if SameText(st.saved, after) {
      SortedStringInjective(Contents(st.saved), Contents(after));
      assert Route(st.saved) == Route(after);
    } else {
      DeleteStep(ordered, env, base, st, st.saved);
      AddStep(ordered, env, base, Handle(env, Delete, st, st.saved).(saved := None), after);
    }
  }

  lemma SignalKeepsInv(ordered: bool, env: Env, base: HostState, st: Daemon, last: Option<Option<Data>>)
    requires ValidEnv(env) && !st.exited && Inv(ordered, env, base, st, last)
    ensures Inv(ordered, env, base, Step(env, st, Signal), last)
  {
    DeleteStep(ordered, env, base, st, st.saved);
  }

  lemma StepKeepsInv(ordered: bool, env: Env, base: HostState, st: Daemon, last: Option<Option<Data>>, e: Event)
    requires ValidEnv(env) && !st.exited && Inv(ordered, env, base, st, last) && Legal(last, e)
    requires AllowedEvent(ordered, env, base, e)
    ensures Inv(ordered, env, base, Step(env, st, e), Delivered(last, e))
  {
    match e
    case Created(d) => CreatedKeepsInv(ordered, env, base, st, d);
    case Deleted(d) => DeletedKeepsInv(ordered, env, base, st, d);
    case Updated(before, after) => UpdatedKeepsInv(ordered, env, base, st, before, after);
    case Signal => SignalKeepsInv(ordered, env, base, st, last);
  }

  lemma {:induction false} RunKeepsInv(ordered: bool, env: Env, base: HostState, st: Daemon, last: Option<Option<Data>>,
                                       events: seq<Event>)
    requires ValidEnv(env) && Inv(ordered, env, base, st, last) && LegalRun(last, events)
    requires forall e :: e in events ==> AllowedEvent(ordered, env, base, e)
    ensures var final := Run(env, st, events);
            Inv(ordered, env, base, final, if final.exited then last else LastDelivered(last, events))
    decreases |events|
  {
    if events == [] || st.exited {
    } else {
      assert events[0] in events;
      StepKeepsInv(ordered, env, base, st, last, events[0]);
      RunKeepsInv(ordered, env, base, Step(env, st, events[0]), Delivered(last, events[0]), events[1..]);
    }
  }

  lemma FirstInv(ordered: bool, env: Env, base: HostState)
    requires ValidEnv(env)
    ensures Inv(ordered, env, base, Daemon(base, None, false), None)
  {
    EmptyInstalled(ordered, env, base, None);
  }

  /**
   After every legal sequence of events the node is its starting state plus exactly the effect of the last
   delivered configuration; once the process ended, by a fatal error or a signal, it is the starting state.
   NAT entries are counted, so entries that were there before, such as another release's, do no harm.
   */
  lemma ReconcilerRuns(env: Env, base: HostState, events: seq<Event>)
    requires ValidEnv(env) && LegalRun(None, events)
    requires forall e :: e in events ==> AllowedEvent(false, env, base, e)
    ensures var final := Run(env, Daemon(base, None, false), events);
            && (final.exited ==> Alike(false, final.host, base))
            && (!final.exited ==> Contents(final.saved) == Contents(Held(LastDelivered(None, events)))
                                  && Alike(false, final.host, Installed(env, base, final.saved)))
  {
    FirstInv(false, env, base);
    RunKeepsInv(false, env, base, Daemon(base, None, false), None, events);
  }

  /** When no entry was there before, the order of the NAT entries is restored as well. */
  lemma ReconcilerRunsInOrder(env: Env, base: HostState, events: seq<Event>)
    requires ValidEnv(env) && LegalRun(None, events)
    requires forall e :: e in events ==> AllowedEvent(true, env, base, e)
    ensures var final := Run(env, Daemon(base, None, false), events);
            final.host == if final.exited then base else Installed(env, base, final.saved)
  {
    FirstInv(true, env, base);
    RunKeepsInv(true, env, base, Daemon(base, None, false), None, events);
  }

  /** What a running daemon remembers was accepted when it was added. */
  lemma RunSavedClean(env: Env, base: HostState, events: seq<Event>)
    requires ValidEnv(env) && LegalRun(None, events)
    requires forall e :: e in events ==> AllowedEvent(false, env, base, e)
    ensures var final := Run(env, Daemon(base, None, false), events);
            !final.exited ==> Clean(env, base, final.saved) && !Fatal(env, Add, Route(final.saved))
  {
    FirstInv(false, env, base);
    RunKeepsInv(false, env, base, Daemon(base, None, false), None, events);
  }

  /** Which updates end the process, and what the node looks like afterwards in either case. */
  lemma UpdateOutcome(ordered: bool, env: Env, base: HostState, st: Daemon, before: Option<Data>, after: Option<Data>)
    requires ValidEnv(env) && !st.exited && Inv(ordered, env, base, st, Some(before))
    requires Allowed(ordered, env, base, after)
    ensures var next := Step(env, st, Updated(before, after));
            && (next.exited <==> Contents(after) != Contents(before) && Fatal(env, Add, Route(after)))
            && Alike(ordered, next.host, if next.exited then base else Installed(env, base, after))
  {
    var known := if st.saved.None? then st.(saved := before) else st;
    assert Contents(known.saved) == Contents(st.saved) && Route(known.saved) == Route(st.saved);
    assert Inv(ordered, env, base, known, Some(before));
    ReplaceOutcome(ordered, env, base, known, before, after);
  }

  /**
   The early return of `configMapUpdated` leaves the node that deleting the old and adding the new data would leave.
   It does not dial the pod again, which that add would do (see `ConfigMapUpdated`).
   */
  lemma EarlyReturnRefines(ordered: bool, env: Env, base: HostState, st: Daemon, last: Option<Option<Data>>,
                           after: Option<Data>)
    requires ValidEnv(env) && !st.exited && Inv(ordered, env, base, st, last) && Allowed(ordered, env, base, after)
    requires SameText(st.saved, after)
    ensures var deleted := Handle(env, Delete, st, st.saved);
            var added := Handle(env, Add, deleted, after);
            !deleted.exited && !added.exited && Alike(ordered, added.host, st.host)
  {
    SortedStringInjective(Contents(st.saved), Contents(after));
    assert Route(st.saved) == Route(after);
    DeleteStep(ordered, env, base, st, st.saved);
    AddStep(ordered, env, base, Handle(env, Delete, st, st.saved), after);
  }
}

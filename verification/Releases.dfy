/** Several VPN releases on one node that share one VPN routing table (network/net.go:284-345). */
module Releases {
  import opened Network
  import opened RoutePlan

  /** The active releases, each with the plan it was added with. */
  type Active = map<nat, Plan>

  datatype Op = AddRelease(id: nat, plan: Plan) | DeleteRelease(id: nat)

  datatype Node = Node(host: HostState, active: Active)

  /** The node before any release, with respect to the shared table. */
  ghost predicate Ready(base: HostState, table: string) {
    && table != TUNNEL_TABLE && PlainKey(table, "all")
    && Tidy(base.rules, table) && Tidy(base.rules, TUNNEL_TABLE) && Mirrors(base, table)
  }

  /** A plan for the shared table whose destinations the starting node does not route there. */
  ghost predicate PlanFits(base: HostState, table: string, p: Plan) {
    && PlanOk(p) && p.table == table && p.allRule && p.vpnKeys != {}
    && forall k :: k in p.vpnKeys ==> k !in base.routes
  }

  /** A release is added when it is not active, with destinations that no active release has; any plan will do. */
  ghost predicate Legal(base: HostState, table: string, n: Node, op: Op) {
    match op
    case AddRelease(i, p) =>
      i !in n.active && PlanFits(base, table, p) && forall j :: j in n.active ==> p.vpnKeys !! n.active[j].vpnKeys
    case DeleteRelease(i) => i in n.active
  }

  ghost function Step(n: Node, op: Op): Node
    requires op.DeleteRelease? ==> op.id in n.active
  {
    match op
    case AddRelease(i, p) => Node(Change(Add, n.host, p), n.active[i := p])
    case DeleteRelease(i) => Node(Change(Delete, n.host, n.active[i]), n.active - {i})
  }

  ghost predicate LegalRun(base: HostState, table: string, n: Node, ops: seq<Op>)
    decreases |ops|
  {
    ops == [] || (Legal(base, table, n, ops[0]) && LegalRun(base, table, Step(n, ops[0]), ops[1..]))
  }

  ghost function Run(base: HostState, table: string, n: Node, ops: seq<Op>): Node
    requires LegalRun(base, table, n, ops)
    decreases |ops|
  {
    if ops == [] then n else Run(base, table, Step(n, ops[0]), ops[1..])
  }

  ghost predicate Sharing(base: HostState, table: string, active: Active) {
    && (forall i :: i in active ==> PlanFits(base, table, active[i]))
    && (forall i, j :: i in active && j in active && i != j ==> active[i].vpnKeys !! active[j].vpnKeys)
  }

  ghost predicate Owned(active: Active, k: RouteKey) {
    exists i :: i in active && k in active[i].vpnKeys
  }

  /** The table holds the starting routes and those of the active releases, and nothing else. */
  ghost predicate TableExact(base: HostState, table: string, rs: Routes, active: Active) {
    && (forall k :: k in base.routes && k.table == table ==> k in rs && rs[k] == base.routes[k])
    && (forall i, k :: i in active && k in active[i].vpnKeys ==> k in rs && rs[k] == active[i].vpnHop)
    && (forall k :: k in rs && k.table == table ==> k in base.routes || Owned(active, k))
  }

  ghost predicate Inv(base: HostState, table: string, n: Node) {
    && Sharing(base, table, n.active) && TableExact(base, table, n.host.routes, n.active)
    && Tidy(n.host.rules, table) && Tidy(n.host.rules, TUNNEL_TABLE) && Mirrors(n.host, table)
  }

  /** The source rules of table 199 do not touch the other table's rules. */
  lemma SourceRulesElsewhere(action: Action, rules: set<Rule>, p: Plan, table: string, exist: bool)
    requires PlanOk(p) && table != TUNNEL_TABLE && Tidy(rules, table) && Tidy(rules, TUNNEL_TABLE)
    ensures var r := ChangeRules(action, rules, p.tunnelSources, TUNNEL_TABLE, exist);
            && Tidy(r, table) && Tidy(r, TUNNEL_TABLE)
            && (Rule(table, "all", table) in r <==> Rule(table, "all", table) in rules)
  {
    if action == Add {
      AddRulesBounds(rules, p.tunnelSources, TUNNEL_TABLE, exist);
    } else {
      DelRulesExact(rules, p.tunnelSources, TUNNEL_TABLE, exist);
    }
  }

  lemma AllRuleStep(action: Action, rules: set<Rule>, table: string, exist: bool)
    requires table != TUNNEL_TABLE && PlainKey(table, "all") && Tidy(rules, table) && Tidy(rules, TUNNEL_TABLE)
    ensures var r := ChangeRule(action, rules, "all", table, exist);
            && Tidy(r, table) && Tidy(r, TUNNEL_TABLE)
            && (Rule(table, "all", table) in r <==> action == Add || (Rule(table, "all", table) in rules && exist))
  {
    AllLookupExact(rules, table);
    AddRuleTidy(rules, "all", table);
    AddRuleOtherTable(rules, table, TUNNEL_TABLE);
  }

  /** Adding or deleting any plan for the table keeps "the all-rule is present exactly when the table has routes". */
  lemma ChangeKeepsMirror(action: Action, s: HostState, p: Plan)
    requires PlanOk(p) && p.allRule && p.vpnKeys != {}
    requires Tidy(s.rules, p.table) && Tidy(s.rules, TUNNEL_TABLE) && Mirrors(s, p.table)
    ensures var s' := Change(action, s, p);
            Tidy(s'.rules, p.table) && Tidy(s'.rules, TUNNEL_TABLE) && Mirrors(s', p.table)
  {
    var s' := Change(action, s, p);
    var tunnelRoutes := ChangeRoutes(action, s.routes, p.tunnelKeys, TUNNEL_HOP);
    var exist := HasRoutes(tunnelRoutes, TUNNEL_TABLE);
    var tunnelRules := ChangeRules(action, s.rules, p.tunnelSources, TUNNEL_TABLE, exist);
    SourceRulesElsewhere(action, s.rules, p, p.table, exist);
    AllRuleStep(action, tunnelRules, p.table, HasRoutes(s'.routes, p.table));
    if action == Add {
      var k :| k in p.vpnKeys;
      assert k in s'.routes;
    } else if HasRoutes(s'.routes, p.table) {
      var k :| k in s'.routes && k.table == p.table;
      assert k in s.routes;
    }
  }

  /** What one change does to the routes of the plan's table. */
  ghost predicate Changed(action: Action, rs: Routes, rs': Routes, p: Plan) {
    forall k: RouteKey :: k.table == p.table ==>
      && (k in rs' <==> if action == Add then k in rs || k in p.vpnKeys
                        else k in rs && !(k in p.vpnKeys && rs[k] == p.vpnHop))
      && (k in rs' ==> rs'[k] == if k in rs then rs[k] else p.vpnHop)
  }

  lemma ChangeIsChanged(action: Action, s: HostState, p: Plan)
    requires PlanOk(p)
    ensures Changed(action, s.routes, Change(action, s, p).routes, p)
  {
    var mid := ChangeRoutes(action, s.routes, p.tunnelKeys, TUNNEL_HOP);
    assert forall k: RouteKey :: k.table == p.table ==> k !in p.tunnelKeys;
    assert forall k: RouteKey :: k.table == p.table ==>
             (k in mid <==> k in s.routes) && (k in mid ==> mid[k] == s.routes[k]);
  }

  /** What the route steps need of a plan. */
  ghost predicate KeysFit(base: HostState, table: string, p: Plan) {
    p.table == table && forall k :: k in p.vpnKeys ==> k.table == table && k !in base.routes
  }

  ghost predicate KeysApart(base: HostState, table: string, active: Active) {
    && (forall i :: i in active ==> KeysFit(base, table, active[i]))
    && (forall i, j :: i in active && j in active && i != j ==> active[i].vpnKeys !! active[j].vpnKeys)
  }

  lemma SharingKeys(base: HostState, table: string, active: Active)
    requires Sharing(base, table, active)
    ensures KeysApart(base, table, active)
  {
    forall i | i in active ensures KeysFit(base, table, active[i]) {
      assert PlanFits(base, table, active[i]);
    }
  }

  lemma OwnedMore(active: Active, i: nat, p: Plan, k: RouteKey)
    requires i !in active
    ensures Owned(active[i := p], k) <==> Owned(active, k) || k in p.vpnKeys
  {
    var now := active[i := p];
    if j :| j in active && k in active[j].vpnKeys {
      assert j in now && now[j] == active[j];
    }
    if k in p.vpnKeys {
      assert i in now && now[i] == p;
    }
  }

  lemma OwnedLess(base: HostState, table: string, active: Active, i: nat, k: RouteKey)
    requires KeysApart(base, table, active) && i in active
    ensures Owned(active - {i}, k) <==> Owned(active, k) && k !in active[i].vpnKeys
  {
    var now := active - {i};
    if j :| j in active && k in active[j].vpnKeys && k !in active[i].vpnKeys {
      assert j in now && now[j] == active[j];
    }
    if j :| j in now && k in now[j].vpnKeys {
      assert j in active && active[j] == now[j] && active[i].vpnKeys !! active[j].vpnKeys;
    }
  }

  lemma AddStep(base: HostState, table: string, rs: Routes, rs': Routes, active: Active, i: nat, p: Plan)
    requires TableExact(base, table, rs, active) && KeysApart(base, table, active) && i !in active
    requires KeysFit(base, table, p) && forall j :: j in active ==> p.vpnKeys !! active[j].vpnKeys
    requires Changed(Add, rs, rs', p)
    ensures TableExact(base, table, rs', active[i := p])
  {
    var now := active[i := p];
    forall j, k | j in now && k in now[j].vpnKeys ensures k in rs' && rs'[k] == now[j].vpnHop {
      if j == i {
        assert k.table == table && k !in base.routes && !Owned(active, k);
        assert k !in rs;
      } else {
        assert j in active && active[j] == now[j] && k.table == table;
      }
    }
    forall k | k in rs' && k.table == table ensures k in base.routes || Owned(now, k) {
      OwnedMore(active, i, p, k);
    }
  }

  lemma DeleteStep(base: HostState, table: string, rs: Routes, rs': Routes, active: Active, i: nat)
    requires TableExact(base, table, rs, active) && KeysApart(base, table, active) && i in active
    requires Changed(Delete, rs, rs', active[i])
    ensures TableExact(base, table, rs', active - {i})
  {
    var now := active - {i};
    assert KeysFit(base, table, active[i]);
    forall j, k | j in now && k in now[j].vpnKeys ensures k in rs' && rs'[k] == now[j].vpnHop {
      assert j in active && active[j] == now[j] && active[i].vpnKeys !! active[j].vpnKeys;
      assert KeysFit(base, table, active[j]);
    }
    forall k | k in rs' && k.table == table ensures k in base.routes || Owned(now, k) {
      OwnedLess(base, table, active, i, k);
    }
  }

  lemma StepKeepsInv(base: HostState, table: string, n: Node, op: Op)
    requires Ready(base, table) && Inv(base, table, n) && Legal(base, table, n, op)
    ensures Inv(base, table, Step(n, op))
  {
    var action := if op.AddRelease? then Add else Delete;
    var p := if op.AddRelease? then op.plan else n.active[op.id];
    var next := Step(n, op);
    SharingKeys(base, table, n.active);
    ChangeIsChanged(action, n.host, p);
    ChangeKeepsMirror(action, n.host, p);
    if op.AddRelease? {
      AddStep(base, table, n.host.routes, next.host.routes, n.active, op.id, p);
    } else {
      DeleteStep(base, table, n.host.routes, next.host.routes, n.active, op.id);
    }
  }

  lemma {:induction false} RunKeepsInv(base: HostState, table: string, n: Node, ops: seq<Op>)
    requires Ready(base, table) && Inv(base, table, n) && LegalRun(base, table, n, ops)
    ensures Inv(base, table, Run(base, table, n, ops))
    decreases |ops|
  {
    if ops == [] {
    } else {
      StepKeepsInv(base, table, n, ops[0]);
      RunKeepsInv(base, table, Step(n, ops[0]), ops[1..]);
    }
  }

  /**
   For any interleaving of adds and deletes, with a new plan at every add: every active release has all the routes of
   its current plan, no other routes are left, and the all-rule is there exactly when the table is not empty.
   */
  lemma SharedTableRuns(base: HostState, table: string, ops: seq<Op>)
    requires Ready(base, table) && LegalRun(base, table, Node(base, map[]), ops)
    ensures var n := Run(base, table, Node(base, map[]), ops);
            TableExact(base, table, n.host.routes, n.active) && Mirrors(n.host, table)
    ensures var n := Run(base, table, Node(base, map[]), ops);
            !HasRoutes(base.routes, table) ==> (Rule(table, "all", table) in n.host.rules <==> n.active != map[])
  {
    RunKeepsInv(base, table, Node(base, map[]), ops);
    var n := Run(base, table, Node(base, map[]), ops);
    ActiveMeansRoutes(base, table, n.host.routes, n.active);
  }

  lemma ActiveMeansRoutes(base: HostState, table: string, rs: Routes, active: Active)
    requires Sharing(base, table, active) && TableExact(base, table, rs, active)
    ensures HasRoutes(rs, table) <==> HasRoutes(base.routes, table) || active != map[]
  {
    if active != map[] {
      var i :| i in active;
      var k :| k in active[i].vpnKeys;
      assert k in rs && k.table == table;
    }
    if HasRoutes(base.routes, table) {
      var k :| k in base.routes && k.table == table;
      assert k in rs;
    }
  }

  /** A pod that moves: its release is deleted and added again for the same subnets with another next hop. */
  lemma MovedRelease(base: HostState, table: string, p: Plan, q: Plan)
    requires Ready(base, table) && PlanFits(base, table, p) && PlanFits(base, table, q) && p.vpnKeys == q.vpnKeys
    ensures var ops := [AddRelease(0, p), DeleteRelease(0), AddRelease(0, q)];
            && LegalRun(base, table, Node(base, map[]), ops)
            && var routes := Run(base, table, Node(base, map[]), ops).host.routes;
               forall k :: k in p.vpnKeys ==> k in routes && routes[k] == q.vpnHop
  {
    var ops := [AddRelease(0, p), DeleteRelease(0), AddRelease(0, q)];
    var n0 := Node(base, map[]);
    var n1 := Step(n0, ops[0]);
    var n2 := Step(n1, ops[1]);
    var n3 := Step(n2, ops[2]);
    assert ops[1..] == [DeleteRelease(0), AddRelease(0, q)] && ops[1..][1..] == [AddRelease(0, q)];
    assert ops[1..][1..][1..] == [];
    assert LegalRun(base, table, n2, ops[1..][1..]);
    assert LegalRun(base, table, n1, ops[1..]);
    assert Run(base, table, n2, ops[1..][1..]) == n3;
    assert Run(base, table, n1, ops[1..]) == n3;
    SharedTableRuns(base, table, ops);
    assert 0 in n3.active && n3.active[0] == q;
  }
}

/**
 The part of a node's kernel state that the program edits, and the commands of network/net.go as steps on it.
 Commands that the kernel refuses (adding an existing route, deleting an absent one) change nothing:
 the program only logs a warning for them.
 */
module Network {
  import opened Text
  import opened IPv4

  datatype Action = Add | Delete

  datatype RouteKey = RouteKey(table: string, dest: Net)

  datatype NextHop = NextHop(via: string, dev: string, onlink: bool)

  /** A line of `ip rule list`. */
  datatype Rule = Rule(prio: string, src: string, table: string)

  /** The two POSTROUTING entries that `ConfigureSNAT` edits. */
  datatype NatEntry =
    | SourceNat(dest: string, src: string, to: string)
    | Masquerade(dest: string)

  /** A line of the main routing table. */
  datatype RoutingInfo = RoutingInfo(dest: string, via: string, dev: string)

  type Routes = map<RouteKey, NextHop>

  datatype HostState = HostState(routes: Routes, rules: set<Rule>, chain: seq<NatEntry>)

  // ---------- routes ----------

  function AddRoutes(rs: Routes, keys: set<RouteKey>, hop: NextHop): Routes {
    map k | k in rs.Keys + keys :: if k in rs then rs[k] else hop
  }

  /** `ip route del` names the next hop, so a route with another next hop stays. */
  function DelRoutes(rs: Routes, keys: set<RouteKey>, hop: NextHop): Routes {
    map k | k in rs && !(k in keys && rs[k] == hop) :: rs[k]
  }

  function ChangeRoutes(action: Action, rs: Routes, keys: set<RouteKey>, hop: NextHop): Routes {
    if action == Add then AddRoutes(rs, keys, hop) else DelRoutes(rs, keys, hop)
  }

  predicate HasRoutes(rs: Routes, table: string) {
    exists k | k in rs :: k.table == table
  }

  /** The kernel refuses a destination whose host bits are not zero. */
  function DestKey(dest: Cidr, table: string): set<RouteKey> {
    if dest.ip == dest.net.base then {RouteKey(table, dest.net)} else {}
  }

  /** The destinations of a comma-joined list; entries that are not a CIDR are skipped. */
  function ListKeys(list: seq<string>, table: string): set<RouteKey> {
    set p | p in list && ParseCIDR(p).Some? :: RouteKey(table, ParseCIDR(p).value.net)
  }

  lemma ChangeRoutesTwice(action: Action, rs: Routes, keys: set<RouteKey>, more: set<RouteKey>, hop: NextHop)
    ensures ChangeRoutes(action, ChangeRoutes(action, rs, keys, hop), more, hop)
            == ChangeRoutes(action, rs, keys + more, hop)
  {
  }

  /** Deleting undoes adding exactly when none of the routes was there before with the same next hop. */
  lemma RoutesRestored(rs: Routes, keys: set<RouteKey>, hop: NextHop)
    ensures DelRoutes(AddRoutes(rs, keys, hop), keys, hop) == rs
            <==> forall k :: k in keys && k in rs ==> rs[k] != hop
  {
    var r := DelRoutes(AddRoutes(rs, keys, hop), keys, hop);
    if forall k :: k in keys && k in rs ==> rs[k] != hop {
      assert r.Keys == rs.Keys;
    } else {
      var k :| k in keys && k in rs && rs[k] == hop;
      assert k !in r;
    }
  }

  // ---------- rules ----------

  function RuleLine(r: Rule): string {
    r.prio + ":\tfrom " + r.src + " lookup " + r.table
  }

  predicate LineMatches(line: string, table: string, src: string) {
    table + ":" <= line && Contains(line, "from " + src)
  }

  predicate Found(rules: set<Rule>, table: string, src: string) {
    exists r | r in rules :: LineMatches(RuleLine(r), table, src)
  }

  function AddRule(rules: set<Rule>, src: string, table: string): set<Rule> {
    if Found(rules, table, src) then rules else rules + {Rule(table, src, table)}
  }

  function DelRule(rules: set<Rule>, src: string, table: string, routesExist: bool): set<Rule> {
    if !Found(rules, table, src) || (routesExist && src == "all") then rules
    else set r | r in rules && !(r.src == src && r.table == table)
  }

  function ChangeRule(action: Action, rules: set<Rule>, src: string, table: string, routesExist: bool): set<Rule> {
    if action == Add then AddRule(rules, src, table) else DelRule(rules, src, table, routesExist)
  }

  function ChangeRules(action: Action, rules: set<Rule>, sources: seq<string>, table: string,
                       routesExist: bool): set<Rule>
    decreases |sources|
  {
    if sources == [] then rules
    else ChangeRules(action, ChangeRule(action, rules, sources[0], table, routesExist), sources[1..],
                     table, routesExist)
  }

  /** A printed rule: no blanks inside its fields, and sources are addresses or `all`. */
  predicate PlainRule(r: Rule) {
    ' ' !in r.prio && ' ' !in r.src && ' ' !in r.table && ':' !in r.prio && 'm' !in r.src
    && ("all" <= r.src ==> r.src == "all")
  }

  /** The rules with priority `table` are the rules that look up `table`. */
  predicate Tidy(rules: set<Rule>, table: string) {
    forall r | r in rules :: PlainRule(r) && (r.prio == table <==> r.table == table)
  }

  predicate PlainKey(table: string, src: string) {
    ' ' !in table && ':' !in table && ' ' !in src && 'm' !in src && ("all" <= src ==> src == "all")
  }

  lemma PriorityPrefix(prio: string, rest: string, table: string)
    requires ':' !in prio && ':' !in table
    ensures table + ":" <= prio + ":" + rest <==> prio == table
  {
    var line, front := prio + ":" + rest, table + ":";
    assert line[|prio|] == ':' && front[|table|] == ':';
    assert forall i :: 0 <= i < |prio| ==> line[i] == prio[i] && line[i] in prio;
    assert forall i :: 0 <= i < |table| ==> front[i] == table[i] && front[i] in table;
    if front <= line {
      assert forall i :: 0 <= i < |front| ==> line[i] == front[i];
      assert |prio| == |table|;
      assert prio == line[..|prio|] == front[..|table|] == table;
    }
  }

  lemma RuleLineShape(r: Rule)
    ensures RuleLine(r) == (r.prio + ":\tfrom ") + (r.src + (" lookup " + r.table))
    ensures RuleLine(r) == r.prio + ":" + ("\tfrom " + r.src + " lookup " + r.table)
  {
  }

  lemma SourceOccurs(r: Rule, src: string)
    requires src <= r.src
    ensures Contains(RuleLine(r), "from " + src)
  {
    RuleLineShape(r);
    var line, i := RuleLine(r), |r.prio| + 2;
    assert line[i..i + 5] == "from ";
    assert line[i + 5..i + 5 + |src|] == src;
    assert line[i..i + 5 + |src|] == "from " + src;
    assert OccursAt(line, "from " + src, i);
  }

  function CharAt(r: Rule, j: int): char
    requires 0 <= j < |RuleLine(r)|
  {
    var p, n := |r.prio|, |r.src|;
    if j < p then r.prio[j]
    else if j < p + 7 then ":\tfrom "[j - p]
    else if j < p + 7 + n then r.src[j - p - 7]
    else if j < p + n + 15 then " lookup "[j - p - n - 7]
    else r.table[j - p - n - 15]
  }

  lemma RuleLineChars(r: Rule, j: int)
    requires 0 <= j < |RuleLine(r)|
    ensures RuleLine(r)[j] == CharAt(r, j)
  {
  }

  /** Only the blank before the source follows an `m`. */
  lemma FromPosition(r: Rule, j: int)
    requires PlainRule(r) && 0 < j < |RuleLine(r)|
    ensures CharAt(r, j) == ' ' && CharAt(r, j - 1) == 'm' ==> j == |r.prio| + 6
  {
  }

  lemma SourceBefore(r: Rule, src: string)
    requires ' ' !in src && src <= r.src + (" lookup " + r.table)
    ensures src <= r.src
  {
    var tail := r.src + (" lookup " + r.table);
    assert tail[|r.src|] == ' ';
    assert forall k :: 0 <= k < |src| ==> src[k] in src && src[k] == tail[k];
    assert r.src == tail[..|r.src|];
  }

  lemma OccurrenceParts(line: string, src: string, i: int)
    requires OccursAt(line, "from " + src, i)
    ensures line[i + 3] == 'm' && line[i + 4] == ' ' && src <= line[i + 5..]
  {
    var pat := "from " + src;
    var part := line[i..i + |pat|];
    assert part[3] == 'm' && part[4] == ' ';
    assert src == part[5..] == line[i + 5..i + |pat|];
  }

  lemma OccurrenceIsSource(r: Rule, src: string)
    requires PlainRule(r) && ' ' !in src && Contains(RuleLine(r), "from " + src)
    ensures src <= r.src
  {
    var line := RuleLine(r);
    var i :| 0 <= i <= |line| && OccursAt(line, "from " + src, i);
    OccurrenceParts(line, src, i);
    RuleLineChars(r, i + 4);
    RuleLineChars(r, i + 3);
    FromPosition(r, i + 4);
    RuleLineShape(r);
    assert line[i + 5..] == r.src + (" lookup " + r.table);
    SourceBefore(r, src);
  }

  /** What the textual lookup of `UpdateRouteRule` decides: the source may be a prefix of the listed one. */
  lemma LookupIsPrefixTest(rules: set<Rule>, table: string, src: string)
    requires (forall r :: r in rules ==> PlainRule(r)) && PlainKey(table, src)
    ensures Found(rules, table, src) <==> exists r :: r in rules && r.prio == table && src <= r.src
  {
    forall r | r in rules ensures LineMatches(RuleLine(r), table, src) <==> (r.prio == table && src <= r.src) {
      RuleLineShape(r);
      PriorityPrefix(r.prio, "\tfrom " + r.src + " lookup " + r.table, table);
      if src <= r.src {
        SourceOccurs(r, src);
      } else if Contains(RuleLine(r), "from " + src) {
        OccurrenceIsSource(r, src);
      }
    }
  }

  /** The lookup is exact membership exactly when no other listed source extends the one asked for. */
  lemma LookupAgreesWithMembership(rules: set<Rule>, table: string, src: string)
    requires Tidy(rules, table) && PlainKey(table, src)
    ensures (Found(rules, table, src) <==> Rule(table, src, table) in rules)
            <==> (Rule(table, src, table) in rules || forall r :: r in rules && r.table == table ==> !(src <= r.src))
  {
    LookupIsPrefixTest(rules, table, src);
  }

  lemma AllLookupExact(rules: set<Rule>, table: string)
    requires Tidy(rules, table) && PlainKey(table, "all")
    ensures Found(rules, table, "all") <==> Rule(table, "all", table) in rules
  {
    LookupIsPrefixTest(rules, table, "all");
  }

  lemma ExactRuleFound(rules: set<Rule>, table: string, src: string)
    requires Rule(table, src, table) in rules
    ensures Found(rules, table, src)
  {
    var r := Rule(table, src, table);
    RuleLineShape(r);
    SourceOccurs(r, src);
    assert table + ":" <= RuleLine(r);
  }

  /** Whatever the lookup says, a source rule is gone after its delete. */
  lemma DelRuleExact(rules: set<Rule>, src: string, table: string, routesExist: bool)
    requires Tidy(rules, table) && src != "all"
    ensures DelRule(rules, src, table, routesExist) == set r | r in rules && !(r.src == src && r.table == table)
  {
    if !Found(rules, table, src) {
      forall r | r in rules ensures !(r.src == src && r.table == table) {
        if r.src == src && r.table == table {
          assert r == Rule(table, src, table);
          ExactRuleFound(rules, table, src);
          assert false;
        }
      }
    }
  }

  lemma {:induction false} DelRulesExact(rules: set<Rule>, sources: seq<string>, table: string, routesExist: bool)
    requires Tidy(rules, table) && "all" !in sources
    ensures ChangeRules(Delete, rules, sources, table, routesExist)
            == set r | r in rules && !(r.src in sources && r.table == table)
    decreases |sources|
  {
    if sources == [] {
    } else {
      var rest := sources[1..];
      assert sources == [sources[0]] + rest;
      DelRuleExact(rules, sources[0], table, routesExist);
      DelRulesExact(DelRule(rules, sources[0], table, routesExist), rest, table, routesExist);
    }
  }

  lemma AddRuleTidy(rules: set<Rule>, src: string, table: string)
    requires Tidy(rules, table) && PlainKey(table, src)
    ensures Tidy(AddRule(rules, src, table), table)
  {
    assert PlainRule(Rule(table, src, table));
  }

  lemma {:induction false} AddRulesBounds(rules: set<Rule>, sources: seq<string>, table: string, routesExist: bool)
    requires Tidy(rules, table) && forall s :: s in sources ==> PlainKey(table, s)
    ensures var added := ChangeRules(Add, rules, sources, table, routesExist);
            && rules <= added && Tidy(added, table)
            && forall r :: r in added && r !in rules ==> r.src in sources && r.table == table
    decreases |sources|
  {
    if sources == [] {
    } else {
      assert sources == [sources[0]] + sources[1..];
      AddRuleTidy(rules, sources[0], table);
      AddRulesBounds(AddRule(rules, sources[0], table), sources[1..], table, routesExist);
    }
  }

  /** Source rules are restored exactly when none of them was there before. */
  lemma SourceRulesRestored(rules: set<Rule>, sources: seq<string>, table: string, before: bool, after: bool)
    requires Tidy(rules, table) && "all" !in sources && forall s :: s in sources ==> PlainKey(table, s)
    ensures ChangeRules(Delete, ChangeRules(Add, rules, sources, table, before), sources, table, after) == rules
            <==> forall r :: r in rules && r.table == table ==> r.src !in sources
  {
    AddRulesBounds(rules, sources, table, before);
    var added := ChangeRules(Add, rules, sources, table, before);
    DelRulesExact(added, sources, table, after);
    var final := ChangeRules(Delete, added, sources, table, after);
    if forall r :: r in rules && r.table == table ==> r.src !in sources {
      assert final == rules;
    } else {
      var r :| r in rules && r.table == table && r.src in sources;
      assert r !in final;
    }
  }

  lemma {:induction false} ChangeRulesAppend(action: Action, rules: set<Rule>, xs: seq<string>, x: string,
                                            table: string, exist: bool)
    ensures ChangeRules(action, rules, xs + [x], table, exist)
            == ChangeRule(action, ChangeRules(action, rules, xs, table, exist), x, table, exist)
    decreases |xs|
  {
    if xs == [] {
      assert (xs + [x])[1..] == [];
    } else {
      assert (xs + [x])[1..] == xs[1..] + [x];
      ChangeRulesAppend(action, ChangeRule(action, rules, xs[0], table, exist), xs[1..], x, table, exist);
    }
  }

  /** A listed source of the table, or an earlier source, extends this one. */
  predicate Shadowed(rules: set<Rule>, table: string, earlier: seq<string>, src: string) {
    || (exists r | r in rules :: r.table == table && src <= r.src)
    || (exists t | t in earlier :: src <= t)
  }

  lemma AddedLast(rules: set<Rule>, sources: seq<string>, table: string, exist: bool, i: nat)
    requires i < |sources| && Tidy(rules, table) && forall s :: s in sources ==> PlainKey(table, s)
    ensures var before := ChangeRules(Add, rules, sources[..i], table, exist);
            && Tidy(before, table) && rules <= before
            && ChangeRules(Add, rules, sources[..i + 1], table, exist) ==
               (if exists r :: r in before && r.table == table && sources[i] <= r.src then before
                else before + {Rule(table, sources[i], table)})
  {
    assert sources[..i + 1] == sources[..i] + [sources[i]];
    ChangeRulesAppend(Add, rules, sources[..i], sources[i], table, exist);
    AddRulesBounds(rules, sources[..i], table, exist);
    LookupIsPrefixTest(ChangeRules(Add, rules, sources[..i], table, exist), table, sources[i]);
  }

  /** Every source asked for is a prefix of some listed source afterwards. */
  lemma {:induction false} SomeRuleExtends(rules: set<Rule>, sources: seq<string>, table: string, exist: bool, n: nat)
    requires n <= |sources| && Tidy(rules, table) && forall s :: s in sources ==> PlainKey(table, s)
    ensures forall t :: t in sources[..n] ==>
              exists r :: r in ChangeRules(Add, rules, sources[..n], table, exist) && r.table == table && t <= r.src
  {
    if n == 0 {
    } else {
      var i := n - 1;
      SomeRuleExtends(rules, sources, table, exist, i);
      AddedLast(rules, sources, table, exist, i);
      var before := ChangeRules(Add, rules, sources[..i], table, exist);
      var after := ChangeRules(Add, rules, sources[..n], table, exist);
      assert before <= after;
      forall t | t in sources[..n] ensures exists r :: r in after && r.table == table && t <= r.src {
        if t in sources[..i] {
          var r :| r in before && r.table == table && t <= r.src;
          assert r in after;
        } else {
          assert t == sources[i];
          assert Rule(table, t, table) in after || exists r :: r in before && r.table == table && t <= r.src;
        }
      }
    }
  }

  /** The rule of a source is new exactly when nothing shadowed it at its turn. */
  ghost predicate NewAt(rules: set<Rule>, sources: seq<string>, table: string, i: int, r: Rule) {
    0 <= i < |sources| && r == Rule(table, sources[i], table) && !Shadowed(rules, table, sources[..i], sources[i])
  }

  ghost predicate NewBefore(rules: set<Rule>, sources: seq<string>, table: string, n: int, r: Rule) {
    exists j :: j < n && NewAt(rules, sources, table, j, r)
  }

  lemma NewBeforeNext(rules: set<Rule>, sources: seq<string>, table: string, i: int, r: Rule)
    ensures NewBefore(rules, sources, table, i + 1, r)
            <==> NewBefore(rules, sources, table, i, r) || NewAt(rules, sources, table, i, r)
  {
    if j :| j < i && NewAt(rules, sources, table, j, r) {
      assert j < i + 1;
    } else if NewAt(rules, sources, table, i, r) {
      assert i < i + 1;
    }
  }

  lemma LastIsNew(rules: set<Rule>, sources: seq<string>, table: string, exist: bool, i: nat)
    requires i < |sources| && Tidy(rules, table) && forall s :: s in sources ==> PlainKey(table, s)
    requires forall r :: r in ChangeRules(Add, rules, sources[..i], table, exist)
                         ==> r in rules || NewBefore(rules, sources, table, i, r)
    ensures var before := ChangeRules(Add, rules, sources[..i], table, exist);
            (exists r :: r in before && r.table == table && sources[i] <= r.src)
            <==> Shadowed(rules, table, sources[..i], sources[i])
  {
    AddedLast(rules, sources, table, exist, i);
    SomeRuleExtends(rules, sources, table, exist, i);
    var before := ChangeRules(Add, rules, sources[..i], table, exist);
    if r :| r in before && r !in rules && r.table == table && sources[i] <= r.src {
      var j :| j < i && NewAt(rules, sources, table, j, r);
      assert sources[..i][j] == r.src && r.src in sources[..i];
    }
    if t :| t in sources[..i] && sources[i] <= t {
      var r :| r in before && r.table == table && t <= r.src;
      assert sources[i] <= r.src;
    }
  }

  /** Exactly which rules a list of adds leaves. */
  lemma {:induction false} RulesAfterAdds(rules: set<Rule>, sources: seq<string>, table: string, exist: bool, n: nat)
    requires n <= |sources| && Tidy(rules, table) && forall s :: s in sources ==> PlainKey(table, s)
    ensures forall r :: r in ChangeRules(Add, rules, sources[..n], table, exist)
                        <==> r in rules || NewBefore(rules, sources, table, n, r)
  {
    if n == 0 {
      assert sources[..0] == [];
    } else {
      var i := n - 1;
      RulesAfterAdds(rules, sources, table, exist, i);
      LastIsNew(rules, sources, table, exist, i);
      AddedLast(rules, sources, table, exist, i);
      forall r ensures r in ChangeRules(Add, rules, sources[..n], table, exist)
                       <==> r in rules || NewBefore(rules, sources, table, n, r) {
        NewBeforeNext(rules, sources, table, i, r);
      }
    }
  }

  /** At its turn the source has its rule, was asked for before, or is a prefix of nothing listed or earlier. */
  ghost predicate Unshadowed(rules: set<Rule>, sources: seq<string>, table: string, i: nat)
    requires i < |sources|
  {
    || Rule(table, sources[i], table) in rules
    || sources[i] in sources[..i]
    || !Shadowed(rules, table, sources[..i], sources[i])
  }

  lemma {:induction false} UnshadowedInstalled(rules: set<Rule>, sources: seq<string>, table: string, exist: bool,
                                               i: nat)
    requires i < |sources| && Tidy(rules, table) && forall s :: s in sources ==> PlainKey(table, s)
    requires forall j :: 0 <= j < |sources| ==> Unshadowed(rules, sources, table, j)
    ensures Rule(table, sources[i], table) in ChangeRules(Add, rules, sources, table, exist)
  {
    RulesAfterAdds(rules, sources, table, exist, |sources|);
    assert sources[..|sources|] == sources && Unshadowed(rules, sources, table, i);
    if sources[i] in sources[..i] {
      var j :| 0 <= j < i && sources[j] == sources[i];
      UnshadowedInstalled(rules, sources, table, exist, j);
    } else if Rule(table, sources[i], table) !in rules {
      assert NewAt(rules, sources, table, i, Rule(table, sources[i], table));
    }
  }

  /**
   After the adds every source has its own rule exactly when each of them, at its turn, has its rule already, was
   asked for before, or is a prefix of no listed source and of no earlier one.
   */
  lemma SourceRulesInstalled(rules: set<Rule>, sources: seq<string>, table: string, exist: bool)
    requires Tidy(rules, table) && forall s :: s in sources ==> PlainKey(table, s)
    ensures (forall s :: s in sources ==> Rule(table, s, table) in ChangeRules(Add, rules, sources, table, exist))
            <==> forall i :: 0 <= i < |sources| ==> Unshadowed(rules, sources, table, i)
  {
    RulesAfterAdds(rules, sources, table, exist, |sources|);
    assert sources[..|sources|] == sources;
    if forall i :: 0 <= i < |sources| ==> Unshadowed(rules, sources, table, i) {
      forall s | s in sources ensures Rule(table, s, table) in ChangeRules(Add, rules, sources, table, exist) {
        var i :| 0 <= i < |sources| && sources[i] == s;
        UnshadowedInstalled(rules, sources, table, exist, i);
      }
    } else {
      var i :| 0 <= i < |sources| && !Unshadowed(rules, sources, table, i);
      assert sources[i] in sources;
      forall j | NewAt(rules, sources, table, j, Rule(table, sources[i], table)) ensures false {
        NotNewLater(rules, sources, table, i, j);
      }
    }
  }

  lemma NotNewLater(rules: set<Rule>, sources: seq<string>, table: string, i: nat, j: int)
    requires i < |sources| && !Unshadowed(rules, sources, table, i)
    ensures !NewAt(rules, sources, table, j, Rule(table, sources[i], table))
  {
    EarlierMembers(sources, i);
    if 0 <= j < |sources| {
      EarlierMembers(sources, j);
    }
  }

  lemma EarlierMembers(sources: seq<string>, i: nat)
    requires i < |sources|
    ensures forall k :: 0 <= k < i ==> sources[k] in sources[..i]
  {
    assert forall k :: 0 <= k < i ==> sources[..i][k] == sources[k];
  }

  lemma AddressKey(table: string, src: string)
    requires AddressChars(table) && AddressChars(src)
    ensures PlainKey(table, src) && src != "all"
  {
    assert "all"[0] == 'a' && (src != "" ==> src[0] in src);
  }

  /** The remote subnets `10.1.1.10/32,10.1.1.1/32`: the second gets no rule, in the other order both get one. */
  lemma PrefixSourceSkipped(x: string, y: string, exist: bool)
    requires x == TrimSuffix("10.1.1.10/32", "/32") && y == TrimSuffix("10.1.1.1/32", "/32")
    ensures x == "10.1.1.10" && y == "10.1.1.1"
    ensures Rule("199", y, "199") !in ChangeRules(Add, {}, [x, y], "199", exist)
    ensures Rule("199", y, "199") in ChangeRules(Add, {}, [y, x], "199", exist)
            && Rule("199", x, "199") in ChangeRules(Add, {}, [y, x], "199", exist)
  {
    TrimmedSuffix("10.1.1.10", "/32");
    TrimmedSuffix("10.1.1.1", "/32");
    assert "10.1.1.10" + "/32" == "10.1.1.10/32" && "10.1.1.1" + "/32" == "10.1.1.1/32";
    assert y <= x;
    AddressKey("199", x);
    AddressKey("199", y);
    SkippedAfter(x, y, "199", exist);
  }

  lemma TrimmedSuffix(s: string, p: string)
    ensures TrimSuffix(s + p, p) == s
  {
    assert OccursAt(s + p, p, |s|);
  }

  lemma SkippedAfter(x: string, y: string, table: string, exist: bool)
    requires PlainKey(table, x) && PlainKey(table, y) && y <= x && x != y
    ensures Rule(table, y, table) !in ChangeRules(Add, {}, [x, y], table, exist)
    ensures Rule(table, y, table) in ChangeRules(Add, {}, [y, x], table, exist)
            && Rule(table, x, table) in ChangeRules(Add, {}, [y, x], table, exist)
  {
    RulesAfterAdds({}, [x, y], table, exist, 2);
    RulesAfterAdds({}, [y, x], table, exist, 2);
    assert [x, y][..2] == [x, y] && [y, x][..2] == [y, x];
    assert [x, y][..1] == [x] && [y, x][..1] == [y] && [y, x][..0] == [];
    assert x in [x] && Shadowed({}, table, [x], y);
    assert NewAt({}, [y, x], table, 0, Rule(table, y, table));
    assert NewAt({}, [y, x], table, 1, Rule(table, x, table));
  }

  /** The rule that sends everything to the table is restored exactly when it mirrored "the table is not empty". */
  lemma AllRuleRestored(rules: set<Rule>, table: string, before: bool, routesExist: bool)
    requires Tidy(rules, table) && PlainKey(table, "all")
    ensures ChangeRule(Delete, ChangeRule(Add, rules, "all", table, before), "all", table, routesExist) == rules
            <==> (Rule(table, "all", table) in rules <==> routesExist)
  {
    AllLookupExact(rules, table);
    var added := AddRule(rules, "all", table);
    AddRuleTidy(rules, "all", table);
    AllLookupExact(added, table);
  }

  // ---------- NAT entries ----------

  function RemoveFirst(chain: seq<NatEntry>, e: NatEntry): seq<NatEntry> {
    if chain == [] then [] else if chain[0] == e then chain[1..] else [chain[0]] + RemoveFirst(chain[1..], e)
  }

  function RemoveEach(chain: seq<NatEntry>, es: seq<NatEntry>): seq<NatEntry>
    decreases |es|
  {
    if es == [] then chain else RemoveEach(RemoveFirst(chain, es[0]), es[1..])
  }

  function ChangeNat(action: Action, chain: seq<NatEntry>, es: seq<NatEntry>): seq<NatEntry> {
    if action == Add then chain + es else RemoveEach(chain, es)
  }

  lemma {:induction false} RemoveFirstPast(xs: seq<NatEntry>, ys: seq<NatEntry>, e: NatEntry)
    requires e !in xs
    ensures RemoveFirst(xs + ys, e) == xs + RemoveFirst(ys, e)
  {
    if xs == [] {
      assert xs + ys == ys;
    } else {
      RemoveFirstPast(xs[1..], ys, e);
      assert (xs + ys)[1..] == xs[1..] + ys;
    }
  }

  /** With no equal entries before, deleting in the order of adding leaves the chain as it was. */
  lemma {:induction false} NatRestored(chain: seq<NatEntry>, es: seq<NatEntry>)
    requires forall e :: e in es ==> e !in chain
    ensures RemoveEach(chain + es, es) == chain
    decreases |es|
  {
    if es == [] {
      assert chain + es == chain;
    } else {
      assert es == [es[0]] + es[1..];
      RemoveFirstPast(chain, es, es[0]);
      assert RemoveFirst(es, es[0]) == es[1..];
      NatRestored(chain, es[1..]);
    }
  }

  lemma {:induction false} RemoveFirstCount(chain: seq<NatEntry>, e: NatEntry)
    ensures multiset(RemoveFirst(chain, e)) == multiset(chain) - multiset{e}
  {
    if chain == [] {
    } else {
      assert chain == [chain[0]] + chain[1..];
      RemoveFirstCount(chain[1..], e);
    }
  }

  lemma {:induction false} RemoveEachCount(chain: seq<NatEntry>, es: seq<NatEntry>)
    ensures multiset(RemoveEach(chain, es)) == multiset(chain) - multiset(es)
    decreases |es|
  {
    if es == [] {
    } else {
      assert es == [es[0]] + es[1..];
      RemoveFirstCount(chain, es[0]);
      RemoveEachCount(RemoveFirst(chain, es[0]), es[1..]);
    }
  }

  /** Whatever was in the chain before, its entries and their number are restored. */
  lemma NatConserved(chain: seq<NatEntry>, es: seq<NatEntry>)
    ensures multiset(RemoveEach(chain + es, es)) == multiset(chain)
  {
    RemoveEachCount(chain + es, es);
  }

  lemma {:induction false} RemoveEachAppend(chain: seq<NatEntry>, es: seq<NatEntry>, fs: seq<NatEntry>)
    ensures RemoveEach(chain, es + fs) == RemoveEach(RemoveEach(chain, es), fs)
    decreases |es|
  {
    if es == [] {
      assert es + fs == fs;
    } else {
      assert (es + fs)[1..] == es[1..] + fs;
      RemoveEachAppend(RemoveFirst(chain, es[0]), es[1..], fs);
    }
  }

  function SnatEntry(remoteGateway: string, vpnPodIP: string, loadBalancerIP: string): NatEntry {
    if vpnPodIP != "" then SourceNat(remoteGateway, vpnPodIP, loadBalancerIP) else Masquerade(remoteGateway)
  }

  // ---------- what the entries do to packets ----------

  /** A packet that leaves the node. */
  datatype Datagram = Datagram(src: nat, dst: nat, udp: bool)

  /** The source address it leaves with: its own, a given one, or the node's address on the interface used. */
  datatype Source = Unchanged | To(address: nat) | NodeAddress

  /** An address or a subnet in an entry; an entry with any other text is refused and matches nothing. */
  predicate AddrMatches(text: string, a: nat) {
    if ParseIP(text).Some? then ParseIP(text).value == a
    else ParseCIDR(text).Some? && InNet(a, ParseCIDR(text).value.net)
  }

  predicate EntryMatches(e: NatEntry, p: Datagram) {
    match e
    case SourceNat(dest, src, to) => p.udp && AddrMatches(dest, p.dst) && AddrMatches(src, p.src) && ParseIP(to).Some?
    case Masquerade(dest) => AddrMatches(dest, p.dst)
  }

  /** The first entry that matches decides. */
  function SourceAfter(chain: seq<NatEntry>, p: Datagram): Source {
    if chain == [] then Unchanged
    else if EntryMatches(chain[0], p) then
      if chain[0].SourceNat? then To(ParseIP(chain[0].to).value) else NodeAddress
    else SourceAfter(chain[1..], p)
  }

  predicate NoneMatches(chain: seq<NatEntry>, p: Datagram) {
    forall e | e in chain :: !EntryMatches(e, p)
  }

  lemma {:induction false} SourceAfterPrefix(chain: seq<NatEntry>, es: seq<NatEntry>, p: Datagram)
    requires NoneMatches(chain, p)
    ensures SourceAfter(chain + es, p) == SourceAfter(es, p)
  {
    if chain == [] {
      assert chain + es == es;
    } else {
      assert (chain + es)[1..] == chain[1..] + es;
      SourceAfterPrefix(chain[1..], es, p);
    }
  }

  /** What the last two entries decide: the pod's IKE traffic gets the load balancer's address, the rest the node's. */
  lemma LastTwoDecide(gateway: string, pod: string, lb: string, p: Datagram)
    requires ParseIP(gateway) == Some(p.dst) && ParseIP(pod).Some? && ParseIP(lb).Some?
    ensures SourceAfter([SourceNat(gateway, pod, lb), Masquerade(gateway)], p)
            == if p.udp && p.src == ParseIP(pod).value then To(ParseIP(lb).value) else NodeAddress
  {
    var es := [SourceNat(gateway, pod, lb), Masquerade(gateway)];
    assert es[1..] == [Masquerade(gateway)];
    assert SourceAfter(es[1..], p) == NodeAddress;
  }

  /**
   The two calls of `ConfigureSNAT` on the VPN node: unless an older entry decides, UDP from the pod to the gateway
   leaves with the address of the load balancer, and everything else to the gateway with the node's.
   */
  lemma SnatTranslates(chain: seq<NatEntry>, gateway: string, pod: string, lb: string, p: Datagram)
    requires ParseIP(gateway) == Some(p.dst) && ParseIP(pod).Some? && ParseIP(lb).Some? && NoneMatches(chain, p)
    ensures var first := ChangeNat(Add, chain, [SnatEntry(gateway, pod, lb)]);
            SourceAfter(ChangeNat(Add, first, [SnatEntry(gateway, "", "")]), p)
            == if p.udp && p.src == ParseIP(pod).value then To(ParseIP(lb).value) else NodeAddress
  {
    IPChars(pod);
    var es := [SourceNat(gateway, pod, lb), Masquerade(gateway)];
    assert chain + [es[0]] + [es[1]] == chain + es;
    SourceAfterPrefix(chain, es, p);
    LastTwoDecide(gateway, pod, lb, p);
  }

  // ---------- read-only searches ----------

  predicate AddrInList(ip: nat, list: seq<string>) {
    exists p | p in list :: ParseCIDR(p).Some? && InNet(ip, ParseCIDR(p).value.net)
  }

  method IsAddrInSubnet(ipAddr: string, subnets: string) returns (found: bool)
    ensures found <==> ParseIP(ipAddr).Some? && AddrInList(ParseIP(ipAddr).value, Split(subnets, ','))
  {
    var ip := ParseIP(ipAddr);
    found := false;
    if ip.Some? {
      var list := Split(subnets, ',');
      for i := 0 to |list|
        invariant !AddrInList(ip.value, list[..i])
      {
        var net := ParseCIDR(list[i]);
        if net.Some? && InNet(ip.value, net.value.net) {
          assert list[i] in list;
          return true;
        }
        assert list[..i + 1] == list[..i] + [list[i]];
      }
      assert list[..|list|] == list;
    }
  }

  predicate TunnelTo(net: Net, route: RoutingInfo) {
    route.dev == "tunl0" && ParseIP(route.via).Some? && InNet(ParseIP(route.via).value, net)
  }

  predicate TunnelNeeded(localSubnet: string, table: seq<RoutingInfo>) {
    ParseCIDR(localSubnet).Some? && exists r | r in table :: TunnelTo(ParseCIDR(localSubnet).value.net, r)
  }

  method TunnelNeededToReachSubnet(localSubnet: string, routingTable: seq<RoutingInfo>) returns (needed: bool)
    ensures needed <==> TunnelNeeded(localSubnet, routingTable)
  {
    var net := ParseCIDR(localSubnet);
    if net.None? {
      return false;
    }
    for i := 0 to |routingTable|
      invariant forall j :: 0 <= j < i ==> !TunnelTo(net.value.net, routingTable[j])
    {
      if routingTable[i].dev == "tunl0" {
        var via := ParseIP(routingTable[i].via);
        if via.Some? && InNet(via.value, net.value.net) {
          assert TunnelTo(net.value.net, routingTable[i]) && routingTable[i] in routingTable;
          return true;
        }
      }
    }
    needed := false;
  }

  // ---------- the node ----------

  class Host {
    var routes: Routes
    var rules: set<Rule>
    var chain: seq<NatEntry>

    ghost function State(): HostState
      reads this
    {
      HostState(routes, rules, chain)
    }

    constructor (routes: Routes, rules: set<Rule>, chain: seq<NatEntry>)
      ensures State() == HostState(routes, rules, chain)
    {
      this.routes, this.rules, this.chain := routes, rules, chain;
    }

    method UpdateRoute(action: Action, dest: Cidr, table: string, hop: NextHop)
      modifies this`routes
      ensures routes == ChangeRoutes(action, old(routes), DestKey(dest, table), hop)
    {
      if dest.ip == dest.net.base {
        var key := RouteKey(table, dest.net);
        if action == Add && key !in routes {
          routes := routes[key := hop];
        } else if action == Delete && key in routes && routes[key] == hop {
          routes := routes - {key};
        }
      }
    }

    method RouteRemoteSubnet(action: Action, remoteSubnet: string, table: string, hop: NextHop)
      modifies this`routes
      ensures routes == ChangeRoutes(action, old(routes), ListKeys(Split(remoteSubnet, ','), table), hop)
    {
      var list := Split(remoteSubnet, ',');
      for i := 0 to |list|
        invariant routes == ChangeRoutes(action, old(routes), ListKeys(list[..i], table), hop)
      {
        var net := ParseCIDR(list[i]);
        assert list[..i + 1] == list[..i] + [list[i]];
        if net.Some? {
          var dest := Cidr(net.value.net.base, net.value.net);
          assert ListKeys(list[..i + 1], table) == ListKeys(list[..i], table) + DestKey(dest, table);
          ChangeRoutesTwice(action, old(routes), ListKeys(list[..i], table), DestKey(dest, table), hop);
          UpdateRoute(action, dest, table, hop);
        } else {
          assert ListKeys(list[..i + 1], table) == ListKeys(list[..i], table);
        }
      }
      assert list[..|list|] == list;
    }

    method RoutesExist(table: string) returns (exist: bool)
      ensures exist <==> HasRoutes(routes, table)
    {
      exist := false;
      var lines := routes.Keys;
      while lines != {}
        invariant lines <= routes.Keys
        invariant exist <==> exists k | k in routes.Keys - lines :: k.table == table
      {
        var k :| k in lines;
        if k.table == table {
          assert k in routes.Keys - (lines - {k});
          exist := true;
        }
        lines := lines - {k};
      }
    }

    method RuleListed(table: string, src: string) returns (found: bool)
      ensures found <==> Found(rules, table, src)
    {
      found := false;
      var lines := rules;
      while lines != {}
        invariant lines <= rules
        invariant found <==> exists r | r in rules - lines :: LineMatches(RuleLine(r), table, src)
      {
        var r :| r in lines;
        if LineMatches(RuleLine(r), table, src) {
          assert r in rules - (lines - {r});
          found := true;
        }
        lines := lines - {r};
      }
    }

    method UpdateRouteRule(action: Action, fromSource: string, table: string)
      modifies this`rules
      ensures rules == ChangeRule(action, old(rules), TrimSuffix(fromSource, "/32"), table, HasRoutes(routes, table))
    {
      var src := TrimSuffix(fromSource, "/32");
      var foundRule := RuleListed(table, src);
      var routesExist := false;
      if action == Delete {
        routesExist := RoutesExist(table);
      }
      if action == Add {
        if foundRule {
          return;
        }
        rules := rules + {Rule(table, src, table)};
      }
      if action == Delete {
        if !foundRule || (routesExist && src == "all") {
          return;
        }
        rules := set r | r in rules && !(r.src == src && r.table == table);
      }
    }

    method ConfigureSNAT(action: Action, remoteGateway: string, vpnPodIP: string, loadBalancerIP: string)
      modifies this`chain
      ensures chain == ChangeNat(action, old(chain), [SnatEntry(remoteGateway, vpnPodIP, loadBalancerIP)])
    {
      var e := SnatEntry(remoteGateway, vpnPodIP, loadBalancerIP);
      assert [e][1..] == [];
      if action == Add {
        chain := chain + [e];
      } else {
        assert RemoveEach(chain, [e]) == RemoveEach(RemoveFirst(chain, e), []);
        chain := RemoveFirst(chain, e);
      }
    }
  }
}

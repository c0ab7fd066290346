/**
 Calico IPPools created and deleted by overlapping VPN pods (strongswan/calicoCmd.sh:51-67,
 strongswan/strongswan.go:283-308 and 355-365).
 */
module IPPool {
  import opened Text
  import opened IPv4
  import opened Network
  import opened Remap
  import opened RouteMap
  import opened RoutePlan

  /** Pool names to their CIDR texts. */
  type Pools = map<string, string>

  // ---------- the shell script's text handling ----------

  /** `grep` reads the dots of the subnet as "any character". */
  predicate GrepMatches(pattern: string, cidr: string) {
    |pattern| == |cidr| && forall i | 0 <= i < |pattern| :: pattern[i] == '.' || pattern[i] == cidr[i]
  }

  function Count(s: string, c: char): nat {
    if s == "" then 0 else (if s[0] == c then 1 else 0) + Count(s[1..], c)
  }

  lemma {:induction false} CountAppend(a: string, b: string, c: char)
    ensures Count(a + b, c) == Count(a, c) + Count(b, c)
  {
    if a == "" {
      assert a + b == b;
    } else {
      assert (a + b)[1..] == a[1..] + b;
      CountAppend(a[1..], b, c);
    }
  }

  lemma {:induction false} CountAbsent(s: string, c: char)
    requires c !in s
    ensures Count(s, c) == 0
  {
    if s == "" {
    } else {
      CountAbsent(s[1..], c);
    }
  }

  lemma {:induction false} SplitCount(s: string, c: char)
    ensures |Split(s, c)| == Count(s, c) + 1
  {
    if s == "" {
    } else {
      SplitCount(s[1..], c);
    }
  }

  lemma CidrShape(s: string) returns (ip: string, mask: string)
    requires ParseCIDR(s).Some?
    ensures s == ip + ['/'] + mask && ParseIP(ip).Some? && AllDigits(mask) && '/' !in ip && '/' !in mask
  {
    JoinOfSplit(s, '/');
    SplitPartsClean(s, '/');
    var p := Split(s, '/');
    assert p[0] in p && p[1] in p && p[1..] == [p[1]];
    ip, mask := p[0], p[1];
  }

  lemma CidrDots(s: string)
    requires ParseCIDR(s).Some?
    ensures Count(s, '.') == 3
  {
    var ip, mask := CidrShape(s);
    CountAppend(ip + ['/'], mask, '.');
    CountAppend(ip, ['/'], '.');
    assert Count(['/'], '.') == Count(['/'][1..], '.') == 0;
    CountAbsent(mask, '.');
    SplitCount(ip, '.');
  }

  lemma {:induction false} GrepCounts(pattern: string, cidr: string)
    requires GrepMatches(pattern, cidr)
    ensures Count(cidr, '.') <= Count(pattern, '.')
    ensures Count(cidr, '.') == Count(pattern, '.') ==> cidr == pattern
  {
    if pattern == "" {
    } else {
      forall i | 0 <= i < |pattern[1..]| ensures pattern[1..][i] == '.' || pattern[1..][i] == cidr[1..][i] {
        assert pattern[1..][i] == pattern[i + 1] && cidr[1..][i] == cidr[i + 1];
      }
      GrepCounts(pattern[1..], cidr[1..]);
      assert pattern == [pattern[0]] + pattern[1..] && cidr == [cidr[0]] + cidr[1..];
    }
  }

  /** In spite of the wildcard dots, the lookup finds exactly the pool with this CIDR text. */
  lemma GrepIsEquality(pattern: string, cidr: string)
    requires ParseCIDR(pattern).Some? && ParseCIDR(cidr).Some?
    ensures GrepMatches(pattern, cidr) <==> pattern == cidr
  {
    CidrDots(pattern);
    CidrDots(cidr);
    if GrepMatches(pattern, cidr) {
      GrepCounts(pattern, cidr);
    }
  }

  /** `tr './' '-'`. */
  function Dash(s: string): string {
    seq(|s|, i requires 0 <= i < |s| => if s[i] == '.' || s[i] == '/' then '-' else s[i])
  }

  function PoolName(subnet: string, suffix: string): string {
    Dash(subnet) + "-" + suffix
  }

  /** The slash is the last of the characters that `tr` replaces. */
  lemma CidrChar(s: string, i: int)
    requires ParseCIDR(s).Some? && 0 <= i < |s|
    ensures s[i] == '/' <==> Dash(s)[i] == '-' && forall j :: i < j < |s| ==> Dash(s)[j] != '-'
    ensures s[i] == '/' || s[i] == '.' || IsDigit(s[i])
  {
    var ip, mask := CidrShape(s);
    assert s[|ip|] == '/' && Dash(s)[|ip|] == '-';
    forall j | |ip| < j < |s| ensures IsDigit(s[j]) && Dash(s)[j] == s[j] {
      assert s[j] == mask[j - |ip| - 1] && mask[j - |ip| - 1] in mask;
    }
    if i < |ip| {
      IPChars(ip);
      assert s[i] == ip[i] && ip[i] in ip;
    }
  }

  lemma DashInjective(s: string, t: string)
    requires ParseCIDR(s).Some? && ParseCIDR(t).Some? && Dash(s) == Dash(t)
    ensures s == t
  {
    assert |s| == |Dash(s)| == |t|;
    forall i | 0 <= i < |s| ensures s[i] == t[i] {
      CidrChar(s, i);
      CidrChar(t, i);
      assert Dash(s)[i] == Dash(t)[i];
    }
  }

  /** Pools of different pods or different subnets have different names. */
  lemma PoolNameInjective(s: string, x: string, t: string, y: string)
    requires ParseCIDR(s).Some? && ParseCIDR(t).Some? && '-' !in x && '-' !in y
    requires PoolName(s, x) == PoolName(t, y)
    ensures s == t && x == y
  {
    assert PoolName(s, x) == Dash(s) + ['-'] + x && PoolName(t, y) == Dash(t) + ['-'] + y;
    SplitConcat(Dash(s), '-', x);
    SplitConcat(Dash(t), '-', y);
    SplitCleanPart(x, '-');
    SplitCleanPart(y, '-');
    var f := Split(PoolName(s, x), '-');
    assert f[|f| - 1] == x && f[|f| - 1] == y;
    assert Dash(s) == PoolName(s, x)[..|PoolName(s, x)| - |x| - 1];
    assert Dash(t) == PoolName(t, y)[..|PoolName(t, y)| - |y| - 1];
    DashInjective(s, t);
  }

  // ---------- the commands ----------

  function Matching(pools: Pools, subnet: string): set<string> {
    set n | n in pools && GrepMatches(subnet, pools[n])
  }

  /** `createIPPool`: deleting works only when exactly one name was found. */
  function CreatePool(pools: Pools, subnet: string, suffix: string): Pools {
    var found := Matching(pools, subnet);
    (if |found| == 1 then pools - found else pools)[PoolName(subnet, suffix) := subnet]
  }

  function DeletePool(pools: Pools, subnet: string, suffix: string): Pools {
    pools - {PoolName(subnet, suffix)}
  }

  function CreateAll(pools: Pools, subnets: seq<string>, suffix: string): Pools {
    if subnets == [] then pools
    else CreatePool(CreateAll(pools, subnets[..|subnets| - 1], suffix), subnets[|subnets| - 1], suffix)
  }

  function DeleteAll(pools: Pools, subnets: seq<string>, suffix: string): Pools {
    pools - (set c | c in subnets :: PoolName(c, suffix))
  }

  function PoolSubnets(rightSubnet: string, remoteSubnetNAT: string): seq<string>
    requires remoteSubnetNAT != "" ==> WellSplit(remoteSubnetNAT)
  {
    Split(if remoteSubnetNAT == "" then rightSubnet else RemapText(rightSubnet, ParseRules(remoteSubnetNAT)), ',')
  }

  /** The pod's pools and every node's VPN routes cover the same networks. */
  lemma PoolsCoverRoutes(env: Env, d: RouteData)
    requires ValidEnv(env) && Complete(d) && !(OnVpnNode(env, d) && HostNetworking(d))
    ensures (set c | c in PoolSubnets(d.remoteSubnet, env.remoteSubnetNAT) && ParseCIDR(c).Some?
               :: ParseCIDR(c).value.net)
            == (set k | k in PlanOf(env, d).vpnKeys :: k.dest)
  {
    var list := PoolSubnets(d.remoteSubnet, env.remoteSubnetNAT);
    var keys := PlanOf(env, d).vpnKeys;
    forall c | c in list && ParseCIDR(c).Some? ensures exists k :: k in keys && k.dest == ParseCIDR(c).value.net {
      assert RouteKey(d.routeTable, ParseCIDR(c).value.net) in keys;
    }
  }

  class Calico {
    var pools: Pools

    constructor (pools: Pools)
      ensures this.pools == pools
    {
      this.pools := pools;
    }

    method CreateIPPool(subnet: string, suffix: string)
      modifies this
      ensures pools == CreatePool(old(pools), subnet, suffix)
    {
      var found := Matching(pools, subnet);
      if |found| == 1 {
        pools := pools - found;
      }
      pools := pools[PoolName(subnet, suffix) := subnet];
    }

    method DeleteIPPool(subnet: string, suffix: string)
      modifies this
      ensures pools == DeletePool(old(pools), subnet, suffix)
    {
      pools := pools - {PoolName(subnet, suffix)};
    }
  }

  class VpnPod {
    const calico: Calico
    const suffix: string
    var cleanupCalico: seq<string>

    constructor (calico: Calico, suffix: string)
      ensures this.calico == calico && this.suffix == suffix && cleanupCalico == []
    {
      this.calico, this.suffix := calico, suffix;
      cleanupCalico := [];
    }

    /** One pool per remote subnet after the remote NAT rules (strongswan.go:284-300). */
    method CreatePools(rightSubnet: string, remoteSubnetNAT: string)
      requires remoteSubnetNAT != "" ==> WellSplit(remoteSubnetNAT)
      modifies this`cleanupCalico, calico
      ensures var list := PoolSubnets(rightSubnet, remoteSubnetNAT);
              && calico.pools == CreateAll(old(calico.pools), list, suffix)
              && cleanupCalico == old(cleanupCalico) + list
    {
      var poolSubnets := RemapSubnets(rightSubnet, remoteSubnetNAT);
      var list := Split(poolSubnets, ',');
      for i := 0 to |list|
        invariant calico.pools == CreateAll(old(calico.pools), list[..i], suffix)
        invariant cleanupCalico == old(cleanupCalico) + list[..i]
      {
        assert list[..i + 1][..i] == list[..i];
        calico.CreateIPPool(list[i], suffix);
        cleanupCalico := cleanupCalico + [list[i]];
      }
      assert list[..|list|] == list;
    }

    /** The pool of the remote gateway, for traffic through the load balancer address (strongswan.go:303-307). */
    method CreateGatewayPool(remoteGateway: string)
      modifies this`cleanupCalico, calico
      ensures calico.pools == CreatePool(old(calico.pools), remoteGateway + "/32", suffix)
      ensures cleanupCalico == old(cleanupCalico) + [remoteGateway + "/32"]
    {
      calico.CreateIPPool(remoteGateway + "/32", suffix);
      cleanupCalico := cleanupCalico + [remoteGateway + "/32"];
    }

    method Cleanup()
      modifies this`cleanupCalico, calico
      ensures calico.pools == DeleteAll(old(calico.pools), old(cleanupCalico), suffix)
      ensures cleanupCalico == []
    {
      if |cleanupCalico| > 0 {
        for i := 0 to |cleanupCalico|
          invariant cleanupCalico == old(cleanupCalico)
          invariant calico.pools == DeleteAll(old(calico.pools), cleanupCalico[..i], suffix)
        {
          assert cleanupCalico[..i + 1] == cleanupCalico[..i] + [cleanupCalico[i]];
          calico.DeleteIPPool(cleanupCalico[i], suffix);
        }
        assert cleanupCalico[..|cleanupCalico|] == cleanupCalico;
        cleanupCalico := [];
      }
    }
  }

  // ---------- overlapping pods ----------

  datatype Event = CreateBy(suffix: string, subnet: string) | CleanupBy(suffix: string)

  datatype Cluster = Cluster(pools: Pools, lists: map<string, seq<string>>)

  function ListOf(s: Cluster, suffix: string): seq<string> {
    if suffix in s.lists then s.lists[suffix] else []
  }

  function Step(s: Cluster, e: Event): Cluster {
    match e
    case CreateBy(x, c) => Cluster(CreatePool(s.pools, c, x), s.lists[x := ListOf(s, x) + [c]])
    case CleanupBy(x) => Cluster(DeleteAll(s.pools, ListOf(s, x), x), s.lists[x := []])
  }

  function Run(s: Cluster, events: seq<Event>): Cluster {
    if events == [] then s else Step(Run(s, events[..|events| - 1]), events[|events| - 1])
  }

  function Creations(suffix: string, list: seq<string>): seq<Event> {
    seq(|list|, i requires 0 <= i < |list| => CreateBy(suffix, list[i]))
  }

  /** A pod's start is a run of creations. */
  lemma {:induction false} StartIsRun(s: Cluster, suffix: string, list: seq<string>)
    requires suffix in s.lists
    ensures var s' := Run(s, Creations(suffix, list));
            && s'.pools == CreateAll(s.pools, list, suffix)
            && s'.lists == s.lists[suffix := s.lists[suffix] + list]
    decreases |list|
  {
    if list == [] {
      assert s.lists[suffix] + list == s.lists[suffix];
    } else {
      var n := |list| - 1;
      StartIsRun(s, suffix, list[..n]);
      assert Creations(suffix, list)[..n] == Creations(suffix, list[..n]);
      assert list[..n] + [list[n]] == list;
      assert s.lists[suffix] + list[..n] + [list[n]] == s.lists[suffix] + list;
    }
  }

  /** Who owns the pool of each CIDR: its newest creator, until that pod cleans up. */
  type Owners = map<string, string>

  function OwnerStep(owners: Owners, e: Event): Owners {
    match e
    case CreateBy(x, c) => owners[c := PoolName(c, x)]
    case CleanupBy(x) => map c | c in owners && owners[c] != PoolName(c, x) :: owners[c]
  }

  function OwnerRun(owners: Owners, events: seq<Event>): Owners {
    if events == [] then owners else OwnerStep(OwnerRun(owners, events[..|events| - 1]), events[|events| - 1])
  }

  predicate ValidEvent(e: Event) {
    '-' !in e.suffix && (e.CreateBy? ==> ParseCIDR(e.subnet).Some?)
  }

  /** Exactly one pool per owned CIDR, under its owner's name. */
  ghost predicate Refines(pools: Pools, owners: Owners) {
    && (forall n :: n in pools ==> pools[n] in owners && owners[pools[n]] == n)
    && (forall c :: c in owners ==> owners[c] in pools && pools[owners[c]] == c && ParseCIDR(c).Some?)
  }

  predicate PodName(c: string, x: string) {
    ParseCIDR(c).Some? && '-' !in x
  }

  /** A name in a pod's style stands for its subnet, and that pod remembers to clean it up. */
  ghost predicate Remembered(s: Cluster) {
    && (forall c, x :: c in ListOf(s, x) ==> ParseCIDR(c).Some?)
    && (forall c, x :: PodName(c, x) && PoolName(c, x) in s.pools ==> s.pools[PoolName(c, x)] == c && c in ListOf(s, x))
  }

  lemma MatchingIsOwner(pools: Pools, owners: Owners, c: string)
    requires Refines(pools, owners) && ParseCIDR(c).Some?
    ensures Matching(pools, c) == if c in owners then {owners[c]} else {}
  {
    forall n | n in pools ensures GrepMatches(c, pools[n]) <==> pools[n] == c {
      GrepIsEquality(c, pools[n]);
    }
  }

  lemma CreateRefines(pools: Pools, owners: Owners, x: string, c: string)
    requires Refines(pools, owners) && PodName(c, x) && (PoolName(c, x) in pools ==> pools[PoolName(c, x)] == c)
    ensures var pools' := CreatePool(pools, c, x);
            && Refines(pools', OwnerStep(owners, CreateBy(x, c)))
            && forall n :: n in pools' <==> n == PoolName(c, x) || (n in pools && pools[n] != c)
  {
    MatchingIsOwner(pools, owners, c);
    var pools' := CreatePool(pools, c, x);
    assert forall n :: n in pools' <==> n == PoolName(c, x) || (n in pools && pools[n] != c);
  }

  lemma CreateRemembered(s: Cluster, owners: Owners, x: string, c: string)
    requires Refines(s.pools, owners) && Remembered(s) && PodName(c, x)
    ensures Remembered(Step(s, CreateBy(x, c)))
  {
    var s' := Step(s, CreateBy(x, c));
    CreateRefines(s.pools, owners, x, c);
    assert forall y, d :: d in ListOf(s', y) <==> d in ListOf(s, y) || (y == x && d == c);
    forall d, y | PodName(d, y) && PoolName(d, y) in s'.pools
      ensures s'.pools[PoolName(d, y)] == d && d in ListOf(s', y)
    {
      if PoolName(d, y) == PoolName(c, x) {
        PoolNameInjective(c, x, d, y);
      }
    }
  }

  /** A clean-up removes exactly the pools this pod still owns. */
  lemma CleanupRemovesOwn(s: Cluster, owners: Owners, x: string, n: string)
    requires Refines(s.pools, owners) && Remembered(s) && '-' !in x && n in s.pools
    ensures n in Step(s, CleanupBy(x)).pools <==> n != PoolName(s.pools[n], x)
  {
    var c, s' := s.pools[n], Step(s, CleanupBy(x));
    assert c in owners && ParseCIDR(c).Some?;
    if n == PoolName(c, x) {
      assert PodName(c, x) && c in ListOf(s, x);
    }
    assert forall d :: d in ListOf(s, x) && PoolName(d, x) in s.pools ==> PodName(d, x) && s.pools[PoolName(d, x)] == d;
  }

  lemma CleanupRefines(s: Cluster, owners: Owners, x: string)
    requires Refines(s.pools, owners) && Remembered(s) && '-' !in x
    ensures Refines(Step(s, CleanupBy(x)).pools, OwnerStep(owners, CleanupBy(x)))
  {
    var s', owners' := Step(s, CleanupBy(x)), OwnerStep(owners, CleanupBy(x));
    forall n | n in s'.pools ensures s'.pools[n] in owners' && owners'[s'.pools[n]] == n {
      CleanupRemovesOwn(s, owners, x, n);
    }
    forall c | c in owners' ensures owners'[c] in s'.pools && s'.pools[owners'[c]] == c {
      CleanupRemovesOwn(s, owners, x, owners[c]);
    }
  }

  lemma CleanupRemembered(s: Cluster, owners: Owners, x: string)
    requires Refines(s.pools, owners) && Remembered(s) && '-' !in x
    ensures Remembered(Step(s, CleanupBy(x)))
  {
    var s' := Step(s, CleanupBy(x));
    assert forall y :: ListOf(s', y) == if y == x then [] else ListOf(s, y);
    forall d, y | PodName(d, y) && PoolName(d, y) in s'.pools
      ensures s'.pools[PoolName(d, y)] == d && d in ListOf(s', y)
    {
      assert PoolName(d, y) in s.pools;
      CleanupRemovesOwn(s, owners, x, PoolName(d, y));
    }
  }

  ghost predicate ValidRun(events: seq<Event>) {
    forall e :: e in events ==> ValidEvent(e)
  }

  /**
   Over any interleaving of pod starts and cleanups there is exactly one pool per owned CIDR, under the name of
   its newest creator.
   */
  lemma {:induction false} PoolRuns(pools: Pools, owners: Owners, events: seq<Event>)
    requires Refines(pools, owners) && ValidRun(events)
    requires forall c, x :: PodName(c, x) ==> PoolName(c, x) !in pools
    ensures Refines(Run(Cluster(pools, map[]), events).pools, OwnerRun(owners, events))
    ensures Remembered(Run(Cluster(pools, map[]), events))
    decreases |events|
  {
    if events == [] {
    } else {
      var front, e := events[..|events| - 1], events[|events| - 1];
      assert e in events && ValidEvent(e);
      PoolRuns(pools, owners, front);
      var s := Run(Cluster(pools, map[]), front);
      match e
      case CreateBy(x, c) =>
        CreateRefines(s.pools, OwnerRun(owners, front), x, c);
        CreateRemembered(s, OwnerRun(owners, front), x, c);
      case CleanupBy(x) =>
        CleanupRefines(s, OwnerRun(owners, front), x);
        CleanupRemembered(s, OwnerRun(owners, front), x);
    }
  }

  lemma OnePoolPerSubnet(pools: Pools, owners: Owners, m: string, n: string)
    requires Refines(pools, owners) && m in pools && n in pools && pools[m] == pools[n]
    ensures m == n
  {
    assert owners[pools[m]] == m && owners[pools[n]] == n;
  }

  lemma OtherEventKeeps(owners: Owners, x: string, c: string, e: Event)
    requires PodName(c, x) && ValidEvent(e) && e != CleanupBy(x) && !(e.CreateBy? && e.subnet == c)
    requires c in owners && owners[c] == PoolName(c, x)
    ensures c in OwnerStep(owners, e) && OwnerStep(owners, e)[c] == PoolName(c, x)
  {
    if PoolName(c, e.suffix) == PoolName(c, x) {
      PoolNameInjective(c, x, c, e.suffix);
    }
  }

  lemma LastEvent(before: seq<Event>, later: seq<Event>, n: nat)
    requires n == |later| - 1
    ensures var all := before + later;
            all[..|all| - 1] == before + later[..n] && all[|all| - 1] == later[n]
  {
  }

  /** The newest creator's pool survives every other pod's cleanup and every creation of other subnets. */
  lemma {:induction false} NewestSurvives(owners: Owners, before: seq<Event>, x: string, c: string, later: seq<Event>)
    requires PodName(c, x) && ValidRun(later)
    requires forall e :: e in later ==> e != CleanupBy(x) && !(e.CreateBy? && e.subnet == c)
    ensures var end := OwnerRun(owners, before + [CreateBy(x, c)] + later);
            c in end && end[c] == PoolName(c, x)
    decreases |later|
  {
    var start := before + [CreateBy(x, c)];
    if later == [] {
      assert start + later == start && start[..|start| - 1] == before;
    } else {
      var n := |later| - 1;
      assert later[n] in later;
      NewestSurvives(owners, before, x, c, later[..n]);
      LastEvent(start, later, n);
      OtherEventKeeps(OwnerRun(owners, start + later[..n]), x, c, later[n]);
    }
  }

  /** So after the whole run the newest creator's pool is still there, with its CIDR. */
  lemma NewestPoolSurvives(pools: Pools, owners: Owners, before: seq<Event>, x: string, c: string, later: seq<Event>)
    requires Refines(pools, owners) && ValidRun(before + [CreateBy(x, c)] + later)
    requires forall d, y :: PodName(d, y) ==> PoolName(d, y) !in pools
    requires forall e :: e in later ==> e != CleanupBy(x) && !(e.CreateBy? && e.subnet == c)
    ensures var end := Run(Cluster(pools, map[]), before + [CreateBy(x, c)] + later).pools;
            PoolName(c, x) in end && end[PoolName(c, x)] == c
  {
    var all := before + [CreateBy(x, c)] + later;
    assert all[|before|] == CreateBy(x, c) && all[|before|] in all;
    forall e | e in later ensures ValidEvent(e) {
      assert e in all;
    }
    PoolRuns(pools, owners, all);
    NewestSurvives(owners, before, x, c, later);
  }

  /** A second cleanup by the same pod changes nothing, whatever happened before. */
  lemma SecondCleanup(s: Cluster, x: string)
    ensures Step(Step(s, CleanupBy(x)), CleanupBy(x)) == Step(s, CleanupBy(x))
  {
    var s1 := Step(s, CleanupBy(x));
    assert ListOf(s1, x) == [];
    assert DeleteAll(s1.pools, [], x) == s1.pools;
    assert s1.lists[x := []] == s1.lists;
  }
}

/** Address translation inside the VPN pod (network/net.go:38-62): the emitted rules and what they do to packets. */
module SubnetNat {
  import opened Text
  import opened IPv4
  import opened Remap

  datatype NatRule = NatRule(orig: Net, mapped: Net)

  datatype Chain = Prerouting | Postrouting

  datatype Target = Netmap(to: Net) | SourceTo(ip: nat)

  datatype Entry = Entry(chain: Chain, src: Net, dst: Net, target: Target)

  datatype Packet = Packet(src: nat, dst: nat)

  /** A block translated to one address: only outbound traffic is translated. */
  predicate ManyToOne(r: NatRule) {
    r.orig.len != 32 && r.mapped.len == 32
  }

  function EmitRule(r: NatRule, subject: Net): seq<Entry> {
    if ManyToOne(r) then [Entry(Postrouting, r.orig, subject, SourceTo(r.mapped.base))]
    else [Entry(Postrouting, r.orig, subject, Netmap(r.mapped)), Entry(Prerouting, subject, r.mapped, Netmap(r.orig))]
  }

  function EmitRules(rules: seq<NatRule>, subject: Net): seq<Entry> {
    if rules == [] then [] else EmitRule(rules[0], subject) + EmitRules(rules[1..], subject)
  }

  function Emit(rules: seq<NatRule>, subjects: seq<Net>): seq<Entry> {
    if subjects == [] then [] else EmitRules(rules, subjects[0]) + Emit(rules, subjects[1..])
  }

  // ---------- from the texts ----------

  predicate Parsed(m: Mapping) {
    ParseCIDR(m.orig).Some? && ParseCIDR(m.mapped).Some?
  }

  function RuleOf(m: Mapping): NatRule
    requires Parsed(m)
  {
    NatRule(ParseCIDR(m.orig).value.net, ParseCIDR(m.mapped).value.net)
  }

  /** The commands for one rule text and one subject text; a command with a text that is no network has no effect. */
  function EmitText(m: Mapping, subject: string): seq<Entry> {
    if ParseCIDR(m.orig).None? || ParseCIDR(m.mapped).None? || ParseCIDR(subject).None? then []
    else
      var orig, mapped, s := ParseCIDR(m.orig).value.net, ParseCIDR(m.mapped).value, ParseCIDR(subject).value.net;
      if !HasSuffix(m.orig, "/32") && HasSuffix(m.mapped, "/32") then [Entry(Postrouting, orig, s, SourceTo(mapped.ip))]
      else [Entry(Postrouting, orig, s, Netmap(mapped.net)), Entry(Prerouting, s, mapped.net, Netmap(orig))]
  }

  function EmitTextRules(rules: seq<Mapping>, subject: string): seq<Entry> {
    if rules == [] then [] else EmitText(rules[0], subject) + EmitTextRules(rules[1..], subject)
  }

  function EmitTexts(rules: seq<Mapping>, subjects: seq<string>): seq<Entry> {
    if subjects == [] then [] else EmitTextRules(rules, subjects[0]) + EmitTexts(rules, subjects[1..])
  }

  lemma {:induction false} EmitTextRulesAppend(rules: seq<Mapping>, r: Mapping, subject: string)
    ensures EmitTextRules(rules + [r], subject) == EmitTextRules(rules, subject) + EmitText(r, subject)
  {
    if rules == [] {
      assert (rules + [r])[1..] == [];
    } else {
      assert (rules + [r])[1..] == rules[1..] + [r];
      EmitTextRulesAppend(rules[1..], r, subject);
    }
  }

  lemma {:induction false} EmitTextsAppend(rules: seq<Mapping>, subjects: seq<string>, s: string)
    ensures EmitTexts(rules, subjects + [s]) == EmitTexts(rules, subjects) + EmitTextRules(rules, s)
  {
    if subjects == [] {
      assert (subjects + [s])[1..] == [];
    } else {
      assert (subjects + [s])[1..] == subjects[1..] + [s];
      EmitTextsAppend(rules, subjects[1..], s);
    }
  }

  lemma Regroup(xs: seq<Entry>, ys: seq<Entry>, zs: seq<Entry>)
    ensures xs + ys + zs == xs + (ys + zs)
  {
  }

  lemma RuleStep(before: seq<Entry>, rules: seq<Mapping>, subject: string, i: nat)
    requires i < |rules|
    ensures before + EmitTextRules(rules[..i], subject) + EmitText(rules[i], subject)
            == before + EmitTextRules(rules[..i + 1], subject)
  {
    assert rules[..i + 1] == rules[..i] + [rules[i]];
    EmitTextRulesAppend(rules[..i], rules[i], subject);
    Regroup(before, EmitTextRules(rules[..i], subject), EmitText(rules[i], subject));
  }

  lemma SubjectStep(before: seq<Entry>, rules: seq<Mapping>, subjects: seq<string>, i: nat)
    requires i < |subjects|
    ensures before + EmitTexts(rules, subjects[..i]) + EmitTextRules(rules, subjects[i])
            == before + EmitTexts(rules, subjects[..i + 1])
  {
    assert subjects[..i + 1] == subjects[..i] + [subjects[i]];
    EmitTextsAppend(rules, subjects[..i], subjects[i]);
    Regroup(before, EmitTexts(rules, subjects[..i]), EmitTextRules(rules, subjects[i]));
  }

  /** The subjects of the remote rules (strongswan/strongswan.go:254-271, without the single source address). */
  function SubjectList(left: string, localNAT: string): seq<string>
    requires localNAT != "" ==> WellSplit(localNAT) && Invertible(ParseRules(localNAT))
  {
    if localNAT == "" then Split(left, ',') else Subjects(left, ParseRules(localNAT))
  }

  function EmitFor(text: string, subjects: seq<string>): seq<Entry>
    requires text != "" ==> WellSplit(text)
  {
    if text == "" then [] else EmitTexts(ParseRules(text), subjects)
  }

  /** The NAT table of the VPN pod. */
  class PodNat {
    var entries: seq<Entry>

    constructor ()
      ensures entries == []
    {
      entries := [];
    }

    method ConfigureSubnetNAT(rulesNAT: string, subnetList: string)
      requires WellSplit(rulesNAT)
      modifies this
      ensures entries == old(entries) + EmitTexts(ParseRules(rulesNAT), Split(subnetList, ','))
    {
      var subjects := Split(subnetList, ',');
      for i := 0 to |subjects|
        invariant entries == old(entries) + EmitTexts(ParseRules(rulesNAT), subjects[..i])
      {
        ConfigureSubject(rulesNAT, subjects[i]);
        SubjectStep(old(entries), ParseRules(rulesNAT), subjects, i);
      }
      assert subjects[..|subjects|] == subjects;
    }

    /** The inner loop: all rules for one subject. */
    method ConfigureSubject(rulesNAT: string, subject: string)
      requires WellSplit(rulesNAT)
      modifies this
      ensures entries == old(entries) + EmitTextRules(ParseRules(rulesNAT), subject)
    {
      ghost var rules := ParseRules(rulesNAT);
      var parts := Split(rulesNAT, ',');
      for j := 0 to |parts|
        invariant entries == old(entries) + EmitTextRules(rules[..j], subject)
      {
        assert parts[j] in parts;
        var fields := Split(parts[j], '=');
        assert rules[j] == Mapping(fields[0], fields[1]);
        ConfigureRule(fields[0], fields[1], subject);
        RuleStep(old(entries), rules, subject, j);
      }
      assert rules[..|parts|] == rules;
    }

    method ConfigureRule(original: string, mapped: string, subject: string)
      modifies this
      ensures entries == old(entries) + EmitText(Mapping(original, mapped), subject)
    {
      var orig, to, s := ParseCIDR(original), ParseCIDR(mapped), ParseCIDR(subject);
      if orig.Some? && to.Some? && s.Some? {
        if !HasSuffix(original, "/32") && HasSuffix(mapped, "/32") {
          entries := entries + [Entry(Postrouting, orig.value.net, s.value.net, SourceTo(to.value.ip))];
        } else {
          entries := entries + [Entry(Postrouting, orig.value.net, s.value.net, Netmap(to.value.net))];
          entries := entries + [Entry(Prerouting, s.value.net, to.value.net, Netmap(orig.value.net))];
        }
      }
    }

    /** strongswan.go:248-276. */
    method ConfigurePod(left: string, right: string, localNAT: string, remoteNAT: string)
      requires localNAT != "" ==> WellSplit(localNAT) && Invertible(ParseRules(localNAT))
      requires remoteNAT != "" ==> WellSplit(remoteNAT)
      modifies this
      ensures entries == old(entries) + EmitFor(localNAT, Split(right, ','))
          + EmitFor(remoteNAT, SubjectList(left, localNAT))
    {
      assert old(entries) + [] == old(entries);
      if localNAT != "" {
        ConfigureSubnetNAT(localNAT, right);
      }
      ghost var middle := entries;
      assert middle + [] == middle;
      if remoteNAT != "" {
        var subjects := left;
        if localNAT != "" {
          subjects := BackTranslate(left, localNAT);
        }
        ConfigureSubnetNAT(remoteNAT, subjects);
      }
    }
  }

  // ---------- packets ----------

  predicate Matches(e: Entry, p: Packet) {
    InNet(p.src, e.src) && InNet(p.dst, e.dst)
  }

  /** NETMAP replaces the network bits and keeps the host bits. */
  function Translate(t: Target, a: nat): nat {
    match t
    case Netmap(to) => to.base + a % Size(to)
    case SourceTo(ip) => ip
  }

  function Rewrite(e: Entry, p: Packet): Packet {
    if e.chain == Prerouting then p.(dst := Translate(e.target, p.dst)) else p.(src := Translate(e.target, p.src))
  }

  /** The first matching entry of the chain decides. */
  function Through(entries: seq<Entry>, chain: Chain, p: Packet): Packet {
    if entries == [] then p
    else if entries[0].chain == chain && Matches(entries[0], p) then Rewrite(entries[0], p)
    else Through(entries[1..], chain, p)
  }

  function Traverse(entries: seq<Entry>, p: Packet): Packet {
    Through(entries, Postrouting, Through(entries, Prerouting, p))
  }

  function Reverse(p: Packet): Packet {
    Packet(p.dst, p.src)
  }

  lemma {:induction false} FirstMatchAgrees(entries: seq<Entry>, chain: Chain, p: Packet, q: Packet)
    requires exists e :: e in entries && e.chain == chain && Matches(e, p)
    requires forall e :: e in entries && e.chain == chain && Matches(e, p) ==> Rewrite(e, p) == q
    ensures Through(entries, chain, p) == q
  {
    assert entries[0] in entries;
    if !(entries[0].chain == chain && Matches(entries[0], p)) {
      assert entries == [entries[0]] + entries[1..];
      FirstMatchAgrees(entries[1..], chain, p, q);
    }
  }

  lemma {:induction false} EmitRulesMembers(rules: seq<NatRule>, subject: Net, e: Entry)
    ensures e in EmitRules(rules, subject) <==> exists r :: r in rules && e in EmitRule(r, subject)
  {
    if rules == [] {
    } else {
      assert rules == [rules[0]] + rules[1..];
      EmitRulesMembers(rules[1..], subject, e);
      if e in EmitRule(rules[0], subject) {
        assert rules[0] in rules;
      }
    }
  }

  lemma {:induction false} EmitMembers(rules: seq<NatRule>, subjects: seq<Net>, e: Entry)
    ensures e in Emit(rules, subjects) <==> exists r, s :: r in rules && s in subjects && e in EmitRule(r, s)
  {
    if subjects == [] {
    } else {
      assert subjects == [subjects[0]] + subjects[1..];
      EmitMembers(rules, subjects[1..], e);
      EmitRulesMembers(rules, subjects[0], e);
    }
  }

  predicate SameSize(r: NatRule) {
    Aligned(r.orig) && Aligned(r.mapped) && r.orig.len == r.mapped.len
  }

  predicate Covers(n: Net, m: Net) {
    n.base <= m.base && m.base + Size(m) <= n.base + Size(n)
  }

  /** Distinct rules of one list have disjoint originals and disjoint translations. */
  ghost predicate Apart(rules: seq<NatRule>) {
    && (forall r :: r in rules ==> SameSize(r))
    && (forall r, s :: r in rules && s in rules && r != s ==> Disjoint(r.orig, s.orig) && Disjoint(r.mapped, s.mapped))
  }

  /** The pod's rules: the local ones towards the remote subnets, the remote ones towards the local originals. */
  datatype PodRules = PodRules(local: seq<NatRule>, remote: seq<NatRule>, right: seq<Net>, inner: seq<Net>) {
    function Table(): seq<Entry> {
      Emit(local, right) + Emit(remote, inner)
    }

    /** Same-size rules, disjoint within each list, with translations that are disjoint altogether. */
    ghost predicate Basic() {
      && Apart(local) && Apart(remote)
      && (forall l, r :: l in local && r in remote ==> Disjoint(l.mapped, r.mapped))
    }

    /** Every remote original lies in a subnet behind the VPN, every local original in a subject of the remote rules. */
    ghost predicate Sound() {
      && Basic()
      && (forall r :: r in remote ==> exists s :: s in right && Covers(s, r.orig))
      && (forall l :: l in local ==> exists s :: s in inner && Covers(s, l.orig))
    }

    /** A packet that leaves with these addresses is taken by a local rule. */
    ghost predicate Caught(q: Packet) {
      exists l, s :: l in local && s in right && InNet(q.src, l.orig) && InNet(q.dst, s)
    }

    /** No packet between a remote original and a local one is taken by a local rule. */
    ghost predicate NoOverlap() {
      forall l, r, m, s :: l in local && r in remote && m in local && s in right
        ==> Disjoint(r.orig, m.orig) || Disjoint(l.orig, s)
    }
  }

  predicate FromRule(e: Entry, r: NatRule) {
    if e.chain == Prerouting then e.dst == r.mapped && e.target == Netmap(r.orig)
    else e.src == r.orig && e.target == Netmap(r.mapped)
  }

  lemma EmitOrigin(rules: seq<NatRule>, subjects: seq<Net>, e: Entry) returns (r: NatRule, s: Net)
    requires e in Emit(rules, subjects) && forall r :: r in rules ==> SameSize(r)
    ensures r in rules && s in subjects && FromRule(e, r) && (if e.chain == Prerouting then e.src else e.dst) == s
  {
    EmitMembers(rules, subjects, e);
    r, s :| r in rules && s in subjects && e in EmitRule(r, s);
  }

  lemma SharedAddress(a: nat, m: Net, n: Net)
    requires InNet(a, m) && InNet(a, n)
    ensures !Disjoint(m, n)
  {
  }

  lemma CommonAddress(m: Net, n: Net) returns (a: nat)
    requires !Disjoint(m, n)
    ensures InNet(a, m) && InNet(a, n)
  {
    a := if m.base < n.base then n.base else m.base;
  }

  /** The address of `a` in the block that replaces its own. */
  function Moved(a: nat, from: Net, to: Net): nat
    requires InNet(a, from)
  {
    to.base + (a - from.base)
  }

  /** The entries a same-size rule contributes for one of its subjects. */
  lemma RuleEntries(rules: seq<NatRule>, subjects: seq<Net>, r: NatRule, s: Net)
    requires r in rules && s in subjects && SameSize(r)
    ensures Entry(Postrouting, r.orig, s, Netmap(r.mapped)) in Emit(rules, subjects)
    ensures Entry(Prerouting, s, r.mapped, Netmap(r.orig)) in Emit(rules, subjects)
  {
    var post, pre := Entry(Postrouting, r.orig, s, Netmap(r.mapped)), Entry(Prerouting, s, r.mapped, Netmap(r.orig));
    assert EmitRule(r, s) == [post, pre];
    assert EmitRule(r, s)[0] == post && EmitRule(r, s)[1] == pre;
    EmitMembers(rules, subjects, post);
    EmitMembers(rules, subjects, pre);
  }

  ghost predicate MatchedIn(entries: seq<Entry>, chain: Chain, p: Packet) {
    exists e :: e in entries && e.chain == chain && Matches(e, p)
  }

  lemma {:induction false} ThroughConcat(xs: seq<Entry>, ys: seq<Entry>, chain: Chain, p: Packet)
    ensures Through(xs + ys, chain, p) == if MatchedIn(xs, chain, p) then Through(xs, chain, p)
                                          else Through(ys, chain, p)
  {
    if xs == [] {
      assert xs + ys == ys;
    } else {
      assert (xs + ys)[1..] == xs[1..] + ys && xs == [xs[0]] + xs[1..];
      ThroughConcat(xs[1..], ys, chain, p);
      if MatchedIn(xs[1..], chain, p) {
        var e :| e in xs[1..] && e.chain == chain && Matches(e, p);
        assert e in xs;
      }
    }
  }

  lemma {:induction false} ThroughUnmatched(entries: seq<Entry>, chain: Chain, p: Packet)
    requires !MatchedIn(entries, chain, p)
    ensures Through(entries, chain, p) == p
  {
    if entries == [] {
    } else {
      assert entries[0] in entries;
      forall e | e in entries[1..] ensures !(e.chain == chain && Matches(e, p)) {
        assert e in entries;
      }
      ThroughUnmatched(entries[1..], chain, p);
    }
  }

  // ---------- one list of rules ----------

  /** Which packets the destination entries of a list match, and what they do to them. */
  lemma ListPrerouting(rules: seq<NatRule>, subjects: seq<Net>, r: NatRule, p: Packet)
    requires Apart(rules) && r in rules && InNet(p.dst, r.mapped)
    ensures MatchedIn(Emit(rules, subjects), Prerouting, p) <==> exists s :: s in subjects && InNet(p.src, s)
    ensures MatchedIn(Emit(rules, subjects), Prerouting, p)
            ==> Through(Emit(rules, subjects), Prerouting, p) == Packet(p.src, Moved(p.dst, r.mapped, r.orig))
  {
    OffsetIsRemainder(p.dst, r.mapped);
    var q := Packet(p.src, Moved(p.dst, r.mapped, r.orig));
    forall e | e in Emit(rules, subjects) && e.chain == Prerouting && Matches(e, p)
      ensures Rewrite(e, p) == q && exists s :: s in subjects && InNet(p.src, s)
    {
      var x, s := EmitOrigin(rules, subjects, e);
      SharedAddress(p.dst, r.mapped, x.mapped);
      assert s in subjects && InNet(p.src, s);
    }
    if s :| s in subjects && InNet(p.src, s) {
      RuleEntries(rules, subjects, r, s);
      assert Matches(Entry(Prerouting, s, r.mapped, Netmap(r.orig)), p);
    }
    if MatchedIn(Emit(rules, subjects), Prerouting, p) {
      FirstMatchAgrees(Emit(rules, subjects), Prerouting, p, q);
    }
  }

  lemma ListPostrouting(rules: seq<NatRule>, subjects: seq<Net>, r: NatRule, p: Packet)
    requires Apart(rules) && r in rules && InNet(p.src, r.orig)
    ensures MatchedIn(Emit(rules, subjects), Postrouting, p) <==> exists s :: s in subjects && InNet(p.dst, s)
    ensures MatchedIn(Emit(rules, subjects), Postrouting, p)
            ==> Through(Emit(rules, subjects), Postrouting, p) == Packet(Moved(p.src, r.orig, r.mapped), p.dst)
  {
    OffsetIsRemainder(p.src, r.orig);
    var q := Packet(Moved(p.src, r.orig, r.mapped), p.dst);
    forall e | e in Emit(rules, subjects) && e.chain == Postrouting && Matches(e, p)
      ensures Rewrite(e, p) == q && exists s :: s in subjects && InNet(p.dst, s)
    {
      var x, s := EmitOrigin(rules, subjects, e);
      SharedAddress(p.src, r.orig, x.orig);
      assert s in subjects && InNet(p.dst, s);
    }
    if s :| s in subjects && InNet(p.dst, s) {
      RuleEntries(rules, subjects, r, s);
      assert Matches(Entry(Postrouting, r.orig, s, Netmap(r.mapped)), p);
    }
    if MatchedIn(Emit(rules, subjects), Postrouting, p) {
      FirstMatchAgrees(Emit(rules, subjects), Postrouting, p, q);
    }
  }

  /** A destination outside all translations, or a source outside all originals, is left to the other list. */
  lemma ListIgnores(rules: seq<NatRule>, subjects: seq<Net>, p: Packet)
    requires forall r :: r in rules ==> SameSize(r)
    ensures (forall r :: r in rules ==> !InNet(p.dst, r.mapped)) ==> !MatchedIn(Emit(rules, subjects), Prerouting, p)
    ensures (forall r :: r in rules ==> !InNet(p.src, r.orig)) ==> !MatchedIn(Emit(rules, subjects), Postrouting, p)
  {
    forall e | e in Emit(rules, subjects) && Matches(e, p)
      ensures exists r :: r in rules && (if e.chain == Prerouting then InNet(p.dst, r.mapped) else InNet(p.src, r.orig))
    {
      var r, s := EmitOrigin(rules, subjects, e);
      assert if e.chain == Prerouting then InNet(p.dst, r.mapped) else InNet(p.src, r.orig);
    }
  }

  // ---------- both lists ----------

  /** The destination of a packet to a remote translation. */
  lemma RemoteDestination(c: PodRules, r: NatRule, p: Packet)
    requires c.Basic() && r in c.remote && InNet(p.dst, r.mapped) && exists s :: s in c.inner && InNet(p.src, s)
    ensures Through(c.Table(), Prerouting, p) == Packet(p.src, Moved(p.dst, r.mapped, r.orig))
  {
    forall l | l in c.local ensures !InNet(p.dst, l.mapped) {
      if InNet(p.dst, l.mapped) {
        SharedAddress(p.dst, l.mapped, r.mapped);
      }
    }
    ListIgnores(c.local, c.right, p);
    ThroughConcat(Emit(c.local, c.right), Emit(c.remote, c.inner), Prerouting, p);
    ListPrerouting(c.remote, c.inner, r, p);
  }

  /** The destination of a packet to a local translation. */
  lemma LocalDestination(c: PodRules, l: NatRule, p: Packet)
    requires c.Basic() && l in c.local && InNet(p.dst, l.mapped) && exists s :: s in c.right && InNet(p.src, s)
    ensures Through(c.Table(), Prerouting, p) == Packet(p.src, Moved(p.dst, l.mapped, l.orig))
  {
    ThroughConcat(Emit(c.local, c.right), Emit(c.remote, c.inner), Prerouting, p);
    ListPrerouting(c.local, c.right, l, p);
  }

  /** The source of a packet from a local original: the local rules come first. */
  lemma LocalSource(c: PodRules, l: NatRule, p: Packet)
    requires c.Basic() && l in c.local && InNet(p.src, l.orig) && exists s :: s in c.right && InNet(p.dst, s)
    ensures Through(c.Table(), Postrouting, p) == Packet(Moved(p.src, l.orig, l.mapped), p.dst)
  {
    ThroughConcat(Emit(c.local, c.right), Emit(c.remote, c.inner), Postrouting, p);
    ListPostrouting(c.local, c.right, l, p);
  }

  /** The source of a packet from a remote original: exactly when no local rule takes it. */
  lemma RemoteSource(c: PodRules, r: NatRule, p: Packet)
    requires c.Basic() && r in c.remote && InNet(p.src, r.orig) && exists s :: s in c.inner && InNet(p.dst, s)
    ensures Through(c.Table(), Postrouting, p) == Packet(Moved(p.src, r.orig, r.mapped), p.dst) <==> !c.Caught(p)
  {
    if c.Caught(p) {
      CaughtSource(c, r, p);
    } else {
      NotCaughtUnmatched(c, p);
      ThroughConcat(Emit(c.local, c.right), Emit(c.remote, c.inner), Postrouting, p);
      ListPostrouting(c.remote, c.inner, r, p);
    }
  }

  lemma CaughtSource(c: PodRules, r: NatRule, p: Packet)
    requires c.Basic() && r in c.remote && InNet(p.src, r.orig) && c.Caught(p)
    ensures Through(c.Table(), Postrouting, p) != Packet(Moved(p.src, r.orig, r.mapped), p.dst)
  {
    var l, s :| l in c.local && s in c.right && InNet(p.src, l.orig) && InNet(p.dst, s);
    assert Through(c.Table(), Postrouting, p) == Packet(Moved(p.src, l.orig, l.mapped), p.dst) by {
      LocalSource(c, l, p);
    }
    SameSizes(c, l, r);
    DifferentSources(l, r, p.src);
  }

  lemma DifferentSources(l: NatRule, r: NatRule, a: nat)
    requires SameSize(l) && SameSize(r) && Disjoint(l.mapped, r.mapped) && InNet(a, l.orig) && InNet(a, r.orig)
    ensures Moved(a, l.orig, l.mapped) != Moved(a, r.orig, r.mapped)
  {
  }

  lemma NotCaughtUnmatched(c: PodRules, p: Packet)
    requires c.Basic() && !c.Caught(p)
    ensures !MatchedIn(Emit(c.local, c.right), Postrouting, p)
  {
    forall e | e in Emit(c.local, c.right) && e.chain == Postrouting ensures !Matches(e, p) {
      var l, s := EmitOrigin(c.local, c.right, e);
    }
  }

  lemma Covered(c: PodRules, l: NatRule, r: NatRule, a: nat, b: nat)
    requires c.Sound() && l in c.local && r in c.remote && InNet(a, l.orig) && InNet(b, r.orig)
    ensures SameSize(l) && SameSize(r)
    ensures (exists s :: s in c.inner && InNet(a, s)) && (exists s :: s in c.right && InNet(b, s))
  {
    var s :| s in c.inner && Covers(s, l.orig);
    assert InNet(a, s);
    var t :| t in c.right && Covers(t, r.orig);
    assert InNet(b, t);
  }

  lemma SameSizes(c: PodRules, l: NatRule, r: NatRule)
    requires c.Basic() && l in c.local && r in c.remote
    ensures SameSize(l) && SameSize(r) && Disjoint(l.mapped, r.mapped)
  {
  }

  /** Local original to remote translated leaves as local translated to remote original, with the same host offsets. */
  lemma Outbound(c: PodRules, l: NatRule, r: NatRule, p: Packet)
    requires c.Sound() && l in c.local && r in c.remote && InNet(p.src, l.orig) && InNet(p.dst, r.mapped)
    ensures Traverse(c.Table(), p) == Packet(Moved(p.src, l.orig, l.mapped), Moved(p.dst, r.mapped, r.orig))
  {
    SameSizes(c, l, r);
    var q := Packet(p.src, Moved(p.dst, r.mapped, r.orig));
    Covered(c, l, r, q.src, q.dst);
    RemoteDestination(c, r, p);
    LocalSource(c, l, q);
  }

  /**
   Remote original to local translated arrives as remote translated to local original, exactly when no local rule
   takes the packet after its destination was translated.
   */
  lemma Inbound(c: PodRules, l: NatRule, r: NatRule, p: Packet)
    requires c.Sound() && l in c.local && r in c.remote && InNet(p.src, r.orig) && InNet(p.dst, l.mapped)
    ensures Traverse(c.Table(), p) == Packet(Moved(p.src, r.orig, r.mapped), Moved(p.dst, l.mapped, l.orig))
            <==> !c.Caught(Packet(p.src, Moved(p.dst, l.mapped, l.orig)))
  {
    SameSizes(c, l, r);
    var q := Packet(p.src, Moved(p.dst, l.mapped, l.orig));
    Covered(c, l, r, q.dst, q.src);
    LocalDestination(c, l, p);
    RemoteSource(c, r, q);
  }

  /** Without connection tracking: the reply comes back to exactly the starting pair when it is not caught itself. */
  lemma RoundTrip(c: PodRules, l: NatRule, r: NatRule, p: Packet)
    requires c.Sound() && l in c.local && r in c.remote && InNet(p.src, l.orig) && InNet(p.dst, r.mapped)
    ensures Traverse(c.Table(), Reverse(Traverse(c.Table(), p))) == Reverse(p)
            <==> !c.Caught(Packet(Moved(p.dst, r.mapped, r.orig), p.src))
  {
    SameSizes(c, l, r);
    Outbound(c, l, r, p);
    var back := Packet(Moved(p.dst, r.mapped, r.orig), Moved(p.src, l.orig, l.mapped));
    Inbound(c, l, r, back);
    assert Moved(back.dst, l.mapped, l.orig) == p.src && Moved(back.src, r.orig, r.mapped) == p.dst;
  }

  // ---------- originals that no subject covers ----------

  lemma {:induction false} PostroutingKeepsDestination(entries: seq<Entry>, p: Packet)
    ensures Through(entries, Postrouting, p).dst == p.dst
  {
    if entries == [] {
    } else if !(entries[0].chain == Postrouting && Matches(entries[0], p)) {
      PostroutingKeepsDestination(entries[1..], p);
    }
  }

  ghost predicate InSome(nets: seq<Net>, a: nat) {
    exists s :: s in nets && InNet(a, s)
  }

  /** A local original that no subject contains: the destination of its packets is not translated. */
  lemma LostOriginal(c: PodRules, r: NatRule, p: Packet)
    requires c.Basic() && r in c.remote && InNet(p.dst, r.mapped) && !InSome(c.inner, p.src)
    ensures Through(c.Table(), Prerouting, p) == p && Traverse(c.Table(), p).dst == p.dst
  {
    forall l | l in c.local ensures !InNet(p.dst, l.mapped) {
      if InNet(p.dst, l.mapped) {
        SharedAddress(p.dst, l.mapped, r.mapped);
      }
    }
    ListIgnores(c.local, c.right, p);
    ThroughConcat(Emit(c.local, c.right), Emit(c.remote, c.inner), Prerouting, p);
    ListPrerouting(c.remote, c.inner, r, p);
    ThroughUnmatched(Emit(c.remote, c.inner), Prerouting, p);
    PostroutingKeepsDestination(c.Table(), p);
  }

  /** A connection from a network that is not behind the VPN: its destination is not translated. */
  lemma UnknownSource(c: PodRules, l: NatRule, p: Packet)
    requires c.Basic() && l in c.local && InNet(p.dst, l.mapped) && !InSome(c.right, p.src)
    ensures Through(c.Table(), Prerouting, p) == p && Traverse(c.Table(), p).dst == p.dst
  {
    forall r | r in c.remote ensures !InNet(p.dst, r.mapped) {
      if InNet(p.dst, r.mapped) {
        SharedAddress(p.dst, l.mapped, r.mapped);
      }
    }
    ListIgnores(c.remote, c.inner, p);
    ListPrerouting(c.local, c.right, l, p);
    ThroughConcat(Emit(c.local, c.right), Emit(c.remote, c.inner), Prerouting, p);
    ThroughUnmatched(Emit(c.remote, c.inner), Prerouting, p);
    PostroutingKeepsDestination(c.Table(), p);
  }

  /** A list leaves the source alone or moves it into one of its translations. */
  lemma ListSources(rules: seq<NatRule>, subjects: seq<Net>, p: Packet)
    requires Apart(rules)
    ensures var q := Through(Emit(rules, subjects), Postrouting, p);
            q.src == p.src || exists r :: r in rules && InNet(q.src, r.mapped)
  {
    if MatchedIn(Emit(rules, subjects), Postrouting, p) {
      var e :| e in Emit(rules, subjects) && e.chain == Postrouting && Matches(e, p);
      var r, s := EmitOrigin(rules, subjects, e);
      ListPostrouting(rules, subjects, r, p);
    } else {
      ThroughUnmatched(Emit(rules, subjects), Postrouting, p);
    }
  }

  /** When no local rule applies to the destination, the source does not become the local translation. */
  lemma SourceNotTranslated(c: PodRules, l: NatRule, q: Packet)
    requires c.Basic() && l in c.local && InNet(q.src, l.orig) && !InSome(c.right, q.dst)
    requires l.orig.base != l.mapped.base
    ensures SameSize(l) && Through(c.Table(), Postrouting, q).src != Moved(q.src, l.orig, l.mapped)
  {
    ListPostrouting(c.local, c.right, l, q);
    ThroughConcat(Emit(c.local, c.right), Emit(c.remote, c.inner), Postrouting, q);
    ListSources(c.remote, c.inner, q);
    var x := Through(c.Table(), Postrouting, q).src;
    if r :| r in c.remote && InNet(x, r.mapped) {
      if x == Moved(q.src, l.orig, l.mapped) {
        SharedAddress(x, l.mapped, r.mapped);
      }
    }
  }

  /**
   Whatever the subjects are: a packet from a local original to a remote translation leaves as intended exactly when
   some subject contains its source and some subnet behind the VPN its translated destination.
   */
  lemma OutboundExactly(c: PodRules, l: NatRule, r: NatRule, p: Packet)
    requires c.Basic() && l in c.local && r in c.remote && InNet(p.src, l.orig) && InNet(p.dst, r.mapped)
    requires l.orig.base != l.mapped.base && r.orig.base != r.mapped.base
    ensures Traverse(c.Table(), p) == Packet(Moved(p.src, l.orig, l.mapped), Moved(p.dst, r.mapped, r.orig))
            <==> InSome(c.inner, p.src) && InSome(c.right, Moved(p.dst, r.mapped, r.orig))
  {
    SameSizes(c, l, r);
    var q := Packet(p.src, Moved(p.dst, r.mapped, r.orig));
    if !InSome(c.inner, p.src) {
      LostOriginal(c, r, p);
    } else {
      RemoteDestination(c, r, p);
      if InSome(c.right, q.dst) {
        LocalSource(c, l, q);
      } else {
        SourceNotTranslated(c, l, q);
      }
    }
  }

  /** The source of a packet to a destination that no subject contains. */
  lemma RemoteSourceUncovered(c: PodRules, r: NatRule, q: Packet)
    requires c.Basic() && r in c.remote && InNet(q.src, r.orig) && !InSome(c.inner, q.dst)
    requires r.orig.base != r.mapped.base
    ensures SameSize(r) && Through(c.Table(), Postrouting, q) != Packet(Moved(q.src, r.orig, r.mapped), q.dst)
  {
    if c.Caught(q) {
      CaughtSource(c, r, q);
    } else {
      NotCaughtUnmatched(c, q);
      ThroughConcat(Emit(c.local, c.right), Emit(c.remote, c.inner), Postrouting, q);
      ListPostrouting(c.remote, c.inner, r, q);
      ThroughUnmatched(Emit(c.remote, c.inner), Postrouting, q);
    }
  }

  /**
   A packet from a remote original to a local translation arrives as intended exactly when some subnet behind the VPN
   contains its source, some subject its translated destination, and no local rule takes it.
   */
  lemma InboundExactly(c: PodRules, l: NatRule, r: NatRule, p: Packet)
    requires c.Basic() && l in c.local && r in c.remote && InNet(p.src, r.orig) && InNet(p.dst, l.mapped)
    requires l.orig.base != l.mapped.base && r.orig.base != r.mapped.base
    ensures Traverse(c.Table(), p) == Packet(Moved(p.src, r.orig, r.mapped), Moved(p.dst, l.mapped, l.orig))
            <==> InSome(c.right, p.src) && InSome(c.inner, Moved(p.dst, l.mapped, l.orig))
                 && !c.Caught(Packet(p.src, Moved(p.dst, l.mapped, l.orig)))
  {
    SameSizes(c, l, r);
    var q := Packet(p.src, Moved(p.dst, l.mapped, l.orig));
    if !InSome(c.right, p.src) {
      UnknownSource(c, l, p);
    } else {
      LocalDestination(c, l, p);
      if InSome(c.inner, q.dst) {
        RemoteSource(c, r, q);
      } else {
        RemoteSourceUncovered(c, r, q);
      }
    }
  }

  // ---------- rules on one side only ----------

  /** An address outside all blocks of the rules. */
  ghost predicate Foreign(rules: seq<NatRule>, a: nat) {
    forall r :: r in rules ==> !InNet(a, r.orig) && !InNet(a, r.mapped)
  }

  /** From an original: the source is translated exactly when some subject contains the destination. */
  lemma OneSidedFrom(rules: seq<NatRule>, subjects: seq<Net>, r: NatRule, p: Packet)
    requires Apart(rules) && r in rules && InNet(p.src, r.orig) && Foreign(rules, p.dst) && r.orig.base != r.mapped.base
    ensures Traverse(Emit(rules, subjects), p)
        == (if InSome(subjects, p.dst) then Packet(Moved(p.src, r.orig, r.mapped), p.dst) else p)
    ensures Moved(p.src, r.orig, r.mapped) != p.src
  {
    ListIgnores(rules, subjects, p);
    ThroughUnmatched(Emit(rules, subjects), Prerouting, p);
    ListPostrouting(rules, subjects, r, p);
    if !InSome(subjects, p.dst) {
      ThroughUnmatched(Emit(rules, subjects), Postrouting, p);
    }
  }

  /** To a translation: the destination is translated exactly when some subject contains the source. */
  lemma OneSidedTo(rules: seq<NatRule>, subjects: seq<Net>, r: NatRule, p: Packet)
    requires Apart(rules) && r in rules && InNet(p.dst, r.mapped) && Foreign(rules, p.src)
    requires r.orig.base != r.mapped.base
    ensures Traverse(Emit(rules, subjects), p)
        == (if InSome(subjects, p.src) then Packet(p.src, Moved(p.dst, r.mapped, r.orig)) else p)
    ensures Moved(p.dst, r.mapped, r.orig) != p.dst
  {
    ListPrerouting(rules, subjects, r, p);
    if !InSome(subjects, p.src) {
      ThroughUnmatched(Emit(rules, subjects), Prerouting, p);
    }
    var q := Through(Emit(rules, subjects), Prerouting, p);
    ListIgnores(rules, subjects, q);
    ThroughUnmatched(Emit(rules, subjects), Postrouting, q);
  }

  /** Replies return to the starting pair, in both directions. */
  lemma OneSidedReturns(rules: seq<NatRule>, subjects: seq<Net>, r: NatRule, p: Packet)
    requires Apart(rules) && r in rules && r.orig.base != r.mapped.base
    requires (InNet(p.src, r.orig) && InSome(subjects, p.dst) && Foreign(rules, p.dst))
             || (InNet(p.dst, r.mapped) && InSome(subjects, p.src) && Foreign(rules, p.src))
    ensures Traverse(Emit(rules, subjects), Reverse(Traverse(Emit(rules, subjects), p))) == Reverse(p)
  {
    if InNet(p.src, r.orig) && InSome(subjects, p.dst) && Foreign(rules, p.dst) {
      OneSidedFrom(rules, subjects, r, p);
      OneSidedTo(rules, subjects, r, Packet(p.dst, Moved(p.src, r.orig, r.mapped)));
    } else {
      OneSidedTo(rules, subjects, r, p);
      OneSidedFrom(rules, subjects, r, Packet(Moved(p.dst, r.mapped, r.orig), p.src));
    }
  }

  // ---------- a local subnet without a rule ----------

  /** An address on the local side that no rule translates. */
  ghost predicate Plain(c: PodRules, a: nat) {
    Foreign(c.local, a) && Foreign(c.remote, a)
  }

  /** From a plain address: the destination is translated exactly when a subject has the source. */
  lemma PlainOutbound(c: PodRules, r: NatRule, p: Packet)
    requires c.Basic() && r in c.remote && Plain(c, p.src) && InNet(p.dst, r.mapped) && r.orig.base != r.mapped.base
    ensures Traverse(c.Table(), p)
        == (if InSome(c.inner, p.src) then Packet(p.src, Moved(p.dst, r.mapped, r.orig)) else p)
    ensures Moved(p.dst, r.mapped, r.orig) != p.dst
  {
    if InSome(c.inner, p.src) {
      RemoteDestination(c, r, p);
    } else {
      LostOriginal(c, r, p);
    }
    PlainSource(c, Through(c.Table(), Prerouting, p));
  }

  lemma PlainSource(c: PodRules, q: Packet)
    requires c.Basic() && Plain(c, q.src)
    ensures Through(c.Table(), Postrouting, q) == q
  {
    ListIgnores(c.local, c.right, q);
    ListIgnores(c.remote, c.inner, q);
    ThroughConcat(Emit(c.local, c.right), Emit(c.remote, c.inner), Postrouting, q);
    ThroughUnmatched(Emit(c.remote, c.inner), Postrouting, q);
  }

  /** To a plain address: the source is translated exactly when a subject has it and no local rule takes the packet. */
  lemma PlainInbound(c: PodRules, r: NatRule, p: Packet)
    requires c.Basic() && r in c.remote && Plain(c, p.dst) && InNet(p.src, r.orig) && r.orig.base != r.mapped.base
    ensures Traverse(c.Table(), p) == Packet(Moved(p.src, r.orig, r.mapped), p.dst)
            <==> InSome(c.inner, p.dst) && !c.Caught(p)
  {
    ListIgnores(c.local, c.right, p);
    ListIgnores(c.remote, c.inner, p);
    ThroughConcat(Emit(c.local, c.right), Emit(c.remote, c.inner), Prerouting, p);
    ThroughUnmatched(Emit(c.remote, c.inner), Prerouting, p);
    if InSome(c.inner, p.dst) {
      RemoteSource(c, r, p);
    } else {
      RemoteSourceUncovered(c, r, p);
    }
  }

  /** Both directions work: the reply returns to the sender exactly when no local rule takes it. */
  ghost predicate PlainConnection(c: PodRules, r: NatRule, p: Packet)
    requires InNet(p.dst, r.mapped)
  {
    var inside := Moved(p.dst, r.mapped, r.orig);
    && Traverse(c.Table(), p) == Packet(p.src, inside)
    && (Traverse(c.Table(), Packet(inside, p.src)) == Reverse(p) <==> !c.Caught(Packet(inside, p.src)))
  }

  lemma PlainBothWays(c: PodRules, r: NatRule, subject: Net, p: Packet)
    requires c.Basic() && r in c.remote && r.orig.base != r.mapped.base && InNet(p.dst, r.mapped)
    requires subject in c.inner && InNet(p.src, subject) && Plain(c, p.src)
    ensures PlainConnection(c, r, p)
  {
    PlainOutbound(c, r, p);
    PlainInbound(c, r, Packet(Moved(p.dst, r.mapped, r.orig), p.src));
  }

  // ---------- a block behind one address ----------

  /** The block of this rule meets no other block of the list. */
  ghost predicate AloneIn(rules: seq<NatRule>, r: NatRule) {
    r in rules && forall x :: x in rules && x != r ==> Disjoint(r.orig, x.orig)
  }

  /** Everything from the block leaves with the one address, exactly when a subject has the destination. */
  lemma ManyToOneOutbound(rules: seq<NatRule>, subjects: seq<Net>, r: NatRule, p: Packet)
    requires AloneIn(rules, r) && ManyToOne(r) && InNet(p.src, r.orig)
    ensures Through(Emit(rules, subjects), Postrouting, p)
            == if InSome(subjects, p.dst) then Packet(r.mapped.base, p.dst) else p
  {
    var q := Packet(r.mapped.base, p.dst);
    forall e | e in Emit(rules, subjects) && e.chain == Postrouting && Matches(e, p)
      ensures InSome(subjects, p.dst) && Rewrite(e, p) == q
    {
      EmitMembers(rules, subjects, e);
      var x, s :| x in rules && s in subjects && e in EmitRule(x, s);
      assert InNet(p.src, x.orig) && InNet(p.dst, s);
      SharedAddress(p.src, r.orig, x.orig);
    }
    if InSome(subjects, p.dst) {
      var s :| s in subjects && InNet(p.dst, s);
      var e := Entry(Postrouting, r.orig, s, SourceTo(r.mapped.base));
      assert EmitRule(r, s) == [e] && e in [e];
      EmitMembers(rules, subjects, e);
      assert Matches(e, p);
      FirstMatchAgrees(Emit(rules, subjects), Postrouting, p, q);
    } else {
      ThroughUnmatched(Emit(rules, subjects), Postrouting, p);
    }
  }

  /** And nothing from outside reaches the block through its rule: the one address is not translated back. */
  lemma ManyToOneInbound(rules: seq<NatRule>, subjects: seq<Net>, r: NatRule, p: Packet)
    requires r in rules && ManyToOne(r) && forall x :: x in rules && x != r ==> !InNet(p.dst, x.mapped)
    ensures Through(Emit(rules, subjects), Prerouting, p) == p
  {
    forall e | e in Emit(rules, subjects) && e.chain == Prerouting ensures !Matches(e, p) {
      EmitMembers(rules, subjects, e);
      var x, s :| x in rules && s in subjects && e in EmitRule(x, s);
    }
    ThroughUnmatched(Emit(rules, subjects), Prerouting, p);
  }

  // ---------- all packets ----------

  ghost predicate AllArrive(c: PodRules)
    requires c.Sound()
  {
    forall l, r, p: Packet | l in c.local && r in c.remote && InNet(p.src, r.orig) && InNet(p.dst, l.mapped)
      :: Traverse(c.Table(), p) == Packet(Moved(p.src, r.orig, r.mapped), Moved(p.dst, l.mapped, l.orig))
  }

  ghost predicate AllReturn(c: PodRules)
    requires c.Sound()
  {
    forall l, r, p: Packet | l in c.local && r in c.remote && InNet(p.src, l.orig) && InNet(p.dst, r.mapped)
      :: Traverse(c.Table(), Reverse(Traverse(c.Table(), p))) == Reverse(p)
  }

  lemma NoOverlapNotCaught(c: PodRules, l: NatRule, r: NatRule, q: Packet)
    requires c.NoOverlap() && l in c.local && r in c.remote && InNet(q.src, r.orig) && InNet(q.dst, l.orig)
    ensures !c.Caught(q)
  {
    if c.Caught(q) {
      var m, s :| m in c.local && s in c.right && InNet(q.src, m.orig) && InNet(q.dst, s);
      SharedAddress(q.src, r.orig, m.orig);
      SharedAddress(q.dst, l.orig, s);
    }
  }

  /** With an overlap some packet is caught. */
  lemma OverlapCaught(c: PodRules) returns (l: NatRule, r: NatRule, q: Packet)
    requires !c.NoOverlap()
    ensures l in c.local && r in c.remote && InNet(q.src, r.orig) && InNet(q.dst, l.orig) && c.Caught(q)
  {
    var m, s;
    l, r, m, s :| l in c.local && r in c.remote && m in c.local && s in c.right
                  && !Disjoint(r.orig, m.orig) && !Disjoint(l.orig, s);
    var a := CommonAddress(r.orig, m.orig);
    var b := CommonAddress(l.orig, s);
    q := Packet(a, b);
  }

  /** All connections from the remote side arrive, and all replies return, exactly when nothing overlaps. */
  lemma TranslatesExactlyWithoutOverlap(c: PodRules)
    requires c.Sound()
    ensures AllArrive(c) <==> c.NoOverlap()
    ensures AllReturn(c) <==> c.NoOverlap()
  {
    if c.NoOverlap() {
      NothingCaughtArriving(c);
      NothingCaughtReturning(c);
    } else {
      var l, r, q := OverlapCaught(c);
      CaughtArriving(c, l, r, q);
      CaughtReturning(c, l, r, q);
    }
  }

  lemma CaughtArriving(c: PodRules, l: NatRule, r: NatRule, q: Packet)
    requires c.Sound() && l in c.local && r in c.remote && InNet(q.src, r.orig) && InNet(q.dst, l.orig) && c.Caught(q)
    ensures !AllArrive(c)
  {
    SameSizes(c, l, r);
    var p := Packet(q.src, Moved(q.dst, l.orig, l.mapped));
    Inbound(c, l, r, p);
    assert Packet(p.src, Moved(p.dst, l.mapped, l.orig)) == q;
  }

  lemma CaughtReturning(c: PodRules, l: NatRule, r: NatRule, q: Packet)
    requires c.Sound() && l in c.local && r in c.remote && InNet(q.src, r.orig) && InNet(q.dst, l.orig) && c.Caught(q)
    ensures !AllReturn(c)
  {
    SameSizes(c, l, r);
    var p := Packet(q.dst, Moved(q.src, r.orig, r.mapped));
    RoundTrip(c, l, r, p);
    assert Packet(Moved(p.dst, r.mapped, r.orig), p.src) == q;
  }

  lemma Arrives(c: PodRules, l: NatRule, r: NatRule, p: Packet)
    requires c.Sound() && c.NoOverlap() && l in c.local && r in c.remote && InNet(p.src, r.orig)
    requires InNet(p.dst, l.mapped)
    ensures Traverse(c.Table(), p) == Packet(Moved(p.src, r.orig, r.mapped), Moved(p.dst, l.mapped, l.orig))
  {
    SameSizes(c, l, r);
    NoOverlapNotCaught(c, l, r, Packet(p.src, Moved(p.dst, l.mapped, l.orig)));
    Inbound(c, l, r, p);
  }

  lemma Returns(c: PodRules, l: NatRule, r: NatRule, p: Packet)
    requires c.Sound() && c.NoOverlap() && l in c.local && r in c.remote && InNet(p.src, l.orig)
    requires InNet(p.dst, r.mapped)
    ensures Traverse(c.Table(), Reverse(Traverse(c.Table(), p))) == Reverse(p)
  {
    SameSizes(c, l, r);
    NoOverlapNotCaught(c, l, r, Packet(Moved(p.dst, r.mapped, r.orig), p.src));
    RoundTrip(c, l, r, p);
  }

  lemma NothingCaughtArriving(c: PodRules)
    requires c.Sound() && c.NoOverlap()
    ensures AllArrive(c)
  {
    forall l, r, p: Packet | l in c.local && r in c.remote && InNet(p.src, r.orig) && InNet(p.dst, l.mapped)
      ensures Traverse(c.Table(), p) == Packet(Moved(p.src, r.orig, r.mapped), Moved(p.dst, l.mapped, l.orig))
    {
      Arrives(c, l, r, p);
    }
  }

  lemma NothingCaughtReturning(c: PodRules)
    requires c.Sound() && c.NoOverlap()
    ensures AllReturn(c)
  {
    forall l, r, p: Packet | l in c.local && r in c.remote && InNet(p.src, l.orig) && InNet(p.dst, r.mapped)
      ensures Traverse(c.Table(), Reverse(Traverse(c.Table(), p))) == Reverse(p)
    {
      Returns(c, l, r, p);
    }
  }

  function OnePair(l: NatRule, r: NatRule): PodRules {
    PodRules([l], [r], [r.orig], [l.orig])
  }

  lemma OnePairSound(l: NatRule, r: NatRule)
    requires SameSize(l) && SameSize(r) && Disjoint(l.mapped, r.mapped)
    ensures OnePair(l, r).Sound()
  {
    var c := OnePair(l, r);
    assert r.orig in c.right && l.orig in c.inner;
    assert Covers(r.orig, r.orig) && Covers(l.orig, l.orig);
  }

  /** For one local and one remote rule, each the only subject of the other, no overlap means disjoint originals. */
  lemma OnePairOverlap(l: NatRule, r: NatRule)
    ensures OnePair(l, r).NoOverlap() <==> Disjoint(l.orig, r.orig)
    ensures forall q: Packet :: OnePair(l, r).Caught(q) <==> InNet(q.src, l.orig) && InNet(q.dst, r.orig)
  {
    var c := OnePair(l, r);
    assert l in c.local && r in c.remote && r.orig in c.right;
  }

  lemma EqualOriginals(l: NatRule, r: NatRule)
    requires SameSize(l) && SameSize(r) && Disjoint(l.mapped, r.mapped) && l.orig == r.orig
    ensures OnePair(l, r).Sound() && !AllArrive(OnePair(l, r)) && !AllReturn(OnePair(l, r))
  {
    OnePairSound(l, r);
    OnePairOverlap(l, r);
    TranslatesExactlyWithoutOverlap(OnePair(l, r));
  }

  lemma Block24(n: Net)
    requires n.len == 24 && n.base % 256 == 0
    ensures Aligned(n) && Size(n) == 256
  {
    assert Pow2(4) == 16 && Pow2(8) == 256;
  }

  /** 10.0.0.0/24 on both sides, seen as 172.16.0.0/24 and 172.16.1.0/24: some packets are not translated. */
  lemma SameNetworkOnBothSides(l: NatRule, r: NatRule)
    requires l == NatRule(Net(0x0A00_0000, 24), Net(0xAC10_0000, 24))
    requires r == NatRule(Net(0x0A00_0000, 24), Net(0xAC10_0100, 24))
    ensures OnePair(l, r).Sound() && !AllArrive(OnePair(l, r)) && !AllReturn(OnePair(l, r))
  {
    Block24(l.orig);
    Block24(l.mapped);
    Block24(r.mapped);
    EqualOriginals(l, r);
  }

  // ---------- accepted rules (strongswan/main.go:145-165) ----------

  predicate AcceptedRule(rule: string) {
    var f := Split(rule, '=');
    && |f| == 2 && ParseCIDR(f[0]).Some? && ParseCIDR(f[1]).Some?
    && (ParseCIDR(f[0]).value.net.len == ParseCIDR(f[1]).value.net.len || HasSuffix(f[1], "/32"))
  }

  predicate AcceptedText(text: string) {
    forall rule | rule in Split(text, ',') :: AcceptedRule(rule)
  }

  /** `ok` is false where the original ends the process. */
  method ValidateNATRules(text: string) returns (ok: bool)
    ensures ok <==> AcceptedText(text)
  {
    var rules := Split(text, ',');
    for i := 0 to |rules|
      invariant forall j :: 0 <= j < i ==> AcceptedRule(rules[j])
    {
      assert rules[i] in rules;
      var f := Split(rules[i], '=');
      if |f| != 2 {
        return false;
      }
      var internal, external := ParseCIDR(f[0]), ParseCIDR(f[1]);
      if internal.None? || external.None? {
        return false;
      }
      if internal.value.net.len != external.value.net.len && !HasSuffix(f[1], "/32") {
        return false;
      }
    }
    ok := true;
  }

  /** Exactly the rules `a=b` of two networks with equal lengths, or with a single address on the right. */
  lemma AcceptedExactly(a: string, b: string, rule: string)
    requires '=' !in a && rule == a + "=" + b
    ensures AcceptedRule(rule) <==>
              && '=' !in b && ParseCIDR(a).Some? && ParseCIDR(b).Some?
              && (ParseCIDR(a).value.net.len == ParseCIDR(b).value.net.len || HasSuffix(b, "/32"))
  {
    assert rule == a + ['='] + b;
    SplitAtSeparator(a, '=', b);
    assert Split(rule, '=')[1..] == Split(b, '=');
    if '=' !in b {
      SplitCleanPart(b, '=');
    } else {
      SplitsInTwo(b, '=');
    }
  }

  lemma {:induction false} SplitsInTwo(s: string, c: char)
    requires c in s
    ensures |Split(s, c)| >= 2
  {
    if s[0] != c {
      SplitsInTwo(s[1..], c);
    }
  }

  /** A text without a `=` is no rule. */
  lemma NoEqualRefused(rule: string)
    requires '=' !in rule
    ensures !AcceptedRule(rule)
  {
    SplitCleanPart(rule, '=');
  }

  lemma Suffix32(s: string)
    requires ParseCIDR(s).Some? && HasSuffix(s, "/32")
    ensures ParseCIDR(s).value.net.len == 32
  {
    var a := s[..|s| - 3];
    assert s == a + ['/'] + "32";
    SplitConcat(a, '/', "32");
    SplitCleanPart("32", '/');
    assert Split(s, '/')[1] == "32";
    assert "32"[..1] == "3" && "3"[..0] == "";
    assert DecimalValue("3") == 3;
  }

  lemma AcceptedRuleShape(rule: string)
    requires AcceptedRule(rule)
    ensures var f := Split(rule, '=');
            && f[0] != "" && f[1] != ""
            && (SameSize(RuleOf(Mapping(f[0], f[1]))) || ManyToOne(RuleOf(Mapping(f[0], f[1]))))
  {
    var f := Split(rule, '=');
    EmptyIsNoCidr();
    var orig, mapped := ParseCIDR(f[0]).value, ParseCIDR(f[1]).value;
    MaskAligned(orig.ip, orig.net.len);
    MaskAligned(mapped.ip, mapped.net.len);
    if HasSuffix(f[1], "/32") {
      Suffix32(f[1]);
    }
  }

  /** Accepted texts have the shape the rewriting loops rely on, and a rule is same-size or many-to-one. */
  lemma AcceptedShape(text: string)
    requires AcceptedText(text)
    ensures WellSplit(text) && Invertible(ParseRules(text))
    ensures forall m :: m in ParseRules(text) ==>
              Parsed(m) && (SameSize(RuleOf(m)) || ManyToOne(RuleOf(m)))
  {
    forall rule | rule in Split(text, ',')
      ensures Split(rule, '=')[0] != "" && Split(rule, '=')[1] != ""
    {
      AcceptedRuleShape(rule);
    }
    forall m | m in ParseRules(text)
      ensures m.mapped != "" && Parsed(m)
      ensures SameSize(RuleOf(m)) || ManyToOne(RuleOf(m))
    {
      var parts := Split(text, ',');
      var i :| 0 <= i < |parts| && ParseRules(text)[i] == m;
      assert parts[i] in parts && AcceptedRule(parts[i]);
      AcceptedRuleShape(parts[i]);
    }
  }

  lemma EmptyIsNoCidr()
    ensures ParseCIDR("").None?
  {
    assert Split("", '/') == [""];
  }

  // ---------- the pod's rules from its texts ----------

  /** The networks of a list of texts, in order. */
  function Nets(list: seq<string>): seq<Net>
    requires forall p :: p in list ==> ParseCIDR(p).Some?
  {
    seq(|list|, i requires 0 <= i < |list| => ParseCIDR(list[i]).value.net)
  }

  function RulesOf(ms: seq<Mapping>): seq<NatRule>
    requires forall m :: m in ms ==> Parsed(m)
  {
    seq(|ms|, i requires 0 <= i < |ms| =>
      assert ms[i] in ms && Parsed(ms[i]);
      RuleOf(ms[i]))
  }

  function RuleList(text: string): seq<NatRule>
    requires text != "" ==> AcceptedText(text)
  {
    if text == "" then []
    else
      AcceptedShape(text);
      RulesOf(ParseRules(text))
  }

  /** The texts the pod works with, after its validation; local translations occur in `left` as whole entries only. */
  ghost predicate PodTexts(left: string, right: string, localNAT: string, remoteNAT: string) {
    && (localNAT != "" ==> AcceptedText(localNAT)) && (remoteNAT != "" ==> AcceptedText(remoteNAT))
    && (forall p :: p in Split(left, ',') ==> ParseCIDR(p).Some?)
    && (forall p :: p in Split(right, ',') ==> ParseCIDR(p).Some?)
    && (localNAT != "" ==>
          WellSplit(localNAT) && forall m :: m in ParseRules(localNAT) ==> WholeEntries(Split(left, ','), m.mapped))
  }

  lemma LeftTranslations(left: string, right: string, localNAT: string, remoteNAT: string)
    requires PodTexts(left, right, localNAT, remoteNAT) && localNAT != ""
    ensures AcceptedText(localNAT) && WellSplit(localNAT) && Invertible(ParseRules(localNAT))
    ensures WholeTranslations(Split(left, ','), ParseRules(localNAT)) && Join(Split(left, ','), ',') == left
  {
    AcceptedShape(localNAT);
    SplitPartsClean(left, ',');
    JoinOfSplit(left, ',');
  }

  lemma SubjectsParse(left: string, right: string, localNAT: string, remoteNAT: string)
    requires PodTexts(left, right, localNAT, remoteNAT)
    ensures localNAT != "" ==> WellSplit(localNAT) && Invertible(ParseRules(localNAT))
    ensures forall p :: p in SubjectList(left, localNAT) ==> ParseCIDR(p).Some?
  {
    if localNAT != "" {
      LeftTranslations(left, right, localNAT, remoteNAT);
      AcceptedShape(localNAT);
      forall p | p in SubjectList(left, localNAT) ensures ParseCIDR(p).Some? {
        SubjectMembers(Split(left, ','), ParseRules(localNAT), p);
      }
    }
  }

  ghost function FromTexts(left: string, right: string, localNAT: string, remoteNAT: string): PodRules
    requires PodTexts(left, right, localNAT, remoteNAT)
  {
    SubjectsParse(left, right, localNAT, remoteNAT);
    PodRules(RuleList(localNAT), RuleList(remoteNAT), Nets(Split(right, ',')), Nets(SubjectList(left, localNAT)))
  }

  /** What the networks must satisfy: same-size disjoint rules, and remote originals behind the VPN. */
  ghost predicate FitTogether(local: seq<NatRule>, remote: seq<NatRule>, right: seq<Net>) {
    && Apart(local) && Apart(remote)
    && (forall l, r :: l in local && r in remote ==> Disjoint(l.mapped, r.mapped))
    && (forall r :: r in remote ==> exists s :: s in right && Covers(s, r.orig))
  }

  lemma ListedNet(list: seq<string>, o: string)
    requires o in list && forall p :: p in list ==> ParseCIDR(p).Some?
    ensures ParseCIDR(o).value.net in Nets(list)
  {
    var i :| 0 <= i < |list| && list[i] == o;
    assert Nets(list)[i] == ParseCIDR(o).value.net;
  }

  /** The subjects computed by the pod cover every local original that the loop keeps. */
  lemma SubjectsCoverOriginal(left: string, right: string, localNAT: string, remoteNAT: string, m: Mapping)
    requires PodTexts(left, right, localNAT, remoteNAT) && localNAT != ""
    requires m in ParseRules(localNAT) && Kept(left, ParseRules(localNAT), m)
    ensures Parsed(m) && RuleOf(m).orig in FromTexts(left, right, localNAT, remoteNAT).inner
  {
    LeftTranslations(left, right, localNAT, remoteNAT);
    AcceptedShape(localNAT);
    KeptOriginal(Split(left, ','), ParseRules(localNAT), m);
    SubjectsParse(left, right, localNAT, remoteNAT);
    ListedNet(SubjectList(left, localNAT), m.orig);
  }

  lemma LocalCovered(left: string, right: string, localNAT: string, remoteNAT: string, l: NatRule)
    requires PodTexts(left, right, localNAT, remoteNAT) && localNAT != "" && l in RuleList(localNAT)
    requires forall m :: m in ParseRules(localNAT) ==> Kept(left, ParseRules(localNAT), m)
    ensures exists s :: s in FromTexts(left, right, localNAT, remoteNAT).inner && Covers(s, l.orig)
  {
    var rules := ParseRules(localNAT);
    var i :| 0 <= i < |rules| && RuleList(localNAT)[i] == l;
    assert rules[i] in rules;
    SubjectsCoverOriginal(left, right, localNAT, remoteNAT, rules[i]);
    assert Covers(l.orig, l.orig);
  }

  /** When the back-translation keeps every local original, the rules computed from the texts are sound. */
  lemma TextsSound(left: string, right: string, localNAT: string, remoteNAT: string)
    requires PodTexts(left, right, localNAT, remoteNAT)
    requires FitTogether(RuleList(localNAT), RuleList(remoteNAT), Nets(Split(right, ',')))
    requires localNAT != "" ==> forall m :: m in ParseRules(localNAT) ==> Kept(left, ParseRules(localNAT), m)
    ensures FromTexts(left, right, localNAT, remoteNAT).Sound()
  {
    var c := FromTexts(left, right, localNAT, remoteNAT);
    forall l | l in c.local ensures exists s :: s in c.inner && Covers(s, l.orig) {
      assert localNAT != "";
      LocalCovered(left, right, localNAT, remoteNAT, l);
    }
  }

  /** One local rule is always kept. */
  lemma OneRuleSound(left: string, right: string, localNAT: string, remoteNAT: string)
    requires PodTexts(left, right, localNAT, remoteNAT)
    requires FitTogether(RuleList(localNAT), RuleList(remoteNAT), Nets(Split(right, ',')))
    requires localNAT != "" ==> |Split(localNAT, ',')| == 1
    ensures FromTexts(left, right, localNAT, remoteNAT).Sound()
  {
    if localNAT != "" {
      var rules := ParseRules(localNAT);
      assert rules == [rules[0]];
      OnlyRuleKept(left, rules[0]);
    }
    TextsSound(left, right, localNAT, remoteNAT);
  }

  // ---------- local subnets that no rule names ----------

  /** An entry of `leftsubnet` that is no translation of a local rule stays a subject of the remote rules. */
  lemma PlainSubnetIsSubject(left: string, right: string, localNAT: string, remoteNAT: string, x: string)
    requires PodTexts(left, right, localNAT, remoteNAT) && x in Split(left, ',')
    requires localNAT != "" ==> forall m :: m in ParseRules(localNAT) ==> m.mapped != x
    ensures ParseCIDR(x).Some? && ParseCIDR(x).value.net in FromTexts(left, right, localNAT, remoteNAT).inner
  {
    SubjectsParse(left, right, localNAT, remoteNAT);
    if localNAT != "" {
      LeftTranslations(left, right, localNAT, remoteNAT);
      SubjectsExactly(Split(left, ','), ParseRules(localNAT), x);
    }
    ListedNet(SubjectList(left, localNAT), x);
  }

  /**
   Packets between a local subnet that no rule names and a translated remote block are translated in both directions,
   and replies return, unless a local rule takes the packet on its way in.
   */
  lemma PlainSubnetTranslated(left: string, right: string, localNAT: string, remoteNAT: string, x: string,
                              c: PodRules, r: NatRule, p: Packet)
    requires PodTexts(left, right, localNAT, remoteNAT) && x in Split(left, ',')
    requires localNAT != "" ==> forall m :: m in ParseRules(localNAT) ==> m.mapped != x
    requires c == FromTexts(left, right, localNAT, remoteNAT) && c.Basic() && r in c.remote
    requires r.orig.base != r.mapped.base
    requires ParseCIDR(x).Some? && InNet(p.src, ParseCIDR(x).value.net) && Plain(c, p.src) && InNet(p.dst, r.mapped)
    ensures PlainConnection(c, r, p)
  {
    PlainSubnetIsSubject(left, right, localNAT, remoteNAT, x);
    PlainBothWays(c, r, ParseCIDR(x).value.net, p);
  }

  // ---------- the commands issued for the texts ----------

  /** A prefix length without leading zeros. */
  predicate CanonicalLength(cidr: string) {
    var f := Split(cidr, '/');
    |f| == 2 && (|f[1]| > 1 ==> f[1][0] != '0')
  }

  lemma {:induction false} LeadingDigit(s: string)
    requires AllDigits(s) && s[0] != '0'
    ensures DecimalValue(s) >= 1
  {
    var n := |s| - 1;
    assert s[n] in s;
    if n > 0 {
      assert forall c :: c in s[..n] ==> c in s;
      LeadingDigit(s[..n]);
    } else {
      assert DecimalValue(s[..0]) == 0;
    }
  }

  lemma ThirtyTwo(s: string)
    requires AllDigits(s) && DecimalValue(s) == 32 && (|s| > 1 ==> s[0] != '0')
    ensures s == "32"
  {
    var n := |s| - 1;
    assert s[n] in s && DecimalValue(s) == 10 * DecimalValue(s[..n]) + (s[n] - '0') as nat;
    assert n > 0 && s[n] == '2' && DecimalValue(s[..n]) == 3;
    var t := s[..n];
    assert forall c :: c in t ==> c in s;
    assert t[n - 1] in t && DecimalValue(t) == 10 * DecimalValue(t[..n - 1]) + (t[n - 1] - '0') as nat;
    assert DecimalValue(t[..n - 1]) == 0 && t[n - 1] == '3';
    if n > 1 {
      assert forall c :: c in t[..n - 1] ==> c in t;
      LeadingDigit(t[..n - 1]);
      assert false;
    }
  }

  /** The text test for a single address is the test of the prefix length. */
  lemma SuffixIsLength(cidr: string)
    requires ParseCIDR(cidr).Some? && CanonicalLength(cidr)
    ensures HasSuffix(cidr, "/32") <==> ParseCIDR(cidr).value.net.len == 32
  {
    if HasSuffix(cidr, "/32") {
      Suffix32(cidr);
    }
    if ParseCIDR(cidr).value.net.len == 32 {
      JoinOfSplit(cidr, '/');
      var f := Split(cidr, '/');
      ThirtyTwo(f[1]);
      assert f[1..] == [f[1]] && cidr == f[0] + ['/'] + "32";
      assert cidr[|cidr| - 3..|cidr|] == "/32";
    }
  }

  lemma TextRuleEmitted(m: Mapping, subject: string)
    requires Parsed(m) && ParseCIDR(subject).Some? && CanonicalLength(m.orig) && CanonicalLength(m.mapped)
    ensures EmitText(m, subject) == EmitRule(RuleOf(m), ParseCIDR(subject).value.net)
  {
    SuffixIsLength(m.orig);
    SuffixIsLength(m.mapped);
    SingleAddress(ParseCIDR(m.mapped).value);
  }

  lemma SingleAddress(c: Cidr)
    requires c.net.len <= 32 && c.net == Mask(c.ip, c.net.len)
    ensures c.net.len == 32 ==> c.ip == c.net.base
  {
  }

  lemma RulesOfFirst(ms: seq<Mapping>)
    requires ms != [] && forall m :: m in ms ==> Parsed(m)
    ensures (forall m :: m in ms[1..] ==> Parsed(m)) && Parsed(ms[0])
    ensures RulesOf(ms) != [] && RulesOf(ms)[0] == RuleOf(ms[0]) && RulesOf(ms)[1..] == RulesOf(ms[1..])
  {
    assert ms == [ms[0]] + ms[1..];
  }

  lemma {:induction false} TextRulesEmitted(ms: seq<Mapping>, subject: string)
    requires forall m :: m in ms ==> Parsed(m) && CanonicalLength(m.orig) && CanonicalLength(m.mapped)
    requires ParseCIDR(subject).Some?
    ensures EmitTextRules(ms, subject) == EmitRules(RulesOf(ms), ParseCIDR(subject).value.net)
  {
    if ms == [] {
      assert RulesOf(ms) == [];
    } else {
      assert ms[0] in ms && forall m :: m in ms[1..] ==> m in ms;
      RulesOfFirst(ms);
      TextRuleEmitted(ms[0], subject);
      TextRulesEmitted(ms[1..], subject);
    }
  }

  /** For canonical texts the commands add exactly the entries of the parsed rules. */
  lemma {:induction false} TextsEmitted(ms: seq<Mapping>, subjects: seq<string>)
    requires forall m :: m in ms ==> Parsed(m) && CanonicalLength(m.orig) && CanonicalLength(m.mapped)
    requires forall p :: p in subjects ==> ParseCIDR(p).Some?
    ensures EmitTexts(ms, subjects) == Emit(RulesOf(ms), Nets(subjects))
    decreases |subjects|
  {
    if subjects == [] {
      assert Nets(subjects) == [];
    } else {
      assert subjects == [subjects[0]] + subjects[1..];
      TextRulesEmitted(ms, subjects[0]);
      TextsEmitted(ms, subjects[1..]);
      assert Nets(subjects)[1..] == Nets(subjects[1..]) && Nets(subjects)[0] == ParseCIDR(subjects[0]).value.net;
    }
  }

  ghost predicate CanonicalRules(text: string)
    requires text != "" ==> WellSplit(text)
  {
    text != "" ==> forall m :: m in ParseRules(text) ==> CanonicalLength(m.orig) && CanonicalLength(m.mapped)
  }

  lemma {:induction false} NoRulesEmitted(subjects: seq<Net>)
    ensures Emit([], subjects) == []
  {
    if subjects == [] {
    } else {
      NoRulesEmitted(subjects[1..]);
    }
  }

  lemma TextEmitted(text: string, subjects: seq<string>)
    requires text != "" ==> AcceptedText(text) && WellSplit(text)
    requires CanonicalRules(text) && forall p :: p in subjects ==> ParseCIDR(p).Some?
    ensures EmitFor(text, subjects) == Emit(RuleList(text), Nets(subjects))
  {
    if text == "" {
      NoRulesEmitted(Nets(subjects));
    } else {
      AcceptedShape(text);
      TextsEmitted(ParseRules(text), subjects);
    }
  }

  /** The table the pod configures from its texts is the table of the rules computed from them. */
  lemma PodTable(left: string, right: string, localNAT: string, remoteNAT: string)
    requires PodTexts(left, right, localNAT, remoteNAT)
    requires (localNAT != "" ==> WellSplit(localNAT) && Invertible(ParseRules(localNAT)))
    requires (remoteNAT != "" ==> WellSplit(remoteNAT))
    requires CanonicalRules(localNAT) && CanonicalRules(remoteNAT)
    ensures EmitFor(localNAT, Split(right, ',')) + EmitFor(remoteNAT, SubjectList(left, localNAT))
            == FromTexts(left, right, localNAT, remoteNAT).Table()
  {
    SubjectsParse(left, right, localNAT, remoteNAT);
    TextEmitted(localNAT, Split(right, ','));
    TextEmitted(remoteNAT, SubjectList(left, localNAT));
  }

  /**
   The table that the pod configures from its texts translates all connections, and all replies, exactly when no
   local rule overlaps, provided the back-translation keeps every local original.
   */
  lemma PodTranslates(left: string, right: string, localNAT: string, remoteNAT: string, c: PodRules)
    requires PodTexts(left, right, localNAT, remoteNAT) && c == FromTexts(left, right, localNAT, remoteNAT)
    requires FitTogether(c.local, c.remote, c.right)
    requires localNAT != "" ==> forall m :: m in ParseRules(localNAT) ==> Kept(left, ParseRules(localNAT), m)
    ensures c.Sound() && (AllArrive(c) <==> c.NoOverlap()) && (AllReturn(c) <==> c.NoOverlap())
  {
    TextsSound(left, right, localNAT, remoteNAT);
    TranslatesExactlyWithoutOverlap(c);
  }

  /** With a single local rule nothing more is needed. */
  lemma OneRuleTranslates(left: string, right: string, localNAT: string, remoteNAT: string, c: PodRules)
    requires PodTexts(left, right, localNAT, remoteNAT) && c == FromTexts(left, right, localNAT, remoteNAT)
    requires FitTogether(c.local, c.remote, c.right) && (localNAT != "" ==> |Split(localNAT, ',')| == 1)
    ensures c.Sound() && (AllArrive(c) <==> c.NoOverlap()) && (AllReturn(c) <==> c.NoOverlap())
  {
    OneRuleSound(left, right, localNAT, remoteNAT);
    TranslatesExactlyWithoutOverlap(c);
  }

  /** What a table with rules on one side only does, for every packet between a block and a foreign address. */
  ghost predicate OneSidedTable(table: seq<Entry>, rules: seq<NatRule>, subjects: seq<Net>) {
    forall r, p: Packet | r in rules && r.orig.base != r.mapped.base ::
      && (InNet(p.src, r.orig) && Foreign(rules, p.dst) ==>
            && (Traverse(table, p) == Packet(Moved(p.src, r.orig, r.mapped), p.dst) <==> InSome(subjects, p.dst))
            && (InSome(subjects, p.dst) ==> Traverse(table, Reverse(Traverse(table, p))) == Reverse(p)))
      && (InNet(p.dst, r.mapped) && Foreign(rules, p.src) ==>
            && (Traverse(table, p) == Packet(p.src, Moved(p.dst, r.mapped, r.orig)) <==> InSome(subjects, p.src))
            && (InSome(subjects, p.src) ==> Traverse(table, Reverse(Traverse(table, p))) == Reverse(p)))
  }

  lemma OneSidedExact(rules: seq<NatRule>, subjects: seq<Net>)
    requires Apart(rules)
    ensures OneSidedTable(Emit(rules, subjects), rules, subjects)
  {
    var table := Emit(rules, subjects);
    forall r, p: Packet | r in rules && r.orig.base != r.mapped.base && InNet(p.src, r.orig) && Foreign(rules, p.dst)
      ensures Traverse(table, p) == Packet(Moved(p.src, r.orig, r.mapped), p.dst) <==> InSome(subjects, p.dst)
      ensures InSome(subjects, p.dst) ==> Traverse(table, Reverse(Traverse(table, p))) == Reverse(p)
    {
      OneSidedFrom(rules, subjects, r, p);
      if InSome(subjects, p.dst) {
        OneSidedReturns(rules, subjects, r, p);
      }
    }
    forall r, p: Packet | r in rules && r.orig.base != r.mapped.base && InNet(p.dst, r.mapped) && Foreign(rules, p.src)
      ensures Traverse(table, p) == Packet(p.src, Moved(p.dst, r.mapped, r.orig)) <==> InSome(subjects, p.src)
      ensures InSome(subjects, p.src) ==> Traverse(table, Reverse(Traverse(table, p))) == Reverse(p)
    {
      OneSidedTo(rules, subjects, r, p);
      if InSome(subjects, p.src) {
        OneSidedReturns(rules, subjects, r, p);
      }
    }
  }

  /** Remote rules only: the table works for exactly the local subnets as configured. */
  lemma PodTranslatesRemoteOnly(left: string, right: string, remoteNAT: string, c: PodRules)
    requires PodTexts(left, right, "", remoteNAT) && c == FromTexts(left, right, "", remoteNAT) && Apart(c.remote)
    ensures c.inner == Nets(Split(left, ',')) && OneSidedTable(c.Table(), c.remote, c.inner)
  {
    NoRulesEmitted(c.right);
    assert [] + Emit(c.remote, c.inner) == Emit(c.remote, c.inner);
    OneSidedExact(c.remote, c.inner);
  }

  /** Local rules only: the table works for exactly the remote subnets as configured. */
  lemma PodTranslatesLocalOnly(left: string, right: string, localNAT: string, c: PodRules)
    requires PodTexts(left, right, localNAT, "") && c == FromTexts(left, right, localNAT, "") && Apart(c.local)
    ensures c.right == Nets(Split(right, ',')) && OneSidedTable(c.Table(), c.local, c.right)
  {
    NoRulesEmitted(c.inner);
    assert Emit(c.local, c.right) + [] == Emit(c.local, c.right);
    OneSidedExact(c.local, c.right);
  }

  ghost predicate Injective(t: Target, n: Net) {
    forall a: nat, b: nat | InNet(a, n) && InNet(b, n) && a != b :: Translate(t, a) != Translate(t, b)
  }

  /** Source translation of a rule is reversible exactly when both blocks have the same size. */
  lemma ReversibleExactlySameSize(r: NatRule)
    requires Aligned(r.orig) && Aligned(r.mapped) && (r.orig.len == r.mapped.len || ManyToOne(r))
    ensures Injective(EmitRule(r, r.orig)[0].target, r.orig) <==> r.orig.len == r.mapped.len
  {
    var t := EmitRule(r, r.orig)[0].target;
    if r.orig.len == r.mapped.len {
      forall a: nat, b: nat | InNet(a, r.orig) && InNet(b, r.orig) && a != b
        ensures Translate(t, a) != Translate(t, b)
      {
        OffsetIsRemainder(a, r.orig);
        OffsetIsRemainder(b, r.orig);
      }
    } else {
      assert Size(r.orig) == 2 * Pow2(31 - r.orig.len);
      assert InNet(r.orig.base, r.orig) && InNet(r.orig.base + 1, r.orig);
      assert Translate(t, r.orig.base) == Translate(t, r.orig.base + 1);
    }
  }
}

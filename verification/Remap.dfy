/**
 The textual rewriting of subnet lists. A rule list is the text `orig=mapped,orig=mapped,...`;
 subnet lists are comma-joined texts, and every rewriting is a `strings.ReplaceAll` on the whole text.
 */
module Remap {
  import opened Text

  datatype Mapping = Mapping(orig: string, mapped: string)

  /** What `validateNATrules` guarantees about the shape of a rule text: every rule is `orig=mapped`. */
  predicate WellSplit(text: string) {
    forall rule | rule in Split(text, ',') :: |Split(rule, '=')| == 2 && Split(rule, '=')[0] != ""
  }

  function ParseRules(text: string): (rules: seq<Mapping>)
    requires WellSplit(text)
    ensures |rules| == |Split(text, ',')|
    ensures forall r :: r in rules ==> r.orig != "" && ',' !in r.orig && ',' !in r.mapped
  {
    RuleTextClean(text);
    var parts := Split(text, ',');
    seq(|parts|, i requires 0 <= i < |parts| =>
      assert parts[i] in parts;
      Mapping(Split(parts[i], '=')[0], Split(parts[i], '=')[1]))
  }

  lemma {:induction false} SplitSubtext(s: string, sep: char, c: char)
    requires c !in s
    ensures forall p :: p in Split(s, sep) ==> c !in p
  {
    if s == "" {
    } else {
      SplitSubtext(s[1..], sep, c);
      var rest := Split(s[1..], sep);
      assert rest[0] in rest;
    }
  }

  lemma RuleTextClean(text: string)
    ensures forall rule :: rule in Split(text, ',') ==> forall p :: p in Split(rule, '=') ==> ',' !in p
  {
    SplitPartsClean(text, ',');
    forall rule | rule in Split(text, ',') ensures forall p :: p in Split(rule, '=') ==> ',' !in p {
      SplitSubtext(rule, '=', ',');
    }
  }

  predicate Rules(rules: seq<Mapping>) {
    forall r | r in rules :: r.orig != "" && ',' !in r.orig && ',' !in r.mapped
  }

  /** The list text after all the rules were applied one after the other. */
  function RemapText(list: string, rules: seq<Mapping>): string
    requires Rules(rules)
    decreases |rules|
  {
    if rules == [] then list
    else RemapText(ReplaceAll(list, rules[0].orig, rules[0].mapped), rules[1..])
  }

  /** strongswan/routedaemon.go:93-102 and strongswan/strongswan.go:285-293. */
  method RemapSubnets(list: string, text: string) returns (remapped: string)
    requires text != "" ==> WellSplit(text)
    ensures remapped == if text == "" then list else RemapText(list, ParseRules(text))
  {
    remapped := list;
    if text != "" {
      var rules := ParseRules(text);
      var parts := Split(text, ',');
      for i := 0 to |parts|
        invariant RemapText(remapped, rules[i..]) == RemapText(list, rules)
      {
        var fields := Split(parts[i], '=');
        assert rules[i..][0] == rules[i] == Mapping(fields[0], fields[1]);
        assert rules[i..][1..] == rules[i + 1..];
        remapped := ReplaceAll(remapped, fields[0], fields[1]);
      }
    }
  }

  /** The intended meaning on one list entry: the first rule whose original is this entry. */
  function RemapEntry(x: string, rules: seq<Mapping>): string {
    if rules == [] then x
    else if rules[0].orig == x then rules[0].mapped
    else RemapEntry(x, rules[1..])
  }

  function RemapEntries(items: seq<string>, rules: seq<Mapping>): seq<string> {
    seq(|items|, i requires 0 <= i < |items| => RemapEntry(items[i], rules))
  }

  predicate CommaFree(items: seq<string>) {
    forall x | x in items :: ',' !in x
  }

  predicate WholeEntries(items: seq<string>, text: string) {
    forall x | x in items :: x == text || !Contains(x, text)
  }

  /** Originals occur only as whole entries, and no translated subnet contains a later original. */
  ghost predicate Separate(items: seq<string>, rules: seq<Mapping>) {
    && (forall r :: r in rules ==> WholeEntries(items, r.orig))
    && (forall i, j :: 0 <= i < j < |rules| ==> !Contains(rules[i].mapped, rules[j].orig))
  }

  lemma RemapEntryOne(x: string, r: Mapping)
    ensures RemapEntry(x, [r]) == if x == r.orig then r.mapped else x
  {
    assert [r][1..] == [];
  }

  lemma ReplaceEachWhole(items: seq<string>, r: Mapping)
    requires r.orig != "" && WholeEntries(items, r.orig)
    ensures ReplaceEach(items, r.orig, r.mapped) == RemapEntries(items, [r])
  {
    forall i | 0 <= i < |items| ensures ReplaceAll(items[i], r.orig, r.mapped) == RemapEntry(items[i], [r]) {
      assert items[i] in items;
      RemapEntryOne(items[i], r);
      if items[i] == r.orig {
        ReplaceWhole(r.orig, r.mapped);
      } else {
        ReplaceAbsent(items[i], r.orig, r.mapped);
      }
    }
  }

  lemma {:induction false} RemapEntryUnchanged(x: string, rules: seq<Mapping>)
    requires forall r :: r in rules ==> r.orig != x
    ensures RemapEntry(x, rules) == x
  {
    if rules == [] {
    } else {
      RemapEntryUnchanged(x, rules[1..]);
    }
  }

  lemma ContainsItself(s: string)
    ensures Contains(s, s)
  {
    assert OccursAt(s, s, 0);
  }

  /** The sequential text rewriting of the whole list is the entry-by-entry substitution. */
  lemma {:induction false} RemapIsElementwise(items: seq<string>, rules: seq<Mapping>)
    requires |items| >= 1 && CommaFree(items) && Rules(rules) && Separate(items, rules)
    ensures Split(RemapText(Join(items, ','), rules), ',') == RemapEntries(items, rules)
    decreases |rules|
  {
    if rules == [] {
      SplitOfJoin(items, ',');
      assert RemapEntries(items, rules) == items;
    } else {
      var r, rest := rules[0], rules[1..];
      var items' := ReplaceEach(items, r.orig, r.mapped);
      ReplaceInJoin(items, ',', r.orig, r.mapped);
      ReplaceEachWhole(items, r);
      forall x | x in items'
        ensures ',' !in x && forall s :: s in rest ==> x == s.orig || !Contains(x, s.orig)
      {
        var i :| 0 <= i < |items| && items'[i] == x;
        RemapEntryOne(items[i], r);
        assert items[i] in items && items'[i] == RemapEntries(items, [r])[i] == RemapEntry(items[i], [r]);
        if items[i] == r.orig {
          assert x == r.mapped;
          forall s | s in rest ensures !Contains(x, s.orig) {
            var j :| 0 <= j < |rest| && rest[j] == s;
            assert rules[j + 1] == s;
          }
        } else {
          assert x == items[i];
        }
      }
      RemapIsElementwise(items', rest);
      forall i | 0 <= i < |items| ensures RemapEntry(items'[i], rest) == RemapEntry(items[i], rules) {
        RemapEntryOne(items[i], r);
        assert items'[i] == RemapEntries(items, [r])[i] == RemapEntry(items[i], [r]);
        if items[i] == r.orig {
          forall s | s in rest ensures s.orig != r.mapped {
            var j :| 0 <= j < |rest| && rest[j] == s;
            assert rules[j + 1] == s;
            ContainsItself(s.orig);
          }
          RemapEntryUnchanged(r.mapped, rest);
        }
      }
      assert RemapEntries(items', rest) == RemapEntries(items, rules);
    }
  }

  /** One rule acts on the split list as a textual replacement in every entry. */
  lemma SingleRuleOnEntries(items: seq<string>, r: Mapping)
    requires |items| >= 1 && CommaFree(items) && Rules([r])
    ensures Split(RemapText(Join(items, ','), [r]), ',') == ReplaceEach(items, r.orig, r.mapped)
  {
    assert r in [r] && [r][0] == r && [r][1..] == [];
    var text := Join(items, ',');
    var replaced := ReplaceEach(items, r.orig, r.mapped);
    ReplaceInJoin(items, ',', r.orig, r.mapped);
    assert RemapText(text, [r]) == Join(replaced, ',');
    forall p | p in replaced ensures ',' !in p {
      var i :| 0 <= i < |items| && replaced[i] == p;
      assert items[i] in items;
      ReplaceKeepsCharOut(items[i], r.orig, r.mapped, ',');
    }
    SplitOfJoin(replaced, ',');
  }

  /** For one rule the agreement holds exactly when the original occurs only as a whole entry. */
  lemma SingleRuleExact(items: seq<string>, r: Mapping)
    requires |items| >= 1 && CommaFree(items) && Rules([r]) && r.orig != r.mapped
    ensures Split(RemapText(Join(items, ','), [r]), ',') == RemapEntries(items, [r])
            <==> WholeEntries(items, r.orig)
  {
    assert r in [r];
    SingleRuleOnEntries(items, r);
    var replaced := ReplaceEach(items, r.orig, r.mapped);
    if WholeEntries(items, r.orig) {
      ReplaceEachWhole(items, r);
    } else {
      var x :| x in items && x != r.orig && Contains(x, r.orig);
      var i :| 0 <= i < |items| && items[i] == x;
      ReplaceIsWholeEntry(x, r.orig, r.mapped);
      RemapEntryOne(x, r);
      assert replaced[i] != RemapEntries(items, [r])[i];
    }
  }

  // ---------- back-translation of leftsubnet (strongswan/strongswan.go:254-276) ----------

  function Unmatched(left: string, rules: seq<Mapping>): seq<string> {
    if rules == [] then []
    else (if Contains(left, rules[0].mapped) then [] else [rules[0].orig]) + Unmatched(left, rules[1..])
  }

  /** The rule that the loop applied last; every earlier match is overwritten because it restarts from `left`. */
  function LastMatch(left: string, rules: seq<Mapping>): Option<Mapping> {
    if rules == [] then None
    else if Contains(left, rules[|rules| - 1].mapped) then Some(rules[|rules| - 1])
    else LastMatch(left, rules[..|rules| - 1])
  }

  function UndoLast(left: string, last: Option<Mapping>): string
    requires last.Some? ==> last.value.mapped != ""
  {
    if last.None? then left else ReplaceAll(left, last.value.mapped, last.value.orig)
  }

  predicate Invertible(rules: seq<Mapping>) {
    Rules(rules) && forall r | r in rules :: r.mapped != ""
  }

  lemma {:induction false} LastMatchIsRule(left: string, rules: seq<Mapping>)
    ensures LastMatch(left, rules).Some? ==>
              LastMatch(left, rules).value in rules && Contains(left, LastMatch(left, rules).value.mapped)
    ensures LastMatch(left, rules).None? ==> forall r :: r in rules ==> !Contains(left, r.mapped)
  {
    if rules == [] {
    } else {
      var n := |rules| - 1;
      assert rules == rules[..n] + [rules[n]];
      LastMatchIsRule(left, rules[..n]);
    }
  }

  /** What the loop computes: the originals of the unmatched rules, then `left` with only the last match undone. */
  function Subjects(left: string, rules: seq<Mapping>): seq<string>
    requires Invertible(rules)
  {
    LastMatchIsRule(left, rules);
    Unmatched(left, rules) + Split(UndoLast(left, LastMatch(left, rules)), ',')
  }

  lemma {:induction false} UnmatchedAppend(left: string, rules: seq<Mapping>, r: Mapping)
    ensures Unmatched(left, rules + [r]) ==
            Unmatched(left, rules) + (if Contains(left, r.mapped) then [] else [r.orig])
  {
    if rules == [] {
      assert (rules + [r])[1..] == [];
    } else {
      UnmatchedAppend(left, rules[1..], r);
      assert (rules + [r])[1..] == rules[1..] + [r];
    }
  }

  /** `prefix` is a run of complete entries, each closed by its comma. */
  ghost predicate ClosedEntries(prefix: string, parts: seq<string>) {
    forall s :: Split(prefix + s, ',') == parts + Split(s, ',')
  }

  lemma ClosedEntriesEmpty()
    ensures ClosedEntries("", [])
  {
    forall s: string ensures Split("" + s, ',') == [] + Split(s, ',') {
      assert "" + s == s;
    }
  }

  lemma OneEntryMore(prefix: string, parts: seq<string>, x: string, rest: string)
    requires ',' !in x && ClosedEntries(prefix, parts)
    ensures Split(prefix + (x + ",") + rest, ',') == parts + [x] + Split(rest, ',')
  {
    var tail := x + [','] + rest;
    assert prefix + (x + ",") + rest == prefix + tail;
    SplitAtSeparator(x, ',', rest);
    assert parts + ([x] + Split(rest, ',')) == parts + [x] + Split(rest, ',');
  }

  lemma ClosedEntriesAppend(prefix: string, parts: seq<string>, x: string)
    requires ',' !in x && ClosedEntries(prefix, parts)
    ensures ClosedEntries(prefix + (x + ","), parts + [x])
  {
    forall rest: string ensures Split(prefix + (x + ",") + rest, ',') == parts + [x] + Split(rest, ',') {
      OneEntryMore(prefix, parts, x, rest);
    }
  }

  lemma LastMatchAppend(left: string, rules: seq<Mapping>, r: Mapping)
    ensures LastMatch(left, rules + [r]) == if Contains(left, r.mapped) then Some(r) else LastMatch(left, rules)
  {
    assert (rules + [r])[..|rules|] == rules;
  }

  lemma {:induction false} PartInJoin(parts: seq<string>, k: nat, sep: char, p: string)
    requires k < |parts| && parts[k] == p
    ensures Contains(Join(parts, sep), p)
  {
    var s := Join(parts, sep);
    if k == 0 {
      assert s[0..0 + |p|] == p;
      assert OccursAt(s, p, 0);
    } else {
      PartInJoin(parts[1..], k - 1, sep, p);
      var t := Join(parts[1..], sep);
      var i :| 0 <= i <= |t| && OccursAt(t, p, i);
      var off := |parts[0]| + 1;
      assert s[off + i..off + i + |p|] == t[i..i + |p|];
      assert OccursAt(s, p, off + i);
    }
  }

  lemma {:induction false} RemapEntryCases(x: string, rules: seq<Mapping>)
    ensures (exists r :: r in rules && r.orig == x && RemapEntry(x, rules) == r.mapped)
            || (RemapEntry(x, rules) == x && forall r :: r in rules ==> r.orig != x)
  {
    if rules == [] {
    } else {
      if rules[0].orig == x {
        assert rules[0] in rules;
      } else {
        RemapEntryCases(x, rules[1..]);
      }
    }
  }

  predicate IsOriginal(x: string, rules: seq<Mapping>) {
    exists r | r in rules :: r.orig == x
  }

  /** Texts do not overlap partially: needed so that only the choice of rules, not substrings, matters. */
  ghost predicate CleanTexts(items: seq<string>, rules: seq<Mapping>) {
    && Invertible(rules) && CommaFree(items)
    && (forall r :: r in rules ==> r.orig != r.mapped)
    && (forall r, s :: r in rules && s in rules && r.orig == s.orig ==> r == s)
    && (forall r, s :: r in rules && s in rules ==> r.mapped == s.mapped || !Contains(r.mapped, s.mapped))
    && (forall x, r :: x in items && !IsOriginal(x, rules) && r in rules ==> !Contains(x, r.mapped))
  }

  lemma UndoEntry(x: string, rules: seq<Mapping>, last: Mapping)
    requires CleanTexts([x], rules) && last in rules
    ensures ReplaceAll(RemapEntry(x, rules), last.mapped, last.orig) == x
            <==> (IsOriginal(x, rules) ==> x == last.orig)
  {
    assert x in [x];
    RemapEntryCases(x, rules);
    var y := RemapEntry(x, rules);
    if IsOriginal(x, rules) {
      var r :| r in rules && r.orig == x && y == r.mapped;
      if y == last.mapped {
        ReplaceWhole(last.mapped, last.orig);
      } else {
        ReplaceAbsent(y, last.mapped, last.orig);
      }
    } else {
      ReplaceAbsent(y, last.mapped, last.orig);
    }
  }

  lemma CleanEntry(items: seq<string>, rules: seq<Mapping>, i: nat)
    requires CleanTexts(items, rules) && i < |items|
    ensures CleanTexts([items[i]], rules) && ',' !in RemapEntry(items[i], rules)
  {
    assert items[i] in items;
    RemapEntryCases(items[i], rules);
  }

  lemma RemappedCommaFree(items: seq<string>, rules: seq<Mapping>)
    requires CleanTexts(items, rules)
    ensures CommaFree(RemapEntries(items, rules))
  {
    var ys := RemapEntries(items, rules);
    forall y | y in ys ensures ',' !in y {
      var i :| 0 <= i < |ys| && ys[i] == y;
      CleanEntry(items, rules, i);
    }
  }

  lemma NothingToUndo(items: seq<string>, rules: seq<Mapping>)
    requires |items| >= 1 && LastMatch(Join(RemapEntries(items, rules), ','), rules).None?
    ensures RemapEntries(items, rules) == items && forall x :: x in items ==> !IsOriginal(x, rules)
  {
    var ys := RemapEntries(items, rules);
    LastMatchIsRule(Join(ys, ','), rules);
    forall i | 0 <= i < |items| ensures ys[i] == items[i] && !IsOriginal(items[i], rules) {
      RemapEntryCases(items[i], rules);
      PartInJoin(ys, i, ',', ys[i]);
    }
  }

  lemma LastUndone(items: seq<string>, rules: seq<Mapping>, last: Mapping)
    requires |items| >= 1 && CleanTexts(items, rules) && last in rules && last.mapped != ""
    ensures Split(ReplaceAll(Join(RemapEntries(items, rules), ','), last.mapped, last.orig), ',') == items
            <==> forall x :: x in items && IsOriginal(x, rules) ==> x == last.orig
  {
    var ys, m, o := RemapEntries(items, rules), last.mapped, last.orig;
    RemappedCommaFree(items, rules);
    var back := Mapping(m, o);
    assert back in [back] && [back][1..] == [] && [back][0] == back;
    assert RemapText(Join(ys, ','), [back]) == ReplaceAll(Join(ys, ','), m, o);
    SingleRuleOnEntries(ys, back);
    var zs := ReplaceEach(ys, m, o);
    forall i | 0 <= i < |items| ensures zs[i] == items[i] <==> (IsOriginal(items[i], rules) ==> items[i] == o) {
      CleanEntry(items, rules, i);
      UndoEntry(items[i], rules, last);
    }
    if zs == items {
      forall x | x in items && IsOriginal(x, rules) ensures x == o {
        var i :| 0 <= i < |items| && items[i] == x;
        assert zs[i] == items[i];
      }
    } else {
      var i :| 0 <= i < |items| && zs[i] != items[i];
      assert items[i] in items;
    }
  }

  /**
   With `leftsubnet` holding the translated form of `items`, the loop recovers `items` exactly when every
   translated entry came from the rule applied last (in particular when at most one rule is in use).
   */
  lemma BackTranslationExact(items: seq<string>, rules: seq<Mapping>)
    requires |items| >= 1 && CleanTexts(items, rules)
    ensures var left := Join(RemapEntries(items, rules), ',');
            var last := LastMatch(left, rules);
            && (last.Some? ==> last.value.mapped != "")
            && (Split(UndoLast(left, last), ',') == items
                <==> forall x :: x in items && IsOriginal(x, rules) ==> last.Some? && x == last.value.orig)
  {
    var left := Join(RemapEntries(items, rules), ',');
    var last := LastMatch(left, rules);
    LastMatchIsRule(left, rules);
    if last.None? {
      NothingToUndo(items, rules);
      SplitOfJoin(items, ',');
    } else {
      LastUndone(items, rules, last.value);
    }
  }

  lemma {:induction false} UnmatchedMembers(left: string, rules: seq<Mapping>, o: string)
    ensures o in Unmatched(left, rules) <==> exists r :: r in rules && r.orig == o && !Contains(left, r.mapped)
  {
    if rules == [] {
    } else {
      assert rules == [rules[0]] + rules[1..];
      UnmatchedMembers(left, rules[1..], o);
      if rules[0].orig == o && !Contains(left, rules[0].mapped) {
        assert rules[0] in rules;
      }
    }
  }

  /** Undoing one rule on a list whose entries it matches only as a whole. */
  lemma UndoneEntries(items: seq<string>, r: Mapping, o: string)
    requires |items| >= 1 && CommaFree(items) && Rules([r]) && r.mapped != "" && WholeEntries(items, r.mapped)
    ensures o in Split(ReplaceAll(Join(items, ','), r.mapped, r.orig), ',')
            <==> (o in items && o != r.mapped) || (o == r.orig && r.mapped in items)
  {
    var back := Mapping(r.mapped, r.orig);
    assert r in [r] && back in [back];
    assert RemapText(Join(items, ','), [back]) == ReplaceAll(Join(items, ','), r.mapped, r.orig) by {
      assert [back][1..] == [] && [back][0] == back;
    }
    SingleRuleOnEntries(items, back);
    ReplaceEachWhole(items, back);
    RemappedMembers(items, back, o);
  }

  lemma RemappedMembers(items: seq<string>, r: Mapping, o: string)
    ensures o in RemapEntries(items, [r]) <==> (o in items && o != r.orig) || (o == r.mapped && r.orig in items)
  {
    var entries := RemapEntries(items, [r]);
    forall i | 0 <= i < |items| ensures entries[i] == if items[i] == r.orig then r.mapped else items[i] {
      RemapEntryOne(items[i], r);
    }
    if o in items && o != r.orig {
      var i :| 0 <= i < |items| && items[i] == o;
      assert entries[i] == o;
    }
    if o == r.mapped && r.orig in items {
      var i :| 0 <= i < |items| && items[i] == r.orig;
      assert entries[i] == o;
    }
  }

  /** Every translated text is a whole entry of the list or does not occur in it. */
  ghost predicate WholeTranslations(items: seq<string>, rules: seq<Mapping>) {
    && |items| >= 1 && CommaFree(items) && Invertible(rules)
    && (forall s :: s in rules ==> WholeEntries(items, s.mapped))
  }

  /** The loop keeps the original of this rule: it did not match, or no later rule did. */
  predicate Kept(left: string, rules: seq<Mapping>, r: Mapping) {
    !Contains(left, r.mapped) || LastMatch(left, rules) == Some(r)
  }

  lemma KeptOriginal(items: seq<string>, rules: seq<Mapping>, r: Mapping)
    requires WholeTranslations(items, rules) && r in rules && Kept(Join(items, ','), rules, r)
    ensures r.orig in Subjects(Join(items, ','), rules)
  {
    var left := Join(items, ',');
    if !Contains(left, r.mapped) {
      UnmatchedMembers(left, rules, r.orig);
    } else {
      assert r in [r];
      ContainsInJoin(items, ',', r.mapped);
      assert r.mapped in items;
      UndoneEntries(items, r, r.orig);
    }
  }

  /** Subjects are originals of rules or entries of the list. */
  lemma SubjectMembers(items: seq<string>, rules: seq<Mapping>, o: string)
    requires WholeTranslations(items, rules) && o in Subjects(Join(items, ','), rules)
    ensures o in items || exists r :: r in rules && r.orig == o
  {
    var left := Join(items, ',');
    var last := LastMatch(left, rules);
    LastMatchIsRule(left, rules);
    UnmatchedMembers(left, rules, o);
    if last.None? {
      SplitOfJoin(items, ',');
    } else {
      assert last.value in [last.value];
      UndoneEntries(items, last.value, o);
    }
  }

  /** The last rule whose translation is an entry of the list. */
  ghost predicate LastUsed(items: seq<string>, rules: seq<Mapping>, i: int) {
    0 <= i < |rules| && rules[i].mapped in items && forall j | i < j < |rules| :: rules[j].mapped !in items
  }

  /**
   A subject is the original of a rule whose translation is not listed, the original of the last rule whose
   translation is listed, or a listed subnet other than the translation of that rule.
   */
  ghost predicate IsSubject(items: seq<string>, rules: seq<Mapping>, o: string) {
    || (exists r | r in rules :: r.orig == o && r.mapped !in items)
    || (exists i :: LastUsed(items, rules, i) && rules[i].orig == o)
    || (o in items && forall i :: LastUsed(items, rules, i) ==> rules[i].mapped != o)
  }

  lemma TranslationListed(items: seq<string>, rules: seq<Mapping>, r: Mapping)
    requires WholeTranslations(items, rules) && r in rules
    ensures Contains(Join(items, ','), r.mapped) <==> r.mapped in items
  {
    if Contains(Join(items, ','), r.mapped) {
      ContainsInJoin(items, ',', r.mapped);
    }
    if r.mapped in items {
      var k :| 0 <= k < |items| && items[k] == r.mapped;
      PartInJoin(items, k, ',', r.mapped);
    }
  }

  /** The rule found from the back of the list is the last one used. */
  lemma {:induction false} LastMatchIsLastUsed(items: seq<string>, rules: seq<Mapping>)
    requires WholeTranslations(items, rules)
    ensures var last := LastMatch(Join(items, ','), rules);
            && (last.None? ==> forall i :: !LastUsed(items, rules, i))
            && (last.Some? ==> forall i :: LastUsed(items, rules, i) ==> rules[i] == last.value)
            && (last.Some? ==> exists i :: LastUsed(items, rules, i))
  {
    if rules == [] {
    } else {
      var n := |rules| - 1;
      var front := rules[..n];
      TranslationListed(items, rules, rules[n]);
      assert rules == front + [rules[n]];
      LastMatchIsLastUsed(items, front);
      if rules[n].mapped in items {
        assert LastUsed(items, rules, n);
      } else {
        forall i ensures LastUsed(items, rules, i) <==> LastUsed(items, front, i) {
        }
      }
    }
  }

  /** Exactly which texts the remote rules are applied to. */
  lemma SubjectsExactly(items: seq<string>, rules: seq<Mapping>, o: string)
    requires WholeTranslations(items, rules)
    ensures o in Subjects(Join(items, ','), rules) <==> IsSubject(items, rules, o)
  {
    var left := Join(items, ',');
    var last := LastMatch(left, rules);
    forall r | r in rules ensures Contains(left, r.mapped) <==> r.mapped in items {
      TranslationListed(items, rules, r);
    }
    LastMatchIsRule(left, rules);
    LastMatchIsLastUsed(items, rules);
    UnmatchedMembers(left, rules, o);
    if last.None? {
      SplitOfJoin(items, ',');
    } else {
      var i :| LastUsed(items, rules, i);
      assert last.value in [last.value];
      UndoneEntries(items, last.value, o);
    }
  }

  lemma AllSubjects(left: string, rules: seq<Mapping>)
    requires Invertible(rules)
    ensures var items := Split(left, ',');
            WholeTranslations(items, rules) ==> forall o :: o in Subjects(left, rules) <==> IsSubject(items, rules, o)
  {
    var items := Split(left, ',');
    JoinOfSplit(left, ',');
    if WholeTranslations(items, rules) {
      forall o ensures o in Subjects(left, rules) <==> IsSubject(items, rules, o) {
        SubjectsExactly(items, rules, o);
      }
    }
  }

  /** The subject list handed to the remote NAT rules. */
  method BackTranslate(left: string, text: string) returns (subjects: string)
    requires WellSplit(text) && Invertible(ParseRules(text))
    ensures Split(subjects, ',') == Subjects(left, ParseRules(text))
    ensures var items, rules := Split(left, ','), ParseRules(text);
            WholeTranslations(items, rules) ==> forall o :: o in Split(subjects, ',') <==> IsSubject(items, rules, o)
  {
    ghost var rules := ParseRules(text);
    ghost var last: Option<Mapping> := None;
    var parts := Split(text, ',');
    var origSubnets, additional := left, "";
    ClosedEntriesEmpty();
    for i := 0 to |parts|
      invariant last == LastMatch(left, rules[..i]) && (last.Some? ==> last.value.mapped != "")
      invariant origSubnets == UndoLast(left, last)
      invariant ClosedEntries(additional, Unmatched(left, rules[..i]))
    {
      var fields := Split(parts[i], '=');
      var orig, mapped := fields[0], fields[1];
      assert rules[i] == Mapping(orig, mapped) && rules[i] in rules;
      assert rules[..i + 1] == rules[..i] + [rules[i]];
      UnmatchedAppend(left, rules[..i], rules[i]);
      LastMatchAppend(left, rules[..i], rules[i]);
      if Contains(left, mapped) {
        origSubnets := ReplaceAll(left, mapped, orig);
        last := Some(rules[i]);
        assert Unmatched(left, rules[..i + 1]) == Unmatched(left, rules[..i]);
      } else {
        ClosedEntriesAppend(additional, Unmatched(left, rules[..i]), orig);
        additional := additional + (orig + ",");
      }
    }
    assert rules[..|parts|] == rules;
    subjects := additional + origSubnets;
    AllSubjects(left, rules);
  }

  lemma OnlyRuleKept(left: string, r: Mapping)
    ensures Kept(left, [r], r)
  {
  }

  /**
   The original of a local rule becomes a subject of the remote rules exactly when its translation is not part of
   `leftsubnet` or no later rule matched: the originals of all other matching rules are lost.
   */
  lemma OriginalAmongSubjects(items: seq<string>, rules: seq<Mapping>, r: Mapping)
    requires WholeTranslations(items, rules) && r in rules
    requires r.orig !in items && forall s :: s in rules && s.orig == r.orig ==> s == r
    ensures r.orig in Subjects(Join(items, ','), rules) <==> Kept(Join(items, ','), rules, r)
  {
    var left := Join(items, ',');
    var last := LastMatch(left, rules);
    if Kept(left, rules, r) {
      KeptOriginal(items, rules, r);
    } else {
      LastMatchIsRule(left, rules);
      UnmatchedMembers(left, rules, r.orig);
      if last.None? {
        SplitOfJoin(items, ',');
      } else {
        assert last.value in [last.value];
        UndoneEntries(items, last.value, r.orig);
      }
    }
  }

  // ---------- two local rules in one list ----------

  lemma SameLengthContains(x: string, p: string)
    requires |x| == |p|
    ensures Contains(x, p) <==> x == p
  {
    if x == p {
      ContainsItself(x);
    } else {
      assert x[0..|p|] == x;
    }
  }

  /** Two rules with texts of one length for the originals and of one length for the translations. */
  predicate TwoRules(a: string, b: string, c: string, d: string) {
    && a != "" && c != "" && a != b && c != d && |a| == |b| && |c| == |d| && |a| < |c|
    && ',' !in a && ',' !in b && ',' !in c && ',' !in d
  }

  lemma TwoRulesRemapped(a: string, b: string, c: string, d: string)
    requires TwoRules(a, b, c, d)
    ensures RemapEntries([a, b], [Mapping(a, c), Mapping(b, d)]) == [c, d]
    ensures LastMatch(Join([c, d], ','), [Mapping(a, c), Mapping(b, d)]) == Some(Mapping(b, d))
    ensures Contains(Join([c, d], ','), c)
  {
    var rules := [Mapping(a, c), Mapping(b, d)];
    assert rules[1..] == [Mapping(b, d)];
    assert RemapEntry(b, rules) == RemapEntry(b, rules[1..]) == d;
    assert [c, d][0] == c && [c, d][1] == d;
    PartInJoin([c, d], 0, ',', c);
    PartInJoin([c, d], 1, ',', d);
  }

  lemma TwoRulesClean(a: string, b: string, c: string, d: string)
    requires TwoRules(a, b, c, d)
    ensures CleanTexts([a, b], [Mapping(a, c), Mapping(b, d)])
    ensures WholeTranslations([c, d], [Mapping(a, c), Mapping(b, d)])
  {
    SameLengthContains(c, d);
    SameLengthContains(d, c);
    var rules := [Mapping(a, c), Mapping(b, d)];
    assert rules[0] in rules && rules[1] in rules;
    assert IsOriginal(a, rules) && IsOriginal(b, rules);
  }

  /** Both translations are in `leftsubnet`: the first original is not restored and is not among the subjects. */
  lemma FirstOriginalLost(a: string, b: string, c: string, d: string)
    requires TwoRules(a, b, c, d)
    ensures var rules, left := [Mapping(a, c), Mapping(b, d)], Join([c, d], ',');
            LastMatch(left, rules) == Some(Mapping(b, d))
            && Split(ReplaceAll(left, d, b), ',') != [a, b] && a !in Subjects(left, rules)
  {
    var rules := [Mapping(a, c), Mapping(b, d)];
    TwoRulesRemapped(a, b, c, d);
    TwoRulesClean(a, b, c, d);
    assert a in [a, b] && rules[0] in rules && IsOriginal(a, rules);
    BackTranslationExact([a, b], rules);
    OriginalAmongSubjects([c, d], rules, Mapping(a, c));
  }

  /** Two real networks: 10.0.0.0/24 is lost, only 10.0.1.0/24 comes back. */
  lemma FirstNetworkLost(a: string, b: string, c: string, d: string)
    requires a == "10.0.0.0/24" && b == "10.0.1.0/24" && c == "172.16.0.0/24" && d == "172.16.1.0/24"
    ensures var rules, left := [Mapping(a, c), Mapping(b, d)], Join([c, d], ',');
            CleanTexts([a, b], rules) && WholeTranslations([c, d], rules)
            && Split(ReplaceAll(left, d, b), ',') != [a, b] && a !in Subjects(left, rules)
  {
    assert a[5] != b[5] && c[7] != d[7];
    TwoRulesClean(a, b, c, d);
    FirstOriginalLost(a, b, c, d);
  }
}

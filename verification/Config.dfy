/**
 The ipsec.conf file: reading it into a map, and editing it in place with `sed` (utils/config.go:153-274,
 strongswan/strongswan.go:93-115).
 */
module Config {
  import opened Text
  import opened IPv4

  datatype Entry = Entry(key: string, value: string)

  type ConfigData = map<string, seq<string>>

  const NODE_PUBLIC_IP := "%nodePublicIP"
  const LOAD_BALANCER_IP := "%loadBalancerIP"
  const ZONE_SUBNET := "%zoneSubnet"

  // ---------- reading ----------

  /** The first position of `c`, or the length of the text. */
  function Index(s: string, c: char): (i: nat)
    ensures i <= |s| && c !in s[..i] && (i < |s| ==> s[i] == c)
  {
    if s == "" || s[0] == c then 0 else 1 + Index(s[1..], c)
  }

  function Stripped(line: string): string {
    TrimSpace(line[..Index(line, '#')])
  }

  /** What one line contributes: `key=value` with a key that is not empty and has no blank in it. */
  function ParseLine(line: string): (e: Option<Entry>)
    ensures e.Some? ==> e.value.key != "" && '=' !in e.value.key && ' ' !in e.value.key
  {
    var t := Stripped(line);
    var equal := Index(t, '=');
    if equal == |t| || equal == 0 || ' ' in t[..equal] then None
    else Some(Entry(t[..equal], t[equal + 1..]))
  }

  function LineValues(line: string, key: string): seq<string> {
    var e := ParseLine(line);
    if e.Some? && e.value.key == key then [e.value.value] else []
  }

  /** All values given for a key, in the order of the lines. */
  function ValuesOf(lines: seq<string>, key: string): seq<string> {
    if lines == [] then [] else ValuesOf(lines[..|lines| - 1], key) + LineValues(lines[|lines| - 1], key)
  }

  ghost predicate Reads(data: ConfigData, lines: seq<string>) {
    forall key :: (key in data <==> ValuesOf(lines, key) != []) && (key in data ==> data[key] == ValuesOf(lines, key))
  }

  function Append(data: ConfigData, e: Entry): ConfigData {
    data[e.key := (if e.key in data then data[e.key] else []) + [e.value]]
  }

  lemma ReadsNext(data: ConfigData, lines: seq<string>, i: nat)
    requires i < |lines| && Reads(data, lines[..i])
    ensures var e := ParseLine(lines[i]);
            Reads(if e.Some? then Append(data, e.value) else data, lines[..i + 1])
  {
    assert lines[..i + 1][..i] == lines[..i];
  }

  method ReadConfigFile(lines: seq<string>) returns (data: ConfigData)
    ensures Reads(data, lines)
  {
    data := map[];
    for i := 0 to |lines|
      invariant Reads(data, lines[..i])
    {
      ReadsNext(data, lines, i);
      var line := lines[i];
      var comment := Index(line, '#');
      if comment < |line| {
        line := line[..comment];
      }
      assert line == lines[i][..comment];
      line := TrimSpace(line);
      var equal := Index(line, '=');
      if equal == |line| || equal == 0 {
        continue;
      }
      var space := Index(line, ' ');
      if space < equal {
        assert line[..equal][space] == ' ';
        continue;
      }
      assert ' ' !in line[..equal];
      var key := line[..equal];
      var value := "";
      if |line| > equal + 1 {
        value := line[equal + 1..];
      }
      assert value == line[equal + 1..];
      assert ParseLine(lines[i]) == Some(Entry(key, value));
      if key in data {
        data := data[key := data[key] + [value]];
      } else {
        data := data[key := [value]];
      }
    }
    assert lines[..|lines|] == lines;
  }

  // ---------- white space ----------

  lemma {:induction false} TrimLeftSnoc(s: string, c: char)
    requires IsSpace(c)
    ensures TrimLeft(s + [c]) == if TrimLeft(s) == "" then "" else TrimLeft(s) + [c]
  {
    if s == "" {
      assert [c][1..] == "";
    } else if IsSpace(s[0]) {
      assert (s + [c])[1..] == s[1..] + [c];
      TrimLeftSnoc(s[1..], c);
    }
  }

  lemma TrimSpaceSnoc(s: string, c: char)
    requires IsSpace(c)
    ensures TrimSpace(s + [c]) == TrimSpace(s)
  {
    TrimLeftSnoc(s, c);
    assert TrimLeft(s) != "" ==> (TrimLeft(s) + [c])[..|TrimLeft(s)|] == TrimLeft(s);
  }

  lemma TrimSpaceCons(c: char, s: string)
    requires IsSpace(c)
    ensures TrimSpace([c] + s) == TrimSpace(s)
  {
    assert ([c] + s)[1..] == s;
  }

  predicate Trimmed(s: string) {
    s != "" ==> !IsSpace(s[0]) && !IsSpace(s[|s| - 1])
  }

  lemma {:induction false} TrimLeftFirst(s: string)
    ensures var t := TrimLeft(s);
            |t| <= |s| && t == s[|s| - |t|..] && (t != "" ==> !IsSpace(t[0]))
  {
    if s != "" && IsSpace(s[0]) {
      TrimLeftFirst(s[1..]);
    }
  }

  lemma {:induction false} TrimRightLast(s: string)
    ensures var t := TrimRight(s);
            |t| <= |s| && t == s[..|t|] && (t != "" ==> !IsSpace(t[|t| - 1]))
  {
    if s != "" && IsSpace(s[|s| - 1]) {
      TrimRightLast(s[..|s| - 1]);
    }
  }

  lemma TrimSpaceTrimmed(s: string)
    ensures Trimmed(TrimSpace(s))
  {
    TrimLeftFirst(s);
    TrimRightLast(TrimLeft(s));
  }

  // ---------- what a line contributes, in terms of its text ----------

  predicate AllSpace(s: string) {
    forall c | c in s :: IsSpace(c)
  }

  /** A key as it stands in a file: not empty, nothing to trim in front, and without blanks, `=` and `#`. */
  predicate PlainSetting(key: string) {
    key != "" && !IsSpace(key[0]) && ' ' !in key && '=' !in key && '#' !in key
  }

  /** A value as it stands in a file: without `#`, and not followed by white space of its own. */
  predicate PlainValue(value: string) {
    '#' !in value && (value != "" ==> !IsSpace(value[|value| - 1]))
  }

  lemma TrimmedIsFixed(s: string)
    requires Trimmed(s)
    ensures TrimSpace(s) == s
  {
  }

  lemma {:induction false} TrimLead(lead: string, s: string)
    requires AllSpace(lead)
    ensures TrimSpace(lead + s) == TrimSpace(s)
  {
    if lead == "" {
      assert lead + s == s;
    } else {
      assert lead[0] in lead && forall c :: c in lead[1..] ==> c in lead;
      assert lead + s == [lead[0]] + (lead[1..] + s);
      TrimSpaceCons(lead[0], lead[1..] + s);
      TrimLead(lead[1..], s);
    }
  }

  lemma {:induction false} TrimTail(s: string, tail: string)
    requires AllSpace(tail)
    ensures TrimSpace(s + tail) == TrimSpace(s)
    decreases |tail|
  {
    if tail == "" {
      assert s + tail == s;
    } else {
      var n := |tail| - 1;
      assert tail[n] in tail && forall c :: c in tail[..n] ==> c in tail;
      assert s + tail == (s + tail[..n]) + [tail[n]];
      TrimSpaceSnoc(s + tail[..n], tail[n]);
      TrimTail(s, tail[..n]);
    }
  }

  lemma TrimBoth(lead: string, s: string, tail: string)
    requires AllSpace(lead) && AllSpace(tail) && Trimmed(s)
    ensures TrimSpace(lead + s + tail) == s
  {
    TrimTail(lead + s, tail);
    TrimLead(lead, s);
    TrimmedIsFixed(s);
  }

  lemma {:induction false} FirstIndex(a: string, b: string, c: char)
    requires c !in a && (b != "" ==> b[0] == c)
    ensures Index(a + b, c) == |a| && (a + b)[..|a|] == a
  {
    if a == "" {
      assert a + b == b;
    } else {
      assert (a + b)[1..] == a[1..] + b;
      FirstIndex(a[1..], b, c);
    }
  }

  lemma IndexEqual(key: string, value: string)
    requires '=' !in key
    ensures var t := key + "=" + value; Index(t, '=') == |key| && t[..|key|] == key && t[|key| + 1..] == value
  {
    FirstIndex(key, "=" + value, '=');
    assert key + "=" + value == key + ("=" + value);
  }

  /** The text of an entry, with or without a comment behind it. */
  predicate IsLine(line: string, text: string) {
    line == text || exists i | 0 <= i < |line| :: line[..i] == text && line[i] == '#'
  }

  lemma UncommentedLine(line: string, text: string)
    requires IsLine(line, text) && '#' !in text
    ensures line[..Index(line, '#')] == text
  {
    if line == text {
      FirstIndex(text, "", '#');
      assert text + "" == text;
    } else {
      var i :| 0 <= i < |line| && line[..i] == text && line[i] == '#';
      FirstIndex(text, line[i..], '#');
      assert text + line[i..] == line;
    }
  }

  lemma EntryTrimmed(key: string, value: string)
    requires PlainSetting(key) && PlainValue(value)
    ensures Trimmed(key + "=" + value)
  {
    var t := key + "=" + value;
    assert t[0] == key[0];
    assert t[|t| - 1] == if value == "" then '=' else value[|value| - 1];
  }

  /** White space around an entry and a comment behind it do not matter; nothing else is lost. */
  lemma EntryLine(line: string, lead: string, key: string, value: string, tail: string)
    requires PlainSetting(key) && PlainValue(value) && AllSpace(lead) && AllSpace(tail)
    requires IsLine(line, lead + (key + "=" + value) + tail)
    ensures forall k :: LineValues(line, k) == if k == key then [value] else []
  {
    var entry := key + "=" + value;
    UncommentedLine(line, lead + entry + tail);
    EntryTrimmed(key, value);
    TrimBoth(lead, entry, tail);
    IndexEqual(key, value);
    assert Stripped(line) == entry;
  }

  lemma {:induction false} TrimmedChars(s: string, c: char)
    requires c !in s
    ensures c !in TrimSpace(s)
  {
    TrimLeftFirst(s);
    TrimRightLast(TrimLeft(s));
  }

  /** Text before the comment without a `=`, such as a section header, contributes nothing. */
  lemma HeaderLine(line: string, text: string)
    requires IsLine(line, text) && '#' !in text && '=' !in text
    ensures forall k :: LineValues(line, k) == []
  {
    UncommentedLine(line, text);
    TrimmedChars(text, '=');
  }

  /** Neither does text that starts with a `=` or has a blank in front of its first `=`. */
  lemma KeylessLine(line: string, lead: string, key: string, value: string, tail: string)
    requires AllSpace(lead) && AllSpace(tail) && PlainValue(value) && '#' !in key && '=' !in key
    requires key == "" || (!IsSpace(key[0]) && ' ' in key)
    requires IsLine(line, lead + (key + "=" + value) + tail)
    ensures forall k :: LineValues(line, k) == []
  {
    var entry := key + "=" + value;
    UncommentedLine(line, lead + entry + tail);
    assert entry[|entry| - 1] == if value == "" then '=' else value[|value| - 1];
    assert entry[0] == if key == "" then '=' else key[0];
    TrimBoth(lead, entry, tail);
    IndexEqual(key, value);
  }

  lemma ValuesStep(lines: seq<string>, line: string, key: string)
    ensures ValuesOf(lines + [line], key) == ValuesOf(lines, key) + LineValues(line, key)
  {
    assert (lines + [line])[..|lines|] == lines;
  }

  lemma ValuesPrefix(b: seq<string>, n: nat)
    requires n == |b| - 1
    ensures b == b[..n] + [b[n]]
  {
  }

  /** A file read in two parts: the values of the first part come first. */
  lemma {:induction false} ValuesInOrder(a: seq<string>, b: seq<string>, key: string)
    ensures ValuesOf(a + b, key) == ValuesOf(a, key) + ValuesOf(b, key)
    decreases |b|
  {
    if b == [] {
      assert a + b == a;
    } else {
      var c, line := b[..|b| - 1], b[|b| - 1];
      ValuesPrefix(b, |b| - 1);
      assert a + b == (a + c) + [line];
      ValuesInOrder(a, c, key);
      ValuesStep(a + c, line, key);
      ValuesStep(c, line, key);
    }
  }

  // ---------- editing ----------

  predicate Word(s: string) {
    s != "" && '=' !in s && NoSpace(s) && '#' !in s && '-' !in s
  }

  predicate SafeValue(s: string) {
    NoSpace(s) && '#' !in s && '-' !in s && '&' !in s && '\\' !in s
  }

  /** The setting `keyword=existing` is replaced by `keyword=newValue`. */
  datatype Edit = Edit(keyword: string, existing: string, newValue: string) {
    function Old(): string {
      keyword + "=" + existing
    }

    function New(): string {
      keyword + "=" + newValue
    }

    /** The texts the program edits with: nothing in them ends an entry, a comment or the `sed` command. */
    predicate Valid() {
      && Word(keyword) && Word(existing) && SafeValue(newValue)
    }
  }

  /** `sed` with the command `s-old-new-g`, on one line; the searched texts have no special characters. */
  function EditLine(line: string, e: Edit): string
    requires e.Valid()
  {
    ReplaceAll(line, e.Old(), e.New())
  }

  function EditLines(lines: seq<string>, e: Edit): seq<string>
    requires e.Valid()
  {
    seq(|lines|, i requires 0 <= i < |lines| => EditLine(lines[i], e))
  }

  /** What really happens to a value: a key that merely ends in the keyword is affected too. */
  function EditedValue(key: string, value: string, e: Edit): string
    requires e.Valid()
  {
    if HasSuffix(key, e.keyword) && e.existing <= value then e.newValue + EditLine(value[|e.existing|..], e)
    else EditLine(value, e)
  }

  lemma FirstEqual(a: string, b: string, c: string, d: string)
    requires '=' !in a && '=' !in c
    ensures a + "=" + b <= c + "=" + d <==> a == c && b <= d
  {
    var x, y := a + "=" + b, c + "=" + d;
    assert x[|a|] == '=' && y[|c|] == '=';
    assert forall i :: 0 <= i < |a| ==> x[i] == a[i] && x[i] in a;
    assert forall i :: 0 <= i < |c| ==> y[i] == c[i] && y[i] in c;
    if a == c && b <= d {
      assert y[..|x|] == x;
    }
    if x <= y {
      assert forall i :: 0 <= i < |x| ==> x[i] == y[i];
      assert |a| == |c|;
      assert a == x[..|a|] == y[..|c|] == c;
      assert b == x[|a| + 1..] && d == y[|c| + 1..];
    }
  }

  lemma EntryTail(key: string, value: string)
    requires key != ""
    ensures key + "=" + value == [key[0]] + (key[1..] + "=" + value)
  {
  }

  lemma EditAtFront(value: string, e: Edit)
    requires e.Valid() && e.existing <= value
    ensures EditLine(e.keyword + "=" + value, e) == e.keyword + "=" + EditedValue(e.keyword, value, e)
  {
    var rest := value[|e.existing|..];
    assert e.keyword + "=" + value == e.Old() + rest;
    ReplaceAtFront(rest, e.Old(), e.New());
    assert e.New() + EditLine(rest, e) == e.keyword + "=" + (e.newValue + EditLine(rest, e));
  }

  lemma EditLater(key: string, value: string, e: Edit)
    requires e.Valid() && '=' !in key && key != "" && !(key == e.keyword && e.existing <= value)
    ensures EditLine(key + "=" + value, e) == [key[0]] + EditLine(key[1..] + "=" + value, e)
  {
    FirstEqual(e.keyword, e.existing, key, value);
    EntryTail(key, value);
    ReplaceLater(key[0], key[1..] + "=" + value, e.Old(), e.New());
  }

  lemma EditEmptyKey(value: string, e: Edit)
    requires e.Valid()
    ensures EditLine("" + "=" + value, e) == "" + "=" + EditedValue("", value, e)
  {
    FirstEqual(e.keyword, e.existing, "", value);
    assert "" + "=" + value == ['='] + value;
    ReplaceLater('=', value, e.Old(), e.New());
  }

  /** The key of an entry is never changed. */
  lemma {:induction false} EditEntry(key: string, value: string, e: Edit)
    requires e.Valid() && '=' !in key
    ensures EditLine(key + "=" + value, e) == key + "=" + EditedValue(key, value, e)
    decreases |key|
  {
    if key == e.keyword && e.existing <= value {
      EditAtFront(value, e);
    } else if key == "" {
      EditEmptyKey(value, e);
    } else {
      EditLater(key, value, e);
      EditEntry(key[1..], value, e);
      EditedTail(key, value, e);
      EntryTail(key, EditedValue(key, value, e));
    }
  }

  lemma EditedTail(key: string, value: string, e: Edit)
    requires e.Valid() && key != "" && !(key == e.keyword && e.existing <= value)
    ensures EditedValue(key[1..], value, e) == EditedValue(key, value, e)
  {
    if key != e.keyword {
      SuffixOfTail(key, e.keyword);
    }
  }

  lemma SuffixOfTail(key: string, keyword: string)
    requires key != "" && key != keyword
    ensures HasSuffix(key[1..], keyword) <==> HasSuffix(key, keyword)
  {
    var i := |key| - |keyword|;
    if i >= 1 {
      assert key[1..][i - 1..i - 1 + |keyword|] == key[i..i + |keyword|];
    }
  }

  /** Editing commutes with stripping the comment. */
  lemma EditUncomment(line: string, e: Edit)
    requires e.Valid()
    ensures var edited := EditLine(line, e);
            edited[..Index(edited, '#')] == EditLine(line[..Index(line, '#')], e)
  {
    var c := Index(line, '#');
    var a := line[..c];
    ReplaceKeepsCharOut(a, e.Old(), e.New(), '#');
    var edited := EditLine(line, e);
    if c < |line| {
      assert line == a + ['#'] + line[c + 1..];
      ReplaceAcrossSeparator(a, '#', line[c + 1..], e.Old(), e.New());
      FirstIndex(EditLine(a, e), ['#'] + EditLine(line[c + 1..], e), '#');
    } else {
      assert a == line;
      FirstIndex(edited, "", '#');
      assert edited + "" == edited;
    }
  }

  lemma NoSpaceOld(e: Edit, c: char)
    requires e.Valid() && IsSpace(c)
    ensures c !in e.Old()
  {
  }

  /** Editing commutes with trimming, up to trimming the result. */
  lemma {:induction false} EditTrimSpace(s: string, e: Edit)
    requires e.Valid()
    ensures TrimSpace(EditLine(s, e)) == TrimSpace(EditLine(TrimSpace(s), e))
    decreases |s|
  {
    if s != "" && IsSpace(s[0]) {
      NoSpaceOld(e, s[0]);
      assert s == "" + [s[0]] + s[1..] && s == [s[0]] + s[1..];
      ReplaceAcrossSeparator("", s[0], s[1..], e.Old(), e.New());
      assert EditLine(s, e) == [s[0]] + EditLine(s[1..], e);
      TrimSpaceCons(s[0], s[1..]);
      TrimSpaceCons(s[0], EditLine(s[1..], e));
      EditTrimSpace(s[1..], e);
    } else if s != "" && IsSpace(s[|s| - 1]) {
      var front, c := s[..|s| - 1], s[|s| - 1];
      NoSpaceOld(e, c);
      assert s == front + [c] + "" && s == front + [c];
      ReplaceAcrossSeparator(front, c, "", e.Old(), e.New());
      assert EditLine(s, e) == EditLine(front, e) + [c];
      TrimSpaceSnoc(front, c);
      TrimSpaceSnoc(EditLine(front, e), c);
      EditTrimSpace(front, e);
    }
  }

  lemma {:induction false} EditKeepsLast(s: string, e: Edit)
    requires e.Valid() && s != "" && !IsSpace(s[|s| - 1])
    ensures var t := EditLine(s, e); t != "" && !IsSpace(t[|t| - 1])
    decreases |s|
  {
    var o, n := e.Old(), e.New();
    assert !IsSpace(n[|n| - 1]) by {
      assert e.newValue != "" ==> n[|n| - 1] == e.newValue[|e.newValue| - 1] && n[|n| - 1] in e.newValue;
    }
    if |s| >= |o| {
      if s[..|o|] == o {
        if s[|o|..] != "" {
          EditKeepsLast(s[|o|..], e);
        } else {
          assert EditLine(s, e) == n + ReplaceAll("", o, n) == n;
        }
      } else {
        EditKeepsLast(s[1..], e);
      }
    }
  }

  lemma EditKeepsFirst(s: string, e: Edit)
    requires e.Valid() && s != "" && !IsSpace(s[0])
    ensures var t := EditLine(s, e); t != "" && !IsSpace(t[0])
  {
    assert e.New()[0] == e.keyword[0] && e.keyword[0] in e.keyword;
  }

  lemma StrippedEdit(line: string, e: Edit)
    requires e.Valid()
    ensures Stripped(EditLine(line, e)) == EditLine(Stripped(line), e)
  {
    EditUncomment(line, e);
    var a, t := line[..Index(line, '#')], Stripped(line);
    EditTrimSpace(a, e);
    TrimSpaceTrimmed(a);
    if t != "" {
      EditKeepsFirst(t, e);
      EditKeepsLast(t, e);
    }
    TrimmedIsFixed(EditLine(t, e));
  }

  lemma NoOccurrence(t: string, p: string, k: nat)
    requires k < |p| && p[k] !in t
    ensures !Contains(t, p)
  {
    forall i | 0 <= i <= |t| ensures !OccursAt(t, p, i) {
      if i + |p| <= |t| {
        assert t[i..i + |p|][k] == t[i + k] && t[i + k] in t;
      }
    }
  }

  /** A line keeps its key, or stays without one, whatever the edit does to it. */
  lemma EditedLine(line: string, e: Edit)
    requires e.Valid()
    ensures var before, after := ParseLine(line), ParseLine(EditLine(line, e));
            after == if before.None? then None
                     else Some(Entry(before.value.key, EditedValue(before.value.key, before.value.value, e)))
  {
    StrippedEdit(line, e);
    var t := Stripped(line);
    var equal := Index(t, '=');
    if equal == |t| {
      assert t[..equal] == t && '=' !in t;
      NoOccurrence(t, e.Old(), |e.keyword|);
      ReplaceAbsent(t, e.Old(), e.New());
    } else {
      assert t == t[..equal] + "=" + t[equal + 1..];
      EditEntry(t[..equal], t[equal + 1..], e);
      IndexEqual(t[..equal], EditedValue(t[..equal], t[equal + 1..], e));
    }
  }

  // ---------- editing and reading again ----------

  function EditedValues(key: string, values: seq<string>, e: Edit): seq<string>
    requires e.Valid()
  {
    seq(|values|, i requires 0 <= i < |values| => EditedValue(key, values[i], e))
  }

  lemma EditedValuesAppend(key: string, values: seq<string>, more: seq<string>, e: Edit)
    requires e.Valid()
    ensures EditedValues(key, values + more, e) == EditedValues(key, values, e) + EditedValues(key, more, e)
  {
  }

  lemma EditedLineValues(line: string, key: string, e: Edit)
    requires e.Valid()
    ensures LineValues(EditLine(line, e), key) == EditedValues(key, LineValues(line, key), e)
  {
    EditedLine(line, e);
  }

  lemma {:induction false} EditedFile(lines: seq<string>, key: string, e: Edit)
    requires e.Valid()
    ensures ValuesOf(EditLines(lines, e), key) == EditedValues(key, ValuesOf(lines, key), e)
    decreases |lines|
  {
    if lines == [] {
    } else {
      var n := |lines| - 1;
      EditedFile(lines[..n], key, e);
      EditedLineValues(lines[n], key, e);
      assert EditLines(lines, e)[..n] == EditLines(lines[..n], e);
      EditedValuesAppend(key, ValuesOf(lines[..n], key), LineValues(lines[n], key), e);
    }
  }

  /** The intended meaning: only the marker value of the keyword changes. */
  function MarkerReplaced(key: string, value: string, e: Edit): string {
    if key == e.keyword && value == e.existing then e.newValue else value
  }

  function MarkersReplaced(key: string, values: seq<string>, e: Edit): seq<string> {
    seq(|values|, i requires 0 <= i < |values| => MarkerReplaced(key, values[i], e))
  }

  /** The marker text is a whole entry or does not occur in the entry. */
  predicate WholeEntry(key: string, value: string, e: Edit) {
    (key == e.keyword && value == e.existing) || !Contains(key + "=" + value, e.Old())
  }

  lemma EntryTextUnique(key: string, a: string, b: string)
    ensures key + "=" + a == key + "=" + b <==> a == b
  {
    assert (key + "=" + a)[|key| + 1..] == a && (key + "=" + b)[|key| + 1..] == b;
  }

  lemma EditedAsIntended(key: string, value: string, e: Edit)
    requires e.Valid() && '=' !in key && e.existing != e.newValue
    ensures EditedValue(key, value, e) == MarkerReplaced(key, value, e) <==> WholeEntry(key, value, e)
  {
    var text := key + "=" + value;
    EditEntry(key, value, e);
    EntryTextUnique(key, EditedValue(key, value, e), MarkerReplaced(key, value, e));
    EntryTextUnique(e.keyword, e.existing, e.newValue);
    assert text == e.Old() <==> key == e.keyword && value == e.existing by {
      FirstEqual(key, value, e.keyword, e.existing);
      FirstEqual(e.keyword, e.existing, key, value);
      assert text == e.Old() <==> text <= e.Old() && e.Old() <= text;
      assert value == e.existing <==> value <= e.existing && e.existing <= value;
    }
    ReplaceIsWholeEntry(text, e.Old(), e.New());
  }

  ghost predicate MarkersWhole(lines: seq<string>, e: Edit) {
    forall key, i :: 0 <= i < |ValuesOf(lines, key)| ==> WholeEntry(key, ValuesOf(lines, key)[i], e)
  }

  lemma {:induction false} KeysHaveNoEqual(lines: seq<string>, key: string)
    requires ValuesOf(lines, key) != []
    ensures '=' !in key
  {
    if ValuesOf(lines[..|lines| - 1], key) != [] {
      KeysHaveNoEqual(lines[..|lines| - 1], key);
    }
  }

  /**
   Reading the edited file gives the old parse with only the marker value of the keyword replaced, exactly when
   the marker text occurs only as a whole entry.
   */
  lemma EditThenRead(lines: seq<string>, e: Edit)
    requires e.Valid() && e.existing != e.newValue
    ensures (forall key :: ValuesOf(EditLines(lines, e), key) == MarkersReplaced(key, ValuesOf(lines, key), e))
            <==> MarkersWhole(lines, e)
  {
    forall key, i | 0 <= i < |ValuesOf(lines, key)|
      ensures EditedValues(key, ValuesOf(lines, key), e)[i] == MarkersReplaced(key, ValuesOf(lines, key), e)[i]
              <==> WholeEntry(key, ValuesOf(lines, key)[i], e)
    {
      KeysHaveNoEqual(lines, key);
      EditedAsIntended(key, ValuesOf(lines, key)[i], e);
    }
    forall key ensures ValuesOf(EditLines(lines, e), key) == EditedValues(key, ValuesOf(lines, key), e) {
      EditedFile(lines, key, e);
    }
    if MarkersWhole(lines, e) {
      forall key ensures ValuesOf(EditLines(lines, e), key) == MarkersReplaced(key, ValuesOf(lines, key), e) {
        assert forall i :: 0 <= i < |ValuesOf(lines, key)| ==> WholeEntry(key, ValuesOf(lines, key)[i], e);
      }
    } else {
      var key, i :| 0 <= i < |ValuesOf(lines, key)| && !WholeEntry(key, ValuesOf(lines, key)[i], e);
      assert ValuesOf(EditLines(lines, e), key)[i] != MarkersReplaced(key, ValuesOf(lines, key), e)[i];
    }
  }

  // ---------- the two settings that are edited ----------

  lemma LettersAreWord(s: string)
    requires s != "" && forall i | 0 <= i < |s| :: 'A' <= s[i] <= 'z' || s[i] == '%'
    ensures Word(s)
  {
  }

  lemma MarkersAreWords()
    ensures Word("leftid") && Word("leftsubnet") && Word(NODE_PUBLIC_IP) && Word(LOAD_BALANCER_IP) && Word(ZONE_SUBNET)
  {
    LettersAreWord("leftid");
    LettersAreWord("leftsubnet");
    LettersAreWord(NODE_PUBLIC_IP);
    LettersAreWord(LOAD_BALANCER_IP);
    LettersAreWord(ZONE_SUBNET);
  }

  /** The checks on the new value are what makes it safe to put into the file. */
  lemma AddressesAreSafe(value: string)
    requires ParseIP(value).Some? || (forall p :: p in Split(value, ',') ==> ParseCIDR(p).Some?)
    ensures SafeValue(value)
  {
    if ParseIP(value).Some? {
      IPChars(value);
    } else {
      JoinOfSplit(value, ',');
      forall p | p in Split(value, ',') ensures AddressChars(p) {
        CIDRChars(p);
      }
      JoinedChars(Split(value, ','));
    }
  }

  lemma {:induction false} JoinedChars(parts: seq<string>)
    requires forall p :: p in parts ==> AddressChars(p)
    ensures forall c :: c in Join(parts, ',') ==> IsDigit(c) || c in "./,"
  {
    if parts == [] {
    } else {
      assert parts[0] in parts;
      JoinedChars(parts[1..]);
    }
  }

  predicate ZoneEntry(text: string) {
    var f := Split(text, '=');
    |f| == 2 && forall p | p in Split(f[1], ',') :: ParseCIDR(p).Some?
  }

  /** Some entry of the zone comes before any malformed one. */
  predicate ZoneKnown(localZoneSubnet: string, zone: string) {
    var entries := Split(localZoneSubnet, ';');
    exists i | 0 <= i < |entries| :: ZoneFirst(entries, zone, i)
  }

  predicate ZoneFirst(entries: seq<string>, zone: string, i: nat)
    requires i < |entries|
  {
    Split(entries[i], '=')[0] == zone && forall j | 0 <= j <= i :: ZoneEntry(entries[j])
  }

  lemma BadEntryStops(localZoneSubnet: string, zone: string, i: nat)
    requires var entries := Split(localZoneSubnet, ';');
             i < |entries| && !ZoneEntry(entries[i]) && forall j :: 0 <= j < i ==> Split(entries[j], '=')[0] != zone
    ensures !ZoneKnown(localZoneSubnet, zone)
  {
    var entries := Split(localZoneSubnet, ';');
    forall k | 0 <= k < |entries| ensures !ZoneFirst(entries, zone, k) {
      assert i <= k ==> !ZoneEntry(entries[i]);
    }
  }

  /** The value that replaces a marker in `leftid` is an address. */
  predicate LeftIDKnown(leftID: string, publicIP: string, loadBalancerIP: string) {
    && (leftID == NODE_PUBLIC_IP ==> ParseIP(publicIP).Some?)
    && (leftID == LOAD_BALANCER_IP ==> ParseIP(loadBalancerIP).Some?)
  }

  /** `None` where the original ends the process. Entries after the matching one are not looked at. */
  method ProcessLocalZoneSubnet(localZoneSubnet: string, zone: string) returns (subnet: Option<string>)
    ensures subnet.Some? <==> ZoneKnown(localZoneSubnet, zone)
    ensures var entries := Split(localZoneSubnet, ';');
            subnet.Some? ==> exists i :: 0 <= i < |entries| && ZoneEntry(entries[i])
                                         && Split(entries[i], '=') == [zone, subnet.value]
                                         && forall j :: 0 <= j < i ==> Split(entries[j], '=')[0] != zone
    ensures subnet.Some? ==> forall p :: p in Split(subnet.value, ',') ==> ParseCIDR(p).Some?
  {
    var entries := Split(localZoneSubnet, ';');
    for i := 0 to |entries|
      invariant forall j :: 0 <= j < i ==> ZoneEntry(entries[j]) && Split(entries[j], '=')[0] != zone
    {
      var fields := Split(entries[i], '=');
      if |fields| != 2 {
        BadEntryStops(localZoneSubnet, zone, i);
        return None;
      }
      var subnets := Split(fields[1], ',');
      for k := 0 to |subnets|
        invariant forall j :: 0 <= j < k ==> ParseCIDR(subnets[j]).Some?
      {
        if ParseCIDR(subnets[k]).None? {
          assert subnets[k] in subnets && !ZoneEntry(entries[i]);
          BadEntryStops(localZoneSubnet, zone, i);
          return None;
        }
      }
      assert ZoneEntry(entries[i]);
      if fields[0] == zone {
        assert fields == [zone, fields[1]];
        assert ZoneFirst(entries, zone, i);
        return Some(fields[1]);
      }
    }
    subnet := None;
  }

  lemma MarkerIsNoAddress(marker: string)
    requires marker != "" && marker[0] == '%' && ',' !in marker
    ensures ParseIP(marker).None? && exists p :: p in Split(marker, ',') && ParseCIDR(p).None?
  {
    assert marker[0] in marker && !AddressChars(marker);
    if ParseIP(marker).Some? {
      IPChars(marker);
    }
    SplitCleanPart(marker, ',');
    assert marker in Split(marker, ',');
    if ParseCIDR(marker).Some? {
      CIDRChars(marker);
    }
  }

  class ConfigFile {
    var lines: seq<string>

    constructor (lines: seq<string>)
      ensures this.lines == lines
    {
      this.lines := lines;
    }

    method UpdateConfigFile(e: Edit)
      requires e.Valid()
      modifies this
      ensures lines == EditLines(old(lines), e)
    {
      for i := 0 to |lines|
        invariant |lines| == |old(lines)|
        invariant forall j :: 0 <= j < i ==> lines[j] == EditLine(old(lines)[j], e)
        invariant forall j :: i <= j < |lines| ==> lines[j] == old(lines)[j]
      {
        lines := lines[i := EditLine(lines[i], e)];
      }
    }

    /** `ok` is false where the original ends the process. */
    method UpdateConfigLeftID(leftID: string, publicIP: string, loadBalancerIP: string) returns (ok: bool)
      modifies this
      ensures ok <==> LeftIDKnown(leftID, publicIP, loadBalancerIP)
      ensures !ok || leftID !in {NODE_PUBLIC_IP, LOAD_BALANCER_IP} ==> lines == old(lines)
      ensures ok && leftID in {NODE_PUBLIC_IP, LOAD_BALANCER_IP} ==>
                var e := Edit("leftid", leftID, if leftID == NODE_PUBLIC_IP then publicIP else loadBalancerIP);
                && e.Valid() && lines == EditLines(old(lines), e)
                && (MarkersWhole(old(lines), e) <==>
                    forall key :: ValuesOf(lines, key) == MarkersReplaced(key, ValuesOf(old(lines), key), e))
    {
      var newLeftID := "";
      if leftID == NODE_PUBLIC_IP {
        newLeftID := publicIP;
      } else if leftID == LOAD_BALANCER_IP {
        newLeftID := loadBalancerIP;
      } else {
        return true;
      }
      if ParseIP(newLeftID).None? {
        return false;
      }
      MarkersAreWords();
      AddressesAreSafe(newLeftID);
      MarkerIsNoAddress(leftID);
      EditThenRead(lines, Edit("leftid", leftID, newLeftID));
      UpdateConfigFile(Edit("leftid", leftID, newLeftID));
      ok := true;
    }

    /** The zone's subnets come from `ProcessLocalZoneSubnet`, or are empty when none were configured. */
    method UpdateConfigLeftSubnet(leftSubnet: string, zoneSubnet: string)
      requires zoneSubnet == "" || forall p :: p in Split(zoneSubnet, ',') ==> ParseCIDR(p).Some?
      modifies this
      ensures leftSubnet != ZONE_SUBNET ==> lines == old(lines)
      ensures leftSubnet == ZONE_SUBNET ==>
                var e := Edit("leftsubnet", ZONE_SUBNET, zoneSubnet);
                && e.Valid() && lines == EditLines(old(lines), e)
                && (MarkersWhole(old(lines), e) <==>
                    forall key :: ValuesOf(lines, key) == MarkersReplaced(key, ValuesOf(old(lines), key), e))
    {
      if leftSubnet != ZONE_SUBNET {
        return;
      }
      var e := Edit("leftsubnet", leftSubnet, zoneSubnet);
      MarkersAreWords();
      if zoneSubnet != "" {
        AddressesAreSafe(zoneSubnet);
        MarkerIsNoAddress(ZONE_SUBNET);
      }
      EditThenRead(lines, e);
      UpdateConfigFile(e);
    }
  }
}

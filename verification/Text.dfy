/** The string operations of Go's `strings` package that the program relies on. */
module Text {

  datatype Option<+T> = None | Some(value: T)

  predicate OccursAt(s: string, p: string, i: int) {
    0 <= i && i + |p| <= |s| && s[i..i + |p|] == p
  }

  predicate Contains(s: string, p: string) {
    exists i | 0 <= i <= |s| :: OccursAt(s, p, i)
  }

  predicate HasSuffix(s: string, p: string) {
    OccursAt(s, p, |s| - |p|)
  }

  function TrimSuffix(s: string, p: string): string {
    if HasSuffix(s, p) then s[..|s| - |p|] else s
  }

  /** Leftmost, non-overlapping replacement. */
  function ReplaceAll(s: string, old_: string, new_: string): string
    requires old_ != ""
  {
    if |s| < |old_| then s
    else if s[..|old_|] == old_ then new_ + ReplaceAll(s[|old_|..], old_, new_)
    else [s[0]] + ReplaceAll(s[1..], old_, new_)
  }

  function Split(s: string, sep: char): (parts: seq<string>)
    ensures |parts| >= 1
  {
    if s == "" then [""]
    else
      var rest := Split(s[1..], sep);
      if s[0] == sep then [""] + rest
      else [[s[0]] + rest[0]] + rest[1..]
  }

  function Join(parts: seq<string>, sep: char): string {
    if |parts| == 0 then ""
    else if |parts| == 1 then parts[0]
    else parts[0] + [sep] + Join(parts[1..], sep)
  }

  function ReplaceEach(parts: seq<string>, old_: string, new_: string): seq<string>
    requires old_ != ""
  {
    seq(|parts|, i requires 0 <= i < |parts| => ReplaceAll(parts[i], old_, new_))
  }

  /** White space as `strings.TrimSpace` sees it, for characters up to U+00FF. */
  predicate IsSpace(c: char) {
    c == ' ' || '\t' <= c <= '\r' || c == '\U{0085}' || c == '\U{00A0}'
  }

  predicate NoSpace(s: string) {
    forall c | c in s :: !IsSpace(c)
  }

  function TrimLeft(s: string): string {
    if s != "" && IsSpace(s[0]) then TrimLeft(s[1..]) else s
  }

  function TrimRight(s: string): string {
    if s != "" && IsSpace(s[|s| - 1]) then TrimRight(s[..|s| - 1]) else s
  }

  function TrimSpace(s: string): string {
    TrimRight(TrimLeft(s))
  }

  // ---------- splitting and joining ----------

  lemma {:induction false} JoinOfSplit(s: string, sep: char)
    ensures Join(Split(s, sep), sep) == s
  {
    if s == "" {
    } else {
      JoinOfSplit(s[1..], sep);
      var rest := Split(s[1..], sep);
      if s[0] != sep {
        assert Split(s, sep)[1..] == rest[1..];
      } else {
        assert Split(s, sep)[1..] == rest;
      }
    }
  }

  lemma {:induction false} SplitCleanPart(s: string, sep: char)
    requires sep !in s
    ensures Split(s, sep) == [s]
  {
    if s == "" {
    } else {
      SplitCleanPart(s[1..], sep);
      assert Split(s[1..], sep)[1..] == [];
      assert [s[0]] + s[1..] == s;
    }
  }

  /** What one more leading character does to the parts of a text. */
  function Lead(c: char, parts: seq<string>, sep: char): (r: seq<string>)
    requires |parts| >= 1
    ensures |r| >= 1
  {
    if c == sep then [""] + parts else [[c] + parts[0]] + parts[1..]
  }

  lemma SplitFirst(c: char, s: string, sep: char)
    ensures Split([c] + s, sep) == Lead(c, Split(s, sep), sep)
  {
    assert ([c] + s)[1..] == s;
  }

  lemma LeadFront(c: char, front: seq<string>, back: seq<string>, sep: char)
    requires |front| >= 1
    ensures Lead(c, front + back, sep) == Lead(c, front, sep) + back
  {
    if c == sep {
      assert [""] + (front + back) == ([""] + front) + back;
    } else {
      assert (front + back)[1..] == front[1..] + back;
    }
  }

  lemma {:induction false} SplitConcat(a: string, sep: char, b: string)
    ensures Split(a + [sep] + b, sep) == Split(a, sep) + Split(b, sep)
  {
    if a == "" {
      assert a + [sep] + b == [sep] + b;
      SplitFirst(sep, b, sep);
      assert Split(a, sep) == [""];
    } else {
      var rest := a[1..];
      SplitConcat(rest, sep, b);
      SplitFirst(a[0], rest, sep);
      SplitFirst(a[0], rest + [sep] + b, sep);
      LeadFront(a[0], Split(rest, sep), Split(b, sep), sep);
      assert a == [a[0]] + rest && a + [sep] + b == [a[0]] + (rest + [sep] + b);
    }
  }

  lemma SplitAtSeparator(a: string, sep: char, b: string)
    requires sep !in a
    ensures Split(a + [sep] + b, sep) == [a] + Split(b, sep)
  {
    SplitConcat(a, sep, b);
    SplitCleanPart(a, sep);
  }

  lemma {:induction false} SplitOfJoin(parts: seq<string>, sep: char)
    requires |parts| >= 1 && forall p :: p in parts ==> sep !in p
    ensures Split(Join(parts, sep), sep) == parts
  {
    assert parts[0] in parts;
    if |parts| == 1 {
      SplitCleanPart(parts[0], sep);
    } else {
      SplitOfJoin(parts[1..], sep);
      SplitAtSeparator(parts[0], sep, Join(parts[1..], sep));
      assert [parts[0]] + parts[1..] == parts;
    }
  }

  lemma {:induction false} SplitPartsClean(s: string, sep: char)
    ensures forall p :: p in Split(s, sep) ==> sep !in p
  {
    if s == "" {
    } else {
      SplitPartsClean(s[1..], sep);
      var rest := Split(s[1..], sep);
      assert rest[0] in rest;
    }
  }

  // ---------- textual replacement ----------

  /** An occurrence at the front of `a + [sep] + b` lies inside `a` when it does not contain the separator. */
  lemma FrontOccurrence(a: string, sep: char, b: string, old_: string)
    requires old_ != "" && sep !in old_
    ensures var s := a + [sep] + b;
            (|s| >= |old_| && s[..|old_|] == old_) <==> (|a| >= |old_| && a[..|old_|] == old_)
  {
    var s := a + [sep] + b;
    if |a| >= |old_| {
      assert s[..|old_|] == a[..|old_|];
    } else if |s| >= |old_| {
      assert s[..|old_|][|a|] == sep;
    }
  }

  lemma ReplaceAtFront(rest: string, old_: string, new_: string)
    requires old_ != ""
    ensures ReplaceAll(old_ + rest, old_, new_) == new_ + ReplaceAll(rest, old_, new_)
  {
    assert (old_ + rest)[..|old_|] == old_ && (old_ + rest)[|old_|..] == rest;
  }

  lemma ReplaceLater(c: char, rest: string, old_: string, new_: string)
    requires old_ != "" && !(old_ <= [c] + rest)
    ensures ReplaceAll([c] + rest, old_, new_) == [c] + ReplaceAll(rest, old_, new_)
  {
    var s := [c] + rest;
    assert s[1..] == rest;
    assert |s| >= |old_| ==> s[..|old_|] != old_;
  }

  lemma Prepend(x: string, y: string, z: string)
    ensures x + (y + z) == (x + y) + z
  {
  }

  /** A separator that is not part of the searched text stops every occurrence. */
  lemma {:induction false} ReplaceAcrossSeparator(a: string, sep: char, b: string, old_: string, new_: string)
    requires old_ != "" && sep !in old_
    ensures ReplaceAll(a + [sep] + b, old_, new_) == ReplaceAll(a, old_, new_) + ([sep] + ReplaceAll(b, old_, new_))
    decreases |a|
  {
    var s := a + [sep] + b;
    var tail := [sep] + ReplaceAll(b, old_, new_);
    FrontOccurrence(a, sep, b, old_);
    if |a| >= |old_| && a[..|old_|] == old_ {
      var rest := a[|old_|..];
      assert s[|old_|..] == rest + [sep] + b;
      ReplaceAcrossSeparator(rest, sep, b, old_, new_);
      Prepend(new_, ReplaceAll(rest, old_, new_), tail);
    } else if a == "" {
      assert s == [sep] + b && s[1..] == b;
      assert ReplaceAll(s, old_, new_) == tail by {
        if |s| < |old_| {
          assert ReplaceAll(b, old_, new_) == b;
        }
      }
    } else {
      var rest := a[1..];
      assert s[1..] == rest + [sep] + b && s[0] == a[0];
      ReplaceAcrossSeparator(rest, sep, b, old_, new_);
      assert ReplaceAll(a, old_, new_) == [a[0]] + ReplaceAll(rest, old_, new_);
      assert ReplaceAll(s, old_, new_) == [a[0]] + ReplaceAll(s[1..], old_, new_);
      Prepend([a[0]], ReplaceAll(rest, old_, new_), tail);
    }
  }

  /** Replacing in a joined list is replacing in every entry, whatever the entries are. */
  lemma {:induction false} ReplaceInJoin(parts: seq<string>, sep: char, old_: string, new_: string)
    requires |parts| >= 1 && old_ != "" && sep !in old_
    ensures ReplaceAll(Join(parts, sep), old_, new_) == Join(ReplaceEach(parts, old_, new_), sep)
  {
    if |parts| > 1 {
      ReplaceInJoin(parts[1..], sep, old_, new_);
      ReplaceAcrossSeparator(parts[0], sep, Join(parts[1..], sep), old_, new_);
      assert parts[0] + [sep] + Join(parts[1..], sep) == Join(parts, sep);
      assert ReplaceEach(parts, old_, new_)[1..] == ReplaceEach(parts[1..], old_, new_);
    }
  }

  lemma {:induction false} ReplaceWhole(old_: string, new_: string)
    requires old_ != ""
    ensures ReplaceAll(old_, old_, new_) == new_
  {
    assert old_[..|old_|] == old_ && old_[|old_|..] == "";
  }

  lemma {:induction false} ReplaceAbsent(s: string, old_: string, new_: string)
    requires old_ != "" && !Contains(s, old_)
    ensures ReplaceAll(s, old_, new_) == s
  {
    if |s| >= |old_| {
      assert !OccursAt(s, old_, 0);
      forall i | 0 <= i <= |s[1..]|
        ensures !OccursAt(s[1..], old_, i)
      {
        assert !OccursAt(s, old_, i + 1);
        if i + |old_| <= |s[1..]| {
          assert s[1..][i..i + |old_|] == s[i + 1..i + 1 + |old_|];
        }
      }
      ReplaceAbsent(s[1..], old_, new_);
    }
  }

  lemma {:induction false} ReplaceLength(s: string, old_: string, new_: string)
    requires old_ != ""
    ensures |new_| >= |old_| ==> |ReplaceAll(s, old_, new_)| >= |s|
    ensures |new_| <= |old_| ==> |ReplaceAll(s, old_, new_)| <= |s|
  {
    if |s| >= |old_| {
      if s[..|old_|] == old_ {
        ReplaceLength(s[|old_|..], old_, new_);
      } else {
        ReplaceLength(s[1..], old_, new_);
      }
    }
  }

  lemma {:induction false} ReplaceKeepsCharOut(x: string, old_: string, new_: string, c: char)
    requires old_ != "" && c !in x && c !in new_
    ensures c !in ReplaceAll(x, old_, new_)
    decreases |x|
  {
    if |x| >= |old_| {
      if x[..|old_|] == old_ {
        ReplaceKeepsCharOut(x[|old_|..], old_, new_, c);
      } else {
        ReplaceKeepsCharOut(x[1..], old_, new_, c);
      }
    }
  }

  lemma OccursLater(s: string, p: string)
    requires p != "" && Contains(s, p) && !(|s| >= |p| && s[..|p|] == p)
    ensures s != "" && Contains(s[1..], p)
  {
    var i :| 0 <= i <= |s| && OccursAt(s, p, i);
    assert i > 0;
    assert s[1..][i - 1..i - 1 + |p|] == s[i..i + |p|];
    assert OccursAt(s[1..], p, i - 1);
  }

  /** A contained text is really replaced: the result differs, already in length when the lengths differ. */
  lemma {:induction false} ReplacePresent(s: string, old_: string, new_: string)
    requires old_ != "" && Contains(s, old_) && new_ != old_
    ensures |new_| != |old_| ==> |ReplaceAll(s, old_, new_)| != |s|
    ensures |new_| == |old_| ==> ReplaceAll(s, old_, new_) != s
  {
    var r := ReplaceAll(s, old_, new_);
    if |s| >= |old_| && s[..|old_|] == old_ {
      ReplaceLength(s[|old_|..], old_, new_);
      assert r == new_ + ReplaceAll(s[|old_|..], old_, new_);
      assert |new_| == |old_| ==> r[..|old_|] == new_;
    } else {
      OccursLater(s, old_);
      assert |s| >= |old_|;
      ReplacePresent(s[1..], old_, new_);
      assert r == [s[0]] + ReplaceAll(s[1..], old_, new_);
      assert r[1..] == ReplaceAll(s[1..], old_, new_);
    }
  }

  /** One textual replacement treats an entry as a whole exactly when the text does not occur inside it. */
  lemma ReplaceIsWholeEntry(s: string, old_: string, new_: string)
    requires old_ != "" && old_ != new_
    ensures ReplaceAll(s, old_, new_) == (if s == old_ then new_ else s)
            <==> (s == old_ || !Contains(s, old_))
  {
    if s == old_ {
      ReplaceWhole(old_, new_);
    } else if Contains(s, old_) {
      ReplacePresent(s, old_, new_);
    } else {
      ReplaceAbsent(s, old_, new_);
    }
  }

  /** A text without the separator that occurs in a joined list occurs in one of its entries. */
  lemma ContainsInJoin(parts: seq<string>, sep: char, p: string)
    requires |parts| >= 1 && p != "" && sep !in p && Contains(Join(parts, sep), p)
    ensures exists x :: x in parts && Contains(x, p)
  {
    if forall x :: x in parts ==> !Contains(x, p) {
      forall i | 0 <= i < |parts| ensures ReplaceAll(parts[i], p, "") == parts[i] {
        ReplaceAbsent(parts[i], p, "");
      }
      assert ReplaceEach(parts, p, "") == parts;
      ReplaceInJoin(parts, sep, p, "");
      ReplacePresent(Join(parts, sep), p, "");
      assert false;
    }
  }
}

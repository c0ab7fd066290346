/** The config map that the VPN pod publishes and the route daemons read (kube/configmap.go). */
module RouteMap {
  import opened Text

  type Data = map<string, string>

  datatype RouteData = RouteData(
    connectUsingLB: string,
    loadBalancerIP: string,
    localSubnet: string,
    remoteGateway: string,
    remoteSubnet: string,
    routeTable: string,
    vpnPodDevice: string,
    vpnPodIP: string,
    vpnPodName: string,
    workerNodeIP: string,
    workerSubnet: string)

  /** Reading a Go map: the empty string for an absent key. */
  function Get(m: Data, k: string): string {
    if k in m then m[k] else ""
  }

  function MapToRouteData(m: Data): RouteData {
    RouteData(Get(m, "connectUsingLB"), Get(m, "loadBalancerIP"), Get(m, "localSubnet"), Get(m, "remoteGateway"),
              Get(m, "remoteSubnet"), Get(m, "routeTable"), Get(m, "vpnPodDevice"), Get(m, "vpnPodIP"),
              Get(m, "vpnPodName"), Get(m, "workerNodeIP"), Get(m, "workerSubnet"))
  }

  function RouteDataToMap(d: RouteData): Data {
    map["connectUsingLB" := d.connectUsingLB, "loadBalancerIP" := d.loadBalancerIP, "localSubnet" := d.localSubnet,
        "remoteGateway" := d.remoteGateway, "remoteSubnet" := d.remoteSubnet, "routeTable" := d.routeTable,
        "vpnPodDevice" := d.vpnPodDevice, "vpnPodIP" := d.vpnPodIP, "vpnPodName" := d.vpnPodName,
        "workerNodeIP" := d.workerNodeIP, "workerSubnet" := d.workerSubnet]
  }

  /** What the daemons read back is what the pod published. */
  lemma PublishedDataReadBack(d: RouteData)
    ensures MapToRouteData(RouteDataToMap(d)) == d
  {
    assert |"connectUsingLB"| == |"loadBalancerIP"| == 14 && |"remoteGateway"| == 13;
    assert |"remoteSubnet"| == |"vpnPodDevice"| == |"workerNodeIP"| == |"workerSubnet"| == 12;
    assert |"localSubnet"| == 11 && |"routeTable"| == |"vpnPodName"| == 10 && |"vpnPodIP"| == 8;
    assert "workerNodeIP"[6] != "workerSubnet"[6];
  }

  // ---------- the order of `sort.Strings` ----------

  predicate StrLe(a: string, b: string) {
    a == "" || (b != "" && (a[0] < b[0] || (a[0] == b[0] && StrLe(a[1..], b[1..]))))
  }

  lemma {:induction false} StrLeTotal(a: string, b: string)
    ensures StrLe(a, b) || StrLe(b, a)
    ensures StrLe(a, b) && StrLe(b, a) ==> a == b
  {
    if a != "" && b != "" && a[0] == b[0] {
      StrLeTotal(a[1..], b[1..]);
      assert a == [a[0]] + a[1..] && b == [b[0]] + b[1..];
    }
  }

  lemma {:induction false} StrLeTransitive(a: string, b: string, c: string)
    requires StrLe(a, b) && StrLe(b, c)
    ensures StrLe(a, c)
  {
    if a != "" && a[0] == b[0] == c[0] {
      StrLeTransitive(a[1..], b[1..], c[1..]);
    }
  }

  ghost predicate Sorted(ks: seq<string>) {
    forall i, j :: 0 <= i < j < |ks| ==> StrLe(ks[i], ks[j]) && ks[i] != ks[j]
  }

  ghost predicate SortedKeys(ks: seq<string>, keys: set<string>) {
    Sorted(ks) && forall k :: k in ks <==> k in keys
  }

  function Insert(ks: seq<string>, k: string): seq<string> {
    if ks == [] || StrLe(k, ks[0]) then [k] + ks else [ks[0]] + Insert(ks[1..], k)
  }

  lemma {:induction false} InsertSorted(ks: seq<string>, k: string, keys: set<string>)
    requires SortedKeys(ks, keys) && k !in keys
    ensures SortedKeys(Insert(ks, k), keys + {k})
  {
    var r := Insert(ks, k);
    if ks == [] || StrLe(k, ks[0]) {
      forall j | 1 <= j < |r| ensures StrLe(k, r[j]) && k != r[j] {
        assert r[j] == ks[j - 1] && ks[j - 1] in keys;
        if j > 1 {
          StrLeTransitive(k, ks[0], ks[j - 1]);
        }
      }
    } else {
      var tail := ks[1..];
      assert ks == [ks[0]] + tail;
      assert forall i :: 0 <= i < |tail| ==> tail[i] == ks[i + 1];
      InsertSorted(tail, k, keys - {ks[0]});
      var rest := Insert(tail, k);
      StrLeTotal(k, ks[0]);
      forall j | 0 <= j < |rest| ensures StrLe(ks[0], rest[j]) && ks[0] != rest[j] {
        assert rest[j] in rest;
      }
    }
  }

  lemma SortedKeysExist(keys: set<string>)
    ensures exists ks :: SortedKeys(ks, keys)
  {
    var ks: seq<string> := [];
    var rest := keys;
    while rest != {}
      invariant rest <= keys && SortedKeys(ks, keys - rest)
    {
      var k :| k in rest;
      InsertSorted(ks, k, keys - rest);
      ks := Insert(ks, k);
      assert keys - rest + {k} == keys - (rest - {k});
      rest := rest - {k};
    }
    assert keys - {} == keys;
  }

  lemma {:induction false} SortedKeysUnique(a: seq<string>, b: seq<string>, keys: set<string>)
    requires SortedKeys(a, keys) && SortedKeys(b, keys)
    ensures a == b
  {
    assert a != [] ==> a[0] in a;
    assert b != [] ==> b[0] in b;
    if a != [] && b != [] {
      var j :| 0 <= j < |b| && b[j] == a[0];
      var i :| 0 <= i < |a| && a[i] == b[0];
      StrLeTotal(a[0], b[0]);
      assert a[0] == b[0];
      SortedTail(a, keys);
      SortedTail(b, keys);
      SortedKeysUnique(a[1..], b[1..], keys - {a[0]});
      assert a == [a[0]] + a[1..] && b == [b[0]] + b[1..];
    }
  }

  lemma SortedTail(a: seq<string>, keys: set<string>)
    requires SortedKeys(a, keys) && a != []
    ensures SortedKeys(a[1..], keys - {a[0]})
  {
    var t := a[1..];
    assert a == [a[0]] + t;
    assert forall i :: 0 <= i < |t| ==> t[i] == a[i + 1];
  }

  // ---------- the sorted text ----------

  function Entry(m: Data, k: string): string {
    k + "=" + Get(m, k)
  }

  function Body(m: Data, ks: seq<string>): string {
    if ks == [] then "" else Entry(m, ks[0]) + [' '] + Body(m, ks[1..])
  }

  function Render(m: Data, ks: seq<string>): string {
    TrimSpace("[" + Body(m, ks)) + "]"
  }

  /** The text `MapToSortedString` returns: it depends on the map only. */
  ghost function SortedString(m: Data): (s: string)
    ensures exists ks :: SortedKeys(ks, m.Keys) && s == Render(m, ks)
  {
    SortedKeysExist(m.Keys);
    var ks :| SortedKeys(ks, m.Keys);
    Render(m, ks)
  }

  lemma {:induction false} BodyAppend(m: Data, ks: seq<string>, k: string)
    ensures Body(m, ks + [k]) == Body(m, ks) + (Entry(m, k) + [' '])
  {
    if ks == [] {
      assert ks + [k] == [k] && [k][1..] == [];
    } else {
      assert (ks + [k])[1..] == ks[1..] + [k];
      BodyAppend(m, ks[1..], k);
    }
  }

  ghost function Elements(ks: seq<string>): set<string> {
    set k | k in ks
  }

  lemma ElementsAppend(ks: seq<string>, k: string)
    ensures Elements(ks + [k]) == Elements(ks) + {k}
  {
  }

  /** `sort.Strings`; only its result matters here. */
  method SortStrings(keys: seq<string>) returns (ks: seq<string>)
    requires forall i, j :: 0 <= i < j < |keys| ==> keys[i] != keys[j]
    ensures SortedKeys(ks, Elements(keys))
  {
    ks := [];
    for i := 0 to |keys|
      invariant SortedKeys(ks, Elements(keys[..i]))
    {
      InsertSorted(ks, keys[i], Elements(keys[..i]));
      ElementsAppend(keys[..i], keys[i]);
      assert keys[..i + 1] == keys[..i] + [keys[i]];
      ks := Insert(ks, keys[i]);
    }
    assert keys[..|keys|] == keys;
  }

  /** The loop over the map visits the keys in an arbitrary order. */
  method MapToSortedString(m: Data) returns (s: string)
    ensures s == SortedString(m)
  {
    var keys: seq<string> := [];
    var rest := m.Keys;
    while rest != {}
      invariant rest <= m.Keys && Elements(keys) == m.Keys - rest
      invariant forall i, j :: 0 <= i < j < |keys| ==> keys[i] != keys[j]
    {
      var k :| k in rest;
      assert k !in Elements(keys);
      ElementsAppend(keys, k);
      keys := keys + [k];
      assert m.Keys - (rest - {k}) == (m.Keys - rest) + {k};
      rest := rest - {k};
    }
    var ks := SortStrings(keys);
    s := "[";
    for i := 0 to |ks|
      invariant s == "[" + Body(m, ks[..i])
    {
      BodyAppend(m, ks[..i], ks[i]);
      assert ks[..i + 1] == ks[..i] + [ks[i]];
      assert ks[i] in ks && ks[i] in m;
      s := s + ks[i] + "=" + m[ks[i]] + " ";
    }
    assert ks[..|ks|] == ks;
    s := TrimSpace(s) + "]";
    forall other | SortedKeys(other, m.Keys) ensures other == ks {
      SortedKeysUnique(other, ks, m.Keys);
    }
  }

  // ---------- injectivity ----------

  /** Keys and values without white space, keys without `=`. */
  ghost predicate WellFormed(m: Data) {
    forall k :: k in m ==> NoSpace(k) && '=' !in k && NoSpace(m[k])
  }

  lemma {:induction false} BodyLast(m: Data, ks: seq<string>)
    requires ks != []
    ensures var b, last := Body(m, ks), Get(m, ks[|ks| - 1]);
            |b| >= 2 && b[|b| - 1] == ' ' && b[|b| - 2] == if last == "" then '=' else last[|last| - 1]
  {
    var front := ks[..|ks| - 1];
    assert ks == front + [ks[|ks| - 1]];
    BodyAppend(m, front, ks[|ks| - 1]);
  }

  lemma TrimOneSpace(t: string)
    requires t != "" && !IsSpace(t[0]) && !IsSpace(t[|t| - 1])
    ensures TrimSpace(t) == t && TrimSpace(t + " ") == t
  {
    var s := t + " ";
    assert TrimLeft(s) == s;
    assert s[..|s| - 1] == t;
    assert TrimRight(s) == TrimRight(t) == t;
  }

  lemma RenderEmpty(m: Data)
    ensures Render(m, []) == "[]"
  {
    assert "[" + "" == "[";
    assert TrimLeft("[") == "[" && TrimRight("[") == "[";
  }

  /** Adding the closing blank back to the rendered text gives the entries. */
  lemma RenderNonEmpty(m: Data, ks: seq<string>, init: string)
    requires WellFormed(m) && ks != [] && forall k :: k in ks ==> k in m
    requires Body(m, ks) == init + " "
    ensures Render(m, ks) == "[" + init + "]" && init != ""
  {
    BodyLast(m, ks);
    assert ks[|ks| - 1] in ks;
    var t := "[" + init;
    assert init[|init| - 1] == Body(m, ks)[|Body(m, ks)| - 2];
    assert t[|t| - 1] == init[|init| - 1];
    assert "[" + Body(m, ks) == t + " ";
    TrimOneSpace(t);
  }

  lemma RenderShape(m: Data, ks: seq<string>)
    requires WellFormed(m) && forall k :: k in ks ==> k in m
    ensures ks == [] ==> Render(m, ks) == "[]" && Body(m, ks) == ""
    ensures ks != [] ==> |Render(m, ks)| > 2 && Body(m, ks) == Render(m, ks)[1..|Render(m, ks)| - 1] + " "
  {
    if ks == [] {
      RenderEmpty(m);
    } else {
      BodyLast(m, ks);
      var b := Body(m, ks);
      var init := b[..|b| - 1];
      assert b == init + " ";
      RenderNonEmpty(m, ks, init);
      assert ("[" + init + "]")[1..|init| + 1] == init;
    }
  }

  lemma {:induction false} BodySplit(m: Data, ks: seq<string>)
    requires WellFormed(m) && forall k :: k in ks ==> k in m
    ensures Split(Body(m, ks), ' ') == seq(|ks|, i requires 0 <= i < |ks| => Entry(m, ks[i])) + [""]
  {
    if ks == [] {
    } else {
      assert ks[0] in ks;
      BodySplit(m, ks[1..]);
      SplitAtSeparator(Entry(m, ks[0]), ' ', Body(m, ks[1..]));
    }
  }

  lemma EntryInjective(m: Data, n: Data, j: string, k: string)
    requires '=' !in j && '=' !in k && Entry(m, j) == Entry(n, k)
    ensures j == k && Get(m, j) == Get(n, k)
  {
    SplitAtSeparator(j, '=', Get(m, j));
    SplitAtSeparator(k, '=', Get(n, k));
    var e := Entry(m, j);
    assert j + ['='] + Get(m, j) == e && k + ['='] + Get(n, k) == e;
    assert Split(e, '=')[0] == j && Split(e, '=')[0] == k;
    assert Get(m, j) == e[|j| + 1..] && Get(n, k) == e[|k| + 1..];
  }

  lemma BodyInjective(m: Data, n: Data, ms: seq<string>, ns: seq<string>)
    requires WellFormed(m) && WellFormed(n)
    requires (forall k :: k in ms ==> k in m) && (forall k :: k in ns ==> k in n)
    requires Body(m, ms) == Body(n, ns)
    ensures ms == ns && forall k :: k in ms ==> Get(m, k) == Get(n, k)
  {
    BodySplit(m, ms);
    BodySplit(n, ns);
    var es := Split(Body(m, ms), ' ');
    assert |ms| == |es| - 1 == |ns|;
    forall i | 0 <= i < |ms| ensures ms[i] == ns[i] && Get(m, ms[i]) == Get(n, ns[i]) {
      assert ms[i] in ms && ns[i] in ns;
      assert Entry(m, ms[i]) == es[i] == Entry(n, ns[i]);
      EntryInjective(m, n, ms[i], ns[i]);
    }
  }

  lemma RenderInjective(m: Data, n: Data, ms: seq<string>, ns: seq<string>)
    requires WellFormed(m) && WellFormed(n)
    requires (forall k :: k in ms ==> k in m) && (forall k :: k in ns ==> k in n)
    requires Render(m, ms) == Render(n, ns)
    ensures Body(m, ms) == Body(n, ns)
  {
    RenderShape(m, ms);
    RenderShape(n, ns);
  }

  lemma MapsEqual(m: Data, n: Data, ks: seq<string>)
    requires SortedKeys(ks, m.Keys) && SortedKeys(ks, n.Keys)
    requires forall k :: k in ks ==> Get(m, k) == Get(n, k)
    ensures m == n
  {
    assert forall k :: k in m.Keys <==> k in ks;
    assert m.Keys == n.Keys;
    assert forall k :: k in m ==> m[k] == Get(m, k) == Get(n, k);
  }

  /** On well-formed maps the text comparison of `configMapUpdated` is equality of the maps. */
  lemma SortedStringInjective(m: Data, n: Data)
    requires WellFormed(m) && WellFormed(n)
    ensures SortedString(m) == SortedString(n) <==> m == n
  {
    if SortedString(m) == SortedString(n) {
      var ms :| SortedKeys(ms, m.Keys) && SortedString(m) == Render(m, ms);
      var ns :| SortedKeys(ns, n.Keys) && SortedString(n) == Render(n, ns);
      assert forall k :: k in ms ==> k in m;
      assert forall k :: k in ns ==> k in n;
      RenderInjective(m, n, ms, ns);
      BodyInjective(m, n, ms, ns);
      MapsEqual(m, n, ms);
    }
  }

  /** Without that condition the text comparison can miss a change. */
  lemma SortedStringCollision()
    ensures SortedString(map["a" := "1 b=2"]) == SortedString(map["a" := "1", "b" := "2"])
  {
    var m, n: Data := map["a" := "1 b=2"], map["a" := "1", "b" := "2"];
    forall ks | SortedKeys(ks, m.Keys) ensures ks == ["a"] {
      SortedKeysUnique(ks, ["a"], m.Keys);
    }
    assert "a"[0] < "b"[0] && StrLe("a", "b");
    assert SortedKeys(["a", "b"], n.Keys);
    forall ks | SortedKeys(ks, n.Keys) ensures ks == ["a", "b"] {
      SortedKeysUnique(ks, ["a", "b"], n.Keys);
    }
    assert ["a"][1..] == [] && ["a", "b"][1..] == ["b"] && ["b"][1..] == [];
    assert Body(m, ["a"]) == "a=1 b=2 ";
    assert Body(n, ["b"]) == "b=2 ";
    assert Body(n, ["a", "b"]) == "a=1 b=2 ";
  }
}

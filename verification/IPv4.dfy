/** IPv4 addresses and CIDR blocks (section 3.1 of RFC 4632) as Go's `net` package reads them. */
module IPv4 {
  import opened Text

  /** A network: `base` is the masked address, `len` the prefix length. */
  datatype Net = Net(base: nat, len: nat)

  /** The two results of `net.ParseCIDR`: the address as written and its network. */
  datatype Cidr = Cidr(ip: nat, net: Net)

  function Pow2(n: nat): (r: nat)
    ensures r >= 1
  {
    if n == 0 then 1 else 2 * Pow2(n - 1)
  }

  function Size(n: Net): (r: nat)
    ensures r >= 1
  {
    if n.len <= 32 then Pow2(32 - n.len) else 1
  }

  predicate Aligned(n: Net) {
    n.len <= 32 && n.base % Size(n) == 0
  }

  predicate InNet(a: nat, n: Net) {
    n.base <= a < n.base + Size(n)
  }

  predicate IsDigit(c: char) {
    '0' <= c <= '9'
  }

  predicate AllDigits(s: string) {
    s != "" && forall c | c in s :: IsDigit(c)
  }

  function DecimalValue(s: string): (v: nat) {
    if s == "" || !IsDigit(s[|s| - 1]) then 0
    else 10 * DecimalValue(s[..|s| - 1]) + (s[|s| - 1] - '0') as nat
  }

  function ParseOctet(s: string): (r: Option<nat>)
    ensures r.Some? ==> r.value <= 255
  {
    if AllDigits(s) && |s| <= 3 && (|s| > 1 ==> s[0] != '0') && DecimalValue(s) <= 255
    then Some(DecimalValue(s)) else None
  }

  function ParseIP(s: string): (r: Option<nat>)
    ensures r.Some? ==> r.value < 0x1_0000_0000
  {
    var p := Split(s, '.');
    if |p| != 4 then None
    else
      var a, b, c, d := ParseOctet(p[0]), ParseOctet(p[1]), ParseOctet(p[2]), ParseOctet(p[3]);
      if a.Some? && b.Some? && c.Some? && d.Some?
      then Some(((a.value * 256 + b.value) * 256 + c.value) * 256 + d.value)
      else None
  }

  lemma MultipleBound(x: int, k: int)
    requires k > 0
    ensures -k < x * k < k ==> x == 0
  {
    if x >= 1 {
      assert (x - 1) * k >= 0;
    } else if x <= -1 {
      assert (-x - 1) * k >= 0;
    }
  }

  /** Division with remainder is unique. */
  lemma RemainderUnique(a: int, k: int, q: int, r: int)
    requires k > 0 && 0 <= r < k && a == q * k + r
    ensures a % k == r && a / k == q
  {
    assert (a / k - q) * k == r - a % k;
    MultipleBound(a / k - q, k);
  }

  lemma RemainderBound(a: nat, k: nat)
    requires k > 0
    ensures 0 <= a % k <= a
  {
    if a < k {
      RemainderUnique(a, k, 0, a);
    }
  }

  function Mask(ip: nat, len: nat): Net
    requires len <= 32
  {
    RemainderBound(ip, Pow2(32 - len));
    Net(ip - ip % Pow2(32 - len), len)
  }

  function ParseCIDR(s: string): (r: Option<Cidr>)
    ensures r.Some? ==> r.value.net.len <= 32 && r.value.net == Mask(r.value.ip, r.value.net.len)
  {
    var p := Split(s, '/');
    if |p| != 2 then None
    else
      var ip := ParseIP(p[0]);
      if ip.Some? && AllDigits(p[1]) && DecimalValue(p[1]) <= 32
      then Some(Cidr(ip.value, Mask(ip.value, DecimalValue(p[1]))))
      else None
  }

  lemma MaskAligned(ip: nat, len: nat)
    requires len <= 32
    ensures Aligned(Mask(ip, len)) && InNet(ip, Mask(ip, len))
  {
    var k := Pow2(32 - len);
    MultipleRemainder(ip / k, k);
    assert ip - ip % k == (ip / k) * k;
  }

  lemma MultipleRemainder(q: int, k: int)
    requires k > 0
    ensures (q * k) % k == 0
  {
    RemainderUnique(q * k, k, q, 0);
  }

  /** Inside an aligned block the low bits of an address are its offset from the block's base. */
  lemma OffsetIsRemainder(a: nat, n: Net)
    requires Aligned(n) && InNet(a, n)
    ensures a % Size(n) == a - n.base
  {
    var k := Size(n);
    RemainderUnique(a, k, n.base / k, a - n.base);
  }

  predicate Disjoint(m: Net, n: Net) {
    m.base + Size(m) <= n.base || n.base + Size(n) <= m.base
  }

  predicate AddressChars(s: string) {
    forall c | c in s :: IsDigit(c) || c == '.' || c == '/'
  }

  lemma {:induction false} JoinChars(parts: seq<string>, sep: char)
    requires AddressChars([sep]) && forall p :: p in parts ==> AddressChars(p)
    ensures AddressChars(Join(parts, sep))
  {
    assert sep in [sep];
    if |parts| > 0 {
      assert parts[0] in parts;
      JoinChars(parts[1..], sep);
    }
  }

  lemma IPChars(s: string)
    requires ParseIP(s).Some?
    ensures AddressChars(s) && s != ""
  {
    JoinOfSplit(s, '.');
    var p := Split(s, '.');
    forall x | x in p ensures AddressChars(x) {
      var i :| 0 <= i < |p| && p[i] == x;
      assert ParseOctet(p[i]).Some?;
    }
    JoinChars(p, '.');
  }

  lemma CIDRChars(s: string)
    requires ParseCIDR(s).Some?
    ensures AddressChars(s) && s != ""
  {
    JoinOfSplit(s, '/');
    IPChars(Split(s, '/')[0]);
    JoinChars(Split(s, '/'), '/');
  }

  // ---------- texts written out ----------

  /** A decimal of up to three digits without leading zeros. */
  predicate PlainDecimal(s: string) {
    && 1 <= |s| <= 3 && IsDigit(s[0])
    && (|s| > 1 ==> s[0] != '0' && IsDigit(s[1])) && (|s| > 2 ==> IsDigit(s[2]))
  }

  function Decimal(s: string): nat
    requires PlainDecimal(s)
  {
    var units := (s[|s| - 1] - '0') as nat;
    if |s| == 1 then units
    else
      var tens := (s[|s| - 2] - '0') as nat;
      if |s| == 2 then 10 * tens + units else 100 * (s[0] - '0') as nat + 10 * tens + units
  }

  lemma DecimalIsValue(s: string)
    requires PlainDecimal(s)
    ensures AllDigits(s) && DecimalValue(s) == Decimal(s)
  {
    var front := s[..|s| - 1];
    if front != "" {
      assert front[..|front| - 1] == s[..|s| - 2];
      if |front| > 1 {
        assert s[..|s| - 2][..0] == "";
      }
    }
  }

  predicate Octet(s: string) {
    PlainDecimal(s) && Decimal(s) <= 255
  }

  function Dotted(a: string, b: string, c: string, d: string): string {
    a + "." + b + "." + c + "." + d
  }

  function Address(a: string, b: string, c: string, d: string): nat
    requires Octet(a) && Octet(b) && Octet(c) && Octet(d)
  {
    ((Decimal(a) * 256 + Decimal(b)) * 256 + Decimal(c)) * 256 + Decimal(d)
  }

  lemma DottedIsJoin(a: string, b: string, c: string, d: string)
    ensures Dotted(a, b, c, d) == Join([a, b, c, d], '.')
  {
    assert [a, b, c, d][1..] == [b, c, d] && [b, c, d][1..] == [c, d] && [c, d][1..] == [d];
    assert Join([c, d], '.') == c + "." + d;
    assert Join([b, c, d], '.') == b + "." + Join([c, d], '.');
  }

  lemma OctetParses(s: string)
    requires Octet(s)
    ensures ParseOctet(s) == Some(Decimal(s)) && '.' !in s && '/' !in s
  {
    DecimalIsValue(s);
  }

  lemma DottedIsAddress(a: string, b: string, c: string, d: string, ip: string)
    requires Octet(a) && Octet(b) && Octet(c) && Octet(d) && ip == Dotted(a, b, c, d)
    ensures ParseIP(ip) == Some(Address(a, b, c, d)) && '/' !in ip
  {
    OctetParses(a);
    OctetParses(b);
    OctetParses(c);
    OctetParses(d);
    DottedIsJoin(a, b, c, d);
    SplitOfJoin([a, b, c, d], '.');
  }

  lemma PrefixIsCIDR(ip: string, len: string, cidr: string)
    requires ParseIP(ip).Some? && '/' !in ip && PlainDecimal(len) && Decimal(len) <= 32 && cidr == ip + "/" + len
    ensures ParseCIDR(cidr) == Some(Cidr(ParseIP(ip).value, Mask(ParseIP(ip).value, Decimal(len))))
  {
    DecimalIsValue(len);
    SplitAtSeparator(ip, '/', len);
    SplitCleanPart(len, '/');
  }

  lemma AllDigitsAt(s: string)
    requires AllDigits(s)
    ensures forall i :: 0 <= i < |s| ==> IsDigit(s[i])
  {
    assert forall i :: 0 <= i < |s| ==> s[i] in s;
  }

  lemma ParsedOctet(s: string)
    requires ParseOctet(s).Some?
    ensures Octet(s) && ParseOctet(s).value == Decimal(s)
  {
    AllDigitsAt(s);
    DecimalIsValue(s);
  }

  lemma FourParts(p: seq<string>)
    requires |p| == 4
    ensures Join(p, '.') == Dotted(p[0], p[1], p[2], p[3])
  {
    DottedIsJoin(p[0], p[1], p[2], p[3]);
    assert p == [p[0], p[1], p[2], p[3]];
  }

  /** Nothing but four dotted octets without leading zeros is an address. */
  lemma OnlyDottedParses(ip: string)
    requires ParseIP(ip).Some?
    ensures exists a, b, c, d :: Octet(a) && Octet(b) && Octet(c) && Octet(d) && ip == Dotted(a, b, c, d)
  {
    var p := Split(ip, '.');
    JoinOfSplit(ip, '.');
    FourParts(p);
    ParsedOctet(p[0]);
    ParsedOctet(p[1]);
    ParsedOctet(p[2]);
    ParsedOctet(p[3]);
    assert Octet(p[0]) && Octet(p[1]) && Octet(p[2]) && Octet(p[3]) && ip == Dotted(p[0], p[1], p[2], p[3]);
  }
}

/** The choice of the routing table from the load balancer address (kube/service.go). */
module Service {
  import opened Text
  import opened IPv4

  /** `strconv.Atoi` on a 64-bit platform. */
  function Atoi(s: string): (r: Option<int>) {
    var digits := if s != "" && (s[0] == '-' || s[0] == '+') then s[1..] else s;
    if !AllDigits(digits) then None
    else
      var v: int := if s[0] == '-' then 0 - DecimalValue(digits) else DecimalValue(digits);
      if -0x8000_0000_0000_0000 <= v < 0x8000_0000_0000_0000 then Some(v) else None
  }

  function Digit(d: nat): char
    requires d <= 9
  {
    '0' + d as char
  }

  function Itoa(n: nat): string {
    if n <= 9 then [Digit(n)] else Itoa(n / 10) + [Digit(n % 10)]
  }

  /** `None` is the run-time panic on an address text with fewer than four dotted parts. */
  function CalculateRouterTable(loadBalancerIP: string): (r: Option<string>)
  {
    if loadBalancerIP == "<pending>" then Some("200")
    else
      var parts := Split(loadBalancerIP, '.');
      if |parts| < 4 then None
      else
        var num := Atoi(parts[3]);
        // For two's complement integers `num & 0xF` is the non-negative remainder by 16.
        Some(Itoa(200 + (if num.Some? then num.value else 0) % 16))
  }

  lemma ItoaTable(n: nat)
    requires n < 16
    ensures Itoa(200 + n) == ['2', Digit(n / 10), Digit(n % 10)]
  {
    var m := 200 + n;
    assert m / 10 == 20 + n / 10 && m % 10 == n % 10;
    assert Itoa(m / 10) == Itoa(m / 10 / 10) + [Digit(m / 10 % 10)];
    assert m / 10 / 10 == 2 && m / 10 % 10 == n / 10;
    assert Itoa(2) == ['2'];
  }

  /** Every table the program can choose is one of 200..215, so it is never the tunnel table. */
  lemma TableRange(loadBalancerIP: string)
    ensures CalculateRouterTable(loadBalancerIP).None?
            <==> loadBalancerIP != "<pending>" && |Split(loadBalancerIP, '.')| < 4
    ensures var t := CalculateRouterTable(loadBalancerIP);
            t.Some? ==> (exists n :: 200 <= n <= 215 && t.value == Itoa(n)) && t.value != "199" && AllDigits(t.value)
  {
    var t := CalculateRouterTable(loadBalancerIP);
    if t.Some? {
      var n := if loadBalancerIP == "<pending>" then 0
               else var num := Atoi(Split(loadBalancerIP, '.')[3]); (if num.Some? then num.value else 0) % 16;
      ItoaTable(n);
      assert t.value == Itoa(200 + n);
      assert t.value[0] == '2' && "199"[0] == '1';
    }
  }

  /** Without an address yet, or with a last part that is no number, the offset is zero. */
  lemma TableWithoutNumber(s: string)
    requires s == "<pending>" || (|Split(s, '.')| >= 4 && Atoi(Split(s, '.')[3]).None?)
    ensures CalculateRouterTable(s) == Some("200")
  {
    ItoaTable(0);
    assert Digit(0) == '0' && ['2', '0', '0'] == "200";
  }

  lemma {:induction false} OctetIsAtoi(s: string)
    requires ParseOctet(s).Some?
    ensures Atoi(s) == Some(ParseOctet(s).value)
  {
    assert s[0] in s;
  }

  lemma LowBits(n: nat, k: nat, d: nat)
    requires n == 16 * k + d
    ensures n % 16 == d % 16
  {
  }

  /** For a dotted address the offset is its last four bits. */
  lemma TableOfAddress(s: string)
    requires ParseIP(s).Some?
    ensures CalculateRouterTable(s) == Some(Itoa(200 + ParseIP(s).value % 16))
  {
    var p := Split(s, '.');
    OctetIsAtoi(p[3]);
    if s == "<pending>" {
      SplitCleanPart(s, '.');
    }
    var a, b, c, d := ParseOctet(p[0]).value, ParseOctet(p[1]).value, ParseOctet(p[2]).value, ParseOctet(p[3]).value;
    LowBits(ParseIP(s).value, ((a * 256 + b) * 256 + c) * 16, d);
  }

  /** Distinct load balancer addresses of one aligned block of 16 get distinct tables. */
  lemma TablesSeparate(s: string, t: string)
    requires ParseIP(s).Some? && ParseIP(t).Some?
    requires ParseIP(s).value / 16 == ParseIP(t).value / 16
    ensures CalculateRouterTable(s) == CalculateRouterTable(t) <==> ParseIP(s) == ParseIP(t)
  {
    TableOfAddress(s);
    TableOfAddress(t);
    var m, n := ParseIP(s).value % 16, ParseIP(t).value % 16;
    ItoaTable(m);
    ItoaTable(n);
    if Itoa(200 + m) == Itoa(200 + n) {
      assert Itoa(200 + m)[1] == Itoa(200 + n)[1] && Itoa(200 + m)[2] == Itoa(200 + n)[2];
      assert m / 10 == n / 10 && m % 10 == n % 10;
    }
  }
}

/** Validation of the ipsec.conf settings (utils/config.go:27-99, 153-169 and 276-532). */
module Validate {
  import opened Text
  import opened IPv4
  import opened Service
  import opened Network
  import opened Remap
  import opened Config
  import RoutePlan

  datatype Kind = Duration | IPAddr | Numeric | Subnet

  datatype KeySet = KeySet(key: string, values: seq<string>)

  datatype Problem =
    | Missing(key: string)
    | Invalid(key: string, value: string)
    | Ping(address: string)
    | Ikev1(about: string)

  /** The tables of one level of validation. */
  datatype Tables = Tables(
    required: seq<string>,
    durations: seq<string>,
    addresses: seq<string>,
    numbers: seq<string>,
    subnets: seq<string>,
    choices: seq<KeySet>)

  const SIMPLE := Tables(
    ["authby", "auto", "left", "leftid", "leftsubnet", "right", "rightid", "rightsubnet"],
    ["dpddelay", "dpdtimeout", "inactivity", "ikelifetime", "keylife", "lifetime", "margintime", "rekeymargin",
     "crlcheckinterval", "keep_alive"],
    ["left", "right"],
    ["keyingtries", "lifebytes", "lifepackets", "marginbytes", "marginpackets", "replay_window", "reqid"],
    ["leftsubnet", "rightsubnet"],
    SIMPLE_SETS)

  const STRICT := Tables(["forceencaps", "mobike"], [], [], [], [], STRICT_SETS)

  const YES_NO := ["yes", "no"]
  const ACTIONS := ["none", "clear", "hold", "restart"]
  const PEER_AUTHS := ["pubkey", "psk", "eap", "xauth"]
  const SEND_CERT := ["never", "no ", "ifasked", "always", "yes"]

  const SIMPLE_SETS := [
    KeySet("cachecrls", YES_NO), KeySet("charonstart", YES_NO), KeySet("strictcrlpolicy", ["yes", "ifuri", "no"]),
    KeySet("uniqueids", ["yes", "no", "never", "replace", "keep"]),
    KeySet("nat_traversal", YES_NO), KeySet("nocrsend", YES_NO), KeySet("pkcs11keepstate", YES_NO),
    KeySet("pkcs11proxy", YES_NO), KeySet("plutostart", YES_NO),
    KeySet("aggressive", YES_NO),
    KeySet("authby", ["pubkey", "rsasig", "ecdsasig", "psk", "secret", "xauthrsasig", "xauthpsk", "never"]),
    KeySet("auto", ["ignore", "add", "route", "start"]), KeySet("closeaction", ACTIONS), KeySet("compress", YES_NO),
    KeySet("dpdaction", ACTIONS), KeySet("forceencaps", YES_NO),
    KeySet("fragmentation", ["yes", "accept", "force", "no"]), KeySet("installpolicy", YES_NO),
    KeySet("keyexchange", ["ike", "ikev1", "ikev2"]), KeySet("mobike", YES_NO), KeySet("modeconfig", ["push", "pull"]),
    KeySet("reauth", YES_NO), KeySet("rekey", YES_NO), KeySet("sha256_96", YES_NO),
    KeySet("type", ["tunnel", "transport", "transport_proxy", "passthrough", "drop"]),
    KeySet("xauth", ["client", "server"]),
    KeySet("leftallowany", YES_NO), KeySet("leftauth", PEER_AUTHS), KeySet("leftfirewall", YES_NO),
    KeySet("leftsendcert", SEND_CERT), KeySet("rightallowany", YES_NO), KeySet("rightauth", PEER_AUTHS),
    KeySet("rightfirewall", YES_NO), KeySet("rightsendcert", SEND_CERT),
    KeySet("mediation", YES_NO), KeySet("auth", ["esp", "ah"]), KeySet("pfs", YES_NO)]

  const STRICT_SETS := [
    KeySet("authby", ["psk", "secret"]), KeySet("auto", ["add", "start"]), KeySet("forceencaps", ["yes"]),
    KeySet("mobike", ["no"]), KeySet("type", ["tunnel"]), KeySet("left", ["%any"])]

  function Values(data: ConfigData, key: string): seq<string> {
    if key in data then data[key] else []
  }

  // ---------- joining the values of a key ----------

  function DropLeadingEmpty(values: seq<string>): seq<string> {
    if values != [] && values[0] == "" then DropLeadingEmpty(values[1..]) else values
  }

  lemma JoinAppend(parts: seq<string>, x: string)
    requires parts != []
    ensures Join(parts + [x], ',') == Join(parts, ',') + "," + x
  {
    if |parts| == 1 {
      assert (parts + [x])[1..] == [x];
    } else {
      assert (parts + [x])[1..] == parts[1..] + [x];
      JoinAppend(parts[1..], x);
    }
  }

  lemma {:induction false} DropLeadingEmptyAppend(values: seq<string>, x: string)
    ensures var d := DropLeadingEmpty(values);
            && DropLeadingEmpty(values + [x]) == (if d == [] then DropLeadingEmpty([x]) else d + [x])
            && (Join(d, ',') == "" <==> d == [])
  {
    if values == [] {
      assert values + [x] == [x];
    } else if values[0] == "" {
      assert (values + [x])[1..] == values[1..] + [x];
      DropLeadingEmptyAppend(values[1..], x);
    }
  }

  /** The values from the first one that is not empty; later empty values stay. */
  lemma {:induction false} DropLeadingEmptyExactly(values: seq<string>, n: nat)
    requires n <= |values| && (forall i :: 0 <= i < n ==> values[i] == "") && (n < |values| ==> values[n] != "")
    ensures DropLeadingEmpty(values) == values[n..]
  {
    if n > 0 {
      DropLeadingEmptyExactly(values[1..], n - 1);
      assert values[1..][n - 1..] == values[n..];
    }
  }

  /** No comma follows the empty values at the front, so they leave no trace. */
  method ExtractConfigData(data: ConfigData, key: string) returns (joined: string)
    ensures joined == Join(DropLeadingEmpty(Values(data, key)), ',')
  {
    joined := "";
    var values := if key in data then data[key] else [];
    for i := 0 to |values|
      invariant joined == Join(DropLeadingEmpty(values[..i]), ',')
    {
      assert values[..i + 1] == values[..i] + [values[i]];
      DropLeadingEmptyAppend(values[..i], values[i]);
      if DropLeadingEmpty(values[..i]) != [] {
        JoinAppend(DropLeadingEmpty(values[..i]), values[i]);
      }
      if |joined| > 0 {
        joined := joined + ",";
      }
      joined := joined + values[i];
    }
    assert values[..|values|] == values;
  }

  function Extracted(data: ConfigData, key: string): string {
    Join(DropLeadingEmpty(Values(data, key)), ',')
  }

  // ---------- single values ----------

  predicate ContainsAny(s: string, chars: string) {
    exists c | c in s :: c in chars
  }

  predicate SubnetOk(subnet: string) {
    subnet == ZONE_SUBNET || (ParseCIDR(subnet).Some? && !ContainsAny(subnet, "%[]"))
  }

  predicate ValueOk(kind: Kind, key: string, value: string) {
    match kind
    case Duration => value == "" || Atoi(if value[|value| - 1] in "smh" then value[..|value| - 1] else value).Some?
    case Numeric => (key == "keyingtries" && value == "%forever") || Atoi(value).Some?
    case IPAddr => value in ["%any", "%defaultroute"] || (!ContainsAny(value, "-/%,") && ParseIP(value).Some?)
    case Subnet => forall s | s in Split(value, ',') :: SubnetOk(s)
  }

  lemma LastInNumber(s: string)
    requires Atoi(s).Some?
    ensures s != "" && IsDigit(s[|s| - 1])
  {
    var digits := if s[0] == '-' || s[0] == '+' then s[1..] else s;
    assert AllDigits(digits) && digits[|digits| - 1] == s[|s| - 1];
    assert digits[|digits| - 1] in digits;
  }

  /** A duration is empty, a number, or a number with one of the units `s`, `m` and `h` behind it. */
  lemma DurationTexts(key: string, value: string)
    ensures ValueOk(Duration, key, value) <==>
              || value == "" || Atoi(value).Some?
              || (value[|value| - 1] in "smh" && Atoi(value[..|value| - 1]).Some?)
  {
    if Atoi(value).Some? {
      LastInNumber(value);
    }
  }

  /** The word `%forever` is a number of tries, and nothing else. */
  lemma ForeverOnlyTries(key: string, value: string)
    requires value == "%forever"
    ensures ValueOk(Numeric, key, value) <==> key == "keyingtries"
    ensures ValueOk(Numeric, key, "0")
  {
    assert value[0] in value && !IsDigit(value[0]);
    assert "0"[..0] == "" && DecimalValue("0") == 0;
  }

  lemma {:induction false} JoinWithout(parts: seq<string>, sep: char, c: char)
    requires c != sep && forall p :: p in parts ==> c !in p
    ensures c !in Join(parts, sep)
  {
    if |parts| > 0 {
      assert parts[0] in parts;
      JoinWithout(parts[1..], sep, c);
    }
  }

  lemma PlainAddress(s: string, c: char)
    requires ParseIP(s).Some? && !IsDigit(c) && c != '.'
    ensures c !in s
  {
    var p := Split(s, '.');
    forall x | x in p ensures c !in x {
      var i :| 0 <= i < |p| && p[i] == x;
      assert ParseOctet(p[i]).Some?;
    }
    JoinWithout(p, '.', c);
    JoinOfSplit(s, '.');
  }

  /** The characters that are excluded never occur in an address of this model. */
  lemma AddressTexts(key: string, value: string)
    ensures ValueOk(IPAddr, key, value) <==> value == "%any" || value == "%defaultroute" || ParseIP(value).Some?
  {
    if ParseIP(value).Some? {
      PlainAddress(value, '-');
      PlainAddress(value, '/');
      PlainAddress(value, '%');
      PlainAddress(value, ',');
    }
  }

  /** The zone marker or a network; the excluded characters never occur in a network of this model. */
  lemma SubnetTexts(s: string)
    ensures SubnetOk(s) <==> s == "%zoneSubnet" || ParseCIDR(s).Some?
  {
    if ParseCIDR(s).Some? {
      CIDRChars(s);
    }
  }

  predicate ValuesOk(data: ConfigData, kind: Kind, keys: seq<string>) {
    forall k | k in keys :: forall v | v in Values(data, k) :: ValueOk(kind, k, v)
  }

  predicate SetsOk(data: ConfigData, sets: seq<KeySet>) {
    forall s | s in sets :: forall v | v in Values(data, s.key) :: v in s.values
  }

  predicate KeysExist(data: ConfigData, keys: seq<string>) {
    forall k | k in keys :: k in data
  }

  method ValidateValueFromSet(data: ConfigData, key: string, validSet: seq<string>) returns (errors: seq<Problem>)
    ensures forall p :: p in errors <==>
              p.Invalid? && p.key == key && p.value in Values(data, key) && p.value !in validSet
  {
    errors := [];
    if key !in data {
      return;
    }
    var values := data[key];
    for i := 0 to |values|
      invariant forall p :: p in errors <==>
                  p.Invalid? && p.key == key && p.value in values[..i] && p.value !in validSet
    {
      assert values[..i + 1] == values[..i] + [values[i]];
      if values[i] !in validSet {
        errors := errors + [Invalid(key, values[i])];
      }
    }
    assert values[..|values|] == values;
  }

  method SubnetProblems(key: string, value: string) returns (errors: seq<Problem>)
    ensures forall p :: p in errors <==> p == Invalid(key, value) && !ValueOk(Subnet, key, value)
  {
    errors := [];
    var subnets := Split(value, ',');
    for i := 0 to |subnets|
      invariant forall p :: p in errors <==> p == Invalid(key, value) && exists j :: 0 <= j < i && !SubnetOk(subnets[j])
    {
      if subnets[i] == ZONE_SUBNET {
        continue;
      }
      if ParseCIDR(subnets[i]).None? || ContainsAny(subnets[i], "%[]") {
        errors := errors + [Invalid(key, value)];
        assert !SubnetOk(subnets[i]);
      }
    }
  }

  method ValueProblems(key: string, value: string, kind: Kind) returns (errors: seq<Problem>)
    ensures forall p :: p in errors <==> p == Invalid(key, value) && !ValueOk(kind, key, value)
  {
    errors := [];
    match kind
    case Duration =>
      if |value| > 0 {
        var number := value;
        if value[|value| - 1] in "smh" {
          number := value[..|value| - 1];
        }
        if Atoi(number).None? {
          errors := [Invalid(key, value)];
        }
      }
    case Numeric =>
      if key == "keyingtries" && value == "%forever" {
        return;
      }
      if Atoi(value).None? {
        errors := [Invalid(key, value)];
      }
    case IPAddr =>
      if value == "%any" || value == "%defaultroute" {
        return;
      }
      if ContainsAny(value, "-/%,") || ParseIP(value).None? {
        errors := [Invalid(key, value)];
      }
    case Subnet =>
      errors := SubnetProblems(key, value);
  }

  method ValidateValueIsCorrect(data: ConfigData, key: string, kind: Kind) returns (errors: seq<Problem>)
    ensures forall p :: p in errors <==>
              p.Invalid? && p.key == key && p.value in Values(data, key) && !ValueOk(kind, key, p.value)
  {
    errors := [];
    if key !in data {
      return;
    }
    var values := data[key];
    for i := 0 to |values|
      invariant forall p :: p in errors <==>
                  p.Invalid? && p.key == key && p.value in values[..i] && !ValueOk(kind, key, p.value)
    {
      assert values[..i + 1] == values[..i] + [values[i]];
      var more := ValueProblems(key, values[i], kind);
      errors := errors + more;
    }
    assert values[..|values|] == values;
  }

  // ---------- the whole file ----------

  method CheckValues(data: ConfigData, keys: seq<string>, kind: Kind) returns (errors: seq<Problem>)
    ensures errors == [] <==> ValuesOk(data, kind, keys)
  {
    errors := [];
    for i := 0 to |keys|
      invariant errors == [] <==> ValuesOk(data, kind, keys[..i])
    {
      assert keys[..i + 1] == keys[..i] + [keys[i]];
      var more := ValidateValueIsCorrect(data, keys[i], kind);
      assert more == [] <==> forall v :: v in Values(data, keys[i]) ==> ValueOk(kind, keys[i], v) by {
        assert more != [] ==> more[0] in more;
        forall v | v in Values(data, keys[i]) && !ValueOk(kind, keys[i], v) ensures more != [] {
          assert Invalid(keys[i], v) in more;
        }
      }
      errors := errors + more;
    }
    assert keys[..|keys|] == keys;
  }

  method CheckSets(data: ConfigData, sets: seq<KeySet>) returns (errors: seq<Problem>)
    ensures errors == [] <==> SetsOk(data, sets)
  {
    errors := [];
    for i := 0 to |sets|
      invariant errors == [] <==> SetsOk(data, sets[..i])
    {
      assert sets[..i + 1] == sets[..i] + [sets[i]];
      var more := ValidateValueFromSet(data, sets[i].key, sets[i].values);
      assert more == [] <==> forall v :: v in Values(data, sets[i].key) ==> v in sets[i].values by {
        assert more != [] ==> more[0] in more;
        forall v | v in Values(data, sets[i].key) && v !in sets[i].values ensures more != [] {
          assert Invalid(sets[i].key, v) in more;
        }
      }
      errors := errors + more;
    }
    assert sets[..|sets|] == sets;
  }

  method CheckKeys(data: ConfigData, keys: seq<string>) returns (errors: seq<Problem>)
    ensures errors == [] <==> KeysExist(data, keys)
  {
    errors := [];
    for i := 0 to |keys|
      invariant errors == [] <==> KeysExist(data, keys[..i])
    {
      assert keys[..i + 1] == keys[..i] + [keys[i]];
      if keys[i] !in data {
        errors := errors + [Missing(keys[i])];
      }
    }
    assert keys[..|keys|] == keys;
  }

  function Translated(text: string): seq<string>
    requires text != "" ==> WellSplit(text)
  {
    if text == "" then []
    else var rules := ParseRules(text); seq(|rules|, i requires 0 <= i < |rules| => rules[i].mapped)
  }

  /** The address to ping, if any, lies in a remote subnet or in a translated one. */
  predicate PrivateIPOk(data: ConfigData, privateIP: string, remoteNAT: string)
    requires remoteNAT != "" ==> WellSplit(remoteNAT)
  {
    privateIP == "" ||
    (var ip := ParseIP(privateIP);
     ip.Some? && (AddrInList(ip.value, Split(Extracted(data, "rightsubnet"), ','))
                  || AddrInList(ip.value, Translated(remoteNAT))))
  }

  method AnyContains(ip: nat, list: seq<string>) returns (found: bool)
    ensures found <==> AddrInList(ip, list)
  {
    found := false;
    for i := 0 to |list|
      invariant found <==> AddrInList(ip, list[..i])
    {
      assert list[..i + 1] == list[..i] + [list[i]];
      var net := ParseCIDR(list[i]);
      if net.Some? && InNet(ip, net.value.net) {
        found := true;
      }
    }
    assert list[..|list|] == list;
  }

  /** The NAT rules were validated before (strongswan/main.go:103-106). */
  method VerifyPrivateIP(data: ConfigData, privateIP: string, remoteNAT: string) returns (errors: seq<Problem>)
    requires remoteNAT != "" ==> WellSplit(remoteNAT)
    ensures errors == [] <==> PrivateIPOk(data, privateIP, remoteNAT)
  {
    errors := [];
    if privateIP != "" {
      var ip := ParseIP(privateIP);
      if ip.None? {
        errors := [Ping(privateIP)];
      } else {
        var right := ExtractConfigData(data, "rightsubnet");
        var found := AnyContains(ip.value, Split(right, ','));
        if remoteNAT != "" {
          var mapped := Translated(remoteNAT);
          var natFound := AnyContains(ip.value, mapped);
          found := found || natFound;
        }
        if !found {
          errors := [Ping(privateIP)];
        }
      }
    }
  }

  predicate Passes(data: ConfigData, t: Tables) {
    && KeysExist(data, t.required)
    && ValuesOk(data, Duration, t.durations) && ValuesOk(data, IPAddr, t.addresses)
    && ValuesOk(data, Numeric, t.numbers) && ValuesOk(data, Subnet, t.subnets)
    && SetsOk(data, t.choices)
  }

  predicate Ikev1Ok(data: ConfigData) {
    Extracted(data, "keyexchange") == "ikev1" ==>
      "esp" in data && "ike" in data && ',' !in Extracted(data, "leftsubnet") && ',' !in Extracted(data, "rightsubnet")
  }

  /** What a file that passes says about each of its values. */
  lemma PassesExactly(data: ConfigData, t: Tables)
    ensures Passes(data, t) <==>
              && (forall k :: k in t.required ==> k in data)
              && (forall k, v :: k in data && v in data[k] ==> ValueFits(t, k, v))
  {
    if forall k, v :: k in data && v in data[k] ==> ValueFits(t, k, v) {
      forall k, v | v in Values(data, k) ensures ValueFits(t, k, v) {
      }
    }
  }

  /** Every table that names the key accepts the value. */
  predicate ValueFits(t: Tables, key: string, value: string) {
    && (key in t.durations ==> ValueOk(Duration, key, value)) && (key in t.addresses ==> ValueOk(IPAddr, key, value))
    && (key in t.numbers ==> ValueOk(Numeric, key, value)) && (key in t.subnets ==> ValueOk(Subnet, key, value))
    && (forall s | s in t.choices :: s.key == key ==> value in s.values)
  }

  /** The right sides of the rules, as the ping check takes them from the text. */
  predicate RightSideIn(rules: seq<string>, s: string) {
    exists rule | rule in rules :: |Split(rule, '=')| == 2 && s == Split(rule, '=')[1]
  }

  lemma TranslatedExactly(text: string, s: string)
    requires text != "" && WellSplit(text)
    ensures s in Translated(text) <==> RightSideIn(Split(text, ','), s)
  {
    var parts, mapped := Split(text, ','), Translated(text);
    assert |mapped| == |parts|;
    forall i | 0 <= i < |parts| ensures |Split(parts[i], '=')| == 2 && mapped[i] == Split(parts[i], '=')[1] {
      assert parts[i] in parts;
    }
    if s in mapped {
      var i :| 0 <= i < |mapped| && mapped[i] == s;
      assert parts[i] in parts;
    }
    if RightSideIn(parts, s) {
      var rule :| rule in parts && |Split(rule, '=')| == 2 && s == Split(rule, '=')[1];
      var i :| 0 <= i < |parts| && parts[i] == rule;
      assert mapped[i] == s;
    }
  }

  /** A remote subnet as configured, or the right side of a remote NAT rule. */
  predicate Reachable(data: ConfigData, remoteNAT: string, s: string) {
    || s in Split(Extracted(data, "rightsubnet"), ',')
    || (remoteNAT != "" && RightSideIn(Split(remoteNAT, ','), s))
  }

  /** The address to ping, if any, is one that some reachable network holds. */
  lemma PrivateIPExactly(data: ConfigData, privateIP: string, remoteNAT: string)
    requires remoteNAT != "" ==> WellSplit(remoteNAT)
    ensures PrivateIPOk(data, privateIP, remoteNAT) <==>
              || privateIP == ""
              || (&& ParseIP(privateIP).Some?
                  && exists s, n :: Reachable(data, remoteNAT, s) && ParseCIDR(s) == Some(n)
                                    && InNet(ParseIP(privateIP).value, n.net))
  {
    if remoteNAT != "" {
      forall s ensures s in Translated(remoteNAT) <==> RightSideIn(Split(remoteNAT, ','), s) {
        TranslatedExactly(remoteNAT, s);
      }
    }
  }

  /** What `keyexchange=ikev1` asks for on top. */
  lemma Ikev1Exactly(data: ConfigData)
    ensures Ikev1Ok(data) <==>
              || Join(DropLeadingEmpty(Values(data, "keyexchange")), ',') != "ikev1"
              || (&& "esp" in data.Keys && "ike" in data.Keys
                  && |Split(Extracted(data, "leftsubnet"), ',')| == 1
                  && |Split(Extracted(data, "rightsubnet"), ',')| == 1)
  {
    OnePart(Extracted(data, "leftsubnet"), ',');
    OnePart(Extracted(data, "rightsubnet"), ',');
  }

  lemma {:induction false} OnePart(s: string, c: char)
    ensures |Split(s, c)| == 1 <==> c !in s
  {
    if s == "" {
    } else {
      OnePart(s[1..], c);
    }
  }

  method TableProblems(data: ConfigData, t: Tables) returns (errors: seq<Problem>)
    ensures errors == [] <==> Passes(data, t)
  {
    errors := CheckKeys(data, t.required);
    var durations := CheckValues(data, t.durations, Duration);
    var addresses := CheckValues(data, t.addresses, IPAddr);
    var numbers := CheckValues(data, t.numbers, Numeric);
    var subnets := CheckValues(data, t.subnets, Subnet);
    var choices := CheckSets(data, t.choices);
    errors := errors + durations + addresses + numbers + subnets + choices;
  }

  method Ikev1Problems(data: ConfigData) returns (errors: seq<Problem>)
    ensures errors == [] <==> Ikev1Ok(data)
  {
    errors := [];
    var exchange := ExtractConfigData(data, "keyexchange");
    if exchange == "ikev1" {
      if "esp" !in data {
        errors := errors + [Ikev1("esp")];
      }
      if "ike" !in data {
        errors := errors + [Ikev1("ike")];
      }
      var left := ExtractConfigData(data, "leftsubnet");
      if ',' in left {
        errors := errors + [Ikev1("leftsubnet")];
      }
      var right := ExtractConfigData(data, "rightsubnet");
      if ',' in right {
        errors := errors + [Ikev1("rightsubnet")];
      }
    }
  }

  /** The level of validation: an unset `VALIDATE_CONFIG` means strict. */
  datatype Level = Off | Simple | Strict

  function LevelOf(mode: string): Option<Level> {
    match mode
    case "off" => Some(Off)
    case "simple" => Some(Simple)
    case "" => Some(Strict)
    case "strict" => Some(Strict)
    case _ => None
  }

  predicate Accepted(level: Level, data: ConfigData, privateIP: string, remoteNAT: string, simple: Tables,
                     strict: Tables)
    requires remoteNAT != "" ==> WellSplit(remoteNAT)
  {
    level != Off ==>
      && PrivateIPOk(data, privateIP, remoteNAT) && Passes(data, simple)
      && (level == Strict ==> Passes(data, strict) && Ikev1Ok(data))
  }

  method CheckLevel(level: Level, data: ConfigData, privateIP: string, remoteNAT: string, simple: Tables,
                     strict: Tables)
    returns (ok: bool)
    requires remoteNAT != "" ==> WellSplit(remoteNAT)
    ensures ok <==> Accepted(level, data, privateIP, remoteNAT, simple, strict)
  {
    if level == Off {
      return true;
    }
    var simpleErrors := VerifyPrivateIP(data, privateIP, remoteNAT);
    var more := TableProblems(data, simple);
    simpleErrors := simpleErrors + more;
    var strictErrors := [];
    if level == Strict {
      strictErrors := TableProblems(data, strict);
      more := Ikev1Problems(data);
      strictErrors := strictErrors + more;
    }
    ok := |simpleErrors| == 0 && |strictErrors| == 0;
  }

  /** What each setting of `VALIDATE_CONFIG` asks of the data; unset means all the checks, other texts are refused. */
  predicate ModeAccepts(mode: string, data: ConfigData, privateIP: string, remoteNAT: string, simple: Tables,
                        strict: Tables)
    requires remoteNAT != "" ==> WellSplit(remoteNAT)
  {
    || mode == "off"
    || (mode in ["", "simple", "strict"] && PrivateIPOk(data, privateIP, remoteNAT) && Passes(data, simple)
        && (mode != "simple" ==> Passes(data, strict) && Ikev1Ok(data)))
  }

  /** `None` where the original ends the process; `simple` and `strict` are the tables of the two levels. */
  method ValidateWith(lines: seq<string>, mode: string, privateIP: string, remoteNAT: string, simple: Tables,
                      strict: Tables)
    returns (data: Option<ConfigData>)
    requires remoteNAT != "" ==> WellSplit(remoteNAT)
    ensures data.Some? ==>
              Reads(data.value, lines) && ModeAccepts(mode, data.value, privateIP, remoteNAT, simple, strict)
    ensures data.None? ==>
              exists d: ConfigData :: Reads(d, lines) && !ModeAccepts(mode, d, privateIP, remoteNAT, simple, strict)
  {
    var read := ReadConfigFile(lines);
    var level := LevelOf(mode);
    if level.None? {
      return None;
    }
    var ok := CheckLevel(level.value, read, privateIP, remoteNAT, simple, strict);
    assert ok <==> ModeAccepts(mode, read, privateIP, remoteNAT, simple, strict);
    data := if ok then Some(read) else None;
  }

  method ValidateConfig(lines: seq<string>, mode: string, privateIP: string, remoteNAT: string)
    returns (data: Option<ConfigData>)
    requires remoteNAT != "" ==> WellSplit(remoteNAT)
    ensures data.Some? ==>
              Reads(data.value, lines) && ModeAccepts(mode, data.value, privateIP, remoteNAT, SIMPLE, STRICT)
    ensures data.None? ==>
              exists d: ConfigData :: Reads(d, lines) && !ModeAccepts(mode, d, privateIP, remoteNAT, SIMPLE, STRICT)
  {
    data := ValidateWith(lines, mode, privateIP, remoteNAT, SIMPLE, STRICT);
  }

  /** What a file reads as is unique, so the contract above decides the outcome for every file. */
  lemma ReadsUnique(a: ConfigData, b: ConfigData, lines: seq<string>)
    requires Reads(a, lines) && Reads(b, lines)
    ensures a == b
  {
    forall key ensures key in a <==> key in b {
      assert key in a <==> ValuesOf(lines, key) != [];
    }
  }

  // ---------- what acceptance means for the subnet lists ----------

  function AllSubnets(values: seq<string>): seq<string> {
    if values == [] then [] else Split(values[0], ',') + AllSubnets(values[1..])
  }

  lemma {:induction false} SplitOfJoinedValues(values: seq<string>)
    requires values != []
    ensures Split(Join(values, ','), ',') == AllSubnets(values)
  {
    if |values| == 1 {
      assert AllSubnets(values[1..]) == [];
    } else {
      SplitOfJoinedValues(values[1..]);
      SplitConcat(values[0], ',', Join(values[1..], ','));
      assert Join(values, ',') == values[0] + [','] + Join(values[1..], ',');
    }
  }

  lemma {:induction false} AllSubnetsMembers(values: seq<string>, s: string)
    requires s in AllSubnets(values)
    ensures exists v :: v in values && s in Split(v, ',')
  {
    if s in Split(values[0], ',') {
      assert values[0] in values;
    } else {
      AllSubnetsMembers(values[1..], s);
      var v :| v in values[1..] && s in Split(v, ',');
      assert v in values;
    }
  }

  predicate SubnetListOk(values: seq<string>) {
    values != [] && forall v | v in values :: forall s | s in Split(v, ',') :: SubnetOk(s)
  }

  /** What the simple checks establish for both subnet settings. */
  predicate SubnetsValidated(data: ConfigData) {
    SubnetListOk(Values(data, "leftsubnet")) && SubnetListOk(Values(data, "rightsubnet"))
  }

  lemma ListValidated(data: ConfigData, lines: seq<string>, key: string, t: Tables)
    requires Reads(data, lines) && Passes(data, t) && key in t.subnets && key in t.required
    ensures SubnetListOk(Values(data, key)) && Values(data, key) == ValuesOf(lines, key)
  {
    assert forall v :: v in Values(data, key) ==> ValueOk(Subnet, key, v);
  }

  predicate ChecksSubnets(t: Tables) {
    "leftsubnet" in t.required && "leftsubnet" in t.subnets && "rightsubnet" in t.required && "rightsubnet" in t.subnets
  }

  lemma SimpleChecksSubnets()
    ensures ChecksSubnets(SIMPLE)
  {
    assert SIMPLE.subnets[0] == SIMPLE.required[4] == "leftsubnet";
    assert SIMPLE.subnets[1] == SIMPLE.required[7] == "rightsubnet";
  }

  lemma PassingValidates(data: ConfigData, lines: seq<string>, t: Tables)
    requires Reads(data, lines) && Passes(data, t) && ChecksSubnets(t)
    ensures SubnetsValidated(data)
  {
    ListValidated(data, lines, "leftsubnet", t);
    ListValidated(data, lines, "rightsubnet", t);
  }

  lemma AcceptedByTables(data: ConfigData, lines: seq<string>, mode: string, privateIP: string, remoteNAT: string,
                         simple: Tables, strict: Tables)
    requires remoteNAT != "" ==> WellSplit(remoteNAT)
    requires Reads(data, lines) && mode != "off" && ModeAccepts(mode, data, privateIP, remoteNAT, simple, strict)
    requires ChecksSubnets(simple)
    ensures SubnetsValidated(data) && (mode != "simple" ==> Ikev1Ok(data))
  {
    PassingValidates(data, lines, simple);
  }

  /** A validated list has no holes: joined and split again, it is exactly the validated subnets. */
  lemma ValidatedList(values: seq<string>)
    requires SubnetListOk(values)
    ensures Split(Join(DropLeadingEmpty(values), ','), ',') == AllSubnets(values)
    ensures forall s :: s in AllSubnets(values) ==> SubnetOk(s)
  {
    assert values[0] in values;
    EmptyIsNoSubnet();
    assert DropLeadingEmpty(values) == values;
    SplitOfJoinedValues(values);
    forall s | s in AllSubnets(values) ensures SubnetOk(s) {
      AllSubnetsMembers(values, s);
    }
  }

  lemma EmptyIsNoSubnet()
    ensures "" in Split("", ',') && !SubnetOk("")
  {
    assert Split("", '/') == [""];
  }

  /**
   The later check of a valid pod or node address rejects it exactly when a remote subnet contains it or the zone
   marker, which only makes sense for `leftsubnet`, was used in `rightsubnet`.
   */
  lemma AddressRejectedExactly(data: ConfigData, ipAddr: string)
    requires SubnetsValidated(data) && ParseIP(ipAddr).Some?
    ensures var list := Split(Extracted(data, "rightsubnet"), ',');
            && list == AllSubnets(Values(data, "rightsubnet"))
            && (RoutePlan.IPInRemoteSubnet(ipAddr, list)
                <==> ZONE_SUBNET in list || AddrInList(ParseIP(ipAddr).value, list))
  {
    ValidatedList(Values(data, "rightsubnet"));
    MarkerIsNoSubnet();
  }

  lemma MarkerIsNoSubnet()
    ensures ParseCIDR(ZONE_SUBNET).None? && Split(ZONE_SUBNET, ',') == [ZONE_SUBNET]
  {
    MarkerIsNoAddress(ZONE_SUBNET);
    SplitCleanPart(ZONE_SUBNET, ',');
  }

  /**
   The local list the pod works with after the zone subnets replaced a `leftsubnet` that is just the marker;
   `zoneSubnet` is empty when none were configured.
   */
  function LocalList(left: string, zoneSubnet: string): string {
    if left == ZONE_SUBNET then zoneSubnet else left
  }

  predicate ZoneList(zoneSubnet: string) {
    zoneSubnet == "" || forall p | p in Split(zoneSubnet, ',') :: ParseCIDR(p).Some?
  }

  /**
   The marker inside a longer list passes validation but is never replaced, and a lone marker without configured
   zone subnets leaves an empty list.
   */
  lemma LocalListParses(data: ConfigData, zoneSubnet: string)
    requires SubnetsValidated(data) && ZoneList(zoneSubnet)
    ensures var left := Extracted(data, "leftsubnet");
            (forall p :: p in Split(LocalList(left, zoneSubnet), ',') ==> ParseCIDR(p).Some?)
            <==> if left == ZONE_SUBNET then zoneSubnet != ""
                 else ZONE_SUBNET !in AllSubnets(Values(data, "leftsubnet"))
  {
    ValidatedList(Values(data, "leftsubnet"));
    MarkerIsNoSubnet();
    EmptyIsNoSubnet();
  }

  lemma MarkerIsValid()
    ensures SubnetListOk([ZONE_SUBNET]) && Join(DropLeadingEmpty([ZONE_SUBNET]), ',') == ZONE_SUBNET
  {
    MarkerIsNoSubnet();
    assert DropLeadingEmpty([ZONE_SUBNET]) == [ZONE_SUBNET];
  }

  /** `leftsubnet=%zoneSubnet` without zone subnets: valid, and the pod works with a list that does not parse. */
  lemma LoneMarkerWithoutZones(data: ConfigData)
    requires Values(data, "leftsubnet") == [ZONE_SUBNET] && SubnetListOk(Values(data, "rightsubnet"))
    ensures SubnetsValidated(data)
    ensures var list := Split(LocalList(Extracted(data, "leftsubnet"), ""), ','); list == [""] && ParseCIDR("").None?
  {
    MarkerIsValid();
    EmptyIsNoSubnet();
  }

  /** `rightsubnet=%zoneSubnet`: valid, and afterwards every pod address is rejected. */
  lemma MarkerInRightSubnet(data: ConfigData, ipAddr: string)
    requires Values(data, "rightsubnet") == [ZONE_SUBNET] && SubnetListOk(Values(data, "leftsubnet"))
    ensures SubnetsValidated(data)
    ensures RoutePlan.IPInRemoteSubnet(ipAddr, Split(Extracted(data, "rightsubnet"), ','))
  {
    MarkerIsValid();
    MarkerIsNoSubnet();
    assert ZONE_SUBNET in [ZONE_SUBNET];
  }

  /** With the `ikev1` checks there is exactly one subnet on each side, in a single setting. */
  lemma Ikev1SingleSubnet(data: ConfigData, key: string)
    requires SubnetsValidated(data) && Ikev1Ok(data) && Extracted(data, "keyexchange") == "ikev1"
    requires key in ["leftsubnet", "rightsubnet"]
    ensures AllSubnets(Values(data, key)) == [Extracted(data, key)] && Values(data, key) == [Extracted(data, key)]
  {
    var values := Values(data, key);
    ValidatedList(values);
    SplitCleanPart(Extracted(data, key), ',');
    AtLeastOneEach(values);
    assert |values| == 1;
    assert values == [values[0]] && AllSubnets(values[1..]) == [];
    JoinOfSplit(values[0], ',');
  }

  lemma {:induction false} AtLeastOneEach(values: seq<string>)
    ensures |AllSubnets(values)| >= |values|
  {
    if values == [] {
    } else {
      AtLeastOneEach(values[1..]);
    }
  }

  /**
   What validation guarantees for the rest of the start: for any file it accepts, unless it is switched off, the
   later address check and the local list fail exactly in the two cases that concern the zone marker.
   */
  lemma AcceptedFile(lines: seq<string>, data: ConfigData, mode: string, privateIP: string, remoteNAT: string,
                     ipAddr: string, zoneSubnet: string)
    requires remoteNAT != "" ==> WellSplit(remoteNAT)
    requires Reads(data, lines) && mode != "off" && ModeAccepts(mode, data, privateIP, remoteNAT, SIMPLE, STRICT)
    requires ParseIP(ipAddr).Some? && ZoneList(zoneSubnet)
    ensures var right, list := AllSubnets(ValuesOf(lines, "rightsubnet")), Split(Extracted(data, "rightsubnet"), ',');
            list == right
            && (RoutePlan.IPInRemoteSubnet(ipAddr, list)
                <==> ZONE_SUBNET in right || AddrInList(ParseIP(ipAddr).value, right))
    ensures var left := Extracted(data, "leftsubnet");
            (forall p :: p in Split(LocalList(left, zoneSubnet), ',') ==> ParseCIDR(p).Some?)
            <==> if left == ZONE_SUBNET then zoneSubnet != ""
                 else ZONE_SUBNET !in AllSubnets(ValuesOf(lines, "leftsubnet"))
  {
    SimpleChecksSubnets();
    AcceptedByTables(data, lines, mode, privateIP, remoteNAT, SIMPLE, STRICT);
    ReadValues(data, lines, "leftsubnet");
    ReadValues(data, lines, "rightsubnet");
    AddressRejectedExactly(data, ipAddr);
    LocalListParses(data, zoneSubnet);
  }

  lemma ReadValues(data: ConfigData, lines: seq<string>, key: string)
    requires Reads(data, lines)
    ensures Values(data, key) == ValuesOf(lines, key)
  {
  }
}

/**
 Tunnel tracking from the ipsec log (strongswan/strongswan.go:71-90) and the timed monitor
 (monitoring/monitoring.go). Times are whole seconds; `log` records what happened, in order.
 */
module Monitoring {
  import opened Text

  datatype Settings = Settings(privateIPs: string, httpEndpoints: string, delay: int) {
    /** What `validate` insists on (monitoring/configMap.go:49-59). */
    predicate Valid() {
      (privateIPs != "" || httpEndpoints != "") && delay > 0
    }
  }

  datatype Note =
    | Up(sa: string, at: int)
    | Gone(sa: string, at: int)
    | Started(at: int)
    | Stopped(at: int)
    | Probed(at: int, done: int, ping: string, curl: string, message: string)
    | Down(at: int)

  datatype Monitor = Monitor(
    active: bool,
    stop: bool,
    timeToLive: int,
    timeToRun: int,
    ping: string,
    curl: string,
    log: seq<Note>)

  const IDLE := Monitor(false, false, 0, 0, "", "", [])

  // ---------- the monitor's operations ----------

  function StartAt(m: Monitor, now: int): Monitor {
    m.(timeToRun := now + 2, stop := false, active := true, log := m.log + [Started(now)])
  }

  function StopAt(m: Monitor, now: int): Monitor {
    m.(timeToLive := now + 10, stop := true, log := m.log + [Stopped(now)])
  }

  /** The outputs of one round of tests; a test that is not configured is not run. */
  datatype Outputs = Outputs(ping: string, curl: string)

  function NewResults(m: Monitor, cfg: Settings, out: Outputs): string {
    (if cfg.privateIPs != "" && m.ping != out.ping then out.ping else "")
    + (if cfg.httpEndpoints != "" && m.curl != out.curl then out.curl else "")
  }

  function Verdict(results: string): string {
    if results == "" then ""
    else if Contains(results, "Success") then results + "VPN is up"
    else results + "Monitoring tests failed. VPN may be down"
  }

  function ExecuteAt(m: Monitor, cfg: Settings, out: Outputs, now: int, done: int): Monitor {
    m.(ping := if cfg.privateIPs != "" then out.ping else m.ping,
       curl := if cfg.httpEndpoints != "" then out.curl else m.curl,
       log := m.log + [Probed(now, done, out.ping, out.curl, Verdict(NewResults(m, cfg, out)))])
  }

  /** The clock is read up to three times in one iteration of the loop. */
  datatype Clock = Clock(first: int, second: int, third: int) {
    predicate Valid() {
      first <= second <= third
    }
  }

  function ProbeStep(m: Monitor, cfg: Settings, t: Clock, out: Outputs): Monitor {
    if m.active && t.first >= m.timeToRun
    then ExecuteAt(m, cfg, out, t.first, t.second).(timeToRun := t.second + cfg.delay)
    else m
  }

  function DownStep(m: Monitor, t: Clock): Monitor {
    if m.active && m.stop && t.third >= m.timeToLive
    then m.(ping := "", curl := "", active := false, stop := false, log := m.log + [Down(t.third)])
    else m
  }

  function TickAt(m: Monitor, cfg: Settings, t: Clock, out: Outputs): Monitor {
    DownStep(ProbeStep(m, cfg, t, out), t)
  }

  // ---------- the tunnel ----------

  datatype Tunnel = Tunnel(established: map<string, int>, monitor: Monitor)

  function UpAt(s: Tunnel, sa: string, now: int): Tunnel {
    var est := s.established[sa := now];
    var m := s.monitor.(log := s.monitor.log + [Up(sa, now)]);
    Tunnel(est, if |est| == 1 then StartAt(m, now) else m)
  }

  function GoneAt(s: Tunnel, sa: string, now: int): Tunnel {
    var est := s.established - {sa};
    var m := s.monitor.(log := s.monitor.log + [Gone(sa, now)]);
    Tunnel(est, if |est| == 0 then StopAt(m, now) else m)
  }

  /** The text `state change: FROM => TO`. */
  function StateChange(from: string, to: string): string {
    "state" + [' '] + ("change:" + [' '] + (from + [' '] + ("=>" + [' '] + to)))
  }

  function Blank(s: string): string {
    seq(|s|, i requires 0 <= i < |s| => if IsSpace(s[i]) then ' ' else s[i])
  }

  function NonEmpty(parts: seq<string>): seq<string> {
    if parts == [] then [] else (if parts[0] == "" then [] else [parts[0]]) + NonEmpty(parts[1..])
  }

  /** `strings.Fields`. */
  function Fields(s: string): seq<string> {
    NonEmpty(Split(Blank(s), ' '))
  }

  predicate IsUp(line: string) {
    Contains(line, StateChange("CONNECTING", "ESTABLISHED"))
  }

  predicate IsGone(line: string) {
    || Contains(line, StateChange("ESTABLISHED", "DELETING"))
    || Contains(line, StateChange("REKEYING", "DELETING"))
  }

  function LineAt(s: Tunnel, line: string, now: int): Tunnel
    requires IsUp(line) || IsGone(line) ==> |Fields(line)| >= 3
  {
    var s1 := if IsUp(line) then UpAt(s, Fields(line)[2], now) else s;
    if IsGone(line) then GoneAt(s1, Fields(line)[2], now) else s1
  }

  lemma {:induction false} NonEmptyConcat(xs: seq<string>, ys: seq<string>)
    ensures NonEmpty(xs + ys) == NonEmpty(xs) + NonEmpty(ys)
  {
    if xs == [] {
      assert xs + ys == ys;
    } else {
      assert (xs + ys)[1..] == xs[1..] + ys;
      NonEmptyConcat(xs[1..], ys);
    }
  }

  lemma FieldBetween(a: string, w: string, b: string)
    requires w != "" && ' ' !in w
    ensures NonEmpty(Split(a + [' '] + (w + [' '] + b), ' ')) == NonEmpty(Split(a, ' ')) + [w] + NonEmpty(Split(b, ' '))
  {
    SplitConcat(a, ' ', w + [' '] + b);
    SplitAtSeparator(w, ' ', b);
    NonEmptyConcat(Split(a, ' '), [w] + Split(b, ' '));
    NonEmptyConcat([w], Split(b, ' '));
    assert [w][1..] == [];
  }

  lemma Regroup(u: string, v: string, q: string)
    ensures (u + v) + q == u + (v + q)
  {
  }

  lemma EnclosedWords(p: string, x: string, w1: string, w2: string, w3: string, y: string, q: string)
    ensures p + (x + [' '] + (w1 + [' '] + (w2 + [' '] + (w3 + [' '] + y)))) + q
            == (p + x) + [' '] + (w1 + [' '] + (w2 + [' '] + (w3 + [' '] + (y + q))))
  {
    var t3 := w3 + [' '] + y;
    var t2 := w2 + [' '] + t3;
    var t1 := w1 + [' '] + t2;
    Regroup(w3 + [' '], y, q);
    Regroup(w2 + [' '], t3, q);
    Regroup(w1 + [' '], t2, q);
    assert p + (x + [' '] + t1) + q == (p + x) + [' '] + (t1 + q);
  }

  /** A line with `x w1 w2 w3 y` in it, the w's being words, has at least three fields. */
  lemma ThreeWords(line: string, i: int, x: string, w1: string, w2: string, w3: string, y: string)
    requires w1 != "" && w2 != "" && w3 != ""
    requires NoSpace(x) && NoSpace(w1) && NoSpace(w2) && NoSpace(w3) && NoSpace(y)
    requires OccursAt(line, x + [' '] + (w1 + [' '] + (w2 + [' '] + (w3 + [' '] + y))), i)
    ensures |Fields(line)| >= 3
  {
    var pat := x + [' '] + (w1 + [' '] + (w2 + [' '] + (w3 + [' '] + y)));
    var b := Blank(line);
    assert forall k :: 0 <= k < |pat| ==> pat[k] == line[i..i + |pat|][k] == line[i + k];
    assert b[i..i + |pat|] == pat;
    var a, z := b[..i] + x, y + b[i + |pat|..];
    assert b == b[..i] + pat + b[i + |pat|..];
    EnclosedWords(b[..i], x, w1, w2, w3, y, b[i + |pat|..]);
    FieldBetween(a, w1, w2 + [' '] + (w3 + [' '] + z));
    SplitAtSeparator(w2, ' ', w3 + [' '] + z);
    SplitAtSeparator(w3, ' ', z);
    NonEmptyConcat([w2], [w3] + Split(z, ' '));
    NonEmptyConcat([w3], Split(z, ' '));
    assert [w2][1..] == [] && [w3][1..] == [];
  }

  lemma StateChangeHasFields(line: string, from: string, to: string)
    requires from != "" && NoSpace(from) && NoSpace(to) && Contains(line, StateChange(from, to))
    ensures |Fields(line)| >= 3
  {
    var i :| 0 <= i <= |line| && OccursAt(line, StateChange(from, to), i);
    ThreeWords(line, i, "state", "change:", from, "=>", to);
  }

  /** Taking the third field of a state-change line never runs off its end. */
  lemma StateLineHasFields(line: string)
    requires IsUp(line) || IsGone(line)
    ensures |Fields(line)| >= 3
  {
    if IsUp(line) {
      StateChangeHasFields(line, "CONNECTING", "ESTABLISHED");
    } else if Contains(line, StateChange("ESTABLISHED", "DELETING")) {
      StateChangeHasFields(line, "ESTABLISHED", "DELETING");
    } else {
      StateChangeHasFields(line, "REKEYING", "DELETING");
    }
  }

  // ---------- the classes ----------

  class MonitorThread {
    const cfg: Settings
    var monitorActive: bool
    var stopMonitor: bool
    var timeToLive: int
    var timeToRunMonitoring: int
    var pingResult: string
    var curlResult: string
    ghost var log: seq<Note>

    ghost function State(): Monitor
      reads this
    {
      Monitor(monitorActive, stopMonitor, timeToLive, timeToRunMonitoring, pingResult, curlResult, log)
    }

    constructor (cfg: Settings)
      ensures State() == IDLE && this.cfg == cfg
    {
      this.cfg := cfg;
      monitorActive, stopMonitor, timeToLive, timeToRunMonitoring := false, false, 0, 0;
      pingResult, curlResult, log := "", "", [];
    }

    method Start(now: int)
      modifies this
      ensures State() == StartAt(old(State()), now)
    {
      timeToRunMonitoring := now + 2;
      stopMonitor := false;
      monitorActive := true;
      log := log + [Started(now)];
    }

    method Stop(now: int)
      modifies this
      ensures State() == StopAt(old(State()), now)
    {
      timeToLive := now + 10;
      stopMonitor := true;
      log := log + [Stopped(now)];
    }

    method Execute(out: Outputs, now: int, done: int)
      modifies this
      ensures State() == ExecuteAt(old(State()), cfg, out, now, done)
    {
      var message := "";
      if cfg.privateIPs != "" {
        if pingResult != out.ping {
          pingResult := out.ping;
          message := out.ping;
        }
      }
      if cfg.httpEndpoints != "" {
        if curlResult != out.curl {
          curlResult := out.curl;
          message := message + out.curl;
        }
      }
      assert message == NewResults(old(State()), cfg, out);
      if message != "" {
        if Contains(message, "Success") {
          message := message + "VPN is up";
        } else {
          message := message + "Monitoring tests failed. VPN may be down";
        }
      }
      log := log + [Probed(now, done, out.ping, out.curl, message)];
    }

    /** One iteration of the loop of `monitorThread`. */
    method Tick(t: Clock, out: Outputs)
      modifies this
      ensures State() == TickAt(old(State()), cfg, t, out)
    {
      if monitorActive {
        if t.first >= timeToRunMonitoring {
          Execute(out, t.first, t.second);
          timeToRunMonitoring := t.second + cfg.delay;
        }
        if stopMonitor && t.third >= timeToLive {
          curlResult := "";
          pingResult := "";
          monitorActive := false;
          stopMonitor := false;
          log := log + [Down(t.third)];
        }
      }
    }
  }

  class TunnelLog {
    var established: map<string, int>
    const monitor: MonitorThread

    ghost function State(): Tunnel
      reads this, monitor
    {
      Tunnel(established, monitor.State())
    }

    constructor (monitor: MonitorThread)
      ensures this.monitor == monitor && State() == Tunnel(map[], monitor.State())
    {
      this.monitor := monitor;
      established := map[];
    }

    /** With monitoring enabled. */
    method ParseStrongswanOutput(line: string, now: int)
      modifies this, monitor
      ensures IsUp(line) || IsGone(line) ==> |Fields(line)| >= 3
      ensures State() == LineAt(old(State()), line, now)
    {
      if IsUp(line) || IsGone(line) {
        StateLineHasFields(line);
      }
      if IsUp(line) {
        var sa := Fields(line)[2];
        established := established[sa := now];
        monitor.log := monitor.log + [Up(sa, now)];
        if |established| == 1 {
          monitor.Start(now);
        }
      }
      if IsGone(line) {
        var sa := Fields(line)[2];
        established := established - {sa};
        monitor.log := monitor.log + [Gone(sa, now)];
        if |established| == 0 {
          monitor.Stop(now);
        }
      }
    }
  }

  datatype Outcome = Success | Failure(error: string)

  /** The line reported for one probed item; `status` is the HTTP status, for the curl test only. */
  function ItemResult(isPing: bool, item: string, status: string, outcome: Outcome): string {
    (if isPing then "Pinging remote " + item + ". "
     else "Curling remote " + item + ". " + "Response status code [" + status + "]. ")
    + (if outcome.Success? then "Success\n" else "Failed with: " + outcome.error + "\n")
  }

  lemma ItemResultShape(isPing: bool, item: string, status: string, outcome: Outcome)
    ensures ItemResult(isPing, item, status, outcome) != ""
    ensures outcome.Success? ==> Contains(ItemResult(isPing, item, status, outcome), "Success")
  {
    if outcome.Success? {
      var front := if isPing then "Pinging remote " + item + ". "
                   else "Curling remote " + item + ". " + "Response status code [" + status + "]. ";
      assert "Success\n"[0..7] == "Success";
      assert OccursAt("Success\n", "Success", 0);
      ContainsExtended(front, "Success\n", "", "Success");
      assert front + "Success\n" + "" == front + "Success\n";
    }
  }

  predicate AnySuccess(outcomes: seq<Outcome>) {
    exists o | o in outcomes :: o.Success?
  }

  /** The lines for the first `n` items, in order. */
  function ResultLines(isPing: bool, items: seq<string>, status: seq<string>, outcomes: seq<Outcome>, n: nat): string
    requires n <= |items| == |status| == |outcomes|
  {
    if n == 0 then ""
    else ResultLines(isPing, items, status, outcomes, n - 1)
         + ItemResult(isPing, items[n - 1], status[n - 1], outcomes[n - 1])
  }

  /** monitoring.go:141-166; what the probes return is an input. */
  method RunTest(isPing: bool, varToParse: string, status: seq<string>, outcomes: seq<Outcome>) returns (result: string)
    requires |status| == |outcomes| == |Split(varToParse, ',')|
    ensures result == ResultLines(isPing, Split(varToParse, ','), status, outcomes, |outcomes|)
    ensures result != ""
    ensures AnySuccess(outcomes) ==> Contains(result, "Success")
  {
    result := "";
    var items := Split(varToParse, ',');
    for i := 0 to |items|
      invariant result == ResultLines(isPing, items, status, outcomes, i)
      invariant i > 0 ==> result != ""
      invariant AnySuccess(outcomes[..i]) ==> Contains(result, "Success")
    {
      var line := ItemResult(isPing, items[i], status[i], outcomes[i]);
      ItemResultShape(isPing, items[i], status[i], outcomes[i]);
      assert outcomes[..i + 1] == outcomes[..i] + [outcomes[i]];
      ContainsConcat(result, line, "Success");
      result := result + line;
    }
    assert outcomes[..|items|] == outcomes;
  }

  lemma ContainsConcat(a: string, b: string, p: string)
    ensures Contains(a, p) || Contains(b, p) ==> Contains(a + b, p)
  {
    assert "" + a + b == a + b && a + b + "" == a + b;
    if Contains(a, p) {
      ContainsExtended("", a, b, p);
    }
    if Contains(b, p) {
      ContainsExtended(a, b, "", p);
    }
  }

  lemma ContainsExtended(a: string, s: string, b: string, p: string)
    requires Contains(s, p)
    ensures Contains(a + s + b, p)
  {
    var i :| 0 <= i <= |s| && OccursAt(s, p, i);
    assert (a + s + b)[|a| + i..|a| + i + |p|] == s[i..i + |p|];
    assert OccursAt(a + s + b, p, |a| + i);
  }

  // ---------- what every run keeps ----------

  /** The time of a note lies in the past. */
  function Time(n: Note): int {
    if n.Probed? then n.done else n.at
  }

  /** Since entry `i` no tunnel came up, and the monitor was neither started nor stopped. */
  ghost predicate QuietSince(log: seq<Note>, i: int) {
    forall k :: 0 <= k && i < k < |log| ==> !log[k].Up? && !log[k].Started? && !log[k].Stopped?
  }

  ghost predicate NoStartSince(log: seq<Note>, i: int) {
    forall k :: 0 <= k && i < k < |log| ==> !log[k].Started?
  }

  ghost predicate NoDownSince(log: seq<Note>, i: int) {
    forall k :: 0 <= k && i < k < |log| ==> !log[k].Down?
  }

  /** Entry `i` is the last probe, with no "VPN is down" behind it. */
  ghost predicate LastProbe(log: seq<Note>, i: int) {
    0 <= i < |log| && log[i].Probed? && forall k :: 0 <= k && i < k < |log| ==> !log[k].Probed? && !log[k].Down?
  }

  ghost predicate StartSinceDown(log: seq<Note>) {
    exists i :: 0 <= i < |log| && log[i].Started? && NoDownSince(log, i)
  }

  /** No probe since the last "VPN is down". */
  ghost predicate Fresh(log: seq<Note>) {
    forall i :: 0 <= i < |log| && log[i].Probed? ==> !NoDownSince(log, i)
  }

  /** The last stop, when the tunnel map was empty, is at least ten seconds ago, and the map has stayed empty. */
  ghost predicate EmptyForTen(log: seq<Note>, now: int) {
    exists i :: 0 <= i < |log| && log[i].Stopped? && log[i].at + 10 <= now && QuietSince(log, i)
  }

  ghost predicate AfterStarts(log: seq<Note>, t: int) {
    forall i :: 0 <= i < |log| && log[i].Started? ==> t >= log[i].at + 2
  }

  ghost predicate AfterProbes(log: seq<Note>, t: int, delay: int) {
    forall i :: 0 <= i < |log| && log[i].Probed? && NoStartSince(log, i) ==> t >= log[i].done + delay
  }

  ghost predicate SameAsLast(log: seq<Note>, ping: string, curl: string) {
    exists i :: LastProbe(log, i) && log[i].ping == ping && log[i].curl == curl
  }

  function Apply(est: map<string, int>, n: Note): map<string, int> {
    match n
    case Up(sa, at) => est[sa := at]
    case Gone(sa, _) => est - {sa}
    case _ => est
  }

  /** The tunnels that are established after everything in `log`. */
  function MapOf(log: seq<Note>): map<string, int> {
    if log == [] then map[] else Apply(MapOf(log[..|log| - 1]), log[|log| - 1])
  }

  /** What must hold of a note when it is written behind `log`. */
  ghost predicate GoodNote(cfg: Settings, log: seq<Note>, n: Note) {
    match n
    case Stopped(_) => MapOf(log) == map[]
    case Down(t) => EmptyForTen(log, t) && StartSinceDown(log)
    case Probed(t, _, ping, curl, message) =>
      && AfterStarts(log, t) && AfterProbes(log, t, cfg.delay)
      && (Fresh(log) ==> message != "")
      && (SameAsLast(log, ping, curl) ==> message == "")
    case _ => true
  }

  ghost predicate GoodLog(cfg: Settings, log: seq<Note>) {
    forall j :: 0 <= j < |log| ==> GoodNote(cfg, log[..j], log[j])
  }

  ghost predicate StoredAt(log: seq<Note>, ping: string, curl: string, cfg: Settings, i: int) {
    && LastProbe(log, i)
    && (cfg.privateIPs != "" ==> ping == log[i].ping) && (cfg.httpEndpoints != "" ==> curl == log[i].curl)
  }

  /** The stored results are those of the last probe, or empty after a reset. */
  ghost predicate Remembered(log: seq<Note>, ping: string, curl: string, cfg: Settings) {
    || (Fresh(log) && ping == "" && curl == "")
    || exists i :: StoredAt(log, ping, curl, cfg, i)
  }

  ghost predicate Past(log: seq<Note>, clock: int) {
    forall i :: 0 <= i < |log| ==> Time(log[i]) <= clock
  }

  ghost predicate MonitorInv(m: Monitor, cfg: Settings, clock: int) {
    && Recorded(m, cfg, clock)
    && (m.active && m.stop ==> EmptyForTen(m.log, m.timeToLive))
  }

  ghost predicate Recorded(m: Monitor, cfg: Settings, clock: int) {
    && Past(m.log, clock)
    && (m.active ==> StartSinceDown(m.log))
    && AfterStarts(m.log, m.timeToRun) && AfterProbes(m.log, m.timeToRun, cfg.delay)
    && Remembered(m.log, m.ping, m.curl, cfg) && GoodLog(cfg, m.log)
  }

  /** The monitor watches exactly while some tunnel is established. */
  ghost predicate Inv(s: Tunnel, cfg: Settings, clock: int) {
    && (s.monitor.active && !s.monitor.stop <==> s.established != map[])
    && s.established == MapOf(s.monitor.log)
    && MonitorInv(s.monitor, cfg, clock)
  }

  lemma AppendMap(log: seq<Note>, n: Note)
    ensures MapOf(log + [n]) == Apply(MapOf(log), n)
  {
    assert (log + [n])[..|log|] == log;
  }

  lemma AppendPositions(log: seq<Note>, n: Note)
    ensures forall i :: 0 <= i < |log| ==> (NoStartSince(log + [n], i) <==> NoStartSince(log, i) && !n.Started?)
    ensures forall i :: 0 <= i < |log| ==>
              (QuietSince(log + [n], i) <==> QuietSince(log, i) && !n.Up? && !n.Started? && !n.Stopped?)
    ensures forall i :: 0 <= i < |log| ==> (NoDownSince(log + [n], i) <==> NoDownSince(log, i) && !n.Down?)
  {
    forall i | 0 <= i < |log|
      ensures NoStartSince(log + [n], i) <==> NoStartSince(log, i) && !n.Started?
      ensures QuietSince(log + [n], i) <==> QuietSince(log, i) && !n.Up? && !n.Started? && !n.Stopped?
      ensures NoDownSince(log + [n], i) <==> NoDownSince(log, i) && !n.Down?
    {
      assert (log + [n])[|log|] == n;
      assert forall k :: 0 <= k < |log| ==> (log + [n])[k] == log[k];
    }
  }

  lemma AppendLastProbe(log: seq<Note>, n: Note)
    ensures forall i :: 0 <= i < |log| ==> (LastProbe(log + [n], i) <==> LastProbe(log, i) && !n.Probed? && !n.Down?)
    ensures LastProbe(log + [n], |log|) <==> n.Probed?
  {
    forall i | 0 <= i < |log| ensures LastProbe(log + [n], i) <==> LastProbe(log, i) && !n.Probed? && !n.Down? {
      assert (log + [n])[|log|] == n;
      assert forall k :: 0 <= k < |log| ==> (log + [n])[k] == log[k];
    }
  }

  lemma AppendSummaries(log: seq<Note>, n: Note)
    ensures StartSinceDown(log) && !n.Down? ==> StartSinceDown(log + [n])
    ensures n.Started? ==> StartSinceDown(log + [n])
    ensures Fresh(log + [n]) <==> n.Down? || (Fresh(log) && !n.Probed?)
    ensures forall t :: EmptyForTen(log, t) && !n.Up? && !n.Started? && !n.Stopped? ==> EmptyForTen(log + [n], t)
    ensures n.Stopped? ==> EmptyForTen(log + [n], n.at + 10)
  {
    AppendPositions(log, n);
    var all := log + [n];
    assert all[|log|] == n && forall k :: 0 <= k < |log| ==> all[k] == log[k];
    assert NoDownSince(all, |log|) && QuietSince(all, |log|);
    if StartSinceDown(log) && !n.Down? {
      var i :| 0 <= i < |log| && log[i].Started? && NoDownSince(log, i);
      assert all[i].Started? && NoDownSince(all, i);
    }
    forall t | EmptyForTen(log, t) && !n.Up? && !n.Started? && !n.Stopped? ensures EmptyForTen(all, t) {
      var i :| 0 <= i < |log| && log[i].Stopped? && log[i].at + 10 <= t && QuietSince(log, i);
      assert all[i].Stopped? && QuietSince(all, i);
    }
    AppendFresh(log, n);
  }

  lemma AppendFresh(log: seq<Note>, n: Note)
    ensures Fresh(log + [n]) <==> n.Down? || (Fresh(log) && !n.Probed?)
  {
    AppendPositions(log, n);
    var all := log + [n];
    assert all[|log|] == n && forall k :: 0 <= k < |log| ==> all[k] == log[k];
    assert NoDownSince(all, |log|);
    if Fresh(all) && !n.Down? {
      assert !n.Probed?;
      forall i | 0 <= i < |log| && log[i].Probed? ensures !NoDownSince(log, i) {
        assert all[i].Probed?;
      }
    }
  }

  lemma AppendTimes(log: seq<Note>, n: Note, t: int, delay: int)
    requires n.Started? ==> t >= n.at + 2
    requires n.Probed? ==> t >= n.done + delay
    requires AfterStarts(log, t) && (AfterProbes(log, t, delay) || n.Started?)
    ensures AfterStarts(log + [n], t) && AfterProbes(log + [n], t, delay)
  {
    AppendPositions(log, n);
    var all := log + [n];
    assert all[|log|] == n && forall k :: 0 <= k < |log| ==> all[k] == log[k];
  }

  lemma AppendGood(cfg: Settings, log: seq<Note>, n: Note)
    requires GoodLog(cfg, log) && GoodNote(cfg, log, n)
    ensures GoodLog(cfg, log + [n])
  {
    var all := log + [n];
    forall j | 0 <= j < |all| ensures GoodNote(cfg, all[..j], all[j]) {
      if j < |log| {
        assert all[..j] == log[..j];
      } else {
        assert all[..j] == log;
      }
    }
  }

  lemma AppendRemembered(log: seq<Note>, ping: string, curl: string, cfg: Settings, n: Note)
    requires Remembered(log, ping, curl, cfg) && !n.Probed? && !n.Down?
    ensures Remembered(log + [n], ping, curl, cfg)
  {
    AppendFresh(log, n);
    AppendLastProbe(log, n);
    if i :| StoredAt(log, ping, curl, cfg, i) {
      assert (log + [n])[i] == log[i];
      assert StoredAt(log + [n], ping, curl, cfg, i);
    }
  }

  lemma PlainNote(m: Monitor, cfg: Settings, clock: int, n: Note, now: int)
    requires Recorded(m, cfg, clock) && clock <= now && n.at == now
    requires n.Up? || n.Gone? || (n.Stopped? && MapOf(m.log) == map[])
    ensures Recorded(m.(log := m.log + [n]), cfg, now)
  {
    AppendSummaries(m.log, n);
    AppendTimes(m.log, n, m.timeToRun, cfg.delay);
    AppendGood(cfg, m.log, n);
    AppendRemembered(m.log, m.ping, m.curl, cfg, n);
  }

  lemma StartKeeps(m: Monitor, cfg: Settings, clock: int, now: int)
    requires Recorded(m, cfg, clock) && clock <= now
    ensures MonitorInv(StartAt(m, now), cfg, now) && MapOf(StartAt(m, now).log) == MapOf(m.log)
  {
    var n := Started(now);
    AppendMap(m.log, n);
    AppendSummaries(m.log, n);
    assert AfterStarts(m.log, now + 2);
    AppendTimes(m.log, n, now + 2, cfg.delay);
    AppendGood(cfg, m.log, n);
    AppendRemembered(m.log, m.ping, m.curl, cfg, n);
  }

  lemma StopKeeps(m: Monitor, cfg: Settings, clock: int, now: int)
    requires Recorded(m, cfg, clock) && clock <= now && MapOf(m.log) == map[]
    ensures MonitorInv(StopAt(m, now), cfg, now) && MapOf(StopAt(m, now).log) == map[]
  {
    AppendMap(m.log, Stopped(now));
    PlainNote(m, cfg, clock, Stopped(now), now);
    AppendSummaries(m.log, Stopped(now));
  }

  lemma UpKeepsInv(s: Tunnel, cfg: Settings, clock: int, sa: string, now: int)
    requires Inv(s, cfg, clock) && clock <= now
    ensures Inv(UpAt(s, sa, now), cfg, now)
  {
    var m := s.monitor.(log := s.monitor.log + [Up(sa, now)]);
    var est := s.established[sa := now];
    PlainNote(s.monitor, cfg, clock, Up(sa, now), now);
    AppendMap(s.monitor.log, Up(sa, now));
    assert sa in est;
    assert s.established == map[] ==> est == map[sa := now];
    if |est| == 1 {
      StartKeeps(m, cfg, now, now);
    }
  }

  lemma GoneKeepsInv(s: Tunnel, cfg: Settings, clock: int, sa: string, now: int)
    requires Inv(s, cfg, clock) && clock <= now
    ensures Inv(GoneAt(s, sa, now), cfg, now)
  {
    var m := s.monitor.(log := s.monitor.log + [Gone(sa, now)]);
    var est := s.established - {sa};
    PlainNote(s.monitor, cfg, clock, Gone(sa, now), now);
    AppendMap(s.monitor.log, Gone(sa, now));
    AppendSummaries(s.monitor.log, Gone(sa, now));
    if |est| == 0 {
      StopKeeps(m, cfg, now, now);
    } else {
      assert est != map[] && s.established != map[];
    }
  }

  lemma LineKeepsInv(s: Tunnel, cfg: Settings, clock: int, line: string, now: int)
    requires Inv(s, cfg, clock) && clock <= now
    requires IsUp(line) || IsGone(line) ==> |Fields(line)| >= 3
    ensures Inv(LineAt(s, line, now), cfg, now)
  {
    var s1 := s;
    if IsUp(line) {
      s1 := UpAt(s, Fields(line)[2], now);
      UpKeepsInv(s, cfg, clock, Fields(line)[2], now);
    } else {
      InvLater(s, cfg, clock, now);
    }
    if IsGone(line) {
      GoneKeepsInv(s1, cfg, now, Fields(line)[2], now);
    }
  }

  lemma InvLater(s: Tunnel, cfg: Settings, clock: int, now: int)
    requires Inv(s, cfg, clock) && clock <= now
    ensures Inv(s, cfg, now)
  {
  }

  /** What is sent for a round of tests, given what is stored. */
  lemma MessageRules(m: Monitor, cfg: Settings, out: Outputs)
    requires cfg.Valid() && Remembered(m.log, m.ping, m.curl, cfg) && out.ping != "" && out.curl != ""
    ensures Fresh(m.log) ==> Verdict(NewResults(m, cfg, out)) != ""
    ensures SameAsLast(m.log, out.ping, out.curl) ==> Verdict(NewResults(m, cfg, out)) == ""
  {
    if i, j :| StoredAt(m.log, m.ping, m.curl, cfg, i) && LastProbe(m.log, j) {
      assert i == j;
    }
  }

  lemma ProbeKeeps(m: Monitor, cfg: Settings, clock: int, t: Clock, out: Outputs)
    requires cfg.Valid() && MonitorInv(m, cfg, clock) && t.Valid() && clock <= t.first
    requires out.ping != "" && out.curl != ""
    ensures MonitorInv(ProbeStep(m, cfg, t, out), cfg, t.third)
    ensures ProbeStep(m, cfg, t, out).active == m.active && ProbeStep(m, cfg, t, out).stop == m.stop
    ensures ProbeStep(m, cfg, t, out).timeToLive == m.timeToLive
  {
    if m.active && t.first >= m.timeToRun {
      var n := Probed(t.first, t.second, out.ping, out.curl, Verdict(NewResults(m, cfg, out)));
      var m' := ProbeStep(m, cfg, t, out);
      MessageRules(m, cfg, out);
      AppendSummaries(m.log, n);
      AppendTimes(m.log, n, t.second + cfg.delay, cfg.delay);
      AppendGood(cfg, m.log, n);
      AppendLastProbe(m.log, n);
      assert (m.log + [n])[|m.log|] == n;
      assert StoredAt(m'.log, m'.ping, m'.curl, cfg, |m.log|);
    }
  }

  lemma DownKeeps(m: Monitor, cfg: Settings, t: Clock)
    requires MonitorInv(m, cfg, t.third)
    ensures MonitorInv(DownStep(m, t), cfg, t.third)
    ensures DownStep(m, t).active && !DownStep(m, t).stop <==> m.active && !m.stop
  {
    if m.active && m.stop && t.third >= m.timeToLive {
      var n := Down(t.third);
      assert EmptyForTen(m.log, t.third);
      AppendSummaries(m.log, n);
      AppendTimes(m.log, n, m.timeToRun, cfg.delay);
      AppendGood(cfg, m.log, n);
    }
  }

  lemma TickKeepsMap(m: Monitor, cfg: Settings, t: Clock, out: Outputs)
    ensures MapOf(TickAt(m, cfg, t, out).log) == MapOf(m.log)
  {
    var m1 := ProbeStep(m, cfg, t, out);
    AppendMap(m.log, Probed(t.first, t.second, out.ping, out.curl, Verdict(NewResults(m, cfg, out))));
    AppendMap(m1.log, Down(t.third));
  }

  lemma TickKeepsInv(s: Tunnel, cfg: Settings, clock: int, t: Clock, out: Outputs)
    requires cfg.Valid() && Inv(s, cfg, clock) && t.Valid() && clock <= t.first && out.ping != "" && out.curl != ""
    ensures Inv(s.(monitor := TickAt(s.monitor, cfg, t, out)), cfg, t.third)
  {
    ProbeKeeps(s.monitor, cfg, clock, t, out);
    DownKeeps(ProbeStep(s.monitor, cfg, t, out), cfg, t);
    TickKeepsMap(s.monitor, cfg, t, out);
  }

  // ---------- runs ----------

  datatype Input = Line(text: string, now: int) | Tick(t: Clock, out: Outputs)

  ghost function Step(s: Tunnel, cfg: Settings, e: Input): Tunnel {
    match e
    case Line(text, now) =>
      if IsUp(text) || IsGone(text) then StateLineHasFields(text); LineAt(s, text, now) else s
    case Tick(t, out) => s.(monitor := TickAt(s.monitor, cfg, t, out))
  }

  /** The clock never goes back, and test outputs are never empty. */
  ghost predicate Possible(clock: int, e: Input) {
    match e
    case Line(_, now) => clock <= now
    case Tick(t, out) => clock <= t.first && t.Valid() && out.ping != "" && out.curl != ""
  }

  function EndTime(e: Input): int {
    match e
    case Line(_, now) => now
    case Tick(t, _) => t.third
  }

  ghost predicate PossibleRun(clock: int, run: seq<Input>)
    decreases |run|
  {
    run == [] || (Possible(clock, run[0]) && PossibleRun(EndTime(run[0]), run[1..]))
  }

  ghost function Run(s: Tunnel, cfg: Settings, run: seq<Input>): Tunnel
    decreases |run|
  {
    if run == [] then s else Run(Step(s, cfg, run[0]), cfg, run[1..])
  }

  function EndOf(clock: int, run: seq<Input>): int
    decreases |run|
  {
    if run == [] then clock else EndOf(EndTime(run[0]), run[1..])
  }

  lemma StepKeepsInv(s: Tunnel, cfg: Settings, clock: int, e: Input)
    requires cfg.Valid() && Inv(s, cfg, clock) && Possible(clock, e)
    ensures Inv(Step(s, cfg, e), cfg, EndTime(e))
  {
    match e
    case Line(text, now) =>
      if IsUp(text) || IsGone(text) {
        StateLineHasFields(text);
        LineKeepsInv(s, cfg, clock, text, now);
      } else {
        InvLater(s, cfg, clock, now);
      }
    case Tick(t, out) =>
      TickKeepsInv(s, cfg, clock, t, out);
  }

  lemma {:induction false} RunKeepsInv(s: Tunnel, cfg: Settings, clock: int, run: seq<Input>)
    requires cfg.Valid() && Inv(s, cfg, clock) && PossibleRun(clock, run)
    ensures Inv(Run(s, cfg, run), cfg, EndOf(clock, run))
    decreases |run|
  {
    if run == [] {
    } else {
      StepKeepsInv(s, cfg, clock, run[0]);
      RunKeepsInv(Step(s, cfg, run[0]), cfg, EndTime(run[0]), run[1..]);
    }
  }

  /**
   Over every run: the monitor watches exactly while the tunnel map is non-empty, and every probe and every
   "VPN is down" in the log was written at a permitted moment with the right message.
   */
  lemma MonitorRuns(cfg: Settings, clock: int, run: seq<Input>)
    requires cfg.Valid() && PossibleRun(clock, run)
    ensures var s := Run(Tunnel(map[], IDLE), cfg, run);
            && (s.monitor.active && !s.monitor.stop <==> s.established != map[])
            && s.established == MapOf(s.monitor.log) && GoodLog(cfg, s.monitor.log)
  {
    RunKeepsInv(Tunnel(map[], IDLE), cfg, clock, run);
  }

  /** While nothing comes up, an empty map stays empty. */
  lemma {:induction false} QuietMapEmpty(log: seq<Note>, i: int, k: int)
    requires 0 <= i <= k <= |log| && MapOf(log[..i]) == map[] && forall m :: i <= m < k ==> !log[m].Up?
    ensures MapOf(log[..k]) == map[]
    decreases k
  {
    if i < k {
      QuietMapEmpty(log, i, k - 1);
      assert log[..k] == log[..k - 1] + [log[k - 1]];
      AppendMap(log[..k - 1], log[k - 1]);
    }
  }

  /** When "VPN is down" is sent, no tunnel was established in the ten seconds since the last stop. */
  lemma DownMeansEmptyForTen(cfg: Settings, log: seq<Note>, j: int)
    requires GoodLog(cfg, log) && 0 <= j < |log| && log[j].Down?
    ensures exists i :: 0 <= i < j && log[i].Stopped? && log[i].at + 10 <= log[j].at
                        && forall k :: i <= k <= j ==> MapOf(log[..k]) == map[]
  {
    assert GoodNote(cfg, log[..j], log[j]);
    var front := log[..j];
    var i :| 0 <= i < j && front[i].Stopped? && front[i].at + 10 <= log[j].at && QuietSince(front, i);
    assert GoodNote(cfg, log[..i], log[i]);
    forall k | i <= k <= j ensures MapOf(log[..k]) == map[] {
      assert forall m :: i < m < k ==> log[m] == front[m];
      QuietMapEmpty(log, i, k);
    }
  }

  /** Between two "VPN is down" notices there is always a start. */
  lemma StartBetweenDowns(cfg: Settings, log: seq<Note>, i: int, j: int)
    requires GoodLog(cfg, log) && 0 <= i < j < |log| && log[i].Down? && log[j].Down?
    ensures exists k :: i < k < j && log[k].Started?
  {
    assert GoodNote(cfg, log[..j], log[j]);
    var k :| 0 <= k < j && log[..j][k].Started? && NoDownSince(log[..j], k);
    assert log[..j][i] == log[i] && log[..j][k] == log[k];
  }
}

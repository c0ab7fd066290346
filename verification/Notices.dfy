/**
 The monitor's timing read off its log alone (monitoring/monitoring.go:54-108): which notes one iteration of the
 loop writes, and which ones a line of the ipsec log writes.
 */
module Notices {
  import opened Text
  import opened Monitoring

  /** The last stop, with no start and no "VPN is down" behind it. */
  ghost predicate PendingStop(log: seq<Note>, i: int) {
    && 0 <= i < |log| && log[i].Stopped?
    && forall k :: i < k < |log| ==> !log[k].Started? && !log[k].Stopped? && !log[k].Down?
  }

  /** The last start or probe, whichever is later. */
  ghost predicate LastTimed(log: seq<Note>, i: int) {
    && 0 <= i < |log| && (log[i].Started? || log[i].Probed?)
    && forall k :: i < k < |log| ==> !log[k].Started? && !log[k].Probed?
  }

  /** Two seconds after a start, one delay after the end of a probe. */
  function NextRun(n: Note, delay: int): int
    requires n.Started? || n.Probed?
  {
    if n.Started? then n.at + 2 else n.done + delay
  }

  ghost predicate ProbeDue(log: seq<Note>, delay: int, now: int) {
    StartSinceDown(log) && exists i :: LastTimed(log, i) && now >= NextRun(log[i], delay)
  }

  ghost predicate DownDue(log: seq<Note>, now: int) {
    StartSinceDown(log) && exists i :: PendingStop(log, i) && now >= log[i].at + 10
  }

  /** The fields of the monitor are exactly what its log says. */
  ghost predicate FromLog(m: Monitor, delay: int) {
    && (m.active <==> StartSinceDown(m.log))
    && (m.stop <==> exists i :: PendingStop(m.log, i))
    && (forall i :: PendingStop(m.log, i) ==> m.timeToLive == m.log[i].at + 10)
    && (forall i :: LastTimed(m.log, i) ==> m.timeToRun == NextRun(m.log[i], delay))
  }

  lemma AppendedActive(log: seq<Note>, n: Note)
    ensures StartSinceDown(log + [n]) <==> n.Started? || (StartSinceDown(log) && !n.Down?)
  {
    var all := log + [n];
    assert all[|log|] == n && forall k :: 0 <= k < |log| ==> all[k] == log[k];
    assert NoDownSince(all, |log|);
    AppendPositions(log, n);
    if StartSinceDown(log) && !n.Down? {
      var i :| 0 <= i < |log| && log[i].Started? && NoDownSince(log, i);
      assert all[i].Started? && NoDownSince(all, i);
    }
  }

  lemma AppendedStop(log: seq<Note>, n: Note, i: int)
    ensures PendingStop(log + [n], i) <==>
              if i == |log| then n.Stopped?
              else PendingStop(log, i) && !n.Started? && !n.Stopped? && !n.Down?
  {
    var all := log + [n];
    assert all[|log|] == n && forall k :: 0 <= k < |log| ==> all[k] == log[k];
  }

  lemma AppendedTimed(log: seq<Note>, n: Note, i: int)
    ensures LastTimed(log + [n], i) <==>
              if i == |log| then n.Started? || n.Probed? else LastTimed(log, i) && !n.Started? && !n.Probed?
  {
    var all := log + [n];
    assert all[|log|] == n && forall k :: 0 <= k < |log| ==> all[k] == log[k];
  }

  /** What writing one note does to the summaries of the log. */
  lemma Appended(log: seq<Note>, n: Note)
    ensures StartSinceDown(log + [n]) <==> n.Started? || (StartSinceDown(log) && !n.Down?)
    ensures forall i :: PendingStop(log + [n], i) <==>
              if i == |log| then n.Stopped?
              else PendingStop(log, i) && !n.Started? && !n.Stopped? && !n.Down?
    ensures forall i :: LastTimed(log + [n], i) <==>
              if i == |log| then n.Started? || n.Probed? else LastTimed(log, i) && !n.Started? && !n.Probed?
  {
    AppendedActive(log, n);
    forall i ensures PendingStop(log + [n], i) <==>
              if i == |log| then n.Stopped?
              else PendingStop(log, i) && !n.Started? && !n.Stopped? && !n.Down? {
      AppendedStop(log, n, i);
    }
    forall i ensures LastTimed(log + [n], i) <==>
              if i == |log| then n.Started? || n.Probed? else LastTimed(log, i) && !n.Started? && !n.Probed? {
      AppendedTimed(log, n, i);
    }
  }

  /** After a start or a probe there is a last one. */
  lemma {:induction false} SomeLastTimed(log: seq<Note>, k: nat)
    requires k < |log| && (log[k].Started? || log[k].Probed?)
    ensures exists i :: LastTimed(log, i)
    decreases |log| - k
  {
    if j :| k < j < |log| && (log[j].Started? || log[j].Probed?) {
      SomeLastTimed(log, j);
    } else {
      assert LastTimed(log, k);
    }
  }

  lemma StartFromLog(m: Monitor, delay: int, now: int)
    requires FromLog(m, delay)
    ensures FromLog(StartAt(m, now), delay)
  {
    Appended(m.log, Started(now));
    assert (m.log + [Started(now)])[|m.log|] == Started(now);
  }

  lemma StopFromLog(m: Monitor, delay: int, now: int)
    requires FromLog(m, delay)
    ensures FromLog(StopAt(m, now), delay)
  {
    Appended(m.log, Stopped(now));
    assert (m.log + [Stopped(now)])[|m.log|] == Stopped(now);
    assert PendingStop(m.log + [Stopped(now)], |m.log|);
  }

  lemma TunnelNoteFromLog(m: Monitor, delay: int, n: Note)
    requires FromLog(m, delay) && (n.Up? || n.Gone?)
    ensures FromLog(m.(log := m.log + [n]), delay)
  {
    Appended(m.log, n);
    if i :| PendingStop(m.log, i) {
      assert PendingStop(m.log + [n], i);
    }
  }

  /** The probe of one iteration: exactly when it is due. */
  lemma ProbeExactly(m: Monitor, cfg: Settings, t: Clock, out: Outputs)
    requires FromLog(m, cfg.delay)
    ensures var next := ProbeStep(m, cfg, t, out);
            && next.log == m.log
                 + (if ProbeDue(m.log, cfg.delay, t.first)
                    then [Probed(t.first, t.second, out.ping, out.curl, Verdict(NewResults(m, cfg, out)))] else [])
            && FromLog(next, cfg.delay)
            && (DownDue(next.log, t.third) <==> DownDue(m.log, t.third))
  {
    var n := Probed(t.first, t.second, out.ping, out.curl, Verdict(NewResults(m, cfg, out)));
    Appended(m.log, n);
    assert (m.log + [n])[|m.log|] == n;
    if m.active {
      var k :| 0 <= k < |m.log| && m.log[k].Started? && NoDownSince(m.log, k);
      SomeLastTimed(m.log, k);
    }
    if i :| PendingStop(m.log, i) {
      assert PendingStop(m.log + [n], i);
    }
  }

  /** The notice of one iteration: exactly when it is due, and afterwards everything is as at the beginning. */
  lemma DownExactly(m: Monitor, delay: int, t: Clock)
    requires FromLog(m, delay)
    ensures var next := DownStep(m, t);
            && next.log == m.log + (if DownDue(m.log, t.third) then [Down(t.third)] else [])
            && FromLog(next, delay)
            && (DownDue(m.log, t.third) ==> !next.active && next.ping == next.curl == "" && Fresh(next.log))
  {
    Appended(m.log, Down(t.third));
    AppendFresh(m.log, Down(t.third));
  }

  lemma TickFromLog(m: Monitor, cfg: Settings, t: Clock, out: Outputs)
    requires FromLog(m, cfg.delay)
    ensures FromLog(TickAt(m, cfg, t, out), cfg.delay)
  {
    ProbeExactly(m, cfg, t, out);
    DownExactly(ProbeStep(m, cfg, t, out), cfg.delay, t);
  }

  lemma LineFromLog(s: Tunnel, delay: int, line: string, now: int)
    requires FromLog(s.monitor, delay) && (IsUp(line) || IsGone(line) ==> |Fields(line)| >= 3)
    ensures FromLog(LineAt(s, line, now).monitor, delay)
  {
    var s1 := s;
    if IsUp(line) {
      s1 := UpAt(s, Fields(line)[2], now);
      TunnelNoteFromLog(s.monitor, delay, Up(Fields(line)[2], now));
      StartFromLog(s.monitor.(log := s.monitor.log + [Up(Fields(line)[2], now)]), delay, now);
    }
    if IsGone(line) {
      TunnelNoteFromLog(s1.monitor, delay, Gone(Fields(line)[2], now));
      StopFromLog(s1.monitor.(log := s1.monitor.log + [Gone(Fields(line)[2], now)]), delay, now);
    }
  }

  lemma {:induction false} RunFromLog(s: Tunnel, cfg: Settings, run: seq<Input>)
    requires FromLog(s.monitor, cfg.delay)
    ensures FromLog(Run(s, cfg, run).monitor, cfg.delay)
    decreases |run|
  {
    if run == [] {
    } else {
      match run[0]
      case Line(text, now) =>
        if IsUp(text) || IsGone(text) {
          StateLineHasFields(text);
          LineFromLog(s, cfg.delay, text, now);
        }
        RunFromLog(Step(s, cfg, run[0]), cfg, run[1..]);
      case Tick(t, out) =>
        TickFromLog(s.monitor, cfg, t, out);
        RunFromLog(Step(s, cfg, run[0]), cfg, run[1..]);
    }
  }

  /**
   After any run, one more iteration of the loop writes a probe exactly when one is due, and "VPN is down" exactly
   when ten seconds have passed since a stop with no start and no such notice since; then the monitor is as new.
   */
  lemma TickExactly(cfg: Settings, run: seq<Input>, t: Clock, out: Outputs)
    ensures var m := Run(Tunnel(map[], IDLE), cfg, run).monitor;
            var next := TickAt(m, cfg, t, out);
            && next.log == m.log
                 + (if ProbeDue(m.log, cfg.delay, t.first)
                    then [Probed(t.first, t.second, out.ping, out.curl, Verdict(NewResults(m, cfg, out)))] else [])
                 + (if DownDue(m.log, t.third) then [Down(t.third)] else [])
            && (DownDue(m.log, t.third) ==> !next.active && next.ping == next.curl == "" && Fresh(next.log))
  {
    assert FromLog(IDLE, cfg.delay);
    RunFromLog(Tunnel(map[], IDLE), cfg, run);
    var m := Run(Tunnel(map[], IDLE), cfg, run).monitor;
    ProbeExactly(m, cfg, t, out);
    DownExactly(ProbeStep(m, cfg, t, out), cfg.delay, t);
  }

  // ---------- what is sent ----------

  function Ending(results: string): string {
    if Contains(results, "Success") then "VPN is up" else "Monitoring tests failed. VPN may be down"
  }

  /** The results a probe is compared with: those of the last probe, or none after a "VPN is down". */
  ghost predicate Previous(log: seq<Note>, ping: string, curl: string) {
    || (Fresh(log) && ping == "" && curl == "")
    || exists i :: LastProbe(log, i) && ping == log[i].ping && curl == log[i].curl
  }

  lemma PreviousStored(m: Monitor, cfg: Settings, ping: string, curl: string)
    requires Remembered(m.log, m.ping, m.curl, cfg) && Previous(m.log, ping, curl)
    ensures (cfg.privateIPs != "" ==> m.ping == ping) && (cfg.httpEndpoints != "" ==> m.curl == curl)
  {
    if i, j :| StoredAt(m.log, m.ping, m.curl, cfg, i) && LastProbe(m.log, j) {
      assert i == j;
    }
  }

  /** After any possible run, what a probe sends: the results that changed, and what they mean for the VPN. */
  lemma MessageExactly(cfg: Settings, clock: int, run: seq<Input>, out: Outputs, ping: string, curl: string)
    requires cfg.Valid() && PossibleRun(clock, run)
    requires Previous(Run(Tunnel(map[], IDLE), cfg, run).monitor.log, ping, curl)
    ensures var message := Verdict(NewResults(Run(Tunnel(map[], IDLE), cfg, run).monitor, cfg, out));
            var pingNew := cfg.privateIPs != "" && out.ping != ping;
            var curlNew := cfg.httpEndpoints != "" && out.curl != curl;
            && (pingNew && curlNew && out.ping + out.curl != "" ==>
                  message == out.ping + out.curl + Ending(out.ping + out.curl))
            && (pingNew && !curlNew && out.ping != "" ==> message == out.ping + Ending(out.ping))
            && (!pingNew && curlNew && out.curl != "" ==> message == out.curl + Ending(out.curl))
            && (!pingNew && !curlNew ==> message == "")
  {
    RunKeepsInv(Tunnel(map[], IDLE), cfg, clock, run);
    var m := Run(Tunnel(map[], IDLE), cfg, run).monitor;
    PreviousStored(m, cfg, ping, curl);
    assert out.ping + "" == out.ping && "" + out.curl == out.curl && "" + "" == "";
  }

  // ---------- what a line writes ----------

  /** A new tunnel starts the monitor exactly when it is the only one, a gone one stops it when none is left. */
  lemma LineExactly(s: Tunnel, line: string, now: int)
    requires IsUp(line) != IsGone(line) && |Fields(line)| >= 3
    ensures var sa, next := Fields(line)[2], LineAt(s, line, now);
            var only := forall other :: other in s.established ==> other == sa;
            && (IsUp(line) ==>
                  && next.established == s.established[sa := now]
                  && next.monitor.log == s.monitor.log + [Up(sa, now)] + (if only then [Started(now)] else []))
            && (IsGone(line) ==>
                  && next.established == s.established - {sa}
                  && next.monitor.log == s.monitor.log + [Gone(sa, now)] + (if only then [Stopped(now)] else []))
  {
    var sa := Fields(line)[2];
    OnlyOne(s.established, sa, now);
  }

  lemma OnlyOne(established: map<string, int>, sa: string, now: int)
    ensures |established[sa := now]| == 1 <==> forall other :: other in established ==> other == sa
    ensures |established - {sa}| == 0 <==> forall other :: other in established ==> other == sa
  {
    var up := established[sa := now];
    assert sa in up;
    if |up| == 1 {
      forall other | other in established ensures other == sa {
        assert up.Keys - {sa} == {} by {
          assert |up.Keys - {sa}| == 0;
        }
        assert other in up.Keys;
      }
    }
    if forall other :: other in established ==> other == sa {
      assert up == map[sa := now];
    }
    var gone := established - {sa};
    if gone == map[] {
      forall other | other in established ensures other == sa {
        assert other == sa || other in gone;
      }
    }
  }

  lemma StateText(from: string, to: string)
    ensures StateChange(from, to) == "state change: " + from + " => " + to
  {
    assert "state" + [' '] + ("change:" + [' ']) == "state change: ";
    assert [' '] + ("=>" + [' ']) == " => ";
  }

  /** The texts that are watched for. */
  lemma WatchedTexts(line: string, connecting: string, established: string, rekeying: string, deleting: string)
    requires connecting == "CONNECTING" && established == "ESTABLISHED"
    requires rekeying == "REKEYING" && deleting == "DELETING"
    ensures IsUp(line) <==> Contains(line, "state change: " + connecting + " => " + established)
    ensures IsGone(line) <==> Contains(line, "state change: " + established + " => " + deleting)
                              || Contains(line, "state change: " + rekeying + " => " + deleting)
  {
    StateText(connecting, established);
    StateText(established, deleting);
    StateText(rekeying, deleting);
  }

  predicate IsWord(w: string) {
    w != "" && NoSpace(w)
  }

  lemma BlankConcat(a: string, b: string)
    ensures Blank(a + b) == Blank(a) + Blank(b)
  {
  }

  lemma BlankWord(w: string)
    requires IsWord(w)
    ensures Blank(w) == w && ' ' !in w
  {
    assert forall i :: 0 <= i < |w| ==> w[i] in w;
  }

  lemma FirstField(w: string, rest: string)
    requires w != "" && ' ' !in w
    ensures NonEmpty(Split(w + [' '] + rest, ' ')) == [w] + NonEmpty(Split(rest, ' '))
  {
    SplitAtSeparator(w, ' ', rest);
    NonEmptyConcat([w], Split(rest, ' '));
    assert [w][1..] == [];
  }

  /** The tunnel a line is about is its third word, as in `05[IKE] IKE_SA home[1] state change: ...`. */
  lemma TunnelName(line: string, time: string, kind: string, sa: string, rest: string)
    requires IsWord(time) && IsWord(kind) && IsWord(sa)
    requires line == time + [' '] + (kind + [' '] + (sa + [' '] + rest))
    ensures |Fields(line)| >= 3 && Fields(line)[2] == sa
  {
    BlankWord(time);
    BlankWord(kind);
    BlankWord(sa);
    BlankConcat(sa + [' '], rest);
    BlankConcat(kind + [' '], sa + [' '] + rest);
    BlankConcat(time + [' '], kind + [' '] + (sa + [' '] + rest));
    BlankConcat(sa, [' ']);
    BlankConcat(kind, [' ']);
    BlankConcat(time, [' ']);
    assert Blank([' ']) == [' '];
    assert Blank(line) == time + [' '] + (kind + [' '] + (sa + [' '] + Blank(rest)));
    FirstField(sa, Blank(rest));
    FirstField(kind, sa + [' '] + Blank(rest));
    FirstField(time, kind + [' '] + (sa + [' '] + Blank(rest)));
  }
}

/**
 The VPN pod waits for the route daemon of its node before it starts ipsec: listen, publish, install the SNAT
 rules, dial, accept, start (strongswan/strongswan.go:196-353, strongswan/routedaemon.go:56-118 and 186-205,
 strongswan/main.go:200-211). The pod uses the load balancer address (`connectUsingVip`); other pods may publish
 before and after it, daemons may skip publications, refuse them, crash, or be stopped.
 */
module Handshake {
  import opened Text
  import opened IPv4
  import opened Network
  import opened RouteMap
  import opened RoutePlan
  import Config
  import IPPool
  import RouteDaemon
  import SubnetNat
  import Validate

  /**
   The part of a published configuration that matters here. `listens`: the pod gets past its own checks;
   `refusedBy`: the nodes whose daemon ends on this data.
   */
  datatype Pub = Pub(
    podIP: string,
    workerNode: string,
    gateway: string,
    loadBalancer: string,
    connect: bool,
    complete: bool,
    hostNetworking: bool,
    listens: bool,
    refusedBy: set<string>)

  datatype Phase = Starting | Ended | Listening | Waiting(index: nat) | Woken | IpsecRunning

  datatype Work = Idle | Deleting(to: nat) | Adding(to: nat, done: nat) | Dialing(to: nat)

  datatype Daemon = Daemon(work: Work, applied: Option<nat>, chain: seq<NatEntry>)

  datatype State = State(phase: Phase, listener: bool, backlog: nat, history: seq<Pub>, nodes: map<string, Daemon>)

  /** What every node's daemon knows, by the node's address. */
  type Envs = map<string, Env>

  predicate ValidEnvs(envs: Envs) {
    forall n | n in envs :: ValidEnv(envs[n]) && envs[n].localIP == n
  }

  /**
   What else decides whether the pod gets as far as listening. `others`: the configuration file is accepted, the calls
   to Kubernetes succeed, Calico takes the well-formed pools, and the monitor, if enabled, accepts its settings.
   */
  datatype Settings = Settings(
    leftID: string,
    nodePublicIP: string,
    localZoneSubnet: string,
    zone: string,
    enablePodSNAT: string,
    localSubnetNAT: string,
    remoteSubnetNAT: string,
    others: bool)

  /** Neither the pod's address nor its node's is in a remote subnet as configured (strongswan.go:198-199). */
  predicate AddressesOutside(d: RouteData) {
    var remote := Split(d.remoteSubnet, ',');
    !IPInRemoteSubnet(d.vpnPodIP, remote) && !IPInRemoteSubnet(d.workerNodeIP, remote)
  }

  /** Calico takes a pool only for a network without host bits. */
  predicate PoolOk(cidr: string) {
    ParseCIDR(cidr).Some? && ParseCIDR(cidr).value.ip == ParseCIDR(cidr).value.net.base
  }

  /** `auto` means no pools exactly when the pod's address is outside the local subnets. */
  predicate PoolsWanted(p: Settings, d: RouteData) {
    || p.enablePodSNAT == "false"
    || (p.enablePodSNAT == "auto" && ParseIP(d.vpnPodIP).Some?
        && AddrInList(ParseIP(d.vpnPodIP).value, Split(d.localSubnet, ',')))
  }

  predicate PoolsOk(p: Settings, d: RouteData) {
    && (p.remoteSubnetNAT != "" ==> SubnetNat.AcceptedText(p.remoteSubnetNAT) && Remap.WellSplit(p.remoteSubnetNAT))
    && (PoolsWanted(p, d) ==> forall c | c in IPPool.PoolSubnets(d.remoteSubnet, p.remoteSubnetNAT) :: PoolOk(c))
  }

  /** The pool of the remote gateway; the gateway may be the text `%any`. */
  predicate GatewayOk(d: RouteData) {
    PoolOk(d.remoteGateway + "/32")
  }

  /** The remaining checks before the pod listens; a pod on host networking finds no interface of its own. */
  predicate PlacementOk(p: Settings, d: RouteData) {
    && !HostNetworking(d) && p.others
    && p.enablePodSNAT in ["", "true", "false", "auto"]
    && (p.localSubnetNAT != "" ==> SubnetNat.AcceptedText(p.localSubnetNAT))
    && Config.LeftIDKnown(p.leftID, p.nodePublicIP, d.loadBalancerIP)
    && (p.localZoneSubnet != "" ==> Config.ZoneKnown(p.localZoneSubnet, p.zone))
    && Service.CalculateRouterTable(d.loadBalancerIP).Some?
  }

  /** The pod listens: nothing before ends it. */
  predicate PodChecks(p: Settings, d: RouteData) {
    AddressesOutside(d) && PlacementOk(p, d) && PoolsOk(p, d) && GatewayOk(d)
  }

  function Published(envs: Envs, p: Settings, d: RouteData): Pub
    requires ValidEnvs(envs)
  {
    Pub(d.vpnPodIP, d.workerNodeIP, d.remoteGateway, d.loadBalancerIP, d.connectUsingLB == "true", Complete(d),
        HostNetworking(d), PodChecks(p, d), set n | n in envs && Fatal(envs[n], Add, d))
  }

  /** Entries one node installs for one publication; the VPN node returns early for host networking. */
  function Entries(node: string, p: Pub): seq<NatEntry> {
    if !p.connect || !p.complete || (node == p.workerNode && p.hostNetworking) then []
    else if node == p.workerNode then [SnatEntry(p.gateway, p.podIP, p.loadBalancer), Masquerade(p.gateway)]
    else [Masquerade(p.gateway)]
  }

  /** A pod that listens has an address, and so does its node. */
  lemma ListensHasAddress(envs: Envs, p: Settings, d: RouteData)
    requires ValidEnvs(envs) && Published(envs, p, d).listens
    ensures ParseIP(d.vpnPodIP).Some? && d.vpnPodIP != "" && ParseIP(d.workerNodeIP).Some?
  {
    IPChars(d.vpnPodIP);
  }

  /** These are the NAT entries of the reconciler's plan, past those for the non-cluster subnets. */
  lemma EntriesArePlanned(envs: Envs, n: string, p: Settings, d: RouteData)
    requires ValidEnvs(envs) && n in envs
    ensures var vpnNode := Complete(d) && n == d.workerNodeIP && !HostNetworking(d);
            var nonCluster := if vpnNode then NonClusterEntries(envs[n], d) else [];
            PlanOf(envs[n], d).entries == nonCluster + Entries(n, Published(envs, p, d))
  {
    if Complete(d) && n != d.workerNodeIP {
      assert [] + [Masquerade(d.remoteGateway)] == [Masquerade(d.remoteGateway)];
    }
  }

  predicate Dials(node: string, p: Pub) {
    p.connect && p.complete && node == p.workerNode && !p.hostNetworking
  }

  /** The daemon of a node dials the pod exactly when its handler does. */
  lemma DialsAreWakeups(envs: Envs, n: string, p: Settings, d: RouteData)
    requires ValidEnvs(envs) && n in envs
    ensures RouteDaemon.Wakeups(envs[n], Add, d)
            == if Dials(n, Published(envs, p, d)) then [d.vpnPodIP + ":4500"] else []
    ensures RouteDaemon.Wakeups(envs[n], Delete, d) == []
  {
  }

  datatype Step =
    | Listen
    | End
    | Publish
    | PublishOther(other: Pub)
    | Accept
    | StartIpsec
    | Deliver(node: string, to: nat)
    | DeleteOld(node: string)
    | InstallNext(node: string)
    | Refuse(node: string)
    | Dial(node: string)
    | Stop(node: string)
    | Crash(node: string)

  /** The entries of the publication a daemon has saved. */
  function OldEntries(history: seq<Pub>, node: string, d: Daemon): seq<NatEntry> {
    if d.applied.Some? && d.applied.value < |history| then Entries(node, history[d.applied.value]) else []
  }

  predicate Enabled(own: Pub, s: State, e: Step) {
    match e
    case Listen => s.phase == Starting && own.listens
    case End => s.phase == Starting && !own.listens
    case Publish => s.phase == Listening
    case PublishOther(p) => p.podIP != own.podIP
    case Accept => s.phase.Waiting? && s.backlog > 0
    case StartIpsec => s.phase == Woken
    case Deliver(n, j) =>
      n in s.nodes && s.nodes[n].work == Idle && j < |s.history|
      && (s.nodes[n].applied.Some? ==> s.nodes[n].applied.value < j)
    case DeleteOld(n) => n in s.nodes && s.nodes[n].work.Deleting?
    case InstallNext(n) =>
      n in s.nodes && s.nodes[n].work.Adding? && s.nodes[n].work.to < |s.history|
      && n !in s.history[s.nodes[n].work.to].refusedBy
    case Refuse(n) =>
      n in s.nodes && s.nodes[n].work.Adding? && s.nodes[n].work.to < |s.history|
      && n in s.history[s.nodes[n].work.to].refusedBy
    case Dial(n) => n in s.nodes && s.nodes[n].work.Dialing? && s.nodes[n].work.to < |s.history|
    case Stop(n) => n in s.nodes && s.nodes[n].work == Idle
    case Crash(n) => n in s.nodes
  }

  function NextDaemon(history: seq<Pub>, node: string, d: Daemon, e: Step): Daemon {
    match e
    case Deliver(_, j) => d.(work := Deleting(j))
    case DeleteOld(_) =>
      if d.work.Deleting? then Daemon(Adding(d.work.to, 0), None, RemoveEach(d.chain, OldEntries(history, node, d)))
      else d
    case InstallNext(_) =>
      if !d.work.Adding? || |history| <= d.work.to then d
      else
        var j, es := d.work.to, Entries(node, history[d.work.to]);
        if d.work.done < |es| then d.(work := Adding(j, d.work.done + 1), chain := d.chain + [es[d.work.done]])
        else d.(applied := Some(j), work := if Dials(node, history[j]) then Dialing(j) else Idle)
    case Dial(_) => d.(work := Idle)
    case Stop(_) => Daemon(Idle, None, RemoveEach(d.chain, OldEntries(history, node, d)))
    case Refuse(_) => d.(work := Idle, applied := None)
    case Crash(_) => d.(work := Idle, applied := None)
    case _ => d
  }

  function Next(own: Pub, s: State, e: Step): State
    requires Enabled(own, s, e)
  {
    match e
    case Listen => s.(phase := Listening, listener := true)
    case End => s.(phase := Ended)
    case Publish => s.(phase := Waiting(|s.history|), history := s.history + [own])
    case PublishOther(p) => s.(history := s.history + [p])
    case Accept => s.(phase := Woken, listener := false, backlog := s.backlog - 1)
    case StartIpsec => s.(phase := IpsecRunning)
    case Dial(n) =>
      var reached := s.history[s.nodes[n].work.to].podIP == own.podIP && s.listener;
      s.(nodes := s.nodes[n := NextDaemon(s.history, n, s.nodes[n], e)],
         backlog := s.backlog + if reached then 1 else 0)
    case _ => s.(nodes := s.nodes[e.node := NextDaemon(s.history, e.node, s.nodes[e.node], e)])
  }

  /** The pod's address is new, nothing published so far names it, and a pod that listens has one. */
  predicate Init(own: Pub, s: State) {
    && s.phase == Starting && !s.listener && s.backlog == 0 && own.connect
    && (own.listens ==> own.podIP != "")
    && (forall i | 0 <= i < |s.history| :: s.history[i].podIP != own.podIP)
    && (forall n | n in s.nodes :: s.nodes[n].work == Idle && s.nodes[n].applied == None)
  }

  predicate EndsWith(chain: seq<NatEntry>, es: seq<NatEntry>) {
    |es| <= |chain| && chain[|chain| - |es|..] == es
  }

  /** The entries of the publication that is applied, or of the one being applied so far, end the chain in order. */
  ghost predicate DaemonInv(history: seq<Pub>, n: string, d: Daemon) {
    && (d.applied.Some? ==>
          d.applied.value < |history| && EndsWith(d.chain, Entries(n, history[d.applied.value])))
    && (d.work.Deleting? ==> d.work.to < |history|)
    && (d.work.Adding? ==>
          && d.applied == None && d.work.to < |history| && d.work.done <= |Entries(n, history[d.work.to])|
          && EndsWith(d.chain, Entries(n, history[d.work.to])[..d.work.done]))
    && (d.work.Dialing? ==>
          d.applied == Some(d.work.to) && Dials(n, history[d.work.to]) && n !in history[d.work.to].refusedBy)
  }

  /** The daemon of the pod's node goes through with this publication and dials. */
  predicate WillDial(own: Pub) {
    Dials(own.workerNode, own) && own.workerNode !in own.refusedBy
  }

  predicate Awake(s: State) {
    s.backlog > 0 || s.phase == Woken || s.phase == IpsecRunning
  }

  ghost predicate PodInv(own: Pub, s: State) {
    && (s.listener <==> s.phase == Listening || s.phase.Waiting?)
    && (s.phase.Starting? || s.phase.Ended? || s.phase.Listening? ==>
          forall i :: 0 <= i < |s.history| ==> s.history[i].podIP != own.podIP)
    && (forall i :: 0 <= i < |s.history| && s.history[i].podIP == own.podIP ==> s.history[i] == own)
    && (s.listener ==> own.listens)
    && (Awake(s) ==> own.listens && WillDial(own))
  }

  ghost predicate Inv(own: Pub, s: State) {
    PodInv(own, s) && own.connect && (own.listens ==> own.podIP != "")
    && forall n :: n in s.nodes ==> DaemonInv(s.history, n, s.nodes[n])
  }

  lemma HistoryGrows(history: seq<Pub>, p: Pub, n: string, d: Daemon)
    requires DaemonInv(history, n, d)
    ensures DaemonInv(history + [p], n, d)
  {
    forall i | 0 <= i < |history| ensures (history + [p])[i] == history[i] {
    }
  }

  predicate DaemonReady(history: seq<Pub>, node: string, d: Daemon, e: Step) {
    match e
    case Deliver(_, j) => d.work == Idle && j < |history|
    case DeleteOld(_) => d.work.Deleting?
    case InstallNext(n) => d.work.Adding? && d.work.to < |history| && n == node && n !in history[d.work.to].refusedBy
    case Dial(_) => d.work.Dialing?
    case Stop(_) => d.work == Idle
    case _ => true
  }

  lemma InstalledOneMore(es: seq<NatEntry>, k: nat, chain: seq<NatEntry>)
    requires k < |es| && EndsWith(chain, es[..k])
    ensures EndsWith(chain + [es[k]], es[..k + 1])
  {
    assert es[..k + 1] == es[..k] + [es[k]];
    assert (chain + [es[k]])[|chain| - k..] == chain[|chain| - k..] + [es[k]];
  }

  lemma InstallKeepsInv(history: seq<Pub>, n: string, d: Daemon)
    requires DaemonInv(history, n, d) && d.work.Adding? && n !in history[d.work.to].refusedBy
    ensures DaemonInv(history, n, NextDaemon(history, n, d, InstallNext(n)))
  {
    var es, k := Entries(n, history[d.work.to]), d.work.done;
    if k < |es| {
      InstalledOneMore(es, k, d.chain);
      var d' := d.(work := Adding(d.work.to, k + 1), chain := d.chain + [es[k]]);
      assert NextDaemon(history, n, d, InstallNext(n)) == d';
    } else {
      assert es[..k] == es;
    }
  }

  lemma DaemonKeepsInv(history: seq<Pub>, n: string, d: Daemon, e: Step)
    requires DaemonInv(history, n, d) && DaemonReady(history, n, d, e)
    ensures DaemonInv(history, n, NextDaemon(history, n, d, e))
  {
    if e.InstallNext? {
      InstallKeepsInv(history, n, d);
      assert NextDaemon(history, n, d, e) == NextDaemon(history, n, d, InstallNext(n));
    } else if e.DeleteOld? {
      assert Entries(n, history[d.work.to])[..0] == [];
    }
  }

  lemma NextKeepsInv(own: Pub, s: State, e: Step)
    requires Inv(own, s) && Enabled(own, s, e)
    ensures Inv(own, Next(own, s, e))
  {
    var s' := Next(own, s, e);
    forall n | n in s'.nodes ensures DaemonInv(s'.history, n, s'.nodes[n]) {
      var d := s.nodes[n];
      assert DaemonInv(s.history, n, d);
      if e == Publish {
        HistoryGrows(s.history, own, n, d);
      } else if e.PublishOther? {
        HistoryGrows(s.history, e.other, n, d);
      } else if s'.nodes[n] != d {
        DaemonKeepsInv(s.history, n, d, e);
      }
    }
    PodNext(own, s, e);
  }

  lemma PodNext(own: Pub, s: State, e: Step)
    requires Inv(own, s) && Enabled(own, s, e)
    ensures PodInv(own, Next(own, s, e))
  {
    if e.Dial? {
      assert DaemonInv(s.history, e.node, s.nodes[e.node]);
    }
  }

  // ---------- runs ----------

  /** `states[i + 1]` is reached from `states[i]` by `steps[i]`. */
  ghost predicate IsRun(own: Pub, states: seq<State>, steps: seq<Step>) {
    && |states| == |steps| + 1 && Init(own, states[0])
    && forall i :: 0 <= i < |steps| ==>
         Enabled(own, states[i], steps[i]) && states[i + 1] == Next(own, states[i], steps[i])
  }

  lemma {:induction false} RunInv(own: Pub, states: seq<State>, steps: seq<Step>, i: nat)
    requires IsRun(own, states, steps) && i < |states|
    ensures Inv(own, states[i])
  {
    if i == 0 {
    } else {
      RunInv(own, states, steps, i - 1);
      assert states[i - 1 + 1] == Next(own, states[i - 1], steps[i - 1]);
      NextKeepsInv(own, states[i - 1], steps[i - 1]);
    }
  }

  /** The last entries give the pod's packets to its gateway the load balancer's address, and all others the node's. */
  predicate PodEntriesLast(own: Pub, chain: seq<NatEntry>) {
    EndsWith(chain, [SourceNat(own.gateway, own.podIP, own.loadBalancer), Masquerade(own.gateway)])
  }

  /** The daemon of the pod's node has both rules for this pod in place and is about to wake it up. */
  ghost predicate Ready(own: Pub, s: State) {
    && own.workerNode in s.nodes && PodEntriesLast(own, s.nodes[own.workerNode].chain)
    && s.nodes[own.workerNode].work.Dialing? && s.listener
  }

  /** While the rules for the pod are in place, they translate its packets, unless an older entry comes first. */
  lemma EntriesTranslate(own: Pub, chain: seq<NatEntry>, p: Datagram)
    requires PodEntriesLast(own, chain) && NoneMatches(chain[..|chain| - 2], p)
    requires ParseIP(own.gateway) == Some(p.dst) && ParseIP(own.podIP).Some? && ParseIP(own.loadBalancer).Some?
    ensures SourceAfter(chain, p)
            == if p.udp && p.src == ParseIP(own.podIP).value then To(ParseIP(own.loadBalancer).value) else NodeAddress
  {
    var front, last := chain[..|chain| - 2], chain[|chain| - 2..];
    assert chain == front + last;
    SourceAfterPrefix(front, last, p);
    LastTwoDecide(own.gateway, own.podIP, own.loadBalancer, p);
  }

  lemma DialMeansReady(own: Pub, s: State, e: Step)
    requires Inv(own, s) && Enabled(own, s, e) && e.Dial? && Next(own, s, e).backlog > s.backlog
    ensures Ready(own, s)
  {
    var d := s.nodes[e.node];
    assert DaemonInv(s.history, e.node, d);
    assert s.history[d.work.to] == own;
    assert Entries(e.node, own) == [SourceNat(own.gateway, own.podIP, own.loadBalancer), Masquerade(own.gateway)];
  }

  lemma WokenBy(own: Pub, s: State, e: Step)
    requires Inv(own, s) && Enabled(own, s, e) && Awake(Next(own, s, e))
    ensures Awake(s) || Ready(own, s)
  {
    if !Awake(s) && e.Dial? {
      DialMeansReady(own, s, e);
    }
  }

  lemma {:induction false} WokenMeansReady(own: Pub, states: seq<State>, steps: seq<Step>, i: nat)
    requires IsRun(own, states, steps) && i < |states|
    requires Awake(states[i])
    ensures exists j :: 0 <= j < i && Ready(own, states[j])
  {
    var s, e := states[i - 1], steps[i - 1];
    assert states[i - 1 + 1] == Next(own, s, e);
    RunInv(own, states, steps, i - 1);
    WokenBy(own, s, e);
    if !Ready(own, s) {
      WokenMeansReady(own, states, steps, i - 1);
    }
  }

  /** ipsec starts only after the daemon of the pod's node had both SNAT rules in place, with the pod listening. */
  lemma SnatBeforeIpsec(own: Pub, states: seq<State>, steps: seq<Step>, i: nat)
    requires IsRun(own, states, steps) && i < |states| && states[i].phase == IpsecRunning
    ensures exists j :: 0 <= j < i && Ready(own, states[j])
  {
    WokenMeansReady(own, states, steps, i);
  }

  /**
   In other words: before ipsec starts there was a moment, with the pod listening, at which the pod's IKE packets left
   its node with the load balancer's address, unless an entry older than the pod's own decided otherwise.
   */
  lemma TranslatedBeforeIpsec(own: Pub, states: seq<State>, steps: seq<Step>, i: nat, p: Datagram)
    requires IsRun(own, states, steps) && i < |states| && states[i].phase == IpsecRunning
    requires ParseIP(own.gateway) == Some(p.dst) && ParseIP(own.podIP) == Some(p.src) && p.udp
    requires ParseIP(own.loadBalancer).Some?
    ensures exists j :: 0 <= j < i && Ready(own, states[j])
                        && var chain := states[j].nodes[own.workerNode].chain;
                           NoneMatches(chain[..|chain| - 2], p)
                           ==> SourceAfter(chain, p) == To(ParseIP(own.loadBalancer).value)
  {
    SnatBeforeIpsec(own, states, steps, i);
    var j :| 0 <= j < i && Ready(own, states[j]);
    var chain := states[j].nodes[own.workerNode].chain;
    if NoneMatches(chain[..|chain| - 2], p) {
      EntriesTranslate(own, chain, p);
    }
  }

  /** The entries of this node's chain that the daemon has put there. */
  function Added(history: seq<Pub>, n: string, d: Daemon): seq<NatEntry> {
    if d.work.Adding? && d.work.to < |history| && d.work.done <= |Entries(n, history[d.work.to])|
    then Entries(n, history[d.work.to])[..d.work.done]
    else OldEntries(history, n, d)
  }

  /** The chain is what was there before, with exactly those entries behind it. */
  ghost predicate OnTop(base: seq<NatEntry>, history: seq<Pub>, n: string, d: Daemon) {
    && d.chain == base + Added(history, n, d)
    && (d.work.Adding? && d.work.to < |history| && n in history[d.work.to].refusedBy ==> d.work.done == 0)
  }

  lemma OldRemoved(base: seq<NatEntry>, history: seq<Pub>, n: string, d: Daemon)
    requires DaemonInv(history, n, d) && OnTop(base, history, n, d) && !d.work.Adding?
    requires forall p :: p in history ==> forall x :: x in Entries(n, p) ==> x !in base
    ensures RemoveEach(d.chain, OldEntries(history, n, d)) == base
  {
    if d.applied.Some? {
      assert history[d.applied.value] in history;
    }
    NatRestored(base, OldEntries(history, n, d));
  }

  lemma InstallOnTop(base: seq<NatEntry>, history: seq<Pub>, n: string, d: Daemon)
    requires DaemonInv(history, n, d) && OnTop(base, history, n, d)
    requires d.work.Adding? && n !in history[d.work.to].refusedBy
    ensures OnTop(base, history, n, NextDaemon(history, n, d, InstallNext(n)))
  {
    var es, k := Entries(n, history[d.work.to]), d.work.done;
    if k < |es| {
      assert es[..k + 1] == es[..k] + [es[k]];
      assert base + es[..k] + [es[k]] == base + es[..k + 1];
      var d' := d.(work := Adding(d.work.to, k + 1), chain := d.chain + [es[k]]);
      assert NextDaemon(history, n, d, InstallNext(n)) == d';
    } else {
      assert es[..k] == es;
    }
  }

  /**
   Unless the daemon crashes, every step keeps the chain at what was there before plus exactly the entries of the
   publication it has applied or is applying; after a stop or a refusal nothing of them is left.
   */
  lemma OnlyAppliedEntries(base: seq<NatEntry>, history: seq<Pub>, n: string, d: Daemon, e: Step)
    requires DaemonInv(history, n, d) && OnTop(base, history, n, d) && DaemonReady(history, n, d, e) && !e.Crash?
    requires e.Refuse? ==> d.work.Adding? && d.work.to < |history| && n in history[d.work.to].refusedBy
    requires forall p :: p in history ==> forall x :: x in Entries(n, p) ==> x !in base
    ensures OnTop(base, history, n, NextDaemon(history, n, d, e))
    ensures e.Stop? || e.Refuse? ==> NextDaemon(history, n, d, e).chain == base
  {
    if e.InstallNext? {
      InstallOnTop(base, history, n, d);
      assert NextDaemon(history, n, d, e) == NextDaemon(history, n, d, InstallNext(n));
    } else if e.DeleteOld? || e.Stop? {
      OldRemoved(base, history, n, d);
      assert base + [] == base;
    } else if e.Refuse? {
      assert base + [] == base;
    }
  }

  /** Until that daemon moves on, crashes or is stopped, the rules are still there. */
  lemma RulesStayWhileApplied(own: Pub, states: seq<State>, steps: seq<Step>, i: nat)
    requires IsRun(own, states, steps) && i < |states| && own.workerNode in states[i].nodes
    requires Dials(own.workerNode, own)
    requires var d := states[i].nodes[own.workerNode];
             d.applied.Some? && d.applied.value < |states[i].history| && states[i].history[d.applied.value] == own
    ensures PodEntriesLast(own, states[i].nodes[own.workerNode].chain)
  {
    RunInv(own, states, steps, i);
    var d := states[i].nodes[own.workerNode];
    assert DaemonInv(states[i].history, own.workerNode, d);
    assert Entries(own.workerNode, own)
        == [SourceNat(own.gateway, own.podIP, own.loadBalancer), Masquerade(own.gateway)];
  }

  /** A dial to the pod finds the listener open, unless an earlier dial has already woken the pod. */
  lemma DialFindsListener(own: Pub, states: seq<State>, steps: seq<Step>, i: nat)
    requires IsRun(own, states, steps) && i < |steps| && steps[i].Dial?
    requires states[i].history[states[i].nodes[steps[i].node].work.to].podIP == own.podIP
    ensures states[i].listener || states[i].phase == Woken || states[i].phase == IpsecRunning
    ensures states[i].phase.Waiting? ==> states[i + 1].backlog == states[i].backlog + 1
  {
    RunInv(own, states, steps, i);
    assert states[i + 1] == Next(own, states[i], steps[i]);
  }

  // ---------- when can the pod start at all? ----------

  /** `steps` leads from `s` to a running ipsec. */
  ghost predicate Starts(own: Pub, s: State, steps: seq<Step>)
    decreases |steps|
  {
    if steps == [] then s.phase == IpsecRunning
    else Enabled(own, s, steps[0]) && Starts(own, Next(own, s, steps[0]), steps[1..])
  }

  ghost predicate CanStart(own: Pub, s: State) {
    exists steps: seq<Step> :: Starts(own, s, steps)
  }

  lemma StepFirst(own: Pub, s: State, e: Step, rest: seq<Step>)
    requires Enabled(own, s, e) && Starts(own, Next(own, s, e), rest)
    ensures Starts(own, s, [e] + rest)
  {
    assert ([e] + rest)[1..] == rest;
  }

  lemma WakesUp(own: Pub, s: State, k: nat) returns (steps: seq<Step>)
    requires own.workerNode in s.nodes && s.nodes[own.workerNode].work == Dialing(k) && k < |s.history|
    requires s.history[k] == own && s.phase.Waiting? && s.listener
    ensures Starts(own, s, steps)
  {
    var s1 := Next(own, s, Dial(own.workerNode));
    var s2 := Next(own, s1, Accept);
    StepFirst(own, s2, StartIpsec, []);
    StepFirst(own, s1, Accept, [StartIpsec] + []);
    StepFirst(own, s, Dial(own.workerNode), [Accept] + ([StartIpsec] + []));
    steps := [Dial(own.workerNode)] + ([Accept] + ([StartIpsec] + []));
  }

  lemma InstallsAndWakesUp(own: Pub, s: State, k: nat, done: nat) returns (steps: seq<Step>)
    requires own.workerNode in s.nodes && s.nodes[own.workerNode].work == Adding(k, done) && k < |s.history|
    requires s.history[k] == own && s.phase.Waiting? && s.listener && WillDial(own)
    requires done <= |Entries(own.workerNode, own)|
    ensures Starts(own, s, steps)
    decreases |Entries(own.workerNode, own)| - done
  {
    var n := own.workerNode;
    var s' := Next(own, s, InstallNext(n));
    var rest;
    if done < |Entries(n, own)| {
      rest := InstallsAndWakesUp(own, s', k, done + 1);
    } else {
      rest := WakesUp(own, s', k);
    }
    StepFirst(own, s, InstallNext(n), rest);
    steps := [InstallNext(n)] + rest;
  }

  lemma PodComesUp(own: Pub, s: State) returns (steps: seq<Step>)
    requires Init(own, s) && own.workerNode in s.nodes && own.listens && WillDial(own)
    ensures Starts(own, s, steps)
  {
    var n, k := own.workerNode, |s.history|;
    var s1 := Next(own, s, Listen);
    var s2 := Next(own, s1, Publish);
    var s3 := Next(own, s2, Deliver(n, k));
    var rest := InstallsAndWakesUp(own, Next(own, s3, DeleteOld(n)), k, 0);
    StepFirst(own, s3, DeleteOld(n), rest);
    rest := [DeleteOld(n)] + rest;
    StepFirst(own, s2, Deliver(n, k), rest);
    rest := [Deliver(n, k)] + rest;
    StepFirst(own, s1, Publish, rest);
    rest := [Publish] + rest;
    StepFirst(own, s, Listen, rest);
    steps := [Listen] + rest;
  }

  lemma {:induction false} NeverStarts(own: Pub, s: State, steps: seq<Step>)
    requires Inv(own, s) && !(own.listens && WillDial(own))
    ensures !Starts(own, s, steps)
    decreases |steps|
  {
    if steps != [] && Enabled(own, s, steps[0]) {
      NextKeepsInv(own, s, steps[0]);
      NeverStarts(own, Next(own, s, steps[0]), steps[1..]);
    }
  }

  lemma StartsExactly(own: Pub, s: State)
    requires Init(own, s) && own.workerNode in s.nodes
    ensures CanStart(own, s) <==> own.listens && WillDial(own)
  {
    if own.listens && WillDial(own) {
      var steps := PodComesUp(own, s);
      assert Starts(own, s, steps);
    } else {
      assert Inv(own, s);
      forall steps: seq<Step> ensures !Starts(own, s, steps) {
        NeverStarts(own, s, steps);
      }
    }
  }

  /**
   ipsec can be reached exactly when the pod passes its own checks and the daemon of its node does not reject the
   published data. A daemon that rejects it ends before the SNAT rules, again after every restart, and the pod
   waits for ever.
   */
  lemma StartsExactlyWhenAccepted(envs: Envs, p: Settings, d: RouteData, s: State)
    requires ValidEnvs(envs) && d.workerNodeIP in envs && d.workerNodeIP in s.nodes && Init(Published(envs, p, d), s)
    ensures CanStart(Published(envs, p, d), s)
            <==> PodChecks(p, d) && Complete(d) && !Rejected(envs[d.workerNodeIP], d)
  {
    StartsExactly(Published(envs, p, d), s);
  }

  /** The address is in one of the subnets, or the check cannot be made. */
  predicate Conflicts(address: string, subnets: seq<string>) {
    || ParseIP(address).None?
    || exists s | s in subnets ::
         ParseCIDR(s).None? || InNet(ParseIP(address).value, ParseCIDR(s).value.net)
  }

  /** Each of these keeps ipsec from ever starting, by itself. */
  lemma KeptFromStarting(envs: Envs, p: Settings, d: RouteData, s: State)
    requires ValidEnvs(envs) && d.workerNodeIP in envs && d.workerNodeIP in s.nodes && Init(Published(envs, p, d), s)
    requires || Conflicts(d.vpnPodIP, Split(d.remoteSubnet, ','))
             || Conflicts(d.workerNodeIP, Split(d.remoteSubnet, ','))
             || d.vpnPodIP == d.workerNodeIP || !p.others || p.enablePodSNAT !in {"", "true", "false", "auto"}
             || (p.leftID == "%nodePublicIP" && ParseIP(p.nodePublicIP).None?)
             || (p.leftID == "%loadBalancerIP" && ParseIP(d.loadBalancerIP).None?)
             || (d.loadBalancerIP != "<pending>" && |Split(d.loadBalancerIP, '.')| < 4)
             || ('/' !in d.remoteGateway && ParseIP(d.remoteGateway).None?)
             || d.remoteSubnet == "" || d.routeTable == "" || d.workerSubnet == ""
             || Rejected(envs[d.workerNodeIP], d)
    ensures !CanStart(Published(envs, p, d), s)
  {
    StartsExactlyWhenAccepted(envs, p, d, s);
    Service.TableRange(d.loadBalancerIP);
    if '/' !in d.remoteGateway {
      GatewayIsAddress(d);
    }
  }

  predicate IsLocal(address: string, subnets: seq<string>) {
    && ParseIP(address).Some?
    && exists s | s in subnets :: ParseCIDR(s).Some? && InNet(ParseIP(address).value, ParseCIDR(s).value.net)
  }

  /** A remote subnet with host bits, when the pod makes pools: with `false`, or `auto` and a local pod address. */
  lemma HostBitsKeepFromStarting(envs: Envs, p: Settings, d: RouteData, s: State, c: string)
    requires ValidEnvs(envs) && d.workerNodeIP in envs && d.workerNodeIP in s.nodes && Init(Published(envs, p, d), s)
    requires p.remoteSubnetNAT == "" && c in Split(d.remoteSubnet, ',')
    requires ParseCIDR(c).Some? && ParseCIDR(c).value.ip != ParseCIDR(c).value.net.base
    requires p.enablePodSNAT == "false" || (p.enablePodSNAT == "auto" && IsLocal(d.vpnPodIP, Split(d.localSubnet, ',')))
    ensures !CanStart(Published(envs, p, d), s)
  {
    StartsExactlyWhenAccepted(envs, p, d, s);
    assert c in IPPool.PoolSubnets(d.remoteSubnet, p.remoteSubnetNAT);
  }

  /** The pool for the gateway can be created exactly when the gateway is an address. */
  lemma GatewayIsAddress(d: RouteData)
    requires '/' !in d.remoteGateway
    ensures GatewayOk(d) <==> ParseIP(d.remoteGateway).Some?
  {
    var g, cidr := d.remoteGateway, d.remoteGateway + "/32";
    SplitAtSeparator(g, '/', "32");
    SplitCleanPart("32", '/');
    assert cidr == g + ['/'] + "32";
    DecimalIsValue("32");
    assert Pow2(32 - 32) == 1;
  }

  // ---------- a pod that cannot start ----------

  /** A node without a route to the remote subnet, and one that already routes it elsewhere. */
  function OpenEnv(node: string): Env {
    Env(node, "10.1.1.0/26", "", "", "", [], map[])
  }

  function BlockedEnv(node: string, remote: string): Env {
    OpenEnv(node).(routingTable := [RoutingInfo(remote, "10.1.1.1", "eth0")])
  }

  const PLAIN := Settings("ibm-cloud", "", "", "", "true", "", "", true)

  function Example(pod: string, node: string, remote: string, gateway: string, lb: string): RouteData {
    RouteData("true", lb, "172.30.0.0/16", gateway, remote, "202", "cali1", pod, "vpn", node, "10.1.1.0/26")
  }

  /** The addresses are outside the remote subnet. */
  predicate ExampleTexts(pod: string, node: string, remote: string, lb: string) {
    && ParseIP(pod).Some? && ParseIP(node).Some? && ParseCIDR(remote).Some? && ParseIP(lb).Some?
    && ParseIP(pod).value < ParseCIDR(remote).value.net.base && ParseIP(node).value < ParseCIDR(remote).value.net.base
    && ',' !in remote && pod != node && remote != "" && node != ""
  }

  lemma Outside(ip: string, subnet: string)
    requires ParseIP(ip).Some? && ParseCIDR(subnet).Some? && ParseIP(ip).value < ParseCIDR(subnet).value.net.base
    requires ',' !in subnet
    ensures !IPInRemoteSubnet(ip, Split(subnet, ','))
  {
    SplitCleanPart(subnet, ',');
  }

  lemma ExamplePasses(d: RouteData, pod: string, node: string, remote: string, gateway: string, lb: string)
    requires d == Example(pod, node, remote, gateway, lb) && ExampleTexts(pod, node, remote, lb)
    ensures AddressesOutside(d) && PlacementOk(PLAIN, d) && PoolsOk(PLAIN, d) && Complete(d)
  {
    Outside(pod, remote);
    Outside(node, remote);
    Service.TableOfAddress(lb);
    assert "ibm-cloud"[0] != '%';
  }

  lemma BlockedRejected(env: Env, d: RouteData, remote: string)
    requires env == BlockedEnv(env.localIP, remote) && d.remoteSubnet == remote && ',' !in remote
    ensures ValidEnv(env) && Rejected(env, d)
  {
    SplitCleanPart(remote, ',');
    assert env.routingTable[0] in env.routingTable && env.routingTable[0].dest in [remote];
  }

  lemma ExamplePod(a: string, b: string, c: string, d: string, pod: string)
    requires a == "172" && b == "30" && c == "0" && d == "9" && pod == Dotted(a, b, c, d)
    ensures ParseIP(pod) == Some(0xAC1E_0009)
  {
    DottedIsAddress(a, b, c, d, pod);
  }

  lemma ExampleNode(a: string, b: string, c: string, node: string)
    requires a == "10" && b == "1" && c == "5" && node == Dotted(a, b, b, c)
    ensures ParseIP(node) == Some(0x0A01_0105)
  {
    DottedIsAddress(a, b, b, c, node);
  }

  /** The gateway 169.61.1.1, which is also the load balancer's address. */
  lemma ExampleGateway(a: string, b: string, c: string, gateway: string)
    requires a == "169" && b == "61" && c == "1" && gateway == Dotted(a, b, c, c)
    ensures ParseIP(gateway).Some? && '/' !in gateway
  {
    DottedIsAddress(a, b, c, c, gateway);
  }

  lemma ExampleRemote(a: string, b: string, c: string, len: string, ip: string, remote: string)
    requires a == "192" && b == "168" && c == "0" && len == "24" && ip == Dotted(a, b, c, c) && remote == ip + "/" + len
    ensures ParseCIDR(remote).Some? && ParseCIDR(remote).value.net == Net(0xC0A8_0000, 24)
  {
    DottedIsAddress(a, b, c, c, ip);
    PrefixIsCIDR(ip, len, remote);
    assert Pow2(4) == 16 && Pow2(8) == 256;
  }

  predicate ExampleInput(pod: string, node: string, remote: string, address: string) {
    pod == "172.30.0.9" && node == "10.1.1.5" && remote == "192.168.0.0/24" && address == "169.61.1.1"
  }

  lemma ExampleAddresses(pod: string, node: string, remote: string, address: string)
    requires ExampleInput(pod, node, remote, address)
    ensures ExampleTexts(pod, node, remote, address) && '/' !in address
  {
    ExamplePod("172", "30", "0", "9", pod);
    ExampleNode("10", "1", "5", node);
    ExampleRemote("192", "168", "0", "24", "192.168.0.0", remote);
    ExampleGateway("169", "61", "1", address);
  }

  lemma BlockedWaits(pod: string, node: string, remote: string, gateway: string, envs: Envs, s: State)
    requires ExampleTexts(pod, node, remote, gateway) && '/' !in gateway
    requires node in envs && envs[node] == BlockedEnv(node, remote) && ValidEnvs(envs) && node in s.nodes
    requires Init(Published(envs, PLAIN, Example(pod, node, remote, gateway, gateway)), s)
    ensures var d := Example(pod, node, remote, gateway, gateway);
            PodChecks(PLAIN, d) && Complete(d) && !CanStart(Published(envs, PLAIN, d), s)
  {
    var d := Example(pod, node, remote, gateway, gateway);
    ExamplePasses(d, pod, node, remote, gateway, gateway);
    GatewayIsAddress(d);
    BlockedRejected(envs[node], d, remote);
    StartsExactlyWhenAccepted(envs, PLAIN, d, s);
  }

  /** The pod passes all its checks, yet its node's daemon rejects the data: it can never start. */
  lemma LocalRouteKeepsPodWaiting(pod: string, node: string, remote: string, gateway: string, envs: Envs, s: State)
    requires ExampleInput(pod, node, remote, gateway)
    requires node in envs && envs[node] == BlockedEnv(node, remote) && ValidEnvs(envs) && node in s.nodes
    requires Init(Published(envs, PLAIN, Example(pod, node, remote, gateway, gateway)), s)
    ensures var d := Example(pod, node, remote, gateway, gateway);
            PodChecks(PLAIN, d) && Complete(d) && !CanStart(Published(envs, PLAIN, d), s)
  {
    ExampleAddresses(pod, node, remote, gateway);
    BlockedWaits(pod, node, remote, gateway, envs, s);
  }

  lemma OpenAccepts(env: Env, d: RouteData, node: string, remote: string)
    requires env == OpenEnv(node) && d.remoteSubnet == remote && d.workerNodeIP == node && AddressesOutside(d)
    ensures ValidEnv(env) && !Rejected(env, d)
  {
  }

  lemma NoGatewayAddress(gateway: string)
    requires gateway == "%any"
    ensures ParseIP(gateway).None? && '/' !in gateway
  {
    SplitCleanPart(gateway, '.');
  }

  lemma NoAddressNoStart(d: RouteData, node: string, envs: Envs, s: State)
    requires ValidEnvs(envs) && d.workerNodeIP == node && node in envs && node in s.nodes
    requires Init(Published(envs, PLAIN, d), s) && '/' !in d.remoteGateway && ParseIP(d.remoteGateway).None?
    ensures !CanStart(Published(envs, PLAIN, d), s)
  {
    GatewayIsAddress(d);
    StartsExactlyWhenAccepted(envs, PLAIN, d, s);
  }

  /**
   The gateway `%any`, which validation accepts: everything else is in order, the daemon would accept the data, and
   the pod ends on the pool for the gateway. With an address for a gateway it can start.
   */
  lemma AnyGatewayEndsPod(pod: string, node: string, remote: string, address: string, any: string,
                          envs: Envs, s: State, t: State)
    requires ExampleInput(pod, node, remote, address) && any == "%any"
    requires node in envs && envs[node] == OpenEnv(node) && ValidEnvs(envs) && node in s.nodes && node in t.nodes
    requires Init(Published(envs, PLAIN, Example(pod, node, remote, any, address)), s)
    requires Init(Published(envs, PLAIN, Example(pod, node, remote, address, address)), t)
    ensures Validate.ValueOk(Validate.IPAddr, "right", any)
    ensures var d := Example(pod, node, remote, any, address);
            && AddressesOutside(d) && PlacementOk(PLAIN, d) && PoolsOk(PLAIN, d) && Complete(d)
            && !Rejected(envs[node], d)
            && !CanStart(Published(envs, PLAIN, d), s)
    ensures CanStart(Published(envs, PLAIN, Example(pod, node, remote, address, address)), t)
  {
    ExampleAddresses(pod, node, remote, address);
    NoGatewayAddress(any);
    var d, e := Example(pod, node, remote, any, address), Example(pod, node, remote, address, address);
    ExamplePasses(d, pod, node, remote, any, address);
    ExamplePasses(e, pod, node, remote, address, address);
    OpenAccepts(envs[node], d, node, remote);
    OpenAccepts(envs[node], e, node, remote);
    NoAddressNoStart(d, node, envs, s);
    GatewayIsAddress(e);
    StartsExactlyWhenAccepted(envs, PLAIN, e, t);
  }
}

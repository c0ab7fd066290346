# A Dafny model of the strongSwan VPN chart

The repository routes traffic of a Kubernetes cluster through a VPN pod. A route daemon on every node turns the
config map that the pod publishes into kernel routes, rules and NAT entries, and undoes them again; the pod
translates addresses, owns Calico IPPools, edits its `ipsec.conf` and watches the tunnel. This project models that
logic on explicit state and proves what whole runs keep.

| file | subject |
|---|---|
| `Text.dfy`, `IPv4.dfy` | Go's string functions (split, replace, trim) and IPv4 addresses and CIDR blocks (section 3.1 of RFC 4632) |
| `Network.dfy` | a node's routes, rules and NAT chain; the commands of `network/net.go` as steps on them |
| `RoutePlan.dfy`, `RouteDaemon.dfy` | what one published configuration asks of a node, the handlers, and every run of the reconciler |
| `Releases.dfy`, `Forwarding.dfy` | several releases sharing one table; forwarding across all nodes |
| `Handshake.dfy` | the VPN pod and the daemons: listen, publish, install, dial, accept, start |
| `RouteMap.dfy`, `Service.dfy`, `Remap.dfy` | the published map and its text form, the table number, the textual rewriting of subnet lists |
| `SubnetNat.dfy` | the pod's NETMAP and SNAT rules and their effect on packets |
| `Monitoring.dfy`, `Notices.dfy` | tunnel tracking and the timed monitor; its timing read off its log alone |
| `IPPool.dfy` | IPPools created and deleted by overlapping pods |
| `Config.dfy`, `Validate.dfy` | reading, editing and validating `ipsec.conf` |

Where the original updates state, the model has a class whose methods are proved equal to a specification function
on the old state; the theorems are about those functions and about all runs of them. A `log.Fatalf` is a result
value (`ok == false`, `None`, or the field `exited`).

## Assumptions

- One handler invocation and one iteration of the monitor loop are atomic steps. A signal arrives between handlers.
- Commands that the kernel can carry out succeed, and reads of its state succeed. Kernel commands with an empty or
  malformed argument, such as a next hop without a device, are not considered; an IPPool for a text that is no network
  fails and ends the pod.
- Adding a route that exists and deleting one that does not (or has another next hop) change nothing.
- The device found for a worker node, and a node's main routing table, do not change between an add and its delete.
- The events for one config map are a history of that map: a Deleted event carries the data delivered last.
- Addresses are IPv4. CIDRs are canonical, and `0.0.0.0/0` is not used as the source of a rule.
- A rule in `ip rule list` has only a source selector, and the rules with priority `t` are those that look up table
  `t` (`Network.Tidy`). Deleting a rule removes every rule with that source and table; at most one exists.
- A pod on host networking ends before it listens, because it finds no interface of its own
  (strongswan/calicoCmd.sh:77-80, calico/calicoCmd.go:85-87). A daemon that ends is restarted with the same settings.
- White space is that of the characters up to U+00FF.
- The outputs of probes, the clock, the order in which Go visits a map, and the environment variables are inputs.

## Where the code differs from its comments or from its purpose

- `kube/service.go:42` announces an offset of 1 to 15; the code computes 0 to 15. `kube/configmap.go:35` speaks of
  tables 222-235. The model has tables 200 to 215 (`Service.TableRange`).
- `strongswan/routedaemon.go:60` says that an update without saved data never occurs. It is the normal first
  publication: the chart creates the config map without data
  (helm/strongswan/templates/configmap-routes.yaml), and the first Created event saves a nil map.
- `strongswan/strongswan.go:266` restarts from `leftSubnet` for every rule, so all but the last matching
  translation are lost (`Remap.BackTranslationExact`, `Remap.OriginalAmongSubjects`, `Remap.FirstNetworkLost`).
- The rule lookup (`network/net.go:294`) is a prefix test on the source, not equality
  (`Network.LookupAgreesWithMembership`). Deletes are exact in spite of it; adds can be skipped, depending on their
  order (`Network.SourceRulesInstalled`, `Network.PrefixSourceSkipped`).
- Validation accepts `%zoneSubnet` anywhere in both subnet settings, but only a `leftsubnet` that is exactly this
  marker is ever replaced, and by nothing when no zone subnets are configured (`Validate.LocalListParses`,
  `Validate.LoneMarkerWithoutZones`, `Validate.AddressRejectedExactly`, `Validate.MarkerInRightSubnet`).
- The chart's default gateway is `%any`, and validation accepts it with every setting of `auto`. A pod that uses the
  load balancer address makes an IPPool of the gateway before it listens (`strongswan/strongswan.go:304-307`), which
  fails for a text that is no address and ends the pod (`Handshake.AnyGatewayEndsPod`).
- The pod checks its addresses against the remote subnets as configured (`strongswan/strongswan.go:198-199`), the
  daemon against the translated ones and against its local routes (`strongswan/routedaemon.go:105-113`). Data that
  passes the first and not the second ends the daemon of the pod's node at every start, and the pod waits for ever
  (`Handshake.StartsExactlyWhenAccepted`, `Handshake.LocalRouteKeepsPodWaiting`).
- With local and remote originals that overlap, a local rule can take a packet that is meant for a remote rule.
  Connections opened from the remote side then do not arrive (`SubnetNat.Inbound`,
  `SubnetNat.TranslatesExactlyWithoutOverlap`); replies to connections opened from the local side return by
  connection tracking, which the model leaves out.

## Model

| member | source | states |
|---|---|---|
| RouteDaemon.ReconcilerRuns | strongswan/routedaemon.go:40-84 | After every legal sequence of Created, Updated, Deleted and signal events the node is its starting state plus exactly the effect of the configuration the daemon remembers, which is the last delivered one; once the process has ended the node is its starting state. NAT entries are counted, so equal entries of others may have been there before. |
| RouteDaemon.ReconcilerRunsInOrder | strongswan/routedaemon.go:40-84 | When none of the NAT entries was there before, the whole node state is equal, including the order of the chain. |
| RouteDaemon.RunKeepsInv | strongswan/routedaemon.go:37-84 | From any state in which the node shows exactly the effect of what is remembered, every legal sequence of events keeps it so, and the memory follows the deliveries. |
| RouteDaemon.RunSavedClean | strongswan/routedaemon.go:77-83 | In every run the remembered configuration is one whose add was accepted. |
| RouteDaemon.EarlyReturnRefines | strongswan/routedaemon.go:63-71 | When the text comparison returns early, deleting the old and adding the new data would have left the same node. |
| RouteDaemon.DeleteRestoresBase | strongswan/routedaemon.go:87-166 | Deleting an accepted configuration from a node that shows exactly its effect gives back the starting routes and rules and the starting NAT entries, in order when none of them was there before. |
| RouteDaemon.UpdateOutcome | strongswan/routedaemon.go:56-118 | An update ends the process exactly when it changes the data and the add of the new data is fatal; then the node is its starting state, otherwise it shows exactly the effect of the new data. |
| RouteDaemon.RouteDaemon.ConfigMapUpdated | strongswan/routedaemon.go:56-84 | The new daemon state is the Updated step, with the early return on equal texts and the adoption of the old object when nothing is saved; the early return dials nobody, otherwise the add of the new data decides the dial. |
| RouteDaemon.RouteDaemon.HandleRoutes | strongswan/routedaemon.go:87-166 | The node changes by exactly the plan of the data, a fatal end changes nothing, and the pod is dialled exactly when both SNAT rules were just added on its node. |
| RouteDaemon.AddedRoutes | strongswan/routedaemon.go:105-153 | The routes after an accepted add: those before, unchanged; on the pod's node one through `tunl0` in table 199 for every network without host bits that is an entry of the local subnets or the left side of a local NAT rule, is not the node's own and holds the gateway of a tunnel route; and in the published table one for every remote network, to the pod on its node and to that node elsewhere. |
| RouteDaemon.AddedSourceRules | strongswan/routedaemon.go:232-236 | After an accepted add on the pod's node, one such local subnet, with or without host bits, is enough for table 199 to have a rule whose source extends every remote subnet. |
| RouteDaemon.SourceAfterAdd | strongswan/routedaemon.go:186-193 | After an accepted add, packets to the gateway leave every node with the node's address, and UDP from the pod leaves its node with the load balancer's, unless an entry that was there before or a non-cluster subnet decides. |
| RouteDaemon.IncompleteDoesNothing | strongswan/routedaemon.go:88-91 | Without a remote subnet, a table, or the address or subnet of the pod's node, the handler changes nothing and dials nobody. |
| RouteDaemon.RouteDaemon.HandleRoutesVpnNode | strongswan/routedaemon.go:208-238 | The three loops add or delete exactly the tunnel routes of the needed subnets and, if any is needed, one rule per remote subnet. |
| RouteDaemon.RouteDaemon.HandleRoutesNonCluster | strongswan/routedaemon.go:169-183 | The chain gains or loses one masquerade entry per non-cluster subnet that is not the worker subnet. |
| RouteDaemon.RouteDaemon.HandleRoutesSNAT | strongswan/routedaemon.go:186-205 | The chain gains or loses the SNAT entry (VPN node only) and the masquerade entry, and only an add on the VPN node dials. |
| RouteDaemon.RouteDaemon.ValidateIPNotInRemoteSubnet | strongswan/main.go:129-143 | Succeeds exactly when the address parses, all subnets parse and none contains it. |
| RouteDaemon.RouteDaemon.ValidateRoutesForRemoteSubnet | strongswan/routedaemon.go:274-282 | Succeeds exactly when no local route has a remote subnet as its destination. |
| RoutePlan.DeleteUndoesAdd | strongswan/routedaemon.go:120-161 | Through every branch, delete after add restores routes and rules if and only if none of them was there before and the all-rule mirrored its table; NAT entries are conserved in any case, and restored in order when no equal entry existed. |
| RoutePlan.TunnelPlan | strongswan/routedaemon.go:208-238 | The tunnel routes and source rules asked for, in terms of the texts, the parsed networks and the node's routes: none on other nodes, exactly the canonical networks behind a tunnel on the pod's node, and the rules for all remote subnets exactly when there is such a subnet, canonical or not. |
| RoutePlan.VpnPlan | strongswan/routedaemon.go:115-154 | The routes for the remote networks, their next hop and its `onlink` flag, and the rule for their table; nothing for a pod on host networking on its node. |
| RoutePlan.EntryPlan | strongswan/routedaemon.go:134-193 | Exactly which NAT entries are asked for, by their addresses. |
| RoutePlan.RoutedNetworks | strongswan/routedaemon.go:93-102 | The networks routed to the VPN are those of the remote subnets, each as the first remote NAT rule for it translates it. |
| RoutePlan.RefusedExactly | strongswan/routedaemon.go:105-118 | An add ends the process exactly when the node's address or a remote subnet does not parse, a remote subnet contains the address or is the destination of a local route, or the device is unknown; a delete exactly in the last case. |
| RoutePlan.OwnAddressNotRouted | strongswan/main.go:129-143 | An accepted configuration never routes the node's own address to the VPN. |
| RoutePlan.AddEffect | strongswan/routedaemon.go:120-161 | Adding a plan keeps every old route, adds exactly the planned ones, leaves the all-rule and a rule for every source present, and appends the NAT entries. |
| RoutePlan.AcceptedPlanOk | strongswan/routedaemon.go:105-118 | Data that passes the checks of an add yields a plan whose rule lookups are exact and which routes at least one remote subnet when it adds the all-rule. |
| RoutePlan.PublishedTable | kube/service.go:27-44 | Every table the pod can publish differs from the tunnel table and has an exact rule lookup. |
| Network.RoutesRestored | network/net.go:273-281 | Deleting routes after adding them restores the table if and only if none was there with the same next hop. |
| Network.LookupIsPrefixTest | network/net.go:291-297 | The textual lookup finds a rule exactly when the table matches and the source asked for is a prefix of a listed one. |
| Network.LookupAgreesWithMembership | network/net.go:284-297 | The lookup is exact membership if and only if the rule is present or no listed source of the table extends the one asked for. |
| Network.DelRulesExact | network/net.go:324-336 | Deleting source rules removes exactly the rules with these sources, whatever the lookup says. |
| Network.SourceRulesInstalled | network/net.go:315-322 | After the adds every source has its own rule if and only if each, at its turn, has it already, was asked for before, or is a prefix of no listed and no earlier source. |
| Network.RulesAfterAdds | network/net.go:284-322 | Exactly which rules a list of adds leaves: the old ones and one for each source that nothing shadowed at its turn. |
| Network.PrefixSourceSkipped | network/net.go:284-322 | With the remote subnets 10.1.1.10/32,10.1.1.1/32 the second source gets no rule; in the other order both get one. |
| Network.SourceRulesRestored | network/net.go:284-345 | Delete after add restores the source rules if and only if none was there before. |
| Network.AllRuleRestored | network/net.go:331-334 | Delete after add restores the rule from all sources if and only if it was present exactly when routes remain. |
| Network.NatRestored | network/net.go:76-88 | Appending entries and deleting the first equal ones in the same order leaves the chain as it was. |
| Network.NatConserved | network/net.go:76-88 | Whatever was in the chain, its entries and their number are restored. |
| Network.IsAddrInSubnet | network/net.go:185-196 | True exactly when the address parses and some parsable subnet of the list contains it. |
| Network.TunnelNeededToReachSubnet | network/net.go:257-270 | True exactly when the gateway of some tunnel route lies in the subnet. |
| Network.Host.UpdateRoute | network/net.go:273-281 | One route command; a destination with host bits, an existing route and an absent route change nothing. |
| Network.Host.RouteRemoteSubnet | network/net.go:246-254 | All parsable subnets of the list are added or deleted, the others are skipped. |
| Network.Host.UpdateRouteRule | network/net.go:284-345 | The new rule set is the add or delete step for the trimmed source, including the lookup and the remaining-routes test. |
| Network.Host.ConfigureSNAT | network/net.go:76-88 | One entry is appended, or its first copy deleted. |
| Network.SnatTranslates | network/net.go:76-88 | After both calls on the pod's node, by first match over the chain: UDP from the pod's address to the gateway leaves with the load balancer's address, everything else to the gateway with the node's, unless an older entry matches. |
| Releases.SharedTableRuns | network/net.go:284-345 | For any interleaving of adds and deletes, where every add may bring a new plan and only has to avoid the destinations active at that moment: the table holds the starting routes and exactly the active releases' routes, and the all-rule is present exactly when the table is not empty. |
| Releases.MovedRelease | strongswan/routedaemon.go:77-83 | A release that is deleted and added again for the same subnets with another next hop is such a run, and its routes end up with the new next hop. |
| Releases.ChangeKeepsMirror | network/net.go:298-334 | Any single add or delete keeps "the all-rule is present exactly when the table has routes". |
| Forwarding.TwoHops | strongswan/routedaemon.go:115-153 | Once all daemons have processed the same data, whatever histories came before, a packet to a remote address reaches the VPN pod from every node, by longest-prefix lookup in the VPN table: in one hop on the pod's node and exactly two elsewhere. |
| Forwarding.NodeLookup | strongswan/routedaemon.go:131-153 | However the remote subnets are nested, the lookup at an up-to-date node gives one next hop, unless something else in the table matches the address. |
| Forwarding.NodeRoute | strongswan/routedaemon.go:131-153 | Every up-to-date node has the rule for the VPN table and a route for the subnet, to the pod on the pod's node and to that node elsewhere. |
| Handshake.SnatBeforeIpsec | strongswan/strongswan.go:304-353 | In every run ipsec starts only after the daemon of the pod's node had both SNAT entries at the end of its chain, in order, while the pod was listening. |
| Handshake.TranslatedBeforeIpsec | network/net.go:76-88 | So before ipsec starts there was a moment, with the pod listening, at which a UDP packet from the pod to its gateway left with the load balancer's address, unless an older entry matched. |
| Handshake.EntriesTranslate | network/net.go:76-88 | While both entries end the chain, packets to the gateway leave with the load balancer's address when they are UDP from the pod, and with the node's otherwise, unless an older entry matches. |
| Handshake.DialFindsListener | strongswan/routedaemon.go:195-204 | A dial to the pod finds its listener open unless an earlier dial already woke it. |
| Handshake.RulesStayWhileApplied | strongswan/routedaemon.go:56-84 | While a daemon has this pod's publication applied, both entries still end its chain, in order. |
| Handshake.OnlyAppliedEntries | strongswan/routedaemon.go:56-84 | Every step but a crash keeps the chain at what was there before plus exactly the entries of the publication that is applied or being applied; a stop or a refusal leaves nothing of them. |
| Handshake.DialsAreWakeups | strongswan/routedaemon.go:196-204 | The daemon of the model dials the pod exactly when the handler does, at the same address, and never on a delete. |
| Handshake.KeptFromStarting | strongswan/strongswan.go:196-310 | Each single obstacle, from an address inside a remote subnet to an incomplete publication, keeps ipsec from ever starting. |
| Handshake.HostBitsKeepFromStarting | strongswan/strongswan.go:284-300 | So does a remote subnet with host bits when the pod makes pools, that is with the setting `false`, or `auto` and an address of the pod inside the local subnets. |
| Handshake.StartsExactlyWhenAccepted | strongswan/strongswan.go:196-310 | A run that reaches ipsec exists if and only if the pod passes its own checks (addresses, interface, zone, left id, table, pools and the pool of the gateway), the data is complete and the daemon of its node does not reject it; otherwise the pod ends before it listens or waits for ever. |
| Handshake.GatewayIsAddress | strongswan/strongswan.go:303-307 | The pool for the remote gateway can be created if and only if the gateway is an address. |
| Handshake.AnyGatewayEndsPod | strongswan/strongswan.go:303-307 | A concrete case: with the gateway `%any`, which validation accepts, everything else in order and the daemon willing, the pod cannot start; with an address for a gateway it can. |
| Handshake.LocalRouteKeepsPodWaiting | strongswan/routedaemon.go:274-282 | A concrete case: the node already has a route for the remote subnet, the pod passes all its checks and can never start. |
| Handshake.EntriesArePlanned | strongswan/routedaemon.go:186-193 | The entries of the handshake model are the NAT entries of the reconciler's plan, past the non-cluster ones. |
| RouteMap.SortedStringInjective | kube/configmap.go:104-116 | On maps without white space, and without `=` in keys, equal texts mean equal maps and conversely. |
| RouteMap.SortedStringCollision | kube/configmap.go:111-113 | Without that condition two different maps have the same text. |
| RouteMap.SortedKeysUnique | kube/configmap.go:106-110 | A set of keys has one sorted order, so the visiting order of the map does not matter. |
| RouteMap.MapToSortedString | kube/configmap.go:104-116 | For every visiting order the loops return the text that depends on the map only. |
| RouteMap.PublishedDataReadBack | kube/configmap.go:86-133 | What the daemons read from the published map is what the pod put into it. |
| Service.TableRange | kube/service.go:27-44 | The table is one of 200 to 215, never 199; it is missing (a run-time panic) exactly for texts other than `<pending>` with fewer than four dotted parts. |
| Service.TableWithoutNumber | kube/service.go:27-44 | Without an address yet, or with a last part that is no number, the table is 200. |
| Service.TableOfAddress | kube/service.go:35-43 | For a dotted address the table is 200 plus the last four bits of the address. |
| Service.TablesSeparate | kube/service.go:35-43 | Two addresses of one aligned block of 16 share a table if and only if they are equal. |
| Remap.RemapSubnets | strongswan/routedaemon.go:93-102 | The loop computes the rules' replacements in order on the whole text. |
| Remap.RemapIsElementwise | strongswan/routedaemon.go:96-100 | When originals occur only as whole entries and no translation contains a later original, the textual rewriting is the substitution of each entry. |
| Remap.SingleRuleExact | strongswan/strongswan.go:288-292 | For one rule the rewriting is the substitution of each entry if and only if the original occurs only as a whole entry. |
| Remap.BackTranslate | strongswan/strongswan.go:254-276 | The subjects are the originals of the unmatched rules, then `leftSubnet` with only the last matching rule undone; when translations occur as whole entries, a text is among the parts of the result exactly in the three cases of `Remap.SubjectsExactly`. |
| Remap.SubjectsExactly | strongswan/strongswan.go:254-276 | A text is a subject if and only if it is the original of a rule whose translation is not listed, the original of the last rule whose translation is listed, or a listed subnet other than that rule's translation. |
| Remap.BackTranslationExact | strongswan/strongswan.go:258-270 | Undoing inverts the forward mapping if and only if every translated entry came from the rule applied last. |
| Remap.OriginalAmongSubjects | strongswan/strongswan.go:262-276 | A local original becomes a subject of the remote rules if and only if its translation is not in `leftsubnet` or no later rule matched. |
| Remap.FirstNetworkLost | strongswan/strongswan.go:262-266 | Two local rules for real networks whose translations are both in `leftsubnet`: the first original is neither restored nor a subject. |
| SubnetNat.PodNat.ConfigureSubnetNAT | network/net.go:44-62 | The nested loops over both texts, with the textual `/32` test, append exactly the entries of the specification, in order. |
| SubnetNat.PodNat.ConfigurePod | strongswan/strongswan.go:248-276 | The local rules for the remote subnets, then the remote rules for the back-translated subjects. |
| SubnetNat.PodTable | strongswan/strongswan.go:248-276 | For canonical texts this table is the table of the parsed rules and the computed subjects. |
| SubnetNat.PodTranslates | strongswan/strongswan.go:248-276 | With rules on both sides and the subjects the pod computes, all connections arrive and all replies return if and only if no local rule overlaps, provided the back-translation keeps every local original. |
| SubnetNat.OneRuleTranslates | strongswan/strongswan.go:248-276 | The same for a single local rule, which is always kept. |
| SubnetNat.OutboundExactly | network/net.go:44-62 | Whatever the subjects are, a packet from a local original to a remote translation leaves as intended if and only if some subject contains its source and some remote subnet its translated destination. |
| SubnetNat.InboundExactly | network/net.go:44-62 | A packet from a remote original to a local translation arrives as intended if and only if some remote subnet contains its source, some subject its translated destination, and no local rule takes it. |
| SubnetNat.PlainSubnetTranslated | strongswan/strongswan.go:254-276 | For the texts: a local subnet that no local rule names stays a subject, so packets between it and a translated remote block are translated, and the replies return if and only if no local rule takes them. |
| SubnetNat.PlainInbound | network/net.go:44-62 | A packet from a remote original to a local address that no rule translates has its source translated if and only if some subject contains the destination and no local rule takes it. |
| SubnetNat.ManyToOneOutbound | network/net.go:50-53 | Everything from a block behind one address leaves with that address if and only if some subject contains the destination. |
| SubnetNat.ManyToOneInbound | network/net.go:50-53 | Nothing is translated back into such a block by its rule. |
| SubnetNat.PodTranslatesRemoteOnly | strongswan/strongswan.go:254-276 | With remote rules only, packets between a block and a foreign address are translated, and replies return, exactly for the local subnets as configured. |
| SubnetNat.PodTranslatesLocalOnly | strongswan/strongswan.go:248-251 | With local rules only, the same holds exactly for the remote subnets as configured. |
| SubnetNat.TranslatesExactlyWithoutOverlap | network/net.go:44-62 | For any same-size local and remote rules with disjoint translations: every connection from the remote side arrives as intended, and every reply returns without connection tracking, if and only if no local rule overlaps the packets between a remote and a local original. |
| SubnetNat.RoundTrip | network/net.go:44-62 | The reply to a translated packet comes back to exactly the starting addresses if and only if no local rule takes it. |
| SubnetNat.Outbound | network/net.go:54-59 | Local original to remote translated leaves as local translated to remote original with both host offsets kept, under first-match semantics. |
| SubnetNat.Inbound | network/net.go:54-59 | Remote original to local translated arrives as remote translated to local original with both host offsets kept, if and only if no local rule takes the packet. |
| SubnetNat.OnePairOverlap | network/net.go:44-62 | For one local and one remote rule no overlap means disjoint originals, and a packet is taken exactly when both its addresses lie in both originals. |
| SubnetNat.SameNetworkOnBothSides | network/net.go:44-62 | A concrete case: 10.0.0.0/24 on both sides, with different translations, is not translated fully in either direction. |
| SubnetNat.ReversibleExactlySameSize | network/net.go:50-58 | The emitted source translation is injective on its block if and only if both blocks have the same size. |
| SubnetNat.SubjectsCoverOriginal | strongswan/strongswan.go:254-276 | Every local original that the back-translation keeps is one of the computed subjects, as the translation needs. |
| SubnetNat.ValidateNATRules | strongswan/main.go:145-165 | Succeeds exactly when every rule is `original=translated` with CIDRs of equal length or a translation ending in `/32`. |
| SubnetNat.AcceptedExactly | strongswan/main.go:145-165 | A rule `a=b` is accepted if and only if `b` has no further `=`, both sides are CIDRs, and their lengths are equal or `b` ends in `/32`. |
| SubnetNat.AcceptedShape | strongswan/main.go:145-165 | Accepted texts split safely in every later loop, and each rule is same-size or many-to-one. |
| Monitoring.MonitorRuns | monitoring/monitoring.go:55-138 | Over every run the monitor watches exactly while the tunnel map is non-empty, the log replays to that map, and every note was due: probes keep two seconds from starts and the delay from each other, repeated results send nothing, the first probe after a reset reports, and "VPN is down" waits ten quiet seconds. |
| Notices.TickExactly | monitoring/monitoring.go:84-108 | After every run, read off the log: one iteration writes a probe if and only if there was a start since the last "VPN is down" and two seconds since the start, or the delay since the probe, that came last have passed; and one "VPN is down" if and only if ten seconds have passed since a stop with no start and no such notice behind it. Then the results are empty and the monitor is inactive. |
| Notices.MessageExactly | monitoring/monitoring.go:111-138 | What a probe sends, given the results of the last probe since a reset: the results that changed, in order, with the verdict that their text decides, and nothing when none did. |
| Notices.LineExactly | strongswan/strongswan.go:71-90 | A line writes a start exactly when its tunnel is the only one that is established, and a stop exactly when no other is left. |
| Notices.TunnelName | strongswan/strongswan.go:73-84 | The tunnel that a line is about is its third word. |
| Notices.WatchedTexts | strongswan/strongswan.go:72-82 | The three texts that are watched for. |
| Monitoring.DownMeansEmptyForTen | monitoring/monitoring.go:62-98 | When "VPN is down" is sent, the tunnel map was empty at every moment since the last stop, at least ten seconds ago. |
| Monitoring.StartBetweenDowns | monitoring/monitoring.go:91-98 | Two "VPN is down" notices always have a start between them. |
| Monitoring.RunTest | monitoring/monitoring.go:141-166 | The result is the lines of all items in order; it is never empty, and one success is enough for it to contain "Success". |
| Monitoring.StateLineHasFields | strongswan/strongswan.go:72-84 | Taking the third field of a state-change line never runs off its end. |
| Monitoring.MonitorThread.Execute | monitoring/monitoring.go:111-138 | Changed results are stored and reported with the verdict; unchanged ones send nothing. |
| Monitoring.MonitorThread.Tick | monitoring/monitoring.go:84-108 | One iteration of the loop is the probe step followed by the down step; `Notices.TickExactly` says what that writes. |
| Monitoring.TunnelLog.ParseStrongswanOutput | strongswan/strongswan.go:71-90 | The tunnel map and the monitor change as the line says, including a start when the first tunnel comes up and a stop when the last one goes. |
| IPPool.PoolRuns | strongswan/calicoCmd.sh:51-67 | Over any interleaving of starts and cleanups by pods with distinct suffixes there is exactly one pool per owned CIDR, named after its newest creator, and every pod remembers the pools it owns. |
| IPPool.OnePoolPerSubnet | strongswan/calicoCmd.sh:53-56 | No two pools have the same CIDR. |
| IPPool.NewestSurvives | strongswan/strongswan.go:356-365 | The newest creator stays the owner through every other pod's cleanup and every creation for other subnets. |
| IPPool.NewestPoolSurvives | strongswan/calicoCmd.sh:51-67 | After the whole run that pool is in Calico under its creator's name, with its CIDR. |
| IPPool.SecondCleanup | strongswan/strongswan.go:356-365 | A second cleanup by the same pod changes nothing. |
| IPPool.CleanupRemovesOwn | strongswan/calicoCmd.sh:63-67 | A cleanup removes exactly the pools this pod still owns. |
| IPPool.GrepIsEquality | strongswan/calicoCmd.sh:53-54 | In spite of its wildcard dots the lookup matches exactly the pool with this CIDR. |
| IPPool.PoolNameInjective | strongswan/calicoCmd.sh:57-60 | Pools of different pods or different subnets have different names. |
| IPPool.PoolsCoverRoutes | strongswan/strongswan.go:284-300 | The pod's pools and every node's VPN routes cover the same networks. |
| IPPool.VpnPod.CreatePools | strongswan/strongswan.go:284-300 | One pool per remapped remote subnet, each remembered for the cleanup. |
| IPPool.VpnPod.Cleanup | strongswan/strongswan.go:356-365 | All remembered pools are deleted and the list is emptied. |
| IPPool.StartIsRun | strongswan/strongswan.go:296-300 | A pod's start is a run of single creations, so the run theorems apply to it. |
| Config.ReadConfigFile | utils/config.go:172-223 | Every key maps to exactly the values its lines give, in order, and no other key is present. |
| Config.EntryLine | utils/config.go:181-218 | White space around `key=value` and a comment behind it do not matter: the line contributes exactly this value for this key. |
| Config.HeaderLine | utils/config.go:186-195 | A line without a `=` in front of its comment contributes nothing. |
| Config.KeylessLine | utils/config.go:192-204 | Neither does a line with nothing, or a blank, in front of its first `=`. |
| Config.ValuesInOrder | utils/config.go:181-218 | A file read in two parts gives the values of the first part, then those of the second. |
| Config.EditThenRead | utils/config.go:255-274 | Reading the edited file gives the old parse with only the marker value of the keyword replaced, if and only if the marker text occurs only as a whole entry. |
| Config.EditedLine | utils/config.go:262-269 | A line keeps its key, or stays without one, whatever the edit does; its new value is given exactly. |
| Config.AddressesAreSafe | utils/config.go:236-239 | A value that passed the address or CIDR checks has nothing in it that ends an entry, a comment or the edit command. |
| Config.ConfigFile.UpdateConfigLeftID | utils/config.go:226-242 | Fails exactly when the value to insert is no address, otherwise edits the file with a safe value, or leaves it alone without a marker. |
| Config.ConfigFile.UpdateConfigLeftSubnet | utils/config.go:245-252 | Edits the file exactly when `leftsubnet` is the zone marker. |
| Config.ProcessLocalZoneSubnet | strongswan/strongswan.go:93-115 | Succeeds exactly when some entry of the zone comes before any malformed one; the result is the first such entry's list, and all of it parses. |
| Validate.ExtractConfigData | utils/config.go:154-163 | The values joined by commas, with the empty values at the front gone without a trace. |
| Validate.DropLeadingEmptyExactly | utils/config.go:154-163 | What is joined are the values from the first one that is not empty; later empty ones stay. |
| Validate.ValidateValueIsCorrect | utils/config.go:474-532 | Reports exactly the values of the key that are wrong for its kind. |
| Validate.ValidateValueFromSet | utils/config.go:445-471 | Reports exactly the values of the key that are not in the set. |
| Validate.DurationTexts | utils/config.go:485-498 | A duration is empty, a number, or a number with the unit `s`, `m` or `h` behind it. |
| Validate.ForeverOnlyTries | utils/config.go:499-507 | The word `%forever` is accepted for the number of tries and for no other number. |
| Validate.AddressTexts | utils/config.go:508-514 | An address setting is `%any`, `%defaultroute` or an address. |
| Validate.SubnetTexts | utils/config.go:515-525 | An entry of a subnet setting is the zone marker or a network. |
| Validate.VerifyPrivateIP | utils/config.go:277-312 | No error exactly when there is no address to ping or it lies in a remote or translated subnet. |
| Validate.PrivateIPExactly | utils/config.go:277-312 | In terms of the texts: some remote subnet as configured, or the right side of some remote NAT rule, is a network with the address in it. |
| Validate.CheckLevel | utils/config.go:343-432 | Accepts exactly the configurations of a declarative predicate, for any tables. |
| Validate.PassesExactly | utils/config.go:347-384 | Data passes a level if and only if every required key is there and every value fits every table that names its key. |
| Validate.Ikev1Exactly | utils/config.go:399-415 | With `keyexchange=ikev1`, `esp` and `ike` must be set and both subnet lists must have one part. |
| Validate.ValidateConfig | utils/config.go:336-434 | Returns what the file reads as exactly when the setting accepts it: `off` always, `simple` with the simple checks, `strict` or no setting with all checks, any other text never. |
| Validate.ReadsUnique | utils/config.go:172-223 | A file reads as one map only, so the outcome of the validation is decided for every file. |
| Validate.PassingValidates | utils/config.go:371-376 | Data that passes a level that requires and checks both subnet settings has validated subnet lists on both sides. |
| Validate.ValidatedList | utils/config.go:515-525 | A validated list has no holes: joined and split again it is exactly the validated subnets. |
| Validate.AddressRejectedExactly | strongswan/main.go:129-143 | After validation a valid address is rejected if and only if a remote subnet contains it or the zone marker is in `rightsubnet`. |
| Validate.LocalListParses | utils/config.go:245-252 | After the zone replacement the local list parses if and only if: zone subnets are configured, when `leftsubnet` is just the marker; the marker does not occur, otherwise. |
| Validate.LoneMarkerWithoutZones | strongswan/strongswan.go:215-233 | A valid `leftsubnet=%zoneSubnet` without zone subnets leaves the pod with an empty list, which does not parse. |
| Validate.MarkerInRightSubnet | utils/config.go:515-525 | A valid `rightsubnet=%zoneSubnet` makes the later check reject every address. |
| Validate.AcceptedFile | utils/config.go:336-434 | For every file that is read and accepted with validation on, the later address check and the local list fail exactly in these cases. |
| Validate.Ikev1SingleSubnet | utils/config.go:399-415 | With the `ikev1` checks each side has exactly one subnet in a single setting. |
| Text.ReplaceInJoin | strongswan/routedaemon.go:99 | Replacing in a comma-joined list is replacing in every entry. |
| Text.ReplaceIsWholeEntry | strongswan/strongswan.go:291 | A replacement treats an entry as a whole if and only if the text is the entry or does not occur in it. |

## Left out

- Network.Host.UpdateRoute: command failures other than "exists" and "does not exist", and unreachable next hops, are not modelled.
- Network.Host.UpdateRouteRule: the early returns when `ip rule list` or `ip route list` fails; reads are assumed to succeed.
- RouteDaemon.RouteDaemon.HandleRoutes: the deletion of a stale conntrack entry, the logged listings of rules and routes, and the device lookup in the text of `ip route` (its result is an input).
- RouteDaemon.EarlyReturnRefines: compares the node only. Deleting and adding would also dial the pod again; the contract of `ConfigMapUpdated` states both.
- RouteDaemon.ReconcilerRuns: signals and events that arrive inside a handler; the code has no lock that would order them.
- RoutePlan.DeleteUndoesAdd: table 199 shared by several releases. Its rules are deleted without looking at the routes that remain, so restoration is stated for one release there; `Releases` covers the VPN table.
- Handshake.PodChecks: a single input stands for the Kubernetes calls, the acceptance of the configuration file, the monitor's settings, and what else makes Calico refuse a well-formed pool, such as an overlap with a different CIDR.
- Forwarding.TwoHops: the order of the policy rules. The walk starts in the VPN table; a tunnel rule of table 199 with a matching source is looked up before it.
- Handshake.SnatBeforeIpsec: the publications are delivered in order but possibly with gaps; a lost or refused connection to an earlier pod address is not modelled, and the address of the pod is new. A pod that does not use the load balancer address starts without waiting and is not part of this model.
- SubnetNat.PodNat.ConfigureSubnetNAT: a command with a text that is no IPv4 CIDR has no effect; host names are not modelled.
- SubnetNat.RoundTrip: connection tracking. Replies are translated by the rules alone.
- SubnetNat.PodNat.ConfigurePod: the single source address option, which replaces the subjects by `0.0.0.0/0`.
- SubnetNat.PodTable: prefix lengths with leading zeros, which Go parses but the textual `/32` test does not see.
- IPPool.Calico.CreateIPPool: the lookup is restricted to the CIDR column of the listing, and the rejection of overlapping but different CIDRs by `calicoctl` is not modelled.
- Monitoring.MonitorThread.Tick: `Cancel`, which ends the thread; times are whole seconds as in the original.
- Monitoring.TunnelLog.ParseStrongswanOutput: with monitoring disabled it only logs.
- Validate.ValueProblems: IPv6 addresses and subnets, which Go's parsers accept.
- Config.ConfigFile.UpdateConfigFile: file permissions and failures of `sed`; a line has no line break in it.
- Network.TunnelNeededToReachSubnet: Go's containment test of a missing gateway, which is false for IPv4 blocks, is the test that the gateway parses.
- The rule of the single source address option (`network/net.go:65-73`) and flushing of the NAT table: one rule without an inverse.
- Zone specific load balancers (`strongswan/strongswan.go:118-136`): the same loop as for zone subnets, without the early exit.
- Kubernetes clients, informers, retries and the assignment of a load balancer address; only delivered events appear.
- Process execution, ping, HTTP and Slack calls; their results are inputs and messages are entries of a log.
- Helm templates, images and diagnostic scripts.

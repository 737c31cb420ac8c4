# SCION topology tooling and COLIBRI helpers in Dafny

This project models the parts of the SCION repository that compile and check topology configurations, plus a handful of small Go state machines and codecs.

**Topology configuration (Python).** The model covers these parts:
- the per-AS checks of `ConfigGenerator` (`python/topology/config.py`), which run on the loaded topology, intra configuration and intra-topology documents;
- the pruning of unused border routers;
- the same pruning and the connectivity graph built by the Mininet launcher (`intra-AS-simulation/start_SCION.py`);
- the launcher's traffic-control command list and its inter-AS wiring lookups;
- the OSPF link cost;
- subnet partitioning, address allocation and per-pair link numbering in `AutonomousSystem.py`;
- the two generators that derive border-router lists and border-router name maps from an inter-AS link list.

The loaded YAML/INI documents are plain Dafny maps and sequences. Every `sys.exit(1)` or raised exception is an `Err`/`Fail` result.

**Go helpers.** The model covers these parts:
- the segment-reservation index list (`reservation.go`), as a class whose `activeIndex` stays within `-1 <= activeIndex < |indices|`;
- the COLIBRI path canonicaliser and connection keys (`persistent_quic.go`);
- the SCION UDP address text splitter, `Set` and copy helpers (`udpaddr.go`);
- the e2e setup-request validator and its immutable-field serialiser (`request.go`).

Modules: one per source file (`TopologyConfig`, `StartScion`, `RoutingProtocols`, `AutonomousSystem`, `AsConfigCreator`, `DefaultIntraTopoGenerator`, `SegmentReservation`, `Coliquic`, `SnetUdpAddr`, `E2eRequest`), plus `Wrappers` (Option/Result/Outcome), `Text` (string helpers) and `Reach` (walk-based reachability and a closure algorithm that decides connectivity).

Code the model cannot see is passed in as function-valued parameters. This covers:
- `base.ValidateIndices`, `base.FindIndex`, `BWCls.ToKbps`, path-type names, IA and IP formatting, IA parsing with host resolution, `IsE2EID`;
- the `%.5f` loss formatting.

Reading files and running shell commands are left out.

Constants defined outside the modelled files (in the `reservation` package, `reservation/id.go`, and in `slayers/path/colibri`) are fixed as follows:
- `reservation.IDSuffixSegLen` = 4;
- COLIBRI `LenInfoField` = 24;
- an e2e reservation ID is a 6-byte AS id plus its suffix, so a segment ID serialises to 10 bytes;
- `IndexNumber` arithmetic is modulo 16;
- a bandwidth class is a byte.

`reservation/id.go` and `slayers/path/colibri` are not part of this model.

Where the documentation and the code differ, the code is followed:
- `add_inter_AS_links` returns from inside its loop over border routers, so only the first border router of an AS is wired;
- `links_created` is only ever added to, never consulted, so there is no duplicate-link rejection.

## Model

| member | source | states |
|---|---|---|
| Reach.IsConnected | python/topology/config.py:364-377 | The answer is true exactly when every pair of vertices is joined by a walk over the (multi)edges. This is the reference meaning of `nx.is_connected`. |
| TopologyConfig.CheckIPVersion | python/topology/config.py:174-179 | Passes iff no AS's underlay mentions IPv6. |
| TopologyConfig.CheckASInternalTopology | python/topology/config.py:181-194 | Passes iff the intra-config AS set equals the topology AS set. An "AS not in topology" error names an AS of the intra config that is missing from the topology. |
| TopologyConfig.CollectMeaning | python/topology/config.py:198-218 | The collected border-router set consists of the stripped three-part IDs and the plain names of the AS. Collection fails iff a plain name repeats. |
| TopologyConfig.CollectScionBRs | python/topology/config.py:200-218 | The set/remove loop over both endpoints of every inter-AS link gives the result of the reference collection. |
| TopologyConfig.CheckAllBRDefined | python/topology/config.py:196-231 | Passes iff collection succeeds, the `Borderrouter` map is injective, and its value set equals the collected set. |
| TopologyConfig.CheckFileFormat | python/topology/config.py:233-259 | Passes iff the category keys are exactly the six categories, each has a non-None node, and Colibri and Control-Service have at most one node. The wrong-category error occurs exactly when the key set differs. |
| TopologyConfig.CheckNodeNaming | python/topology/config.py:261-284 | Passes iff every node is a string of at most 8 characters, all names are distinct across categories, and the `Borderrouter` map keys are among the declared border routers. |
| TopologyConfig.CheckLinkProperties | python/topology/config.py:286-306 | Passes iff bw, delay and jitter (when present) are integer-parseable and loss (when present) is float-parseable. An integer error names a metric that does not parse. A loss error means all three integer metrics parse. |
| TopologyConfig.CheckLinks | python/topology/config.py:308-330 | Passes iff every link endpoint is a declared node and every link's properties parse. An undeclared-endpoint error names an undeclared node. |
| TopologyConfig.ZeroCounters | python/topology/config.py:334-337 | The counter map has exactly the declared nodes as keys, all at zero. |
| TopologyConfig.CountLinks | python/topology/config.py:338-346 | Succeeds iff every link has an Internal-Router endpoint. Each counter then equals the node's degree, with a self-loop counting twice. |
| TopologyConfig.CheckNRConnections | python/topology/config.py:332-362 | Passes iff every link touches a router, every non-router has degree 1, and every node has degree at least 1. On success every non-router node has exactly one link. |
| TopologyConfig.CheckNetworkConnected | python/topology/config.py:364-377 | Passes iff the multigraph over all declared nodes and all links is connected. |
| TopologyConfig.FilterUsedMembers | python/topology/config.py:129-130 | The filtered Borderrouter list holds exactly the string entries whose names are map keys. |
| TopologyConfig.PruneLinksMembers | python/topology/config.py:135-137 | A link survives iff it was there and both its endpoints are still declared. |
| TopologyConfig.PruneNodesProperties | python/topology/config.py:126-139 | Pruning keeps every category key. It changes no category other than Borderrouter, and adds no node. |
| TopologyConfig.PruneKeepsFullyUsed | python/topology/config.py:126-139 | When every border router is used and every link endpoint is declared, pruning changes nothing. |
| TopologyConfig.RemoveDanglingLinks | python/topology/config.py:135-137 | Removing links one by one from the live list, while iterating over a copy, leaves the order-preserving filter of the old links by "both endpoints declared". Nodes are untouched. |
| TopologyConfig.ConfigGenerator.RemoveUnusedBR | python/topology/config.py:126-139 | The dictionary becomes the reference pruning of its old value by the map's keys. |
| TopologyConfig.ConfigGenerator.CheckAS | python/topology/config.py:146-172 | For one AS, passes iff its border routers reconcile, its document has the right format and naming, and the pruned document passes the link, degree and connectivity checks. On success the pruned document is stored, and no other stored document changes. |
| TopologyConfig.ConfigGenerator.EnsureCorrectFormat | python/topology/config.py:141-172 | Passes iff the IP version check, the AS-set check and every AS's checks pass. On success every AS's stored document is its pruned document. |
| TopologyConfig.FormatLeavesNodes | python/topology/config.py:165-172 | A document that passes the format check keeps at least one node after pruning, so the connectivity check is well defined. |
| TopologyConfig.RemoveV4Nets | python/topology/config.py:507-514 | The result holds exactly the networks whose name does not end in `_v4`, each with its description unchanged. |
| StartScion.GenIntraTopoDict | intra-AS-simulation/start_SCION.py:87-102 | The launcher's in-place pruning yields the same reference pruning by the name map's keys. |
| StartScion.SamePruning | intra-AS-simulation/start_SCION.py:87-102 | The launcher's and the config generator's pruning give equal dictionaries for the same document and map. |
| StartScion.EdgeLabel | intra-AS-simulation/start_SCION.py:115-126 | The accumulated-then-stripped label equals the present attributes' lines joined by newlines. |
| StartScion.AccumulatedLines | intra-AS-simulation/start_SCION.py:115-125 | The accumulated label is each present attribute's line followed by a newline, in table order. |
| StartScion.StripLabel | intra-AS-simulation/start_SCION.py:126 | Stripping the accumulated label removes exactly the final newline. |
| StartScion.LabelShape | intra-AS-simulation/start_SCION.py:115-126 | With no attributes the label is empty. Otherwise it has no leading or trailing whitespace. |
| StartScion.AddNodes | intra-AS-simulation/start_SCION.py:107-110 | The node set is exactly the set of declared entries. |
| StartScion.AddEdges | intra-AS-simulation/start_SCION.py:112-127 | One labelled edge per link, in link order, with parallel links kept. The node set also gains every link endpoint. |
| StartScion.GenIntraTopoGraph | intra-AS-simulation/start_SCION.py:104-131 | Succeeds iff the multigraph is connected, and fails with the not-connected error otherwise. The graph's nodes are the declared nodes and link endpoints, and there is one edge per link. |
| StartScion.NetemArgsPresent | intra-AS-simulation/start_SCION.py:254-258 | The netem arguments are non-empty iff delay is set, jitter is set, or loss is positive. |
| StartScion.NonPositiveLossOmitted | intra-AS-simulation/start_SCION.py:257 | A loss of at most 0 contributes nothing to the netem arguments. |
| StartScion.AddLinkAttributes | intra-AS-simulation/start_SCION.py:232-264 | The command list is the two htb commands iff bw is truthy and within 0..1000. It is followed by a netem command iff the netem arguments are non-empty; that command's parent is `parent 5:1` with htb and `root` without. Each interface first gets its MTU, then every command in order. The bandwidth warning is issued iff bw is truthy but out of range. The loss warning is issued iff loss is truthy and outside 0..100; that loss is still used. |
| StartScion.RunOnBoth | intra-AS-simulation/start_SCION.py:262-264 | Each command is applied to interface 1 on router 1 and to interface 2 on router 2, in list order. |
| StartScion.FindGoodSubnet | intra-AS-simulation/start_SCION.py:177-185 | The result is `LastSubnetWith`: no subnet is found iff none lists the local IP, and otherwise the chosen one is the last border subnet that lists it, because `break` leaves only the inner loop. |
| StartScion.LastSubnetWith | intra-AS-simulation/start_SCION.py:177-185 | A chosen subnet is one of the border subnets. |
| StartScion.LastSubnetWithIsLast | intra-AS-simulation/start_SCION.py:177-185 | None iff no border subnet lists the IP. Otherwise a subnet that lists it, with no later subnet listing it. |
| StartScion.FindPeer | intra-AS-simulation/start_SCION.py:187-195 | The result is `PeerIn`: the peer is `split('@')[1]` of the first entry with the remote IP, the text between the first and second `@` of its name. The not-found error occurs exactly when no entry has that IP. |
| StartScion.PeerIn | intra-AS-simulation/start_SCION.py:187-195 | The only errors are the not-found error for the remote IP and a name without a second part. |
| StartScion.PeerInFirstMatch | intra-AS-simulation/start_SCION.py:187-195 | On success the peer is `split('@')[1]` of the first entry holding the remote IP. The not-found error occurs iff no entry holds it. |
| StartScion.FindRouter | intra-AS-simulation/start_SCION.py:202-207 | The result is `LastRouterNamed`: nothing is found iff no router has the name, and otherwise the last router with that name. |
| StartScion.LastRouterNamed | intra-AS-simulation/start_SCION.py:202-207 | A found router is in the list and has the name. |
| StartScion.LastRouterNamedIsLast | intra-AS-simulation/start_SCION.py:202-207 | None iff no router has the name. Otherwise a router with the name, with no later router having it. |
| StartScion.WireOutcomeCases | intra-AS-simulation/start_SCION.py:169-229 | Each error of wiring one interface occurs exactly when its step is the first to fail: no border subnet lists the local IP; the chosen subnet lacks the remote IP; the `BR_dict` key is missing; its value is not two words. On success the subnet is the last border subnet listing the local IP and also lists the remote IP, the peer host's name is the chosen subnet's `split('@')[1]` for the remote IP, and both hosts belong to their AS's network. |
| StartScion.WireOutcomeErrors | intra-AS-simulation/start_SCION.py:177-207 | The four error iffs of `WireOutcomeCases`: missing subnet, missing peer IP, missing `BR_dict` key and a value that is not two words, each exactly when its step is the first to fail. |
| StartScion.WireOutcomeSuccess | intra-AS-simulation/start_SCION.py:177-207 | The success half of `WireOutcomeCases`: the last border subnet listing the local IP, also listing the remote IP, the peer found there, and both routers in their networks. |
| StartScion.WireInterface | intra-AS-simulation/start_SCION.py:169-229 | The result is `WireOutcome` of the interface, whose cases `WireOutcomeCases` states. On success `"<BR1_name> <BR1_ifid>"` and the two words of its `BR_dict` entry are the created names. Router 1 runs the veth creation into the peer's namespace, its `ifconfig` with `<local ip>/31`, the MTU command and the tc commands. Router 2 runs its `ifconfig` with `<remote ip>/31`, the MTU command and the same tc commands. |
| StartScion.AddInterASLinks | intra-AS-simulation/start_SCION.py:156-230 | `links_created` only grows, and by exactly the names the wired interfaces create. With no border routers the result is `None`. A first router name that does not split in two on `-@` fails before any wiring. Otherwise only the first border router's interfaces are wired, in order, each as `WireOutcome` says. The result succeeds iff all of them are wired; an error is the `WireOutcome` error of the first interface not wired. |
| StartScion.WiredAt | intra-AS-simulation/start_SCION.py:169-229 | Wired link `k` is `WireOutcome` of interface `k`. |
| RoutingProtocols.CalcCost | intra-AS-simulation/routing_protocols.py:122-151 | The `+=` sequence computes the reference cost, which is never above 65535. Its monotonicity lemmas follow. |
| RoutingProtocols.NoParamsCost | intra-AS-simulation/routing_protocols.py:126-151 | With no parameters the cost is exactly 10. |
| RoutingProtocols.HighBandwidthFree | intra-AS-simulation/routing_protocols.py:132-136 | A bandwidth of 100 or more adds nothing to the cost. |
| RoutingProtocols.LowBandwidthTerm | intra-AS-simulation/routing_protocols.py:132-136 | A bandwidth in 1..99 adds `1000/bw`, which is at least 10. |
| RoutingProtocols.LossTruncated | intra-AS-simulation/routing_protocols.py:142-144 | The loss term is `10*loss` truncated: within 1 below it. |
| RoutingProtocols.SplitBeforeSuffix | intra-AS-simulation/routing_protocols.py:137-141 | Splitting `"<digits>ms"` at `ms` gives the digits first. |
| RoutingProtocols.MillisOfFormatted | intra-AS-simulation/AutonomousSystem.py:108-111 | A value formatted as `f'{d}ms'` is read back by the cost formula as exactly `d`. |
| RoutingProtocols.MonotoneInDelay | intra-AS-simulation/routing_protocols.py:137-151 | With everything else fixed, a larger delay never lowers the cost. |
| RoutingProtocols.MonotoneInJitter | intra-AS-simulation/routing_protocols.py:145-151 | With everything else fixed, a larger jitter never lowers the cost. |
| RoutingProtocols.TruncMonotone | intra-AS-simulation/routing_protocols.py:142-144 | `int()` of a float keeps order. |
| RoutingProtocols.MonotoneInLoss | intra-AS-simulation/routing_protocols.py:142-151 | With everything else fixed, a larger loss never lowers the cost. |
| RoutingProtocols.QuotientAntitone | intra-AS-simulation/routing_protocols.py:132-136 | Dividing by a larger positive bandwidth gives a quotient no larger. |
| RoutingProtocols.MonotoneInBandwidth | intra-AS-simulation/routing_protocols.py:132-151 | With everything else fixed, a larger positive bandwidth never raises the cost. |
| AutonomousSystem.SubnetClasses | intra-AS-simulation/AutonomousSystem.py:180-187 | A section is in SUBNETS iff every entry name contains the AS name. It is in BR_SUBNETS iff some but not all do. The two never overlap. |
| AutonomousSystem.EmptySectionIsOwn | intra-AS-simulation/AutonomousSystem.py:183-185 | A section with no entries counts as the AS's own, because `all()` of nothing is true. |
| AutonomousSystem.System.GenSubnets | intra-AS-simulation/AutonomousSystem.py:172-187 | The appending loop yields the reference SUBNETS and BR_SUBNETS lists, which keep section order. |
| AutonomousSystem.LastUntakenIn | intra-AS-simulation/AutonomousSystem.py:56-58 | The last untaken subnet examined is one of the subnets. |
| AutonomousSystem.IntraAsTopo.GetAddresses | intra-AS-simulation/AutonomousSystem.py:53-76 | Succeeds iff some untaken subnet lists both nodes. The first such subnet is then appended to `subnet_taken`, and the addresses are its IPs with `/netmask` appended, so no taken subnet is ever used. On failure `subnet_taken` is unchanged and the error names the missing node. |
| AutonomousSystem.IntraAsTopo.ScanSection | intra-AS-simulation/AutonomousSystem.py:61-67 | A node is found iff some entry's text after its last `@` is the node. Its address is then the last such entry's IP with `/netmask` appended. |
| AutonomousSystem.CheckedLinkConverts | intra-AS-simulation/AutonomousSystem.py:102-113 | A link that passed the link-property check converts without error. bw and loss are present after conversion iff they were present before. |
| AutonomousSystem.ConvertedDelayMillis | intra-AS-simulation/AutonomousSystem.py:108-109 | A delay `d` becomes `"<d>ms"`, which the cost formula reads back as `d`. |
| AutonomousSystem.NrCountsLinks | intra-AS-simulation/AutonomousSystem.py:127-128 | `link_nr` of a pair counts the links between the two nodes, in either direction (doubled for a self-loop). It is symmetric. |
| AutonomousSystem.PairCountMono | intra-AS-simulation/AutonomousSystem.py:127-128 | A link between two nodes raises their count above every earlier prefix. |
| AutonomousSystem.LinkNumbersIncrease | intra-AS-simulation/AutonomousSystem.py:122-128 | Two links with the same endpoints get strictly increasing link numbers, so MTU entries never collide. |
| AutonomousSystem.MtuEntrySource | intra-AS-simulation/AutonomousSystem.py:121-126 | Every `intra_links` entry comes from a link that has an `mtu` key. |
| AutonomousSystem.MtuEntryRecorded | intra-AS-simulation/AutonomousSystem.py:121-126 | Every link with an `mtu` key has its MTU stored under its endpoints and its number. |
| AutonomousSystem.MtuKeyStays | intra-AS-simulation/AutonomousSystem.py:121-128 | An MTU entry once written is never removed by later links. |
| AutonomousSystem.IntraAsTopo.Build | intra-AS-simulation/AutonomousSystem.py:78-128 | Links are built in order. Each built link has both endpoints declared, its own first usable subnet and its addresses there, and its converted parameters; the taken subnets are pairwise distinct. The build succeeds iff every link is built, and then `link_nr` and `intra_links` equal their reference values. Otherwise the error is that of the first link not built, by `LinkFails`: an undeclared endpoint (first `a`, then `b`), then `get_addresses`' error when no untaken subnet lists both nodes, then a failed conversion. |
| AutonomousSystem.LinkFailsCause | intra-AS-simulation/AutonomousSystem.py:95-113 | An unknown-node error names an undeclared endpoint of some link. A conversion error is some link's conversion error. |
| AutonomousSystem.IntraAsTopo.BuildLink | intra-AS-simulation/AutonomousSystem.py:95-119 | At most one subnet is taken, and earlier ones are kept. On success both endpoints are declared and exactly one subnet is taken, the first usable one, giving the link's addresses and converted parameters. On failure the error is the one `LinkFails` gives for the link in source order. |
| AutonomousSystem.IntraAsTopo.RecordLink | intra-AS-simulation/AutonomousSystem.py:121-128 | Recording one link advances `link_nr` and `intra_links` to their reference values after that link. |
| AsConfigCreator.NormalizeProtocol | intra-AS-simulation/AS_config_creator.py:42-45 | The protocol is accepted iff its upper-case form is OSPF, and the stored value is then "OSPF". |
| AsConfigCreator.ProtocolCaseInsensitive | intra-AS-simulation/AS_config_creator.py:42-45 | "ospf" and "Ospf" are accepted; "rip" is not. |
| AsConfigCreator.BRListMembers | intra-AS-simulation/AS_config_creator.py:61-77 | The per-AS list holds exactly the names the config check collects: stripped three-part IDs and plain names with the AS prefix. |
| AsConfigCreator.StrippedIsThreePart | intra-AS-simulation/AS_config_creator.py:67-69 | Stripping the `#` suffix keeps a three-part ID three-part. |
| AsConfigCreator.ThreePartListedOnce | intra-AS-simulation/AS_config_creator.py:69-74 | A three-part ID appears at most once in the list. |
| AsConfigCreator.PlainNamesKept | intra-AS-simulation/AS_config_creator.py:75-77 | A plain endpoint name appears in the list as often as it occurs among the endpoints. |
| AsConfigCreator.NoMatchNoList | intra-AS-simulation/AS_config_creator.py:65-66 | An AS that prefixes no endpoint gets an empty list. |
| AsConfigCreator.GetBRsPerAS | intra-AS-simulation/AS_config_creator.py:58-78 | The mapping holds exactly the ASes with a non-empty list, each with the reference list (link order, `a` before `b`). |
| AsConfigCreator.Visit | intra-AS-simulation/AS_config_creator.py:65-77 | Visiting one endpoint updates only the AS's own list, and only when the endpoint has the AS prefix. |
| AsConfigCreator.BrMapKeys | intra-AS-simulation/AS_config_creator.py:92-93 | The map's keys are exactly the first `len(BRs)` internal border routers. |
| AsConfigCreator.BrMapValues | intra-AS-simulation/AS_config_creator.py:92-93 | With distinct internal names, `internal_BRs[i]` maps to `BRs[i]`. |
| AsConfigCreator.MapBRs | intra-AS-simulation/AS_config_creator.py:92-93 | The indexed loop builds the reference map. |
| AsConfigCreator.GenerateIntraDict | intra-AS-simulation/AS_config_creator.py:81-100 | Fails without `Nodes`. Succeeds iff no AS uses more border routers than are defined internally, and a failure names such an AS. On success there is one entry per AS, holding the topology path, the protocol and the reference map. |
| DefaultIntraTopoGenerator.BrKeyInjective | intra-AS-simulation/default_intra_topo_generator.py:71-72 | Distinct positions get distinct `br<i+1>` keys. |
| DefaultIntraTopoGenerator.NumberBRs | intra-AS-simulation/default_intra_topo_generator.py:70-72 | The map has exactly the keys `br1..brN`, with `br<i+1>` mapping to `BRs[i]`. |
| DefaultIntraTopoGenerator.NumberedStep | intra-AS-simulation/default_intra_topo_generator.py:71-72 | Each loop step adds a fresh key and keeps the numbering. |
| DefaultIntraTopoGenerator.GenerateDefaultIntraDict | intra-AS-simulation/default_intra_topo_generator.py:67-79 | One entry per AS, each with `default.intra.topo`, the given protocol and the numbered map. |
| DefaultIntraTopoGenerator.GeneratedASesUseBRs | intra-AS-simulation/default_intra_topo_generator.py:44-64 | An AS gets an entry only when some endpoint starts with its name. |
| SegmentReservation.FirstWithNumberSearches | go/co/reservation/segment/reservation.go:165-171 | A first-match search by number meets the hypothesis under which the index contracts say the found index carries the number; so that hypothesis can hold. |
| SegmentReservation.MaxOfIsMaximum | go/co/reservation/segment/reservation.go:257-278 | The maximum bounds every element and is one of them. |
| SegmentReservation.Reservation.constructor | go/co/reservation/segment/reservation.go:41-49 | No indices, no active index, and an all-zero ID suffix of `IDSuffixSegLen` bytes. |
| SegmentReservation.Reservation.ActiveIndex | go/co/reservation/segment/reservation.go:122-127 | Present iff `activeIndex != -1`, and then one of the indices. |
| SegmentReservation.Reservation.ValidateIndexChecks | go/co/reservation/segment/reservation.go:85-109 | Passes iff the ID is set, the index list validates, the active position is -1 or 0, and at most one index is Active. A missing ID is reported first. |
| SegmentReservation.Reservation.AddIndex | go/co/reservation/segment/reservation.go:153-162 | Appends iff the extended list validates; otherwise nothing changes and an error is returned. The invariant is kept. |
| SegmentReservation.Reservation.NewIndex | go/co/reservation/segment/reservation.go:132-151 | A Temporary index with the given fields is appended, returning its number, iff the extended list validates. Otherwise nothing changes and an error is returned. The ID and the active position are kept. |
| SegmentReservation.Reservation.IndexOf | go/co/reservation/segment/reservation.go:165-171 | Present iff `FindIndex` returns a position, and then one of the indices. When `FindIndex` searches by number, a present index has that number, and none is present iff no index has it. |
| SegmentReservation.Reservation.NextIndexToRenew | go/co/reservation/segment/reservation.go:173-179 | One past the last index number (modulo 16), or 0 on an empty list. |
| SegmentReservation.Reservation.NextIndexToActivate | go/co/reservation/segment/reservation.go:181-191 | None when empty. The last index when none is active. Otherwise the successor of the active index, if there is one. |
| SegmentReservation.Reservation.SetIndexConfirmed | go/co/reservation/segment/reservation.go:195-205 | Fails when `FindIndex` finds nothing or the found index is Active. Otherwise only that index changes, to Pending. The ID and the active position are kept. When `FindIndex` searches by number, a Pending index with that number exists after success. |
| SegmentReservation.Reservation.SetIndexActive | go/co/reservation/segment/reservation.go:209-233 | A no-op when the found index is already the active one. Fails when `FindIndex` finds nothing, or the index is neither Pending nor Active, or lies before the active one. Otherwise the indices become the old suffix from that index, `activeIndex` becomes 0 and that index is Active. The ID is kept and the invariant holds. When `FindIndex` searches by number, the active index has that number after success. |
| SegmentReservation.Reservation.RemoveIndex | go/co/reservation/segment/reservation.go:236-249 | Fails when `FindIndex` finds nothing. Otherwise it drops the prefix through the found position `k`. The active position shifts down by `k+1` if it was later, and becomes -1 otherwise; a later active index stays the same index. The ID is kept. |
| SegmentReservation.Reservation.MaxBlockedBW | go/co/reservation/segment/reservation.go:257-266 | 0 on an empty list; otherwise `ToKbps` of the maximum allocated class. |
| SegmentReservation.Reservation.MaxRequestedBW | go/co/reservation/segment/reservation.go:269-278 | 0 on an empty list; otherwise `ToKbps` of the maximum requested class. |
| SegmentReservation.IndexNumbersWrap | go/co/reservation/segment/reservation.go:173-179 | `0.Sub(1).Add(1)` is 0, 15+1 wraps to 0, and `Sub(Add(i,1),1)` is `i`. |
| Coliquic.InvariantOf | go/lib/colibri/coliquic/persistent_quic.go:234-241 | Same length. For inputs of at least `8+LenInfoField` bytes, bytes 0..7 and 30..31 are zero and the rest are copied. Shorter inputs come back unchanged. |
| Coliquic.InvariantColibri | go/lib/colibri/coliquic/persistent_quic.go:234-241 | Returns a fresh array holding the canonical form of the input. |
| Coliquic.InvariantIdempotent | go/lib/colibri/coliquic/persistent_quic.go:234-241 | Canonicalising twice is the same as canonicalising once. |
| Coliquic.InvariantIgnoresMasked | go/lib/colibri/coliquic/persistent_quic_test.go:30-49 | Two paths that differ only in the timestamp and payload-length bytes canonicalise equally. |
| Coliquic.InvariantKeepsUnmasked | go/lib/colibri/coliquic/persistent_quic.go:236-239 | Equal canonical forms imply equal unmasked bytes. |
| Coliquic.AddrPathToString | go/lib/colibri/coliquic/persistent_quic.go:209-221 | The key starts with the path type. It continues with the address for empty paths, hex of the canonical form for COLIBRI, and hex of the raw bytes (`2*len` characters) otherwise. |
| Coliquic.ColibriKeyIgnoresTimestamp | go/lib/colibri/coliquic/persistent_quic.go:209-221 | COLIBRI paths differing only in masked bytes give the same key. |
| Coliquic.OtherKeyDistinguishes | go/lib/colibri/coliquic/persistent_quic.go:216-219 | For other path types, equal keys imply equal raw paths. |
| Coliquic.AddrToSNI | go/lib/colibri/coliquic/persistent_quic.go:223-230 | A non-SCION address gives its own text. A SCION one gives text starting with `[` and ending with `]:` and the port. |
| Coliquic.SNIParsesAsHost | go/lib/colibri/coliquic/persistent_quic.go:223-227 | The SNI of a SCION address is a valid host part: prefixed by an IA and a comma, it parses back into that IA and the SNI. |
| SnetUdpAddr.RegexAtFirstComma | go/lib/snet/udpaddr.go:29 | A match splits at the first comma: the IA part holds no comma. |
| SnetUdpAddr.ParseAddrOk | go/lib/snet/udpaddr.go:130-143 | On success the input is the IA, a comma and the host. The host is non-empty, has matched brackets and does not end in `:`. |
| SnetUdpAddr.ParseAddrRejects | go/lib/snet/udpaddr.go:135-141 | After a regex match, unequal bracket counts fail first, then a trailing colon. |
| SnetUdpAddr.ParseAddrOfFormatted | go/lib/snet/udpaddr.go:130-143 | Joining a well-formed IA and host with a comma parses back into both. |
| SnetUdpAddr.IAHasOneDash | go/lib/snet/udpaddr.go:29 | A well-formed IA has exactly one `-`. |
| SnetUdpAddr.CopyUDPAddr | go/lib/snet/udpaddr.go:119-128 | nil maps to nil. Otherwise a fresh address with equal IP bytes in a fresh array, and the same port and zone. |
| SnetUdpAddr.UDPAddr.StringParsesBack | go/lib/snet/udpaddr.go:91-93 | `String` is the IA, a comma and the host, and it parses back into the same two texts. |
| SnetUdpAddr.UDPAddr.Set | go/lib/snet/udpaddr.go:105-112 | On a parse or resolve error the receiver is unchanged. Otherwise it is overwritten with the resolved IA and a fresh host, and its path and next hop are cleared. |
| SnetUdpAddr.Copy | go/lib/snet/udpaddr.go:152-162 | nil maps to nil. The IA and path are shared; the next hop and host are deep-copied. |
| E2eRequest.BigEndianRoundTrip | go/co/reservation/e2e/request.go:77-81 | A value below 256^w written big-endian in `w` bytes reads back unchanged. |
| E2eRequest.Validate | go/co/reservation/e2e/request.go:45-63 | The base request's error comes first. Passes iff the ID is an e2e ID, there are 1..3 segment reservations, and both hosts are set and specified. A bad count and an empty host each give their own error. |
| E2eRequest.UnspecifiedHostsRejected | go/co/reservation/e2e/request.go:57-61 | A nil host, `0.0.0.0` or `::` is rejected as empty. |
| E2eRequest.ImmutableLength | go/co/reservation/e2e/request.go:69-72 | The buffer length is `ID.Len()+5+49+n*(IDSuffixSegLen+6)`, and it begins with the serialised base request. |
| E2eRequest.FixedLayout | go/co/reservation/e2e/request.go:74-86 | At `ID.Len()+5` the buffer holds the source IA as 8 bytes big-endian, the source host as 16 bytes, the destination IA as 8 bytes, the destination host as 16 bytes, and then the bandwidth byte. |
| E2eRequest.SegmentLayout | go/co/reservation/e2e/request.go:87-94 | Segment ID `k` occupies its own 10-byte slot after the fixed fields. This is the corrected layout. |
| E2eRequest.FirstInconsistent | go/co/reservation/e2e/request.go:88-92 | None iff every segment ID has length `IDSuffixSegLen+6`. Otherwise the first ID with another length. |
| E2eRequest.SerializeImmutableFields | go/co/reservation/e2e/request.go:65-96 | The corrected serialiser, with `id.Read(buff[offset:])` in place of line 88. A nil request gives nil. A wrong-length segment ID is an error (the panic), naming the first such ID. Otherwise the result is a fresh buffer equal to the reference layout. |
| E2eRequest.PutFixedFields | go/co/reservation/e2e/request.go:74-86 | Writing the fixed fields while advancing `offset` leaves exactly the reference fixed fields followed by zeros. |
| E2eRequest.PutSegmentIDs | go/co/reservation/e2e/request.go:87-94 | The corrected loop, with `id.Read(buff[offset:])` in place of line 88: it writes every segment ID into its own slot, or fails at the first wrong-length ID. |
| E2eRequest.ImmutableFieldsAsWritten | go/co/reservation/e2e/request.go:65-96 | The serialiser as written has the intended length, and its first 10 bytes are the last segment ID. |
| E2eRequest.AsWrittenFirstSlotZero | go/co/reservation/e2e/request.go:87-94 | As written, the slot of the first segment ID stays all zero bytes. |
| E2eRequest.OverwriteFront | go/co/reservation/e2e/request.go:87-94 | The loop as written changes only the first 10 bytes of the buffer. |
| E2eRequest.OverwriteFrontLast | go/co/reservation/e2e/request.go:87-94 | As written, only the last segment ID survives, at offset 0. |
| E2eRequest.AsWrittenDropsSegmentIDs | go/co/reservation/e2e/request.go:87-94 | As written, the serialised buffer differs from the intended layout whenever the first segment ID is not all zero. |

## Left out

- Reading and writing YAML, JSON and INI files, argument parsing, and output-file probing. The loaded dictionaries are inputs.
- Mininet and shell execution: `node.cmd`, `LinuxRouter`, `add_addtional_link_config`, the SCION services, the dispatcher, OSPF/Zebra start, stop and config. The veth, `ifconfig`, tc and MTU commands of `add_inter_AS_links` are modelled as the lists of strings each router would run.
- `networkx`: connectivity is the model's own walk-based definition plus a closure algorithm.
- Python `int()`/`float()` parsing of YAML scalars: each scalar carries its parse results, supplied by the loader.
- CalcCost, Millis: the delay and jitter texts are read by the model's own `ParseInt`, which accepts surrounding whitespace, a sign and ASCII digits. Python's `int()` also accepts digit-group underscores ("1_0"), non-ASCII digits and non-ASCII whitespace; for such a text the model reports `BadDelay`/`BadJitter` where the source computes a cost.
- NormalizeProtocol: upper-cases ASCII letters only. Python's `str.upper()` also maps other letters, such as `ſ` to `S`, so "oſpf" is accepted by the source and rejected by the model.
- `%.5f` loss formatting: passed in as a function.
- Loss is a real number, not a float.
- Foreign Go code is passed in as function parameters. This covers:
  - `base.ValidateIndices`, `BWCls.ToKbps`, IA and IP formatting, path-type names;
  - `ParseIA` and host resolution in `ParseUDPAddr`;
  - `IsE2EID`;
  - `Request.Validate` and `Request.Serialize`, whose outcome and bytes are inputs.
- The `Validate` checks of a reservation other than the index checks: `PathEndProps`, path type and traffic split.
- `persistent_quic_listener.go` and `PersistentQUIC.Dial`: concurrency and network I/O.
- The `Request` base struct of an e2e setup request (index, timestamp, path): only its serialised bytes and its validation outcome enter the model.
- Go nil receivers are modelled for the e2e serialiser, `Copy` and `CopyUDPAddr`.
- AddrToSNI: a SCION address whose `Host` is nil makes `addrToSNI` panic in Go (persistent_quic.go:226 dereferences it, and `Dial` at persistent_quic.go:76-88 does not check it first); the model requires a non-nil host instead of modelling the panic.
- ValidateIndexChecks: a reservation is a non-null object here, so the nil check that starts `Validate` (reservation.go:86-88, a nil reservation passes) is not modelled.
- `base.FindIndex` is a parameter. The contracts of `IndexOf`, `SetIndexConfirmed`, `SetIndexActive` and `RemoveIndex` speak of the position it returns; that this position holds the requested number is stated only under the hypothesis `SearchesByNumber`.
- NewIndex: the token built for the new index (its RLC, path type and `TickFromTime` expiration tick) is not modelled; an index carries its expiration as an integer.
- Interface bandwidth, delay and jitter from topology.json are integers here; a fractional value (rendered as, say, `rate 2.5Mbit` or `delay 2.5ms`) is not modelled.
- A node category whose YAML value is null cannot be represented (the source raises a TypeError on it in `check_file_format`); a category always holds a list of entries.
- The Python dictionaries keep their iteration order where the source depends on it. Set- and map-keyed loops (`_ensure_correct_format`, `remove_v4_nets`, `generate_intra_dict`) visit keys in an unspecified order, and the verdicts do not depend on it.
- `_ensure_uniq_ases` and the `ISD_AS` parsing it uses.
- Duplicate-link rejection and idempotent inter-AS wiring: the code never consults `links_created`.
- Wiring of border routers after the first in `add_inter_AS_links`: the code returns inside its outer loop, and the model follows the code.
- Error messages and logging: each error is a datatype value carrying the names the message would show.
- Python crash paths that the configuration checks rule out are preconditions rather than error results:
  - a missing `Internal-Router` key in `check_NR_connections`;
  - an undeclared link endpoint there;
  - an empty graph in `nx.is_connected`.
  
  `_ensure_correct_format` establishes them before each call.

## Findings

| source | as written | input that shows it | evidently intended | confidence | as-written member | corrected member |
|---|---|---|---|---|---|---|
| go/co/reservation/e2e/request.go:88 | `id.Read(buff)` writes every segment ID at offset 0 of the buffer. The serialised request ID is overwritten, and the segment slots stay zero. | A setup request with one segment reservation whose 10 ID bytes are not all zero. The serialised buffer then starts with the segment ID instead of the request ID, and its last 10 bytes are zero. | `id.Read(buff[offset:])`: each segment ID goes into its own 10-byte slot after the fixed fields. | not executed | E2eRequest.AsWrittenDropsSegmentIDs | E2eRequest.SegmentLayout |

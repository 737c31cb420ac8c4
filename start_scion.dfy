/** The topology side of the Mininet launcher (intra-AS-simulation/start_SCION.py): the
    pruned intra-topology document, the labelled multigraph built from it, the tc command
    lists that shape an inter-AS link, and the lookups that wire one AS's border routers
    to their peers. Running commands on Mininet nodes is I/O; the model returns the
    commands each node would run. */
module StartScion {
  import opened Wrappers
  import opened Text
  import opened TopologyConfig
  import Reach

  // ---------------------------------------------------------------------------
  // gen_intra_topo_dict
  // ---------------------------------------------------------------------------

  /** `gen_intra_topo_dict` (start_SCION.py:87-102) on the loaded document: the same
      pruning as `remove_unused_BR` of the config generator. */
  method GenIntraTopoDict(d: IntraTopoDict, brNameMapping: map<string, string>)
    requires Lookup(d.nodes, Borderrouter).Some?
    modifies d
    ensures d.Value() == Prune(old(d.Value()), brNameMapping.Keys)
  {
    var brUsed := brNameMapping.Keys;
    d.nodes := PruneNodes(d.nodes, brUsed);
    var allNodes := CollectEntries(d.nodes);
    RemoveDanglingLinks(d, allNodes);
  }

  /** On the same document and the same Borderrouter map, the launcher and the config
      generator keep the same pruned document. */
  method SamePruning(t: IntraTopo, gen: ConfigGenerator, asName: string) returns (launcher: IntraTopo, generator: IntraTopo)
    requires asName in gen.intraAses
    requires Lookup(t.nodes, Borderrouter).Some?
    ensures launcher == generator == Prune(t, gen.intraAses[asName].borderrouter.Keys)
  {
    var d1 := new IntraTopoDict(t);
    GenIntraTopoDict(d1, gen.intraAses[asName].borderrouter);
    var d2 := new IntraTopoDict(t);
    gen.RemoveUnusedBR(d2, asName);
    launcher, generator := d1.Value(), d2.Value();
  }

  // ---------------------------------------------------------------------------
  // gen_intra_topo_graph
  // ---------------------------------------------------------------------------

  datatype LabeledEdge = LabeledEdge(a: NodeEntry, b: NodeEntry, caption: string)

  /** A `networkx.MultiGraph`: its node set and its edges in insertion order. */
  datatype Graph = Graph(nodes: set<NodeEntry>, edges: seq<LabeledEdge>)

  datatype LaunchError = IntraTopologyNotConnected(asName: string)

  /** One attribute of an edge label: the link property, the title before its value and
      the unit after it. */
  datatype Attr = Attr(key: string, title: string, unit: string)

  /** The label attributes in the order `gen_intra_topo_graph` appends them. */
  const LabelAttrs: seq<Attr> := [Attr("bw", "BW: ", "Mbit/s"), Attr("delay", "Delay: ", "ms"),
                                   Attr("loss", "Loss: ", "%"), Attr("jitter", "Jitter: ", "ms"),
                                   Attr("mtu", "MTU: ", "B")]

  /** The text of a present, non-null attribute (`str(link[key])`). */
  function TextOf(l: Link, key: string): Option<string> {
    if Get(l, key).Some? then Some(Get(l, key).value.text) else None
  }

  /** The line of one attribute when the link has it. */
  function AttrLine(l: Link, a: Attr): seq<string> {
    if TextOf(l, a.key).Some? then [a.title + TextOf(l, a.key).value + a.unit] else []
  }

  /** What one `label += ...` step appends: that line and its newline. */
  function Piece(l: Link, a: Attr): string {
    if TextOf(l, a.key).Some? then a.title + TextOf(l, a.key).value + a.unit + "\n" else ""
  }

  function LinesOf(l: Link, attrs: seq<Attr>): seq<string> {
    if attrs == [] then [] else LinesOf(l, attrs[..|attrs| - 1]) + AttrLine(l, attrs[|attrs| - 1])
  }

  function AccumulatedOf(l: Link, attrs: seq<Attr>): string {
    if attrs == [] then [] else AccumulatedOf(l, attrs[..|attrs| - 1]) + Piece(l, attrs[|attrs| - 1])
  }

  /** The lines of an edge label: the present attributes in the order BW, Delay, Loss,
      Jitter, MTU, each with its unit. */
  function LabelLines(l: Link): seq<string> {
    LinesOf(l, LabelAttrs)
  }

  /** Every line followed by a newline. */
  function Terminated(lines: seq<string>): string {
    if lines == [] then [] else lines[0] + "\n" + Terminated(lines[1..])
  }

  /** A line that begins and ends with a character `strip` keeps. */
  predicate Solid(line: string) {
    |line| > 0 && !IsSpace(line[0]) && !IsSpace(line[|line| - 1])
  }

  /** A title and a unit that make every line of the attribute solid. */
  predicate Framed(a: Attr) {
    |a.title| > 0 && !IsSpace(a.title[0]) && |a.unit| > 0 && !IsSpace(a.unit[|a.unit| - 1])
  }

  lemma LabelAttrsFramed()
    ensures forall i :: 0 <= i < |LabelAttrs| ==> Framed(LabelAttrs[i])
  {
  }

  lemma {:induction false} TerminatedIsJoined(lines: seq<string>)
    requires lines != [] && forall i :: 0 <= i < |lines| ==> Solid(lines[i])
    ensures Terminated(lines) == JoinLines(lines) + "\n"
    ensures Solid(JoinLines(lines))
    decreases |lines|
  {
    if |lines| > 1 {
      TerminatedIsJoined(lines[1..]);
      var rest := JoinLines(lines[1..]);
      assert JoinLines(lines) == lines[0] + "\n" + rest;
      assert JoinLines(lines)[0] == lines[0][0];
      assert JoinLines(lines)[|JoinLines(lines)| - 1] == rest[|rest| - 1];
    } else {
      assert lines[1..] == [];
    }
  }

  lemma {:induction false} TerminatedAppend(lines: seq<string>, more: seq<string>)
    ensures Terminated(lines + more) == Terminated(lines) + Terminated(more)
    decreases |lines|
  {
    if lines != [] {
      assert (lines + more)[1..] == lines[1..] + more;
      TerminatedAppend(lines[1..], more);
    } else {
      assert lines + more == more;
    }
  }

  /** The accumulated label is every present line followed by a newline. */
  lemma {:induction false} AccumulatedLines(l: Link, attrs: seq<Attr>)
    ensures AccumulatedOf(l, attrs) == Terminated(LinesOf(l, attrs))
    decreases |attrs|
  {
    if attrs != [] {
      var p, a := attrs[..|attrs| - 1], attrs[|attrs| - 1];
      AccumulatedLines(l, p);
      TerminatedAppend(LinesOf(l, p), AttrLine(l, a));
      if TextOf(l, a.key).Some? {
        var x := a.title + TextOf(l, a.key).value + a.unit;
        assert Terminated([x]) == x + "\n" + Terminated([]);
      }
    }
  }

  lemma {:induction false} LinesSolid(l: Link, attrs: seq<Attr>)
    requires forall i :: 0 <= i < |attrs| ==> Framed(attrs[i])
    ensures forall i :: 0 <= i < |LinesOf(l, attrs)| ==> Solid(LinesOf(l, attrs)[i])
    decreases |attrs|
  {
    if attrs != [] {
      var p, a := attrs[..|attrs| - 1], attrs[|attrs| - 1];
      LinesSolid(l, p);
      assert Framed(a);
    }
  }

  /** Stripping the accumulated label removes exactly the final newline, because every
      line starts with its title and ends with its unit. */
  lemma StripLabel(l: Link)
    ensures Strip(AccumulatedOf(l, LabelAttrs)) == JoinLines(LabelLines(l))
  {
    AccumulatedLines(l, LabelAttrs);
    LabelAttrsFramed();
    LinesSolid(l, LabelAttrs);
    var lines := LabelLines(l);
    if lines != [] {
      TerminatedIsJoined(lines);
      var j := JoinLines(lines);
      var s := j + "\n";
      assert s[..|s| - 1] == j;
    }
  }

  lemma AccumulatedStep(l: Link, attrs: seq<Attr>, k: nat)
    requires k < |attrs|
    ensures AccumulatedOf(l, attrs[..k + 1]) == AccumulatedOf(l, attrs[..k]) + Piece(l, attrs[k])
  {
    assert attrs[..k + 1][..k] == attrs[..k];
  }

  /** One `if link.get(key) is not None: label += ...` step of `gen_intra_topo_graph`, for
      the attribute at index `k` of `LabelAttrs`: the label so far gains that attribute's
      line. */
  method AppendAttribute(caption: string, l: Link, k: nat) returns (c: string)
    requires k < |LabelAttrs| && caption == AccumulatedOf(l, LabelAttrs[..k])
    ensures c == AccumulatedOf(l, LabelAttrs[..k + 1])
  {
    var a := LabelAttrs[k];
    c := caption;
    if Get(l, a.key).Some? {
      c := c + (a.title + Get(l, a.key).value.text + a.unit + "\n");
    }
    AccumulatedStep(l, LabelAttrs, k);
  }

  /** The label accumulation of `gen_intra_topo_graph` (start_SCION.py:115-126). */
  method EdgeLabel(l: Link) returns (caption: string)
    ensures caption == JoinLines(LabelLines(l))
  {
    caption := "";
    assert LabelAttrs[..0] == [];
    // BW, Delay, Loss, Jitter and MTU, in this order
    caption := AppendAttribute(caption, l, 0);
    caption := AppendAttribute(caption, l, 1);
    caption := AppendAttribute(caption, l, 2);
    caption := AppendAttribute(caption, l, 3);
    caption := AppendAttribute(caption, l, 4);
    assert LabelAttrs[..5] == LabelAttrs;
    StripLabel(l);
    caption := Strip(caption);
  }

  /** With no attribute present the label is empty; otherwise it has no trailing newline. */
  lemma LabelShape(l: Link)
    ensures LabelLines(l) == [] ==> JoinLines(LabelLines(l)) == ""
    ensures LabelLines(l) != [] ==> Solid(JoinLines(LabelLines(l)))
  {
    if LabelLines(l) != [] {
      LabelAttrsFramed();
      LinesSolid(l, LabelAttrs);
      TerminatedIsJoined(LabelLines(l));
    }
  }

  function LabeledEdges(links: seq<Link>): seq<LabeledEdge>
  {
    seq(|links|, k requires 0 <= k < |links| => LabeledEdge(links[k].a, links[k].b, JoinLines(LabelLines(links[k]))))
  }

  /** The endpoints of the links, gathered from the last link back. */
  function Ends(links: seq<Link>): set<NodeEntry> {
    if links == [] then {} else Ends(links[..|links| - 1]) + {links[|links| - 1].a, links[|links| - 1].b}
  }

  lemma {:induction false} EndsAll(links: seq<Link>)
    ensures Ends(links) == (set k | 0 <= k < |links| :: links[k].a) + (set k | 0 <= k < |links| :: links[k].b)
    decreases |links|
  {
    if links != [] {
      var p := links[..|links| - 1];
      EndsAll(p);
      assert forall k :: 0 <= k < |p| ==> p[k] == links[k];
      assert (set k | 0 <= k < |links| :: links[k].a) == (set k | 0 <= k < |p| :: p[k].a) + {links[|p|].a};
      assert (set k | 0 <= k < |links| :: links[k].b) == (set k | 0 <= k < |p| :: p[k].b) + {links[|p|].b};
    }
  }

  lemma EdgesStep(links: seq<Link>, k: nat)
    requires k < |links|
    ensures links[..k + 1][..k] == links[..k]
    ensures LabeledEdges(links[..k + 1]) ==
            LabeledEdges(links[..k]) + [LabeledEdge(links[k].a, links[k].b, JoinLines(LabelLines(links[k])))]
    ensures GraphEdges(links[..k + 1]) == GraphEdges(links[..k]) + [Reach.Edge(links[k].a, links[k].b)]
  {
  }

  /** The `add_node` loops of `gen_intra_topo_graph` (start_SCION.py:107-110). */
  method AddNodes(all: seq<NodeEntry>) returns (nodes: set<NodeEntry>)
    ensures nodes == set e | e in all
  {
    nodes := {};
    var i := 0;
    while i < |all|
      invariant 0 <= i <= |all|
      invariant forall e :: e in nodes <==> e in all[..i]
    {
      assert all[..i + 1] == all[..i] + [all[i]];
      nodes := nodes + {all[i]};
      i := i + 1;
    }
    assert all[..i] == all;
  }

  /** The `add_edge` loop of `gen_intra_topo_graph` (start_SCION.py:112-127): endpoints join
      the node set, and every link becomes a labelled edge. */
  method AddEdges(links: seq<Link>, nodes0: set<NodeEntry>)
    returns (nodes: set<NodeEntry>, edges: seq<LabeledEdge>, plain: seq<Reach.Edge<NodeEntry>>)
    ensures nodes == nodes0 + Ends(links)
    ensures edges == LabeledEdges(links) && plain == GraphEdges(links)
  {
    nodes, edges, plain := nodes0, [], [];
    var k := 0;
    while k < |links|
      invariant 0 <= k <= |links|
      invariant nodes == nodes0 + Ends(links[..k])
      invariant edges == LabeledEdges(links[..k])
      invariant plain == GraphEdges(links[..k])
    {
      var a, b := links[k].a, links[k].b;
      var caption := EdgeLabel(links[k]);
      EdgesStep(links, k);
      nodes := nodes + {a, b};
      edges := edges + [LabeledEdge(a, b, caption)];
      plain := plain + [Reach.Edge(a, b)];
      k := k + 1;
    }
    assert links[..k] == links;
  }

  /** `gen_intra_topo_graph` (start_SCION.py:104-131): one node per declared node, one
      labelled edge per link (parallel links kept), and the exit when the graph is not
      connected. The graph holds at least one node (networkx raises on the null graph). */
  method GenIntraTopoGraph(t: IntraTopo, asName: string) returns (r: Result<Graph, LaunchError>)
    requires AllEntries(t.nodes) != []
    ensures r.Ok? <==> ConnectedOk(t.nodes, t.links)
    ensures r.Err? ==> r.error == IntraTopologyNotConnected(asName)
    ensures r.Ok? ==> r.value.nodes == GraphVertices(t.nodes, t.links) && r.value.edges == LabeledEdges(t.links)
  {
    var all := CollectEntries(t.nodes);
    var declared := AddNodes(all);
    var nodes, edges, plain := AddEdges(t.links, declared);
    EndsAll(t.links);
    assert nodes == GraphVertices(t.nodes, t.links);
    assert all[0] in nodes;
    var connected := Reach.IsConnected(nodes, plain);
    if !connected {
      return Err(IntraTopologyNotConnected(asName));
    }
    return Ok(Graph(nodes, edges));
  }

  // ---------------------------------------------------------------------------
  // add_link_attributes
  // ---------------------------------------------------------------------------

  /** A command template with one `%s` for the interface name. */
  datatype TcTemplate = TcTemplate(before: string, after: string)

  function Apply(t: TcTemplate, intf: string): string {
    t.before + intf + t.after
  }

  const HtbRoot := TcTemplate("tc qdisc add dev ", " root handle 5:0 htb default 1")

  function HtbClass(bw: int): TcTemplate {
    TcTemplate("tc class add dev ", " parent 5:0 classid 5:1 htb rate " + IntToString(bw) + "Mbit burst 15k")
  }

  function Netem(parent: string, args: string): TcTemplate {
    TcTemplate("tc qdisc add dev ", " " + parent + " handle 10: netem " + args)
  }

  const RootParent := " root "
  const HtbParent := " parent 5:1 "

  /** The messages `add_link_attributes` logs without stopping. */
  datatype TcWarning = BandwidthOutOfRange(bw: int) | BadLossPercentage(loss: real)

  /** The commands run on the two ends of a link, and the warnings logged. */
  datatype TcPlan = TcPlan(br1: seq<string>, br2: seq<string>, cmds: seq<TcTemplate>, warnings: seq<TcWarning>)

  /** Python truthiness of an optional number: present and non-zero. */
  predicate TruthyInt(v: Option<int>) { v.Some? && v.value != 0 }
  predicate TruthyReal(v: Option<real>) { v.Some? && v.value != 0.0 }

  /** The bandwidth is shaped: truthy and within 0..1000. */
  predicate ShapesBandwidth(bw: Option<int>) {
    TruthyInt(bw) && 0 <= bw.value <= 1000
  }

  /** The netem arguments: delay, jitter and a positive loss (`fmtLoss` is `{loss:.5f}`). */
  function NetemArgs(delay: Option<int>, jitter: Option<int>, loss: Option<real>, fmtLoss: real -> string): string {
    (if delay.Some? then "delay " + IntToString(delay.value) + "ms " else "")
    + (if jitter.Some? then IntToString(jitter.value) + "ms " else "")
    + (if loss.Some? && loss.value > 0.0 then "loss " + fmtLoss(loss.value) + " " else "")
  }

  /** A netem command is added exactly when a delay or a jitter is given or the loss is
      positive. */
  lemma NetemArgsPresent(delay: Option<int>, jitter: Option<int>, loss: Option<real>, fmtLoss: real -> string)
    ensures NetemArgs(delay, jitter, loss, fmtLoss) != "" <==>
            delay.Some? || jitter.Some? || (loss.Some? && loss.value > 0.0)
  {
    var s := NetemArgs(delay, jitter, loss, fmtLoss);
    if jitter.Some? {
      var j := IntToString(jitter.value) + "ms ";
      assert |j| > 0;
    }
    if delay.Some? || jitter.Some? || (loss.Some? && loss.value > 0.0) {
      assert |s| > 0;
    }
  }

  /** A loss that is not positive is left out of the arguments, as if absent. */
  lemma NonPositiveLossOmitted(delay: Option<int>, jitter: Option<int>, loss: real, fmtLoss: real -> string)
    requires loss <= 0.0
    ensures NetemArgs(delay, jitter, Some(loss), fmtLoss) == NetemArgs(delay, jitter, None, fmtLoss)
  {
  }

  function MtuCommand(intf: string, mtu: int): string {
    "ip link set dev " + intf + " mtu " + IntToString(mtu)
  }

  function ApplyAll(cmds: seq<TcTemplate>, intf: string): seq<string> {
    seq(|cmds|, i requires 0 <= i < |cmds| => Apply(cmds[i], intf))
  }

  /** `add_link_attributes` (start_SCION.py:232-264) as a command builder. */
  method AddLinkAttributes(intf1: string, intf2: string, mtu: int, bw: Option<int>, delay: Option<int>,
                           jitter: Option<int>, loss: Option<real>, fmtLoss: real -> string)
    returns (plan: TcPlan)
    ensures var parent := if ShapesBandwidth(bw) then HtbParent else RootParent;
            var args := NetemArgs(delay, jitter, loss, fmtLoss);
            plan.cmds == (if ShapesBandwidth(bw) then [HtbRoot, HtbClass(bw.value)] else [])
                         + (if args != "" then [Netem(parent, args)] else [])
    ensures plan.br1 == [MtuCommand(intf1, mtu)] + ApplyAll(plan.cmds, intf1)
    ensures plan.br2 == [MtuCommand(intf2, mtu)] + ApplyAll(plan.cmds, intf2)
    ensures BandwidthOutOfRange(bw.GetOr(0)) in plan.warnings <==> TruthyInt(bw) && !ShapesBandwidth(bw)
    ensures (exists w :: w in plan.warnings && w.BadLossPercentage?) <==>
            TruthyReal(loss) && (loss.value < 0.0 || loss.value > 100.0)
  {
    var br1 := [MtuCommand(intf1, mtu)];
    var br2 := [MtuCommand(intf2, mtu)];
    var warnings: seq<TcWarning> := [];
    var parent := RootParent;
    var cmds: seq<TcTemplate> := [];
    if TruthyInt(bw) && (bw.value < 0 || bw.value > 1000) {
      warnings := warnings + [BandwidthOutOfRange(bw.value)];
    } else if TruthyInt(bw) {
      cmds := cmds + [HtbRoot, HtbClass(bw.value)];
      parent := HtbParent;
    }
    if TruthyReal(loss) && (loss.value < 0.0 || loss.value > 100.0) {
      warnings := warnings + [BadLossPercentage(loss.value)];
      assert warnings[|warnings| - 1].BadLossPercentage?;
    }
    var netemargs := NetemArgs(delay, jitter, loss, fmtLoss);
    if netemargs != "" {
      cmds := cmds + [Netem(parent, netemargs)];
    }
    br1, br2 := RunOnBoth(cmds, br1, br2, intf1, intf2);
    plan := TcPlan(br1, br2, cmds, warnings);
  }

  /** The command loop of `add_link_attributes` (start_SCION.py:262-264): every command,
      in order, on the first router's interface and on the second's. */
  method RunOnBoth(cmds: seq<TcTemplate>, before1: seq<string>, before2: seq<string>, intf1: string, intf2: string)
    returns (br1: seq<string>, br2: seq<string>)
    ensures br1 == before1 + ApplyAll(cmds, intf1)
    ensures br2 == before2 + ApplyAll(cmds, intf2)
  {
    br1, br2 := before1, before2;
    var i := 0;
    while i < |cmds|
      invariant 0 <= i <= |cmds|
      invariant br1 == before1 + ApplyAll(cmds[..i], intf1)
      invariant br2 == before2 + ApplyAll(cmds[..i], intf2)
    {
      assert ApplyAll(cmds[..i + 1], intf1) == ApplyAll(cmds[..i], intf1) + [Apply(cmds[i], intf1)];
      assert ApplyAll(cmds[..i + 1], intf2) == ApplyAll(cmds[..i], intf2) + [Apply(cmds[i], intf2)];
      br1 := br1 + [Apply(cmds[i], intf1)];
      br2 := br2 + [Apply(cmds[i], intf2)];
      i := i + 1;
    }
    assert cmds[..i] == cmds;
  }

  // ---------------------------------------------------------------------------
  // add_inter_AS_links
  // ---------------------------------------------------------------------------

  /** One interface of a border router in the AS's topology.json. */
  datatype Interface = Interface(ifid: string, publicUnderlay: string, remoteUnderlay: string, isdAs: string,
                                 mtu: int, bw: Option<int>, delay: Option<int>, jitter: Option<int>,
                                 loss: Option<real>)

  datatype BorderRouter = BorderRouter(fullName: string, interfaces: seq<Interface>)

  /** A border-router host in a Mininet network (its name and process id). */
  datatype BRNode = BRNode(name: string, pid: int)

  /** What wiring one interface does: the commands run on both routers and the two
      `links_created` entries. */
  datatype WiredLink = WiredLink(subnet: string, br1: BRNode, br2: BRNode, cmds1: seq<string>, cmds2: seq<string>,
                                 created1: string, created2: string)

  /** The exceptions `add_inter_AS_links` raises (explicitly, or as KeyError/ValueError/IndexError). */
  datatype WiringError =
    | BadRouterName(fullName: string)
    | SubnetNotFound(localIp: string)
    | PeerNotFound(remoteIp: string)
    | PeerNameWithoutAt(key: string)
    | UnknownInterface(key: string)
    | BadInterfaceMapping(value: string)
    | UnknownAS(asName: string)
    | RouterNotInNetwork(name1: string, name2: string)

  predicate HasIp(entries: seq<SectionEntry>, ip: string) {
    exists k :: 0 <= k < |entries| && entries[k].value == ip
  }

  /** The last subnet of the list whose section holds the IP. */
  function LastSubnetWith(brSubnets: seq<string>, config: map<string, seq<SectionEntry>>, ip: string): (r: Option<string>)
    requires forall s :: s in brSubnets ==> s in config
    ensures r.Some? ==> r.value in brSubnets
    decreases |brSubnets|
  {
    if brSubnets == [] then None
    else if HasIp(config[brSubnets[|brSubnets| - 1]], ip) then Some(brSubnets[|brSubnets| - 1])
    else LastSubnetWith(brSubnets[..|brSubnets| - 1], config, ip)
  }

  /** `LastSubnetWith` is none exactly when no subnet holds the IP, and otherwise a subnet
      holding it after which none does. */
  lemma {:induction false} LastSubnetWithIsLast(brSubnets: seq<string>, config: map<string, seq<SectionEntry>>, ip: string)
    requires forall s :: s in brSubnets ==> s in config
    ensures LastSubnetWith(brSubnets, config, ip).None? <==>
              forall i :: 0 <= i < |brSubnets| ==> !HasIp(config[brSubnets[i]], ip)
    ensures LastSubnetWith(brSubnets, config, ip).Some? ==>
              (exists i :: 0 <= i < |brSubnets| && brSubnets[i] == LastSubnetWith(brSubnets, config, ip).value &&
                 HasIp(config[brSubnets[i]], ip) &&
                 forall j :: i < j < |brSubnets| ==> !HasIp(config[brSubnets[j]], ip))
    decreases |brSubnets|
  {
    if brSubnets != [] {
      var n := |brSubnets| - 1;
      var init := brSubnets[..n];
      if HasIp(config[brSubnets[n]], ip) {
        assert LastSubnetWith(brSubnets, config, ip) == Some(brSubnets[n]);
      } else {
        assert LastSubnetWith(brSubnets, config, ip) == LastSubnetWith(init, config, ip);
        LastSubnetWithIsLast(init, config, ip);
        if LastSubnetWith(init, config, ip).Some? {
          var i :| 0 <= i < |init| && init[i] == LastSubnetWith(init, config, ip).value &&
                   HasIp(config[init[i]], ip) && forall j :: i < j < |init| ==> !HasIp(config[init[j]], ip);
          assert brSubnets[i] == init[i];
          forall j | i < j < |brSubnets| ensures !HasIp(config[brSubnets[j]], ip) {
            if j < n {
              assert brSubnets[j] == init[j];
            }
          }
        } else {
          forall i | 0 <= i < |brSubnets| ensures !HasIp(config[brSubnets[i]], ip) {
            if i < n {
              assert brSubnets[i] == init[i];
            }
          }
        }
      }
    }
  }

  /** The subnet loop of `add_inter_AS_links` (start_SCION.py:177-185): the `break` only
      leaves the inner loop, so the last subnet in the list holding the IP is chosen. */
  method FindGoodSubnet(brSubnets: seq<string>, config: map<string, seq<SectionEntry>>, localIp: string)
    returns (good: Option<string>)
    requires forall s :: s in brSubnets ==> s in config
    ensures good == LastSubnetWith(brSubnets, config, localIp)
    ensures good.None? <==> forall i :: 0 <= i < |brSubnets| ==> !HasIp(config[brSubnets[i]], localIp)
    ensures good.Some? ==>
              (exists i :: 0 <= i < |brSubnets| && brSubnets[i] == good.value &&
                 HasIp(config[brSubnets[i]], localIp) &&
                 forall j :: i < j < |brSubnets| ==> !HasIp(config[brSubnets[j]], localIp))
  {
    good := None;
    var i := 0;
    while i < |brSubnets|
      invariant 0 <= i <= |brSubnets|
      invariant good == LastSubnetWith(brSubnets[..i], config, localIp)
    {
      assert brSubnets[..i + 1][..i] == brSubnets[..i];
      var entries := config[brSubnets[i]];
      var k := 0;
      while k < |entries|
        invariant 0 <= k <= |entries|
        invariant forall m :: 0 <= m < k ==> entries[m].value != localIp
      {
        if entries[k].value == localIp {
          good := Some(brSubnets[i]);
          break;
        }
        k := k + 1;
      }
      i := i + 1;
    }
    assert brSubnets[..i] == brSubnets;
    LastSubnetWithIsLast(brSubnets, config, localIp);
  }

  /** The peer named in a section: the first entry holding the remote IP, by the text
      between the first and second '@' of its name. */
  function PeerIn(entries: seq<SectionEntry>, remoteIp: string): (r: Result<string, WiringError>)
    ensures r.Err? ==> r.error == PeerNotFound(remoteIp) || r.error.PeerNameWithoutAt?
    decreases |entries|
  {
    if entries == [] then Err(PeerNotFound(remoteIp))
    else if entries[0].value == remoteIp then
      var parts := Split(entries[0].key, "@");
      if |parts| < 2 then Err(PeerNameWithoutAt(entries[0].key)) else Ok(parts[1])
    else PeerIn(entries[1..], remoteIp)
  }

  /** `PeerIn` reads the first entry holding the remote IP, and fails with PeerNotFound
      exactly when no entry holds it. */
  lemma {:induction false} PeerInFirstMatch(entries: seq<SectionEntry>, remoteIp: string)
    ensures PeerIn(entries, remoteIp).Ok? ==>
              (exists k :: 0 <= k < |entries| && entries[k].value == remoteIp &&
                 (forall m :: 0 <= m < k ==> entries[m].value != remoteIp) &&
                 |Split(entries[k].key, "@")| >= 2 && PeerIn(entries, remoteIp).value == Split(entries[k].key, "@")[1])
    ensures PeerIn(entries, remoteIp) == Err(PeerNotFound(remoteIp)) <==> !HasIp(entries, remoteIp)
    decreases |entries|
  {
    if entries != [] && entries[0].value != remoteIp {
      var rest := entries[1..];
      PeerInFirstMatch(rest, remoteIp);
      if PeerIn(rest, remoteIp).Ok? {
        var k :| 0 <= k < |rest| && rest[k].value == remoteIp &&
                 (forall m :: 0 <= m < k ==> rest[m].value != remoteIp) &&
                 |Split(rest[k].key, "@")| >= 2 && PeerIn(rest, remoteIp).value == Split(rest[k].key, "@")[1];
        assert entries[k + 1] == rest[k];
        forall m | 0 <= m < k + 1 ensures entries[m].value != remoteIp {
          if m > 0 {
            assert entries[m] == rest[m - 1];
          }
        }
      }
      if HasIp(entries, remoteIp) {
        var k :| 0 <= k < |entries| && entries[k].value == remoteIp;
        assert rest[k - 1] == entries[k];
      }
      if HasIp(rest, remoteIp) {
        var k :| 0 <= k < |rest| && rest[k].value == remoteIp;
        assert entries[k + 1] == rest[k];
      }
    } else if entries != [] {
      assert HasIp(entries, remoteIp);
    }
  }

  /** The peer loop of `add_inter_AS_links` (start_SCION.py:187-195): the first entry with
      the remote IP names the peer by the text between the first and second '@' of its
      name (`split('@')[1]`). */
  method FindPeer(entries: seq<SectionEntry>, remoteIp: string) returns (r: Result<string, WiringError>)
    ensures r == PeerIn(entries, remoteIp)
    ensures r.Ok? ==>
              (exists k :: 0 <= k < |entries| && entries[k].value == remoteIp &&
                 (forall m :: 0 <= m < k ==> entries[m].value != remoteIp) &&
                 |Split(entries[k].key, "@")| >= 2 && r.value == Split(entries[k].key, "@")[1])
    ensures r == Err(PeerNotFound(remoteIp)) <==> !HasIp(entries, remoteIp)
    ensures r.Err? ==> r.error.PeerNotFound? || r.error.PeerNameWithoutAt?
  {
    PeerInFirstMatch(entries, remoteIp);
    var k := 0;
    while k < |entries|
      invariant 0 <= k <= |entries|
      invariant PeerIn(entries[k..], remoteIp) == PeerIn(entries, remoteIp)
    {
      assert entries[k..][1..] == entries[k + 1..];
      if entries[k].value == remoteIp {
        var parts := Split(entries[k].key, "@");
        if |parts| < 2 {
          return Err(PeerNameWithoutAt(entries[k].key));
        }
        return Ok(parts[1]);
      }
      k := k + 1;
    }
    return Err(PeerNotFound(remoteIp));
  }

  /** The last router of the list with the name. */
  function LastRouterNamed(brs: seq<BRNode>, name: string): (r: Option<BRNode>)
    ensures r.Some? ==> r.value in brs && r.value.name == name
    decreases |brs|
  {
    if brs == [] then None
    else if brs[|brs| - 1].name == name then Some(brs[|brs| - 1])
    else LastRouterNamed(brs[..|brs| - 1], name)
  }

  /** `LastRouterNamed` is none exactly when no router has the name, and otherwise a
      router with the name after which none has it. */
  lemma {:induction false} LastRouterNamedIsLast(brs: seq<BRNode>, name: string)
    ensures LastRouterNamed(brs, name).None? <==> forall k :: 0 <= k < |brs| ==> brs[k].name != name
    ensures LastRouterNamed(brs, name).Some? ==>
              (exists k :: 0 <= k < |brs| && brs[k] == LastRouterNamed(brs, name).value && brs[k].name == name &&
                 forall m :: k < m < |brs| ==> brs[m].name != name)
    decreases |brs|
  {
    if brs != [] {
      var n := |brs| - 1;
      var init := brs[..n];
      if brs[n].name == name {
        assert LastRouterNamed(brs, name) == Some(brs[n]);
      } else {
        assert LastRouterNamed(brs, name) == LastRouterNamed(init, name);
        LastRouterNamedIsLast(init, name);
        if LastRouterNamed(init, name).Some? {
          var k :| 0 <= k < |init| && init[k] == LastRouterNamed(init, name).value && init[k].name == name &&
                   forall m :: k < m < |init| ==> init[m].name != name;
          assert brs[k] == init[k];
          forall m | k < m < |brs| ensures brs[m].name != name {
            if m < n {
              assert brs[m] == init[m];
            }
          }
        } else {
          forall k | 0 <= k < |brs| ensures brs[k].name != name {
            if k < n {
              assert brs[k] == init[k];
            }
          }
        }
      }
    }
  }

  /** The router loops of `add_inter_AS_links` (start_SCION.py:202-207): no `break`, so the
      last router with the name is kept. */
  method FindRouter(brs: seq<BRNode>, name: string) returns (found: Option<BRNode>)
    ensures found == LastRouterNamed(brs, name)
    ensures found.None? <==> forall k :: 0 <= k < |brs| ==> brs[k].name != name
    ensures found.Some? ==>
              (exists k :: 0 <= k < |brs| && brs[k] == found.value && brs[k].name == name &&
                 forall m :: k < m < |brs| ==> brs[m].name != name)
  {
    found := None;
    var k := 0;
    while k < |brs|
      invariant 0 <= k <= |brs|
      invariant found == LastRouterNamed(brs[..k], name)
    {
      assert brs[..k + 1][..k] == brs[..k];
      if brs[k].name == name {
        found := Some(brs[k]);
      }
      k := k + 1;
    }
    assert brs[..k] == brs;
    LastRouterNamedIsLast(brs, name);
  }

  /** `ip:port` to `ip` (`split(':')[0]`). */
  function HostPart(underlay: string): string {
    Split(underlay, ":")[0]
  }

  /** The traffic-control commands `add_link_attributes` plans for a link: the HTB pair
      when the bandwidth is shaped, then a netem command when there are netem arguments. */
  function TcCommands(bw: Option<int>, delay: Option<int>, jitter: Option<int>, loss: Option<real>,
                      fmtLoss: real -> string): seq<TcTemplate>
  {
    var parent := if ShapesBandwidth(bw) then HtbParent else RootParent;
    var args := NetemArgs(delay, jitter, loss, fmtLoss);
    (if ShapesBandwidth(bw) then [HtbRoot, HtbClass(bw.value)] else [])
    + (if args != "" then [Netem(parent, args)] else [])
  }

  /** The commands run on the local router for an interface: create the veth pair into the
      peer's namespace, address the local end, then the MTU and traffic-control commands. */
  function LocalCommands(intf: Interface, peerIfid: string, peerPid: int, fmtLoss: real -> string): seq<string> {
    var intf1 := "veth-" + intf.ifid;
    var intf2 := "veth-" + peerIfid;
    var addr1 := HostPart(intf.publicUnderlay) + "/31";
    ["ip link add " + intf1 + " type veth peer name " + intf2 + " netns " + IntToString(peerPid),
     "ifconfig " + intf1 + " " + addr1]
    + ([MtuCommand(intf1, intf.mtu)] + ApplyAll(TcCommands(intf.bw, intf.delay, intf.jitter, intf.loss, fmtLoss), intf1))
  }

  /** The commands run on the peer router: address its end, then the MTU and
      traffic-control commands. */
  function PeerCommands(intf: Interface, peerIfid: string, fmtLoss: real -> string): seq<string> {
    var intf2 := "veth-" + peerIfid;
    var addr2 := HostPart(intf.remoteUnderlay) + "/31";
    ["ifconfig " + intf2 + " " + addr2]
    + ([MtuCommand(intf2, intf.mtu)] + ApplyAll(TcCommands(intf.bw, intf.delay, intf.jitter, intf.loss, fmtLoss), intf2))
  }

  /** What wiring one interface of border router `br1Name` (Mininet host `inNetBR1Name`)
      of AS `asName` yields, step by step as in start_SCION.py:169-229: the subnet is the
      last border subnet holding the local IP; the peer host is the first entry of that
      subnet with the remote IP; the peer router and interface come from the border-router
      map; both hosts are the last ones with their names in their AS's network. */
  function WireOutcome(asName: string, br1Name: string, inNetBR1Name: string, intf: Interface,
                       brSubnets: seq<string>, config: map<string, seq<SectionEntry>>,
                       brDict: map<string, string>, networks: map<string, seq<BRNode>>,
                       fmtLoss: real -> string): Result<WiredLink, WiringError>
    requires forall s :: s in brSubnets ==> s in config
    requires asName in networks
  {
    var localIp := HostPart(intf.publicUnderlay);
    var remoteIp := HostPart(intf.remoteUnderlay);
    var key := br1Name + " " + intf.ifid;
    var subnet := LastSubnetWith(brSubnets, config, localIp);
    if subnet.None? then Err(SubnetNotFound(localIp))
    else
      var peer := PeerIn(config[subnet.value], remoteIp);
      if peer.Err? then Err(peer.error)
      else if key !in brDict then Err(UnknownInterface(key))
      else if |Words(brDict[key])| != 2 then Err(BadInterfaceMapping(brDict[key]))
      else if intf.isdAs !in networks then Err(UnknownAS(intf.isdAs))
      else
        var words := Words(brDict[key]);
        var br1 := LastRouterNamed(networks[asName], inNetBR1Name);
        var br2 := LastRouterNamed(networks[intf.isdAs], peer.value);
        if br1.None? || br2.None? then Err(RouterNotInNetwork(inNetBR1Name, peer.value))
        else Ok(WiredLink(subnet.value, br1.value, br2.value,
                          LocalCommands(intf, words[1], br2.value.pid, fmtLoss), PeerCommands(intf, words[1], fmtLoss),
                          key, words[0] + " " + words[1]))
  }

  /** The error cases of wiring one interface, each exactly when its step is the first to
      fail. */
  lemma WireOutcomeErrors(asName: string, br1Name: string, inNetBR1Name: string, intf: Interface,
                         brSubnets: seq<string>, config: map<string, seq<SectionEntry>>,
                         brDict: map<string, string>, networks: map<string, seq<BRNode>>,
                         fmtLoss: real -> string)
    requires forall s :: s in brSubnets ==> s in config
    requires asName in networks
    ensures var r := WireOutcome(asName, br1Name, inNetBR1Name, intf, brSubnets, config, brDict, networks, fmtLoss);
            var localIp := HostPart(intf.publicUnderlay);
            var remoteIp := HostPart(intf.remoteUnderlay);
            var key := br1Name + " " + intf.ifid;
            var subnet := LastSubnetWith(brSubnets, config, localIp);
            (r == Err(SubnetNotFound(localIp)) <==>
               forall i :: 0 <= i < |brSubnets| ==> !HasIp(config[brSubnets[i]], localIp))
            && (r == Err(PeerNotFound(remoteIp)) <==>
                  subnet.Some? && !HasIp(config[subnet.value], remoteIp))
            && (r == Err(UnknownInterface(key)) <==>
                  subnet.Some? && PeerIn(config[subnet.value], remoteIp).Ok? && key !in brDict)
            && (r.Err? && r.error.BadInterfaceMapping? <==>
                  subnet.Some? && PeerIn(config[subnet.value], remoteIp).Ok? && key in brDict
                  && |Words(brDict[key])| != 2)
  {
    var r := WireOutcome(asName, br1Name, inNetBR1Name, intf, brSubnets, config, brDict, networks, fmtLoss);
    var localIp := HostPart(intf.publicUnderlay);
    var remoteIp := HostPart(intf.remoteUnderlay);
    var key := br1Name + " " + intf.ifid;
    var subnet := LastSubnetWith(brSubnets, config, localIp);
    LastSubnetWithIsLast(brSubnets, config, localIp);
    if subnet.None? {
      assert r == Err(SubnetNotFound(localIp));
    } else {
      var peer := PeerIn(config[subnet.value], remoteIp);
      PeerInFirstMatch(config[subnet.value], remoteIp);
      if peer.Err? {
        assert r == Err(peer.error);
      } else if key !in brDict {
        assert r == Err(UnknownInterface(key));
      } else if |Words(brDict[key])| != 2 {
        assert r == Err(BadInterfaceMapping(brDict[key]));
      } else {
        assert r.Ok? || r.error.UnknownAS? || r.error.RouterNotInNetwork?;
      }
    }
  }

  /** On success the subnet holds both IPs and is the last one holding the local IP. */
  lemma WireOutcomeSuccess(asName: string, br1Name: string, inNetBR1Name: string, intf: Interface,
                         brSubnets: seq<string>, config: map<string, seq<SectionEntry>>,
                         brDict: map<string, string>, networks: map<string, seq<BRNode>>,
                         fmtLoss: real -> string)
    requires forall s :: s in brSubnets ==> s in config
    requires asName in networks
    ensures var r := WireOutcome(asName, br1Name, inNetBR1Name, intf, brSubnets, config, brDict, networks, fmtLoss);
            var localIp := HostPart(intf.publicUnderlay);
            var remoteIp := HostPart(intf.remoteUnderlay);
            var key := br1Name + " " + intf.ifid;
            var subnet := LastSubnetWith(brSubnets, config, localIp);
            (r.Ok? ==>
                  subnet == Some(r.value.subnet)
                  && HasIp(config[r.value.subnet], localIp) && HasIp(config[r.value.subnet], remoteIp)
                  && (exists i :: 0 <= i < |brSubnets| && brSubnets[i] == r.value.subnet &&
                        forall j :: i < j < |brSubnets| ==> !HasIp(config[brSubnets[j]], localIp))
                  && PeerIn(config[r.value.subnet], remoteIp) == Ok(r.value.br2.name)
                  && r.value.br1.name == inNetBR1Name && r.value.br1 in networks[asName]
                  && intf.isdAs in networks && r.value.br2 in networks[intf.isdAs])
  {
    var r := WireOutcome(asName, br1Name, inNetBR1Name, intf, brSubnets, config, brDict, networks, fmtLoss);
    if r.Ok? {
      var localIp := HostPart(intf.publicUnderlay);
      var remoteIp := HostPart(intf.remoteUnderlay);
      var subnet := LastSubnetWith(brSubnets, config, localIp);
      assert subnet.Some? && r.value.subnet == subnet.value;
      var peer := PeerIn(config[subnet.value], remoteIp);
      assert peer.Ok?;
      var br1 := LastRouterNamed(networks[asName], inNetBR1Name);
      var br2 := LastRouterNamed(networks[intf.isdAs], peer.value);
      assert r.value.br1 == br1.value && r.value.br2 == br2.value;
      LastSubnetWithIsLast(brSubnets, config, localIp);
      PeerInFirstMatch(config[subnet.value], remoteIp);
      var k :| 0 <= k < |config[subnet.value]| && config[subnet.value][k].value == remoteIp;
      assert HasIp(config[subnet.value], remoteIp);
    }
  }

  /** The error cases of wiring one interface, each exactly when its step is the first to
      fail; and on success the subnet holds both IPs and comes after every other subnet
      holding the local one. */
  lemma WireOutcomeCases(asName: string, br1Name: string, inNetBR1Name: string, intf: Interface,
                         brSubnets: seq<string>, config: map<string, seq<SectionEntry>>,
                         brDict: map<string, string>, networks: map<string, seq<BRNode>>,
                         fmtLoss: real -> string)
    requires forall s :: s in brSubnets ==> s in config
    requires asName in networks
    ensures var r := WireOutcome(asName, br1Name, inNetBR1Name, intf, brSubnets, config, brDict, networks, fmtLoss);
            var localIp := HostPart(intf.publicUnderlay);
            var remoteIp := HostPart(intf.remoteUnderlay);
            var key := br1Name + " " + intf.ifid;
            var subnet := LastSubnetWith(brSubnets, config, localIp);
            (r == Err(SubnetNotFound(localIp)) <==>
               forall i :: 0 <= i < |brSubnets| ==> !HasIp(config[brSubnets[i]], localIp))
            && (r == Err(PeerNotFound(remoteIp)) <==>
                  subnet.Some? && !HasIp(config[subnet.value], remoteIp))
            && (r == Err(UnknownInterface(key)) <==>
                  subnet.Some? && PeerIn(config[subnet.value], remoteIp).Ok? && key !in brDict)
            && (r.Err? && r.error.BadInterfaceMapping? <==>
                  subnet.Some? && PeerIn(config[subnet.value], remoteIp).Ok? && key in brDict
                  && |Words(brDict[key])| != 2)
            && (r.Ok? ==>
                  subnet == Some(r.value.subnet)
                  && HasIp(config[r.value.subnet], localIp) && HasIp(config[r.value.subnet], remoteIp)
                  && (exists i :: 0 <= i < |brSubnets| && brSubnets[i] == r.value.subnet &&
                        forall j :: i < j < |brSubnets| ==> !HasIp(config[brSubnets[j]], localIp))
                  && PeerIn(config[r.value.subnet], remoteIp) == Ok(r.value.br2.name)
                  && r.value.br1.name == inNetBR1Name && r.value.br1 in networks[asName]
                  && intf.isdAs in networks && r.value.br2 in networks[intf.isdAs])
  {
    WireOutcomeErrors(asName, br1Name, inNetBR1Name, intf, brSubnets, config, brDict, networks, fmtLoss);
    WireOutcomeSuccess(asName, br1Name, inNetBR1Name, intf, brSubnets, config, brDict, networks, fmtLoss);
  }

  /** The body of the interface loop of `add_inter_AS_links` (start_SCION.py:169-229). */
  method WireInterface(asName: string, br1Name: string, inNetBR1Name: string, intf: Interface,
                       brSubnets: seq<string>, config: map<string, seq<SectionEntry>>,
                       brDict: map<string, string>, networks: map<string, seq<BRNode>>,
                       fmtLoss: real -> string)
    returns (r: Result<WiredLink, WiringError>)
    requires forall s :: s in brSubnets ==> s in config
    requires asName in networks
    ensures r == WireOutcome(asName, br1Name, inNetBR1Name, intf, brSubnets, config, brDict, networks, fmtLoss)
    ensures r.Ok? ==> r.value.created1 == br1Name + " " + intf.ifid
    ensures r.Ok? ==> br1Name + " " + intf.ifid in brDict
    ensures r.Ok? ==> |Words(brDict[br1Name + " " + intf.ifid])| == 2 &&
                      r.value.created2 == Words(brDict[br1Name + " " + intf.ifid])[0] + " " + Words(brDict[br1Name + " " + intf.ifid])[1]
    ensures r.Ok? ==> r.value.cmds1 == LocalCommands(intf, Words(brDict[br1Name + " " + intf.ifid])[1], r.value.br2.pid, fmtLoss)
                      && r.value.cmds2 == PeerCommands(intf, Words(brDict[br1Name + " " + intf.ifid])[1], fmtLoss)
  {
    var localIp := HostPart(intf.publicUnderlay);
    var remoteIp := HostPart(intf.remoteUnderlay);
    var addr1 := localIp + "/31";
    var addr2 := remoteIp + "/31";
    var as2 := intf.isdAs;
    var goodSubnet := FindGoodSubnet(brSubnets, config, localIp);
    if goodSubnet.None? {
      return Err(SubnetNotFound(localIp));
    }
    var peer := FindPeer(config[goodSubnet.value], remoteIp);
    if peer.Err? {
      return Err(peer.error);
    }
    var inNetBR2Name := peer.value;
    var key := br1Name + " " + intf.ifid;
    if key !in brDict {
      return Err(UnknownInterface(key));
    }
    var words := Words(brDict[key]);
    if |words| != 2 {
      return Err(BadInterfaceMapping(brDict[key]));
    }
    var br2Name, br2Ifid := words[0], words[1];
    var inNetBR1 := FindRouter(networks[asName], inNetBR1Name);
    if as2 !in networks {
      return Err(UnknownAS(as2));
    }
    var inNetBR2 := FindRouter(networks[as2], inNetBR2Name);
    if inNetBR1.None? || inNetBR2.None? {
      return Err(RouterNotInNetwork(inNetBR1Name, inNetBR2Name));
    }
    var intf1 := "veth-" + intf.ifid;
    var intf2 := "veth-" + br2Ifid;
    var cmds1 := ["ip link add " + intf1 + " type veth peer name " + intf2 + " netns " + IntToString(inNetBR2.value.pid),
                  "ifconfig " + intf1 + " " + addr1];
    var cmds2 := ["ifconfig " + intf2 + " " + addr2];
    var plan := AddLinkAttributes(intf1, intf2, intf.mtu, intf.bw, intf.delay, intf.jitter, intf.loss, fmtLoss);
    assert plan.cmds == TcCommands(intf.bw, intf.delay, intf.jitter, intf.loss, fmtLoss);
    assert cmds1 + plan.br1 == LocalCommands(intf, br2Ifid, inNetBR2.value.pid, fmtLoss);
    assert cmds2 + plan.br2 == PeerCommands(intf, br2Ifid, fmtLoss);
    return Ok(WiredLink(goodSubnet.value, inNetBR1.value, inNetBR2.value, cmds1 + plan.br1, cmds2 + plan.br2,
                        key, br2Name + " " + br2Ifid));
  }

  /** The `links_created` entries added for the wired interfaces. */
  function CreatedBy(wired: seq<WiredLink>): set<string> {
    if wired == [] then {}
    else CreatedBy(wired[..|wired| - 1]) + {wired[|wired| - 1].created1, wired[|wired| - 1].created2}
  }

  lemma CreatedStep(base: set<string>, created: set<string>, wired: seq<WiredLink>, w: WiredLink)
    requires created == base + CreatedBy(wired)
    ensures created + {w.created1, w.created2} == base + CreatedBy(wired + [w])
  {
    assert (wired + [w])[..|wired|] == wired;
  }

  /** The wired links are those of the first `|wired|` interfaces, each as `WireOutcome`
      says. */
  ghost predicate WiredInOrder(asName: string, br1Name: string, inNetBR1Name: string, interfaces: seq<Interface>,
                               brSubnets: seq<string>, config: map<string, seq<SectionEntry>>,
                               brDict: map<string, string>, networks: map<string, seq<BRNode>>,
                               fmtLoss: real -> string, wired: seq<WiredLink>)
    requires forall s :: s in brSubnets ==> s in config
    requires asName in networks
    decreases |wired|
  {
    |wired| <= |interfaces| &&
    (wired != [] ==>
       WiredInOrder(asName, br1Name, inNetBR1Name, interfaces, brSubnets, config, brDict, networks, fmtLoss,
                    wired[..|wired| - 1])
       && WireOutcome(asName, br1Name, inNetBR1Name, interfaces[|wired| - 1], brSubnets, config, brDict, networks,
                      fmtLoss) == Ok(wired[|wired| - 1]))
  }

  /** Each wired link is its interface's `WireOutcome`. */
  lemma {:induction false} WiredAt(asName: string, br1Name: string, inNetBR1Name: string, interfaces: seq<Interface>,
                                   brSubnets: seq<string>, config: map<string, seq<SectionEntry>>,
                                   brDict: map<string, string>, networks: map<string, seq<BRNode>>,
                                   fmtLoss: real -> string, wired: seq<WiredLink>, k: nat)
    requires forall s :: s in brSubnets ==> s in config
    requires asName in networks
    requires WiredInOrder(asName, br1Name, inNetBR1Name, interfaces, brSubnets, config, brDict, networks, fmtLoss, wired)
    requires k < |wired|
    ensures k < |interfaces|
    ensures WireOutcome(asName, br1Name, inNetBR1Name, interfaces[k], brSubnets, config, brDict, networks, fmtLoss)
            == Ok(wired[k])
    decreases |wired|
  {
    if k < |wired| - 1 {
      var init := wired[..|wired| - 1];
      assert init[k] == wired[k];
      WiredAt(asName, br1Name, inNetBR1Name, interfaces, brSubnets, config, brDict, networks, fmtLoss, init, k);
    }
  }

  /** The router name and Mininet host name of a border router's full name
      (`split('-@')`). */
  function RouterNames(fullName: string): seq<string> {
    Split(fullName, "-@")
  }

  /** `add_inter_AS_links` (start_SCION.py:156-230), as written: the `return` sits inside
      the loop over border routers, so only the first one is wired, and an AS without
      border routers returns None. Its interfaces are wired in order, each as
      `WireOutcome` says, until one fails; `links_created` is only added to, and what was
      added before an exception stays added. */
  method AddInterASLinks(asName: string, brSubnets: seq<string>, config: map<string, seq<SectionEntry>>,
                         borderRouters: seq<BorderRouter>, brDict: map<string, string>,
                         networks: map<string, seq<BRNode>>, linksCreated: set<string>, fmtLoss: real -> string)
    returns (r: Result<Option<set<string>>, WiringError>, created: set<string>, wired: seq<WiredLink>)
    requires forall s :: s in brSubnets ==> s in config
    requires asName in networks
    ensures linksCreated <= created
    ensures created == linksCreated + CreatedBy(wired)
    ensures borderRouters == [] ==> r == Ok(None) && wired == []
    ensures borderRouters != [] && |RouterNames(borderRouters[0].fullName)| != 2 ==>
              r == Err(BadRouterName(borderRouters[0].fullName)) && wired == []
    ensures r.Ok? && borderRouters != [] ==> r.value == Some(created) && |wired| == |borderRouters[0].interfaces|
    ensures r.Err? ==> borderRouters != [] && |wired| <= |borderRouters[0].interfaces|
    ensures wired != [] ==> borderRouters != [] && |wired| <= |borderRouters[0].interfaces|
                            && |RouterNames(borderRouters[0].fullName)| == 2
    ensures wired != [] ==>
              WiredInOrder(asName, RouterNames(borderRouters[0].fullName)[0], RouterNames(borderRouters[0].fullName)[1],
                           borderRouters[0].interfaces, brSubnets, config, brDict, networks, fmtLoss, wired)
    ensures r.Err? && |RouterNames(borderRouters[0].fullName)| == 2 ==>
              |wired| < |borderRouters[0].interfaces| &&
              WireOutcome(asName, RouterNames(borderRouters[0].fullName)[0], RouterNames(borderRouters[0].fullName)[1],
                          borderRouters[0].interfaces[|wired|], brSubnets, config, brDict, networks, fmtLoss) == Err(r.error)
  {
    created := linksCreated;
    wired := [];
    if borderRouters == [] {
      return Ok(None), created, wired;
    }
    var br := borderRouters[0];
    var names := RouterNames(br.fullName);
    if |names| != 2 {
      return Err(BadRouterName(br.fullName)), created, wired;
    }
    var br1Name, inNetBR1Name := names[0], names[1];
    var k := 0;
    while k < |br.interfaces|
      invariant 0 <= k <= |br.interfaces|
      invariant |wired| == k
      invariant created == linksCreated + CreatedBy(wired)
      invariant WiredInOrder(asName, br1Name, inNetBR1Name, br.interfaces, brSubnets, config, brDict, networks, fmtLoss, wired)
    {
      var w := WireInterface(asName, br1Name, inNetBR1Name, br.interfaces[k], brSubnets, config, brDict, networks, fmtLoss);
      if w.Err? {
        return Err(w.error), created, wired;
      }
      CreatedStep(linksCreated, created, wired, w.value);
      assert (wired + [w.value])[..|wired|] == wired;
      created := created + {w.value.created1, w.value.created2};
      wired := wired + [w.value];
      k := k + 1;
    }
    return Ok(Some(created)), created, wired;
  }
}

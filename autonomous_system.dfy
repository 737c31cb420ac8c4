/** The Mininet side of one AS in intra-AS-simulation/AutonomousSystem.py: splitting the
    networks file into the AS's own subnets and its border subnets (`gen_subnets`),
    handing every intra-AS link its own subnet (`Intra_AS_Topo.get_addresses`) and
    turning the pruned intra-topology dictionary into hosts, links and the per-link
    MTU table (`Intra_AS_Topo.build`). */
module AutonomousSystem {
  import opened Wrappers
  import opened Text
  import opened TopologyConfig
  import RoutingProtocols

  // ---------------------------------------------------------------------------
  // gen_subnets
  // ---------------------------------------------------------------------------

  /** Every entry name of the section contains the AS's full name (`all()`, true for an
      empty section). */
  predicate AllNamed(entries: seq<SectionEntry>, fullName: string) {
    forall k :: 0 <= k < |entries| ==> Contains(entries[k].key, fullName)
  }

  /** Some entry name of the section contains the AS's full name (`any()`). */
  predicate AnyNamed(entries: seq<SectionEntry>, fullName: string) {
    exists k :: 0 <= k < |entries| && Contains(entries[k].key, fullName)
  }

  /** The sections that belong to the AS, in file order. */
  function OwnSubnets(sections: seq<string>, config: map<string, seq<SectionEntry>>, fullName: string): seq<string>
    requires forall s :: s in sections ==> s in config
    decreases |sections|
  {
    if sections == [] then []
    else
      var s := sections[|sections| - 1];
      OwnSubnets(sections[..|sections| - 1], config, fullName)
        + (if AllNamed(config[s], fullName) then [s] else [])
  }

  /** The sections the AS shares with another AS: some but not all names are its own. */
  function BorderSubnets(sections: seq<string>, config: map<string, seq<SectionEntry>>, fullName: string): seq<string>
    requires forall s :: s in sections ==> s in config
    decreases |sections|
  {
    if sections == [] then []
    else
      var s := sections[|sections| - 1];
      BorderSubnets(sections[..|sections| - 1], config, fullName)
        + (if !AllNamed(config[s], fullName) && AnyNamed(config[s], fullName) then [s] else [])
  }

  /** A subnet is the AS's own exactly when all of its names are, and a border subnet
      exactly when some but not all are; so no subnet is both. */
  lemma {:induction false} SubnetClasses(sections: seq<string>, config: map<string, seq<SectionEntry>>, fullName: string, s: string)
    requires forall x :: x in sections ==> x in config
    ensures s in OwnSubnets(sections, config, fullName) <==> s in sections && AllNamed(config[s], fullName)
    ensures s in BorderSubnets(sections, config, fullName) <==>
              s in sections && !AllNamed(config[s], fullName) && AnyNamed(config[s], fullName)
    ensures !(s in OwnSubnets(sections, config, fullName) && s in BorderSubnets(sections, config, fullName))
    decreases |sections|
  {
    if sections != [] {
      var init := sections[..|sections| - 1];
      assert sections == init + [sections[|sections| - 1]];
      SubnetClasses(init, config, fullName, s);
    }
  }

  /** A section without entries counts as one of the AS's own subnets. */
  lemma EmptySectionIsOwn(sections: seq<string>, config: map<string, seq<SectionEntry>>, fullName: string, s: string)
    requires forall x :: x in sections ==> x in config
    requires s in sections && config[s] == []
    ensures s in OwnSubnets(sections, config, fullName)
  {
    SubnetClasses(sections, config, fullName, s);
  }

  /** The AS object's subnet attributes. */
  class System {
    const fullName: string
    var subnets: seq<string>
    var brSubnets: seq<string>

    constructor (fullName: string)
      ensures this.fullName == fullName && subnets == [] && brSubnets == []
    {
      this.fullName := fullName;
      subnets := [];
      brSubnets := [];
    }

    /** `AutonomousSystem.gen_subnets` (AutonomousSystem.py:172-187). */
    method GenSubnets(sections: seq<string>, config: map<string, seq<SectionEntry>>)
      requires forall s :: s in sections ==> s in config
      modifies this
      ensures subnets == OwnSubnets(sections, config, fullName)
      ensures brSubnets == BorderSubnets(sections, config, fullName)
    {
      subnets := [];
      brSubnets := [];
      var i := 0;
      while i < |sections|
        invariant 0 <= i <= |sections|
        invariant subnets == OwnSubnets(sections[..i], config, fullName)
        invariant brSubnets == BorderSubnets(sections[..i], config, fullName)
      {
        var subnet := sections[i];
        assert sections[..i + 1][..i] == sections[..i];
        if AllNamed(config[subnet], fullName) {
          subnets := subnets + [subnet];
        } else if AnyNamed(config[subnet], fullName) {
          brSubnets := brSubnets + [subnet];
        }
        i := i + 1;
      }
      assert sections[..i] == sections;
    }
  }

  // ---------------------------------------------------------------------------
  // get_addresses
  // ---------------------------------------------------------------------------

  /** The exceptions `get_addresses` raises. `NoSubnetExamined` is the UnboundLocalError
      of reading `found1` when every subnet was already taken (or there is none). */
  datatype AddressError = NoSubnetExamined | NodeNotFound(node: NodeEntry)

  function LastPiece(s: string, sep: string): string
    requires |sep| > 0
  {
    var pieces := Split(s, sep);
    pieces[|pieces| - 1]
  }

  /** An entry name such as "1-ff00:0:110@br1" stands for the node after its last '@'. */
  predicate Names(key: string, node: NodeEntry) {
    node.Str? && LastPiece(key, "@") == node.name
  }

  /** The netmask of a subnet such as "10.0.0.0/24": what follows the last '/'. */
  function Netmask(subnet: string): string {
    LastPiece(subnet, "/")
  }

  /** The ip of the last entry of the section that names the node. */
  function LastIp(entries: seq<SectionEntry>, node: NodeEntry): Option<string>
    decreases |entries|
  {
    if entries == [] then None
    else if Names(entries[|entries| - 1].key, node) then Some(entries[|entries| - 1].value)
    else LastIp(entries[..|entries| - 1], node)
  }

  /** The address `get_addresses` gives a node in a subnet: "<ip>/<netmask>". */
  function AddressIn(config: map<string, seq<SectionEntry>>, subnet: string, node: NodeEntry): string
    requires subnet in config && LastIp(config[subnet], node).Some?
  {
    LastIp(config[subnet], node).value + "/" + Netmask(subnet)
  }

  /** Subnet `i` is not yet taken and names both nodes. */
  predicate Usable(taken: seq<string>, subnets: seq<string>, config: map<string, seq<SectionEntry>>,
                   a: NodeEntry, b: NodeEntry, i: int)
    requires forall s :: s in subnets ==> s in config
  {
    0 <= i < |subnets| && subnets[i] !in taken
    && LastIp(config[subnets[i]], a).Some? && LastIp(config[subnets[i]], b).Some?
  }

  /** Subnet `i` is the first usable one. */
  predicate FirstUsable(taken: seq<string>, subnets: seq<string>, config: map<string, seq<SectionEntry>>,
                        a: NodeEntry, b: NodeEntry, i: int)
    requires forall s :: s in subnets ==> s in config
  {
    Usable(taken, subnets, config, a, b, i) && forall j :: 0 <= j < i ==> !Usable(taken, subnets, config, a, b, j)
  }

  /** The last subnet not yet taken: the one whose flags decide the error. */
  function LastUntaken(taken: seq<string>, subnets: seq<string>): Option<string>
    decreases |subnets|
  {
    if subnets == [] then None
    else if subnets[|subnets| - 1] !in taken then Some(subnets[|subnets| - 1])
    else LastUntaken(taken, subnets[..|subnets| - 1])
  }

  lemma {:induction false} LastUntakenIn(taken: seq<string>, subnets: seq<string>)
    ensures LastUntaken(taken, subnets).Some? ==> LastUntaken(taken, subnets).value in subnets
    decreases |subnets|
  {
    if subnets != [] {
      LastUntakenIn(taken, subnets[..|subnets| - 1]);
    }
  }

  /** The error when no subnet is usable: the flags of the last subnet examined. */
  function MissingError(taken: seq<string>, subnets: seq<string>, config: map<string, seq<SectionEntry>>,
                        a: NodeEntry, b: NodeEntry): AddressError
    requires forall s :: s in subnets ==> s in config
  {
    LastUntakenIn(taken, subnets);
    match LastUntaken(taken, subnets)
    case None => NoSubnetExamined
    case Some(s) => if LastIp(config[s], a).None? then NodeNotFound(a) else NodeNotFound(b)
  }

  /** The subnet was chosen for the link between `a` and `b` after `taken`. */
  predicate ChosenFirst(taken: seq<string>, subnets: seq<string>, config: map<string, seq<SectionEntry>>,
                        a: NodeEntry, b: NodeEntry, s: string)
    requires forall x :: x in subnets ==> x in config
  {
    exists i :: 0 <= i < |subnets| && FirstUsable(taken, subnets, config, a, b, i) && subnets[i] == s
  }

  /** An address is `AddressIn` of the subnet for the node. */
  predicate AddressOf(config: map<string, seq<SectionEntry>>, subnet: string, node: NodeEntry, addr: string) {
    subnet in config && LastIp(config[subnet], node).Some? && addr == AddressIn(config, subnet, node)
  }

  /** One link handed to Mininet's `addLink`: its nodes, parameters and addresses. */
  datatype AddedLink = AddedLink(a: NodeEntry, b: NodeEntry, params: RoutingProtocols.LinkParams,
                                 aAddr: string, bAddr: string)

  /** The exceptions `build` lets through. */
  datatype BuildError =
    | UnknownNode(node: NodeEntry)          // KeyError from `all_nodes[...]`
    | Address(error: AddressError)         // raised by `get_addresses`
    | BadBandwidth(bw: Scalar)             // ValueError from `int(bw)`
    | BadLoss(loss: Scalar)                // ValueError from `float(loss)`

  /** The link parameters as `build` converts them: `int(bw)`, `f'{delay}ms'`,
      `f'{jitter}ms'`, `float(loss)`; an absent or null property stays `None`. */
  function ConvertProps(l: Link): Result<RoutingProtocols.LinkParams, BuildError> {
    var bw := Get(l, "bw");
    var delay := Get(l, "delay");
    var jitter := Get(l, "jitter");
    var loss := Get(l, "loss");
    if bw.Some? && bw.value.asInt.None? then Err(BadBandwidth(bw.value))
    else if loss.Some? && loss.value.asFloat.None? then Err(BadLoss(loss.value))
    else Ok(RoutingProtocols.LinkParams(
      if bw.Some? then Some(bw.value.asInt.value) else None,
      if delay.Some? then Some(delay.value.text + "ms") else None,
      if loss.Some? then Some(loss.value.asFloat.value) else None,
      if jitter.Some? then Some(jitter.value.text + "ms") else None))
  }

  /** A link that passes `check_link_properties` always converts. */
  lemma CheckedLinkConverts(l: Link)
    requires LinkPropertiesOk(l)
    ensures ConvertProps(l).Ok?
    ensures Get(l, "bw").Some? <==> ConvertProps(l).value.bw.Some?
    ensures Get(l, "loss").Some? <==> ConvertProps(l).value.loss.Some?
  {
  }

  /** A delay written as the integer `d` reaches the OSPF cost as `d` milliseconds. */
  lemma ConvertedDelayMillis(l: Link, d: int)
    requires Get(l, "delay").Some? && Get(l, "delay").value.text == IntToString(d)
    requires ConvertProps(l).Ok?
    ensures ConvertProps(l).value.delay.Some?
    ensures RoutingProtocols.Millis(ConvertProps(l).value.delay.value) == Some(d)
  {
    RoutingProtocols.MillisOfFormatted(d);
  }

  // ---------------------------------------------------------------------------
  // link_nr and intra_links
  // ---------------------------------------------------------------------------

  /** `defaultdict(int)` lookup. */
  function Nr(m: map<(NodeEntry, NodeEntry), nat>, p: (NodeEntry, NodeEntry)): nat {
    if p in m then m[p] else 0
  }

  /** `link_nr` as the arithmetic after the links: each link adds one to its pair and one
      to the reversed pair. */
  function NrAfter(links: seq<Link>): map<(NodeEntry, NodeEntry), nat>
    decreases |links|
  {
    if links == [] then map[]
    else
      var l := links[|links| - 1];
      var m := NrAfter(links[..|links| - 1]);
      var m1 := m[(l.a, l.b) := Nr(m, (l.a, l.b)) + 1];
      m1[(l.b, l.a) := Nr(m1, (l.b, l.a)) + 1]
  }

  /** The number of links between `x` and `y` in either direction. */
  function PairCount(links: seq<Link>, x: NodeEntry, y: NodeEntry): nat
    decreases |links|
  {
    if links == [] then 0
    else
      var l := links[|links| - 1];
      PairCount(links[..|links| - 1], x, y) + (if (l.a == x && l.b == y) || (l.a == y && l.b == x) then 1 else 0)
  }

  /** The link number of a pair counts the earlier links between the two nodes in either
      direction; a link from a node to itself counts twice. Hence `link_nr` is symmetric. */
  lemma {:induction false} NrCountsLinks(links: seq<Link>, x: NodeEntry, y: NodeEntry)
    ensures Nr(NrAfter(links), (x, y)) == (if x == y then 2 else 1) * PairCount(links, x, y)
    ensures Nr(NrAfter(links), (x, y)) == Nr(NrAfter(links), (y, x))
    decreases |links|
  {
    if links != [] {
      NrCountsLinks(links[..|links| - 1], x, y);
      NrCountsLinks(links[..|links| - 1], y, x);
    }
  }

  lemma {:induction false} PairCountMono(links: seq<Link>, k: nat, x: NodeEntry, y: NodeEntry)
    requires k < |links|
    requires (links[k].a == x && links[k].b == y) || (links[k].a == y && links[k].b == x)
    ensures PairCount(links[..k], x, y) < PairCount(links, x, y)
    decreases |links|
  {
    if k < |links| - 1 {
      var init := links[..|links| - 1];
      assert init[..k] == links[..k] && init[k] == links[k];
      PairCountMono(init, k, x, y);
    } else {
      assert links[..|links| - 1] == links[..k];
    }
  }

  /** Two links in the same direction get different numbers: the later one's is larger. */
  lemma LinkNumbersIncrease(links: seq<Link>, k: nat, j: nat)
    requires k < j < |links| && links[k].a == links[j].a && links[k].b == links[j].b
    ensures Nr(NrAfter(links[..k]), (links[k].a, links[k].b)) < Nr(NrAfter(links[..j]), (links[j].a, links[j].b))
  {
    var x, y := links[k].a, links[k].b;
    NrCountsLinks(links[..k], x, y);
    NrCountsLinks(links[..j], x, y);
    assert links[..j][..k] == links[..k] && links[..j][k] == links[k];
    PairCountMono(links[..j], k, x, y);
  }

  /** `intra_links` flattened: (node a, node b, link number) to the mtu of every link that
      has an 'mtu' key. */
  function MtuAfter(links: seq<Link>): map<(NodeEntry, NodeEntry, nat), Scalar>
    decreases |links|
  {
    if links == [] then map[]
    else
      var l := links[|links| - 1];
      var init := links[..|links| - 1];
      var m := MtuAfter(init);
      if "mtu" in l.props then m[(l.a, l.b, Nr(NrAfter(init), (l.a, l.b))) := l.props["mtu"]] else m
  }

  /** Every MTU entry comes from a link with an 'mtu' key, under that link's number. */
  lemma {:induction false} MtuEntrySource(links: seq<Link>, p: (NodeEntry, NodeEntry, nat))
    requires p in MtuAfter(links)
    ensures exists k :: 0 <= k < |links| && "mtu" in links[k].props && links[k].a == p.0 && links[k].b == p.1
              && p.2 == Nr(NrAfter(links[..k]), (p.0, p.1)) && MtuAfter(links)[p] == links[k].props["mtu"]
    decreases |links|
  {
    var n := |links| - 1;
    var l := links[n];
    var init := links[..n];
    if "mtu" in l.props && p == (l.a, l.b, Nr(NrAfter(init), (l.a, l.b))) {
      assert links[..n] == init;
    } else {
      MtuEntrySource(init, p);
      var k :| 0 <= k < |init| && "mtu" in init[k].props && init[k].a == p.0 && init[k].b == p.1
                && p.2 == Nr(NrAfter(init[..k]), (p.0, p.1)) && MtuAfter(init)[p] == init[k].props["mtu"];
      assert init[..k] == links[..k] && init[k] == links[k];
    }
  }

  /** Every link with an 'mtu' key has its entry, holding its own mtu. */
  lemma {:induction false} MtuEntryRecorded(links: seq<Link>, k: nat)
    requires k < |links| && "mtu" in links[k].props
    ensures (links[k].a, links[k].b, Nr(NrAfter(links[..k]), (links[k].a, links[k].b))) in MtuAfter(links)
    ensures MtuAfter(links)[(links[k].a, links[k].b, Nr(NrAfter(links[..k]), (links[k].a, links[k].b)))]
              == links[k].props["mtu"]
  {
    var p := (links[k].a, links[k].b, Nr(NrAfter(links[..k]), (links[k].a, links[k].b)));
    MtuKeyStays(links, k);
    MtuEntrySource(links, p);
    var j :| 0 <= j < |links| && "mtu" in links[j].props && links[j].a == p.0 && links[j].b == p.1
              && p.2 == Nr(NrAfter(links[..j]), (p.0, p.1)) && MtuAfter(links)[p] == links[j].props["mtu"];
    if j < k {
      LinkNumbersIncrease(links, j, k);
    } else if k < j {
      LinkNumbersIncrease(links, k, j);
    }
  }

  lemma {:induction false} MtuKeyStays(links: seq<Link>, k: nat)
    requires k < |links| && "mtu" in links[k].props
    ensures (links[k].a, links[k].b, Nr(NrAfter(links[..k]), (links[k].a, links[k].b))) in MtuAfter(links)
    decreases |links|
  {
    var n := |links| - 1;
    if k < n {
      var init := links[..n];
      assert init[..k] == links[..k] && init[k] == links[k];
      MtuKeyStays(init, k);
    } else {
      assert links[..n] == links[..k];
    }
  }

  /** Link `l` was built as `built`, after the subnets `before` were taken, in subnet `s`. */
  predicate LinkBuilt(l: Link, built: AddedLink, before: seq<string>, s: string,
                      subnets: seq<string>, config: map<string, seq<SectionEntry>>)
    requires forall x :: x in subnets ==> x in config
  {
    built.a == l.a && built.b == l.b && ConvertProps(l) == Ok(built.params)
    && ChosenFirst(before, subnets, config, l.a, l.b, s)
    && AddressOf(config, s, l.a, built.aAddr) && AddressOf(config, s, l.b, built.bAddr)
  }

  /** Building link `l` after the subnets `taken` fails with `e`, checked in the order of
      `build`'s loop body: the first node unknown, then the second, then no usable subnet
      (with `get_addresses`' error), then a parameter that does not convert. */
  ghost predicate LinkFails(l: Link, all: seq<NodeEntry>, taken: seq<string>, subnets: seq<string>,
                      config: map<string, seq<SectionEntry>>, e: BuildError)
    requires forall x :: x in subnets ==> x in config
  {
    if l.a !in all then e == UnknownNode(l.a)
    else if l.b !in all then e == UnknownNode(l.b)
    else if !exists i :: Usable(taken, subnets, config, l.a, l.b, i) then
      e == Address(MissingError(taken, subnets, config, l.a, l.b))
    else ConvertProps(l) == Err(e)
  }

  /** The first `n` links were built in order: each has both endpoints declared and its
      record, `taken[k]` is the subnet link `k` took after the subnets before it, and no
      subnet was taken twice. */
  ghost predicate BuiltInOrder(links: seq<Link>, added: seq<AddedLink>, taken: seq<string>, n: nat,
                               all: seq<NodeEntry>, subnets: seq<string>, config: map<string, seq<SectionEntry>>)
    requires forall x :: x in subnets ==> x in config
    requires n <= |links| && n <= |added| && n <= |taken|
  {
    && (forall k :: 0 <= k < n ==>
          links[k].a in all && links[k].b in all &&
          LinkBuilt(links[k], added[k], taken[..k], taken[k], subnets, config))
    && (forall a, b :: 0 <= a < b < n ==> taken[a] != taken[b])
  }

  /** One more link built keeps the earlier links' records and the subnets distinct. */
  lemma TakenStep(before: seq<string>, after: seq<string>, links: seq<Link>, added: seq<AddedLink>, x: AddedLink, i: nat,
                  all: seq<NodeEntry>, subnets: seq<string>, config: map<string, seq<SectionEntry>>)
    requires forall s :: s in subnets ==> s in config
    requires i < |links| && |before| == i == |added| && |after| == i + 1 && after[..i] == before
    requires BuiltInOrder(links, added, before, i, all, subnets, config)
    requires links[i].a in all && links[i].b in all
    requires LinkBuilt(links[i], x, before, after[i], subnets, config)
    ensures BuiltInOrder(links, added + [x], after, i + 1, all, subnets, config)
  {
    var added' := added + [x];
    forall k | 0 <= k < i
      ensures after[..k] == before[..k] && after[k] == before[k] && added'[k] == added[k]
    {
    }
    assert after[i] !in before;
    assert after[..i] == before;
  }

  /** When a link fails, the links built before it keep their records, whether or not the
      failing link took a subnet, and the failure is located at that link. */
  lemma FailsPrefix(before: seq<string>, after: seq<string>, links: seq<Link>, added: seq<AddedLink>, i: nat,
                    all: seq<NodeEntry>, subnets: seq<string>, config: map<string, seq<SectionEntry>>, e: BuildError)
    requires forall x :: x in subnets ==> x in config
    requires i < |links| && |before| == i == |added| && i <= |after| && after[..i] == before
    requires BuiltInOrder(links, added, before, i, all, subnets, config)
    requires LinkFails(links[i], all, before, subnets, config, e)
    ensures BuiltInOrder(links, added, after, i, all, subnets, config)
    ensures LinkFails(links[i], all, after[..i], subnets, config, e)
    ensures e.UnknownNode? ==> e.node !in all && exists k :: 0 <= k < |links| && e.node in {links[k].a, links[k].b}
    ensures (e.BadBandwidth? || e.BadLoss?) ==> exists k :: 0 <= k < |links| && ConvertProps(links[k]) == Err(e)
  {
    LinkFailsCause(links, i, all, before, subnets, config, e);
    forall k | 0 <= k < i
      ensures after[..k] == before[..k] && after[k] == before[k]
    {
    }
  }


  /** A link that fails names an unknown node of its own, or a parameter of its own that
      does not convert. */
  lemma LinkFailsCause(links: seq<Link>, i: nat, all: seq<NodeEntry>, taken: seq<string>, subnets: seq<string>,
                       config: map<string, seq<SectionEntry>>, e: BuildError)
    requires forall x :: x in subnets ==> x in config
    requires i < |links| && LinkFails(links[i], all, taken, subnets, config, e)
    ensures e.UnknownNode? ==> e.node !in all && exists k :: 0 <= k < |links| && e.node in {links[k].a, links[k].b}
    ensures (e.BadBandwidth? || e.BadLoss?) ==> exists k :: 0 <= k < |links| && ConvertProps(links[k]) == Err(e)
  {
  }

  // ---------------------------------------------------------------------------
  // Intra_AS_Topo
  // ---------------------------------------------------------------------------

  /** The Mininet topology of the AS with the state `build` keeps. */
  class IntraAsTopo {
    var subnetTaken: seq<string>
    var linkNr: map<(NodeEntry, NodeEntry), nat>
    var intraLinks: map<(NodeEntry, NodeEntry, nat), Scalar>

    constructor ()
      ensures subnetTaken == [] && linkNr == map[] && intraLinks == map[]
    {
      subnetTaken := [];
      linkNr := map[];
      intraLinks := map[];
    }

    /** `Intra_AS_Topo.get_addresses` (AutonomousSystem.py:53-76): the first subnet not yet
        taken that names both nodes is taken and gives both addresses. */
    method GetAddresses(nodeA: NodeEntry, nodeB: NodeEntry, subnets: seq<string>, config: map<string, seq<SectionEntry>>)
      returns (r: Result<(string, string), AddressError>)
      requires forall s :: s in subnets ==> s in config
      modifies this
      ensures linkNr == old(linkNr) && intraLinks == old(intraLinks)
      ensures r.Ok? <==> exists i :: Usable(old(subnetTaken), subnets, config, nodeA, nodeB, i)
      ensures r.Ok? ==> exists i :: FirstUsable(old(subnetTaken), subnets, config, nodeA, nodeB, i)
                                      && subnetTaken == old(subnetTaken) + [subnets[i]]
                                      && r.value == (AddressIn(config, subnets[i], nodeA), AddressIn(config, subnets[i], nodeB))
      ensures r.Err? ==> subnetTaken == old(subnetTaken)
                         && r.error == MissingError(old(subnetTaken), subnets, config, nodeA, nodeB)
    {
      var aAddr: Option<string> := None;
      var bAddr: Option<string> := None;
      // `None` while `found1` / `found2` are still unbound
      var found1: Option<bool> := None;
      var found2: Option<bool> := None;
      var i := 0;
      while i < |subnets|
        invariant 0 <= i <= |subnets|
        invariant subnetTaken == old(subnetTaken) && linkNr == old(linkNr) && intraLinks == old(intraLinks)
        invariant forall j :: 0 <= j < i ==> !Usable(subnetTaken, subnets, config, nodeA, nodeB, j)
        invariant found1.Some? == found2.Some? == LastUntaken(subnetTaken, subnets[..i]).Some?
        invariant found1.Some? ==> !(found1.value && found2.value)
        invariant LastUntaken(subnetTaken, subnets[..i]).Some? ==>
                    LastUntaken(subnetTaken, subnets[..i]).value in config
                    && found1.value == LastIp(config[LastUntaken(subnetTaken, subnets[..i]).value], nodeA).Some?
                    && found2.value == LastIp(config[LastUntaken(subnetTaken, subnets[..i]).value], nodeB).Some?
      {
        var subnet := subnets[i];
        assert subnets[..i + 1][..i] == subnets[..i] && subnets[..i + 1][i] == subnet;
        if subnet in subnetTaken {
          i := i + 1;
          continue;
        }
        var netmask := LastPiece(subnet, "/");
        var f1, f2;
        f1, f2, aAddr, bAddr := ScanSection(config[subnet], nodeA, nodeB, netmask, aAddr, bAddr);
        found1, found2 := Some(f1), Some(f2);
        if f1 && f2 {
          assert FirstUsable(subnetTaken, subnets, config, nodeA, nodeB, i);
          subnetTaken := subnetTaken + [subnet];
          return Ok((aAddr.value, bAddr.value));
        }
        i := i + 1;
      }
      assert subnets[..i] == subnets;
      if found1.None? {
        return Err(NoSubnetExamined);
      }
      if !found1.value {
        return Err(NodeNotFound(nodeA));
      }
      // found2 is false here: a subnet naming both nodes would have been taken
      return Err(NodeNotFound(nodeB));
    }

    /** `Intra_AS_Topo.build` (AutonomousSystem.py:78-128): every link of the pruned
        intra-topology gets the first free subnet naming both of its nodes, its converted
        parameters, its number among the links between the same two nodes and, when it
        has an 'mtu' key, an entry in the MTU table. The links are built in order; the
        first link that fails stops the build with its error. `built` holds the links
        built before that. */
    method Build(t: IntraTopo, subnets: seq<string>, config: map<string, seq<SectionEntry>>)
      returns (r: Result<seq<AddedLink>, BuildError>, ghost built: seq<AddedLink>)
      requires forall s :: s in subnets ==> s in config
      modifies this
      ensures |built| <= |t.links| && |built| <= |subnetTaken|
      ensures BuiltInOrder(t.links, built, subnetTaken, |built|, AllEntries(t.nodes), subnets, config)
      ensures r.Ok? <==> |built| == |t.links|
      ensures r.Ok? ==> r.value == built && |subnetTaken| == |t.links|
      ensures r.Ok? ==> linkNr == NrAfter(t.links) && intraLinks == MtuAfter(t.links)
      ensures r.Err? ==> LinkFails(t.links[|built|], AllEntries(t.nodes), subnetTaken[..|built|], subnets, config, r.error)
      ensures r.Err? && r.error.UnknownNode? ==>
                r.error.node !in AllEntries(t.nodes)
                && exists k :: 0 <= k < |t.links| && r.error.node in {t.links[k].a, t.links[k].b}
      ensures r.Err? && (r.error.BadBandwidth? || r.error.BadLoss?) ==>
                exists k :: 0 <= k < |t.links| && ConvertProps(t.links[k]) == Err(r.error)
    {
      var all := CollectEntries(t.nodes);
      linkNr := map[];
      subnetTaken := [];
      intraLinks := map[];
      var added: seq<AddedLink> := [];
      var i := 0;
      while i < |t.links|
        invariant 0 <= i <= |t.links|
        invariant |added| == i == |subnetTaken|
        invariant linkNr == NrAfter(t.links[..i]) && intraLinks == MtuAfter(t.links[..i])
        invariant BuiltInOrder(t.links, added, subnetTaken, i, all, subnets, config)
      {
        ghost var before := subnetTaken;
        var link := BuildLink(t.links[i], all, subnets, config);
        if link.Err? {
          FailsPrefix(before, subnetTaken, t.links, added, i, all, subnets, config, link.error);
          return Err(link.error), added;
        }
        TakenStep(before, subnetTaken, t.links, added, link.value, i, all, subnets, config);
        added := added + [link.value];
        RecordLink(t.links, i);
        i := i + 1;
      }
      assert t.links[..i] == t.links;
      return Ok(added), added;
    }

    /** The start of `build`'s loop body for one link: look both nodes up, take a subnet
        for their addresses and convert the link's parameters. */
    method BuildLink(l: Link, all: seq<NodeEntry>, subnets: seq<string>, config: map<string, seq<SectionEntry>>)
      returns (r: Result<AddedLink, BuildError>)
      requires forall s :: s in subnets ==> s in config
      modifies this
      ensures linkNr == old(linkNr) && intraLinks == old(intraLinks)
      ensures |old(subnetTaken)| <= |subnetTaken| <= |old(subnetTaken)| + 1
      ensures subnetTaken[..|old(subnetTaken)|] == old(subnetTaken)
      ensures r.Ok? ==> |subnetTaken| == |old(subnetTaken)| + 1 && l.a in all && l.b in all
                        && LinkBuilt(l, r.value, old(subnetTaken), subnetTaken[|old(subnetTaken)|], subnets, config)
      ensures r.Err? ==> LinkFails(l, all, old(subnetTaken), subnets, config, r.error)
    {
      if l.a !in all {
        return Err(UnknownNode(l.a));
      }
      if l.b !in all {
        return Err(UnknownNode(l.b));
      }
      var addresses := GetAddresses(l.a, l.b, subnets, config);
      assert subnetTaken[..|old(subnetTaken)|] == old(subnetTaken);
      if addresses.Err? {
        return Err(Address(addresses.error));
      }
      var params := ConvertProps(l);
      if params.Err? {
        return Err(params.error);
      }
      r := Ok(AddedLink(l.a, l.b, params.value, addresses.value.0, addresses.value.1));
    }

    /** The end of `build`'s loop body for link `i`: its MTU entry under its current number,
        then the numbers of both directions of its pair go up by one. */
    method RecordLink(links: seq<Link>, i: nat)
      requires i < |links|
      requires linkNr == NrAfter(links[..i]) && intraLinks == MtuAfter(links[..i])
      modifies this
      ensures subnetTaken == old(subnetTaken)
      ensures linkNr == NrAfter(links[..i + 1]) && intraLinks == MtuAfter(links[..i + 1])
    {
      var l := links[i];
      assert links[..i + 1][..i] == links[..i] && links[..i + 1][i] == l;
      if "mtu" in l.props {
        var nr := Nr(linkNr, (l.a, l.b));
        intraLinks := intraLinks[(l.a, l.b, nr) := l.props["mtu"]];
      }
      linkNr := linkNr[(l.a, l.b) := Nr(linkNr, (l.a, l.b)) + 1];
      linkNr := linkNr[(l.b, l.a) := Nr(linkNr, (l.b, l.a)) + 1];
    }

    /** The inner loop of `get_addresses` over one section: a node's flag is set, and its
        address overwritten, at every entry that names it, so the last such entry wins. */
    static method ScanSection(entries: seq<SectionEntry>, nodeA: NodeEntry, nodeB: NodeEntry, netmask: string,
                              aAddr0: Option<string>, bAddr0: Option<string>)
      returns (f1: bool, f2: bool, aAddr: Option<string>, bAddr: Option<string>)
      ensures f1 == LastIp(entries, nodeA).Some? && f2 == LastIp(entries, nodeB).Some?
      ensures aAddr == if f1 then Some(LastIp(entries, nodeA).value + "/" + netmask) else aAddr0
      ensures bAddr == if f2 then Some(LastIp(entries, nodeB).value + "/" + netmask) else bAddr0
    {
      f1, f2, aAddr, bAddr := false, false, aAddr0, bAddr0;
      var k := 0;
      while k < |entries|
        invariant 0 <= k <= |entries|
        invariant f1 == LastIp(entries[..k], nodeA).Some?
        invariant f2 == LastIp(entries[..k], nodeB).Some?
        invariant aAddr == if f1 then Some(LastIp(entries[..k], nodeA).value + "/" + netmask) else aAddr0
        invariant bAddr == if f2 then Some(LastIp(entries[..k], nodeB).value + "/" + netmask) else bAddr0
      {
        assert entries[..k + 1][..k] == entries[..k] && entries[..k + 1][k] == entries[k];
        if Names(entries[k].key, nodeA) {
          aAddr := Some(entries[k].value + "/" + netmask);
          f1 := true;
        }
        if Names(entries[k].key, nodeB) {
          bAddr := Some(entries[k].value + "/" + netmask);
          f2 := true;
        }
        k := k + 1;
      }
      assert entries[..k] == entries;
    }
  }
}

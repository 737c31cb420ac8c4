/** The intra-AS part of the SCION topology config generator (python/topology/config.py):
    the per-AS structural checks run on the loaded intra-topology documents, the pruning
    of unused border routers, and the filter over generated networks. The loaded YAML
    documents are plain values; file loading and path resolution are not modelled. */
module TopologyConfig {
  import opened Wrappers
  import opened Text
  import Reach

  // ---------------------------------------------------------------------------
  // Data model of the loaded documents
  // ---------------------------------------------------------------------------

  /** One item of a node list in an intra-topology document: a string, YAML's null, or
      another scalar (a number, say), kept as its text. */
  datatype NodeEntry = Str(name: string) | Null | Other(text: string)

  /** A link property value: YAML's null, or a scalar given by its `str()` text together
      with what Python's `int()` and `float()` make of it (`None`: they raise ValueError). */
  datatype Scalar = NullValue | Value(text: string, asInt: Option<int>, asFloat: Option<real>)

  /** One entry of the `Nodes` dictionary: a category name and its node list. The
      sequence order is the dictionary order; as in a dictionary, keys are distinct. */
  datatype Category = Category(key: string, entries: seq<NodeEntry>)

  /** One intra-AS link: its two endpoints and its other keys (bw, delay, jitter, loss,
      mtu and whatever else the document holds). */
  datatype Link = Link(a: NodeEntry, b: NodeEntry, props: map<string, Scalar>)

  /** An intra-topology document: `Nodes` and `links`. */
  datatype IntraTopo = IntraTopo(nodes: seq<Category>, links: seq<Link>)

  /** One `name = ip` entry of a section of the networks file (one section per subnet),
      in file order. */
  datatype SectionEntry = SectionEntry(key: string, value: string)

  /** One inter-AS link of the SCION topology file (only its endpoints matter here). */
  datatype InterLink = InterLink(a: string, b: string)

  /** One AS of the SCION topology file; `underlay` is "" when the key is absent. */
  datatype TopoAS = TopoAS(underlay: string)

  /** One AS entry of the intra config: topology path, routing protocol and the
      `Borderrouter` map from internal node name to inter-AS (topology) name. */
  datatype AsIntraConfig = AsIntraConfig(intraTopology: string, routingProtocol: string,
                                         borderrouter: map<string, string>)

  /** A generated network description (python/topology/net.py is not part of this model;
      only its name is used here). */
  datatype NetworkDescription = NetworkDescription(name: string)

  /** The reasons `_ensure_correct_format` aborts with, one per `sys.exit(1)`. */
  datatype ConfigError =
    | IPv6NotSupported(asName: string)
    | ASNotInTopology(asName: string)
    | ASesMissingInIntraConfig
    | BorderrouterDefinedTwice(name: string)
    | BorderrouterNotInTopology(name: string)
    | BorderroutersNotAllDefined
    | TopologyFileMissing(asName: string)
    | WrongCategories
    | EmptyCategory(key: string)
    | MoreThanOneColibri
    | MoreThanOneControlService
    | NodeNotString(node: NodeEntry)
    | NodeNameTooLong(name: string)
    | NodeNameNotUnique(name: string)
    | BorderrouterNamesUndeclared
    | LinkEndpointUndeclared(node: NodeEntry)
    | NotAnInteger(metric: string)
    | LossNotAFloat
    | LinkWithoutInternalRouter
    | MoreThanOneLink(node: NodeEntry)
    | NoLinks(node: NodeEntry)
    | NotConnected

  const Colibri := "Colibri"
  const ControlService := "Control-Service"
  const ScionDaemon := "SCION-Daemon"
  const Borderrouter := "Borderrouter"
  const Client := "Client"
  const InternalRouter := "Internal-Router"
  /** The six node categories every intra topology must declare. */
  const Categories: set<string> := {Colibri, ControlService, ScionDaemon, Borderrouter, Client, InternalRouter}
  const MaxNameLength := 8

  // ---------------------------------------------------------------------------
  // Views on the documents
  // ---------------------------------------------------------------------------

  /** `nodes[key]`: the node list stored under `key` (keys are distinct, so this is the
      only category with that key; the last one is taken, as the loops below do). */
  function Lookup(nodes: seq<Category>, key: string): Option<seq<NodeEntry>>
    decreases |nodes|
  {
    if nodes == [] then None
    else if nodes[|nodes| - 1].key == key then Some(nodes[|nodes| - 1].entries)
    else Lookup(nodes[..|nodes| - 1], key)
  }

  function KeySet(nodes: seq<Category>): set<string> {
    set i | 0 <= i < |nodes| :: nodes[i].key
  }

  /** All node lists concatenated in dictionary order (`all_nodes.extend(node_list)`). */
  function AllEntries(nodes: seq<Category>): seq<NodeEntry>
    decreases |nodes|
  {
    if nodes == [] then [] else AllEntries(nodes[..|nodes| - 1]) + nodes[|nodes| - 1].entries
  }

  /** `link.get(key, None)`: the value when the key is present and not null. */
  function Get(l: Link, key: string): Option<Scalar> {
    if key in l.props && l.props[key].Value? then Some(l.props[key]) else None
  }

  /** Python's `[node for node in entries if node is not None]`. */
  function NonNull(entries: seq<NodeEntry>): seq<NodeEntry>
    decreases |entries|
  {
    if entries == [] then [] else (if entries[0].Null? then [] else [entries[0]]) + NonNull(entries[1..])
  }

  // ---------------------------------------------------------------------------
  // Helper lemmas on the views
  // ---------------------------------------------------------------------------

  lemma AllEntriesStep(nodes: seq<Category>, i: nat)
    requires i < |nodes|
    ensures AllEntries(nodes[..i + 1]) == AllEntries(nodes[..i]) + nodes[i].entries
  {
    assert nodes[..i + 1][..i] == nodes[..i];
  }

  lemma {:induction false} AllEntriesPrefix(nodes: seq<Category>, i: nat)
    requires i <= |nodes|
    ensures AllEntries(nodes[..i]) <= AllEntries(nodes)
    decreases |nodes| - i
  {
    if i < |nodes| {
      AllEntriesPrefix(nodes, i + 1);
      AllEntriesStep(nodes, i);
    } else {
      assert nodes[..i] == nodes;
    }
  }

  lemma {:induction false} EntryInAll(nodes: seq<Category>, i: nat, e: NodeEntry)
    requires i < |nodes| && e in nodes[i].entries
    ensures e in AllEntries(nodes)
  {
    AllEntriesStep(nodes, i);
    AllEntriesPrefix(nodes, i + 1);
    var p := AllEntries(nodes[..i]);
    var j :| 0 <= j < |nodes[i].entries| && nodes[i].entries[j] == e;
    assert AllEntries(nodes)[|p| + j] == e;
  }

  lemma {:induction false} LookupByKey(nodes: seq<Category>, key: string)
    requires key in KeySet(nodes)
    ensures Lookup(nodes, key).Some?
    decreases |nodes|
  {
    if nodes[|nodes| - 1].key != key {
      var i :| 0 <= i < |nodes| && nodes[i].key == key;
      assert nodes[..|nodes| - 1][i].key == key;
      LookupByKey(nodes[..|nodes| - 1], key);
    }
  }

  lemma {:induction false} NonNullEmpty(entries: seq<NodeEntry>)
    requires |NonNull(entries)| >= 1
    ensures entries != []
  {
  }

  // ---------------------------------------------------------------------------
  // check_IP_version and check_AS_internal_topology
  // ---------------------------------------------------------------------------

  predicate IPv4Only(ases: map<string, TopoAS>) {
    forall a :: a in ases ==> !Contains(ases[a].underlay, "IPv6")
  }

  /** `check_IP_version` (config.py:174-179): every AS of the topology file must have an
      underlay that does not mention IPv6. */
  method CheckIPVersion(ases: map<string, TopoAS>) returns (r: Outcome<ConfigError>)
    ensures r.Pass? <==> IPv4Only(ases)
  {
    var todo := ases.Keys;
    while todo != {}
      invariant todo <= ases.Keys
      invariant forall a :: a in ases.Keys - todo ==> !Contains(ases[a].underlay, "IPv6")
      decreases todo
    {
      var a :| a in todo;
      if Contains(ases[a].underlay, "IPv6") {
        return Fail(IPv6NotSupported(a));
      }
      todo := todo - {a};
    }
    return Pass;
  }

  /** `check_AS_internal_topology` (config.py:181-194): strike every intra-config AS off the
      set of topology ASes; an unknown AS or a leftover topology AS aborts. */
  method CheckASInternalTopology(topoAses: set<string>, intraAses: set<string>)
    returns (r: Outcome<ConfigError>)
    ensures r.Pass? <==> intraAses == topoAses
    ensures r.Fail? && r.error.ASNotInTopology? ==> r.error.asName in intraAses - topoAses
  {
    var ases := topoAses;
    var todo := intraAses;
    while todo != {}
      invariant todo <= intraAses
      invariant intraAses - todo <= topoAses
      invariant ases == topoAses - (intraAses - todo)
      decreases todo
    {
      var a :| a in todo;
      if a !in ases {
        return Fail(ASNotInTopology(a));
      }
      ases := ases - {a};
      todo := todo - {a};
    }
    if ases != {} {
      return Fail(ASesMissingInIntraConfig);
    }
    return Pass;
  }

  // ---------------------------------------------------------------------------
  // check_all_BR_defined: the border routers an AS uses on inter-AS links
  // ---------------------------------------------------------------------------

  /** Every endpoint of the inter-AS links in order: `a` before `b`, link by link. */
  function Endpoints(links: seq<InterLink>): (r: seq<string>)
    ensures |r| == 2 * |links|
    decreases |links|
  {
    if links == [] then [] else Endpoints(links[..|links| - 1]) + [links[|links| - 1].a, links[|links| - 1].b]
  }

  /** `x.split('#')[0]`: the endpoint without its interface suffix. */
  function NoInterface(x: string): string {
    Split(x, "#")[0]
  }

  /** `len(x.split('#')[0].split('-')) == 3`: a border router given by a specific ID
      (ISD, AS and BR number), which may carry several interfaces. */
  predicate IsThreePart(x: string) {
    |Split(NoInterface(x), "-")| == 3
  }

  /** The name a matching endpoint contributes: the stripped ID for three-part names,
      the full endpoint name otherwise. */
  function BRName(x: string): string {
    if IsThreePart(x) then NoInterface(x) else x
  }

  /** An endpoint of this AS that is not a three-part ID; such names must be unique. */
  predicate IsPlain(x: string, asName: string) {
    StartsWith(x, asName) && !IsThreePart(x)
  }

  /** One step of the `SCION_BRs` loop (config.py:203-218). */
  function CollectStep(s: set<string>, x: string, asName: string): Result<set<string>, ConfigError> {
    if !StartsWith(x, asName) then Ok(s)
    else if IsThreePart(x) then Ok(s + {NoInterface(x)})
    else if x in s then Err(BorderrouterDefinedTwice(x))
    else Ok(s + {x})
  }

  /** The `SCION_BRs` set after visiting the endpoints in order, or the abort. */
  function Collect(eps: seq<string>, asName: string): Result<set<string>, ConfigError>
    decreases |eps|
  {
    if eps == [] then Ok({}) else CollectThen(Collect(eps[..|eps| - 1], asName), eps[|eps| - 1], asName)
  }

  /** One more endpoint after the earlier ones have been collected (or have aborted). */
  function CollectThen(c: Result<set<string>, ConfigError>, x: string, asName: string): Result<set<string>, ConfigError> {
    if c.Err? then c else CollectStep(c.value, x, asName)
  }

  /** Reference definition of the collected set: the names of all matching endpoints. */
  function NameSet(eps: seq<string>, asName: string): set<string> {
    set i | 0 <= i < |eps| && StartsWith(eps[i], asName) :: BRName(eps[i])
  }

  /** Reference definition of the abort: some plain endpoint name occurs twice. */
  ghost predicate HasRepeatedPlain(eps: seq<string>, asName: string) {
    exists i, j :: 0 <= i < j < |eps| && IsPlain(eps[i], asName) && eps[j] == eps[i]
  }

  /** A stripped three-part ID never equals a name that is not three-part: the stripped
      ID has no '#', so stripping the other name would leave it unchanged. */
  lemma ThreePartDiffers(x: string, y: string)
    requires IsThreePart(y) && !IsThreePart(x)
    ensures NoInterface(y) != x
  {
    SplitChar(y, '#');
    SplitChar(x, '#');
  }

  /** When collection succeeds, the collected set is exactly the reference name set;
      it fails exactly when a plain name repeats (so two different three-part forms of
      one ID, `1-ff00:0:110-1#1` and `1-ff00:0:110-1#2`, are fine). */
  lemma {:induction false} CollectMeaning(eps: seq<string>, asName: string)
    ensures Collect(eps, asName).Ok? ==> Collect(eps, asName).value == NameSet(eps, asName)
    ensures Collect(eps, asName).Err? <==> HasRepeatedPlain(eps, asName)
    decreases |eps|
  {
    if eps != [] {
      var p, x := eps[..|eps| - 1], eps[|eps| - 1];
      assert eps == p + [x];
      CollectMeaning(p, asName);
      assert NameSet(eps, asName) == NameSet(p, asName) + (if StartsWith(x, asName) then {BRName(x)} else {}) by {
        forall n | n in NameSet(eps, asName) ensures n in NameSet(p, asName) + (if StartsWith(x, asName) then {BRName(x)} else {}) {
          var i :| 0 <= i < |eps| && StartsWith(eps[i], asName) && BRName(eps[i]) == n;
          if i < |p| { assert p[i] == eps[i]; }
        }
        forall n | n in NameSet(p, asName) ensures n in NameSet(eps, asName) {
          var i :| 0 <= i < |p| && StartsWith(p[i], asName) && BRName(p[i]) == n;
          assert eps[i] == p[i];
        }
      }
      if HasRepeatedPlain(p, asName) {
        var i, j :| 0 <= i < j < |p| && IsPlain(p[i], asName) && p[j] == p[i];
        assert eps[i] == p[i] && eps[j] == p[j];
      }
      if Collect(p, asName).Ok? {
        var s := Collect(p, asName).value;
        if IsPlain(x, asName) {
          if x in s {
            var i :| 0 <= i < |p| && StartsWith(p[i], asName) && BRName(p[i]) == x;
            if IsThreePart(p[i]) {
              ThreePartDiffers(x, p[i]);
              assert false;
            }
            assert eps[i] == p[i] && eps[|eps| - 1] == x;
            assert HasRepeatedPlain(eps, asName);
          }
        }
      }
    }
  }

  predicate Injective<K, V(==)>(m: map<K, V>) {
    forall k1, k2 :: k1 in m && k2 in m && k1 != k2 ==> m[k1] != m[k2]
  }

  /** The verdict of `check_all_BR_defined`: collection succeeds, no two internal names
      map to the same topology name, and the topology names are exactly the collected set. */
  predicate BRDefinedOk(asName: string, links: seq<InterLink>, brMap: map<string, string>) {
    var c := Collect(Endpoints(links), asName);
    c.Ok? && Injective(brMap) && brMap.Values == c.value
  }

  lemma EndpointsStep(links: seq<InterLink>, i: nat)
    requires i < |links|
    ensures Endpoints(links[..i + 1]) == Endpoints(links[..i]) + [links[i].a, links[i].b]
  {
    assert links[..i + 1][..i] == links[..i];
  }

  lemma {:induction false} EndpointsPrefix(links: seq<InterLink>, i: nat)
    requires i <= |links|
    ensures Endpoints(links[..i]) <= Endpoints(links)
    decreases |links| - i
  {
    if i < |links| {
      EndpointsPrefix(links, i + 1);
      EndpointsStep(links, i);
    } else {
      assert links[..i] == links;
    }
  }

  lemma CollectSnoc(eps: seq<string>, x: string, asName: string)
    ensures Collect(eps + [x], asName) == CollectThen(Collect(eps, asName), x, asName)
  {
    assert (eps + [x])[..|eps|] == eps;
  }

  /** The endpoints visited before the `j`-th end of link `i` form a prefix of all endpoints. */
  lemma EndpointsAt(links: seq<InterLink>, i: nat, j: nat)
    requires i < |links| && j <= 2
    ensures Endpoints(links[..i]) + [links[i].a, links[i].b][..j] == Endpoints(links)[..2 * i + j]
  {
    EndpointsStep(links, i);
    EndpointsPrefix(links, i + 1);
    var all := Endpoints(links);
    var pre := Endpoints(links[..i + 1]);
    assert pre == all[..|pre|];
    assert Endpoints(links[..i]) + [links[i].a, links[i].b][..j] == pre[..2 * i + j];
  }

  /** Once collection has aborted, visiting more endpoints does not undo it. */
  lemma {:induction false} CollectErrSticky(eps: seq<string>, k: nat, asName: string)
    requires k <= |eps| && Collect(eps[..k], asName).Err?
    ensures Collect(eps, asName) == Collect(eps[..k], asName)
    decreases |eps| - k
  {
    if k < |eps| {
      assert eps[..k + 1][..k] == eps[..k];
      CollectErrSticky(eps, k + 1, asName);
    } else {
      assert eps[..k] == eps;
    }
  }

  /** Collection that aborts at the `j`-th end of link `i` aborts the whole collection. */
  lemma CollectAbortsAt(links: seq<InterLink>, i: nat, j: nat, asName: string)
    requires i < |links| && j < 2
    requires Collect(Endpoints(links[..i]) + [links[i].a, links[i].b][..j + 1], asName).Err?
    ensures Collect(Endpoints(links), asName) ==
            Collect(Endpoints(links[..i]) + [links[i].a, links[i].b][..j + 1], asName)
  {
    EndpointsAt(links, i, j + 1);
    CollectErrSticky(Endpoints(links), 2 * i + j + 1, asName);
  }

  function ValuesOf(m: map<string, string>, ks: set<string>): set<string>
    requires ks <= m.Keys
  {
    set k | k in ks :: m[k]
  }

  predicate InjectiveOn(m: map<string, string>, ks: set<string>)
    requires ks <= m.Keys
  {
    forall k1, k2 :: k1 in ks && k2 in ks && k1 != k2 ==> m[k1] != m[k2]
  }

  /** The `SCION_BRs` loop of `check_all_BR_defined` (config.py:200-218): the border
      routers this AS uses on inter-AS links, or the abort on a repeated plain name. */
  method CollectScionBRs(asName: string, links: seq<InterLink>) returns (r: Result<set<string>, ConfigError>)
    ensures r == Collect(Endpoints(links), asName)
  {
    var scionBRs: set<string> := {};
    var i := 0;
    while i < |links|
      invariant 0 <= i <= |links|
      invariant Collect(Endpoints(links[..i]), asName) == Ok(scionBRs)
    {
      var pair := [links[i].a, links[i].b];
      ghost var before := Endpoints(links[..i]);
      assert before + pair[..0] == before;
      var j := 0;
      while j < 2
        invariant 0 <= j <= 2
        invariant Collect(before + pair[..j], asName) == Ok(scionBRs)
      {
        var x := pair[j];
        assert before + pair[..j + 1] == (before + pair[..j]) + [x];
        CollectSnoc(before + pair[..j], x, asName);
        var next := CollectStep(scionBRs, x, asName);
        if next.Err? {
          CollectAbortsAt(links, i, j, asName);
          return next;
        }
        scionBRs := next.value;
        j := j + 1;
      }
      assert pair[..2] == pair;
      EndpointsStep(links, i);
      i := i + 1;
    }
    assert links[..i] == links;
    return Ok(scionBRs);
  }

  /** `check_all_BR_defined` (config.py:196-231). The `Borderrouter` map is visited in
      an arbitrary key order (the verdict does not depend on it). */
  method CheckAllBRDefined(asName: string, links: seq<InterLink>, brMap: map<string, string>)
    returns (r: Outcome<ConfigError>)
    ensures r.Pass? <==> BRDefinedOk(asName, links, brMap)
  {
    var collected := CollectScionBRs(asName, links);
    if collected.Err? {
      return Fail(collected.error);
    }
    var scionBRs := collected.value;
    ghost var s0 := scionBRs;
    var remaining := brMap.Keys;
    while remaining != {}
      invariant remaining <= brMap.Keys
      invariant ValuesOf(brMap, brMap.Keys - remaining) <= s0
      invariant scionBRs == s0 - ValuesOf(brMap, brMap.Keys - remaining)
      invariant InjectiveOn(brMap, brMap.Keys - remaining)
      decreases remaining
    {
      var internalName :| internalName in remaining;
      var topoName := brMap[internalName];
      if topoName !in scionBRs {
        if topoName in s0 {
          ghost var other :| other in brMap.Keys - remaining && brMap[other] == topoName;
          assert other != internalName;
        }
        return Fail(BorderrouterNotInTopology(topoName));
      }
      ghost var done := brMap.Keys - remaining;
      assert ValuesOf(brMap, done + {internalName}) == ValuesOf(brMap, done) + {topoName};
      assert brMap.Keys - (remaining - {internalName}) == done + {internalName};
      scionBRs := scionBRs - {topoName};
      remaining := remaining - {internalName};
    }
    assert brMap.Keys - remaining == brMap.Keys;
    assert ValuesOf(brMap, brMap.Keys) == brMap.Values;
    if scionBRs != {} {
      return Fail(BorderroutersNotAllDefined);
    }
    assert InjectiveOn(brMap, brMap.Keys);
    forall v | v in s0 ensures v in brMap.Values {
      assert v !in scionBRs;
    }
    return Pass;
  }

  // ---------------------------------------------------------------------------
  // check_file_format
  // ---------------------------------------------------------------------------

  /** A category has at least one non-null node; Colibri and Control-Service have at most one. */
  predicate CategoryOk(c: Category) {
    var present := NonNull(c.entries);
    |present| >= 1 && ((c.key == Colibri || c.key == ControlService) ==> |present| <= 1)
  }

  predicate FileFormatOk(nodes: seq<Category>) {
    KeySet(nodes) == Categories && forall i :: 0 <= i < |nodes| ==> CategoryOk(nodes[i])
  }

  /** `check_file_format` (config.py:233-259). */
  method CheckFileFormat(nodes: seq<Category>) returns (r: Outcome<ConfigError>)
    ensures r.Pass? <==> FileFormatOk(nodes)
    ensures r == Fail(WrongCategories) <==> KeySet(nodes) != Categories
  {
    var actualCategories := KeySet(nodes);
    if Categories != actualCategories {
      return Fail(WrongCategories);
    }
    var i := 0;
    while i < |nodes|
      invariant 0 <= i <= |nodes|
      invariant forall k :: 0 <= k < i ==> CategoryOk(nodes[k])
    {
      var nodeType, nodeList := nodes[i].key, NonNull(nodes[i].entries);
      if |nodeList| == 0 {
        return Fail(EmptyCategory(nodeType));
      }
      if nodeType == Colibri && |nodeList| > 1 {
        return Fail(MoreThanOneColibri);
      }
      if nodeType == ControlService && |nodeList| > 1 {
        return Fail(MoreThanOneControlService);
      }
      i := i + 1;
    }
    return Pass;
  }

  // ---------------------------------------------------------------------------
  // check_node_naming
  // ---------------------------------------------------------------------------

  /** Every node is a string of at most eight characters and no node occurs twice. */
  predicate NamesOk(s: seq<NodeEntry>) {
    && (forall i :: 0 <= i < |s| ==> s[i].Str? && |s[i].name| <= MaxNameLength)
    && (forall i, j :: 0 <= i < j < |s| ==> s[i] != s[j])
  }

  function NamesOf(s: seq<NodeEntry>): set<string> {
    set i | 0 <= i < |s| && s[i].Str? :: s[i].name
  }

  predicate NodeNamingOk(nodes: seq<Category>, brKeys: set<string>) {
    && NamesOk(AllEntries(nodes))
    && forall k :: k in brKeys ==> Str(k) in Lookup(nodes, Borderrouter).GetOr([])
  }

  /** Appending one node keeps the names valid exactly when it is a short string whose
      name has not been seen; the seen names then grow by that name. */
  lemma NamesOkSnoc(t: seq<NodeEntry>, node: NodeEntry)
    requires NamesOk(t)
    ensures NamesOk(t + [node]) <==> node.Str? && |node.name| <= MaxNameLength && node.name !in NamesOf(t)
    ensures node.Str? ==> NamesOf(t + [node]) == NamesOf(t) + {node.name}
  {
    var u := t + [node];
    assert u[|t|] == node;
    assert forall i :: 0 <= i < |t| ==> u[i] == t[i];
    if node.Str? {
      forall m | m in NamesOf(u) ensures m in NamesOf(t) + {node.name} {
        var i :| 0 <= i < |u| && u[i].Str? && u[i].name == m;
      }
      forall m | m in NamesOf(t) ensures m in NamesOf(u) {
        var i :| 0 <= i < |t| && t[i].Str? && t[i].name == m;
        assert u[i] == t[i];
      }
      if node.name in NamesOf(t) {
        var i :| 0 <= i < |t| && t[i].Str? && t[i].name == node.name;
        assert u[i] == u[|t|];
      }
    }
  }

  /** A naming violation among the nodes visited so far is a violation of the whole list. */
  lemma NamesFailAt(nodes: seq<Category>, i: nat, j: nat)
    requires i < |nodes| && j <= |nodes[i].entries|
    requires !NamesOk(AllEntries(nodes[..i]) + nodes[i].entries[..j])
    ensures !NamesOk(AllEntries(nodes))
  {
    AllEntriesStep(nodes, i);
    AllEntriesPrefix(nodes, i + 1);
    var t := AllEntries(nodes[..i]) + nodes[i].entries[..j];
    assert t <= AllEntries(nodes[..i + 1]);
  }

  lemma LookupStep(nodes: seq<Category>, i: nat, key: string)
    requires i < |nodes|
    ensures Lookup(nodes[..i + 1], key) ==
            if nodes[i].key == key then Some(nodes[i].entries) else Lookup(nodes[..i], key)
  {
    assert nodes[..i + 1][..i] == nodes[..i];
  }

  /** `check_node_naming` (config.py:261-284). */
  method CheckNodeNaming(nodes: seq<Category>, brKeys: set<string>) returns (r: Outcome<ConfigError>)
    ensures r.Pass? <==> NodeNamingOk(nodes, brKeys)
  {
    var seen: set<string> := {};
    var topoBR: seq<NodeEntry> := [];
    var i := 0;
    while i < |nodes|
      invariant 0 <= i <= |nodes|
      invariant topoBR == Lookup(nodes[..i], Borderrouter).GetOr([])
      invariant NamesOk(AllEntries(nodes[..i]))
      invariant seen == NamesOf(AllEntries(nodes[..i]))
    {
      var nodeType, nodeList := nodes[i].key, nodes[i].entries;
      LookupStep(nodes, i, Borderrouter);
      if nodeType == Borderrouter {
        topoBR := nodeList;
      }
      ghost var done := AllEntries(nodes[..i]);
      AllEntriesStep(nodes, i);
      assert done + nodeList[..0] == done;
      var j := 0;
      while j < |nodeList|
        invariant 0 <= j <= |nodeList|
        invariant NamesOk(done + nodeList[..j])
        invariant seen == NamesOf(done + nodeList[..j])
      {
        var node := nodeList[j];
        assert done + nodeList[..j + 1] == (done + nodeList[..j]) + [node];
        NamesOkSnoc(done + nodeList[..j], node);
        if !node.Str? {
          NamesFailAt(nodes, i, j + 1);
          return Fail(NodeNotString(node));
        }
        if |node.name| > MaxNameLength {
          NamesFailAt(nodes, i, j + 1);
          return Fail(NodeNameTooLong(node.name));
        }
        if node.name in seen {
          NamesFailAt(nodes, i, j + 1);
          return Fail(NodeNameNotUnique(node.name));
        }
        seen := seen + {node.name};
        j := j + 1;
      }
      assert nodeList[..j] == nodeList;
      i := i + 1;
    }
    assert nodes[..i] == nodes;
    if !(forall k | k in brKeys :: Str(k) in topoBR) {
      return Fail(BorderrouterNamesUndeclared);
    }
    return Pass;
  }

  // ---------------------------------------------------------------------------
  // check_links and check_link_properties
  // ---------------------------------------------------------------------------

  predicate IntParses(v: Option<Scalar>) { v.Some? ==> v.value.Value? && v.value.asInt.Some? }
  predicate FloatParses(v: Option<Scalar>) { v.Some? ==> v.value.Value? && v.value.asFloat.Some? }

  /** `check_link_properties` (config.py:286-306): bw, delay and jitter, when present,
      go through `int()`; loss, when present, goes through `float()`. */
  function CheckLinkProperties(l: Link): (r: Outcome<ConfigError>)
    ensures r.Pass? <==> LinkPropertiesOk(l)
    ensures r.Fail? ==> r.error.NotAnInteger? || r.error == LossNotAFloat
    ensures r.Fail? && r.error.NotAnInteger? ==>
              r.error.metric in ["bw", "delay", "jitter"] && !IntParses(Get(l, r.error.metric))
    ensures r == Fail(LossNotAFloat) ==>
              IntParses(Get(l, "bw")) && IntParses(Get(l, "delay")) && IntParses(Get(l, "jitter"))
  {
    if !IntParses(Get(l, "bw")) then Fail(NotAnInteger("bw"))
    else if !IntParses(Get(l, "delay")) then Fail(NotAnInteger("delay"))
    else if !IntParses(Get(l, "jitter")) then Fail(NotAnInteger("jitter"))
    else if !FloatParses(Get(l, "loss")) then Fail(LossNotAFloat)
    else Pass
  }

  predicate LinkPropertiesOk(l: Link) {
    IntParses(Get(l, "bw")) && IntParses(Get(l, "delay")) && IntParses(Get(l, "jitter"))
    && FloatParses(Get(l, "loss"))
  }

  predicate LinksOk(nodes: seq<Category>, links: seq<Link>) {
    forall k :: 0 <= k < |links| ==>
      links[k].a in AllEntries(nodes) && links[k].b in AllEntries(nodes) && LinkPropertiesOk(links[k])
  }

  /** The `all_nodes` / `node_names` list built with `extend`. */
  method CollectEntries(nodes: seq<Category>) returns (all: seq<NodeEntry>)
    ensures all == AllEntries(nodes)
  {
    all := [];
    var i := 0;
    while i < |nodes|
      invariant 0 <= i <= |nodes|
      invariant all == AllEntries(nodes[..i])
    {
      AllEntriesStep(nodes, i);
      all := all + nodes[i].entries;
      i := i + 1;
    }
    assert nodes[..i] == nodes;
  }

  /** `check_links` (config.py:308-330). */
  method CheckLinks(nodes: seq<Category>, links: seq<Link>) returns (r: Outcome<ConfigError>)
    ensures r.Pass? <==> LinksOk(nodes, links)
    ensures r.Fail? && r.error.LinkEndpointUndeclared? ==> r.error.node !in AllEntries(nodes)
  {
    var nodeNames := CollectEntries(nodes);
    var k := 0;
    while k < |links|
      invariant 0 <= k <= |links|
      invariant forall m :: 0 <= m < k ==>
        links[m].a in nodeNames && links[m].b in nodeNames && LinkPropertiesOk(links[m])
    {
      var a, b := links[k].a, links[k].b;
      if a !in nodeNames {
        return Fail(LinkEndpointUndeclared(a));
      }
      if b !in nodeNames {
        return Fail(LinkEndpointUndeclared(b));
      }
      var props := CheckLinkProperties(links[k]);
      if props.Fail? {
        return props;
      }
      k := k + 1;
    }
    return Pass;
  }

  // ---------------------------------------------------------------------------
  // check_NR_connections
  // ---------------------------------------------------------------------------

  /** Number of link ends at `e`; a self-loop at `e` counts twice. */
  function Degree(links: seq<Link>, e: NodeEntry): nat
    decreases |links|
  {
    if links == [] then 0
    else
      var l := links[|links| - 1];
      Degree(links[..|links| - 1], e) + (if l.a == e then 1 else 0) + (if l.b == e then 1 else 0)
  }

  /** Every link touches an Internal-Router; every node has a link; non-router nodes
      have at most one. */
  predicate NROk(nodes: seq<Category>, links: seq<Link>) {
    var routers := Lookup(nodes, InternalRouter).GetOr([]);
    && (forall k :: 0 <= k < |links| ==> links[k].a in routers || links[k].b in routers)
    && (forall e :: e in AllEntries(nodes) ==>
          (e !in routers ==> Degree(links, e) <= 1) && Degree(links, e) >= 1)
  }

  lemma DegreeStep(links: seq<Link>, k: nat, e: NodeEntry)
    requires k < |links|
    ensures Degree(links[..k + 1], e) ==
            Degree(links[..k], e) + (if links[k].a == e then 1 else 0) + (if links[k].b == e then 1 else 0)
  {
    assert links[..k + 1][..k] == links[..k];
  }

  /** Incrementing the counters of both ends of link `k` turns the degrees over the first
      `k` links into the degrees over the first `k + 1`. */
  /** Every counter in `counters` holds its node's degree in `links`. */
  ghost predicate CountsDegrees(counters: map<NodeEntry, nat>, links: seq<Link>) {
    forall e :: e in counters ==> counters[e] == Degree(links, e)
  }

  lemma CountStep(counters: map<NodeEntry, nat>, links: seq<Link>, k: nat)
    requires k < |links| && links[k].a in counters && links[k].b in counters
    requires CountsDegrees(counters, links[..k])
    ensures var c1 := counters[links[k].a := counters[links[k].a] + 1];
            var c2 := c1[links[k].b := c1[links[k].b] + 1];
            c2.Keys == counters.Keys && CountsDegrees(c2, links[..k + 1])
  {
    forall e | e in counters ensures Degree(links[..k + 1], e) ==
      Degree(links[..k], e) + (if links[k].a == e then 1 else 0) + (if links[k].b == e then 1 else 0) {
      DegreeStep(links, k, e);
    }
  }

  /** The first loop of `check_NR_connections` (config.py:334-337): a zero counter for
      every node; `order` is the dictionary's key order (first insertion). */
  method ZeroCounters(nodes: seq<Category>) returns (counters: map<NodeEntry, nat>, order: seq<NodeEntry>)
    ensures forall e :: e in counters <==> e in AllEntries(nodes)
    ensures forall e :: e in counters ==> counters[e] == 0
    ensures forall e :: e in order <==> e in counters
  {
    counters := map[];
    order := [];
    var i := 0;
    while i < |nodes|
      invariant 0 <= i <= |nodes|
      invariant forall e :: e in counters <==> e in AllEntries(nodes[..i])
      invariant forall e :: e in counters ==> counters[e] == 0
      invariant forall e :: e in order <==> e in counters
    {
      AllEntriesStep(nodes, i);
      ghost var done := AllEntries(nodes[..i]);
      var nodeList := nodes[i].entries;
      assert done + nodeList[..0] == done;
      var j := 0;
      while j < |nodeList|
        invariant 0 <= j <= |nodeList|
        invariant forall e :: e in counters <==> e in done + nodeList[..j]
        invariant forall e :: e in counters ==> counters[e] == 0
        invariant forall e :: e in order <==> e in counters
      {
        assert done + nodeList[..j + 1] == done + nodeList[..j] + [nodeList[j]];
        if nodeList[j] !in counters {
          order := order + [nodeList[j]];
        }
        counters := counters[nodeList[j] := 0];
        j := j + 1;
      }
      assert nodeList[..j] == nodeList;
      i := i + 1;
    }
    assert nodes[..i] == nodes;
  }

  /** The second loop of `check_NR_connections` (config.py:338-346): every link must
      touch an Internal-Router; the counters of both ends go up by one. */
  method CountLinks(links: seq<Link>, routers: seq<NodeEntry>, zero: map<NodeEntry, nat>)
    returns (r: Result<map<NodeEntry, nat>, ConfigError>)
    requires forall k :: 0 <= k < |links| ==> links[k].a in zero && links[k].b in zero
    requires forall e :: e in zero ==> zero[e] == 0
    ensures r.Ok? <==> forall k :: 0 <= k < |links| ==> links[k].a in routers || links[k].b in routers
    ensures r.Err? ==> r.error == LinkWithoutInternalRouter
    ensures r.Ok? ==> r.value.Keys == zero.Keys && forall e :: e in zero ==> r.value[e] == Degree(links, e)
  {
    var counters := zero;
    var k := 0;
    while k < |links|
      invariant 0 <= k <= |links|
      invariant counters.Keys == zero.Keys
      invariant CountsDegrees(counters, links[..k])
      invariant forall m :: 0 <= m < k ==> links[m].a in routers || links[m].b in routers
    {
      var a, b := links[k].a, links[k].b;
      if a !in routers && b !in routers {
        return Err(LinkWithoutInternalRouter);
      }
      CountStep(counters, links, k);
      counters := counters[a := counters[a] + 1];
      counters := counters[b := counters[b] + 1];
      k := k + 1;
    }
    assert links[..k] == links;
    assert CountsDegrees(counters, links);
    return Ok(counters);
  }

  /** `check_NR_connections` (config.py:332-362). Callers have already run `check_links`
      (every endpoint is a declared node, or the counter lookup raises KeyError) and
      `check_file_format` (the Internal-Router category exists). */
  method CheckNRConnections(nodes: seq<Category>, links: seq<Link>) returns (r: Outcome<ConfigError>)
    requires Lookup(nodes, InternalRouter).Some?
    requires forall k :: 0 <= k < |links| ==> links[k].a in AllEntries(nodes) && links[k].b in AllEntries(nodes)
    ensures r.Pass? <==> NROk(nodes, links)
    ensures r.Pass? ==> forall e :: e in AllEntries(nodes) && e !in Lookup(nodes, InternalRouter).value ==>
                          Degree(links, e) == 1
  {
    var counters, order := ZeroCounters(nodes);
    var routers := Lookup(nodes, InternalRouter).value;
    var counted := CountLinks(links, routers, counters);
    if counted.Err? {
      return Fail(counted.error);
    }
    counters := counted.value;
    var n := 0;
    while n < |order|
      invariant 0 <= n <= |order|
      invariant forall m :: 0 <= m < n ==>
        order[m] in counters && (order[m] !in routers ==> counters[order[m]] <= 1) && counters[order[m]] >= 1
    {
      var node := order[n];
      var totalLinks := counters[node];
      if totalLinks > 1 && node !in routers {
        return Fail(MoreThanOneLink(node));
      }
      if totalLinks == 0 {
        return Fail(NoLinks(node));
      }
      n := n + 1;
    }
    forall e | e in AllEntries(nodes)
      ensures (e !in routers ==> Degree(links, e) <= 1) && Degree(links, e) >= 1
    {
      assert e in counters;
      var m :| 0 <= m < |order| && order[m] == e;
      assert counters[e] == Degree(links, e);
    }
    return Pass;
  }

  // ---------------------------------------------------------------------------
  // check_network_connected
  // ---------------------------------------------------------------------------

  /** The multigraph's nodes: every declared node and every link endpoint. */
  function GraphVertices(nodes: seq<Category>, links: seq<Link>): set<NodeEntry> {
    (set e | e in AllEntries(nodes)) + (set k | 0 <= k < |links| :: links[k].a)
      + (set k | 0 <= k < |links| :: links[k].b)
  }

  /** One edge per link, parallel links kept. */
  function GraphEdges(links: seq<Link>): seq<Reach.Edge<NodeEntry>> {
    seq(|links|, k requires 0 <= k < |links| => Reach.Edge(links[k].a, links[k].b))
  }

  ghost predicate ConnectedOk(nodes: seq<Category>, links: seq<Link>) {
    Reach.Connected(GraphVertices(nodes, links), GraphEdges(links))
  }

  /** `check_network_connected` (config.py:364-377). The graph holds at least one node
      (`check_file_format` has passed; networkx raises on the null graph). */
  method CheckNetworkConnected(nodes: seq<Category>, links: seq<Link>) returns (r: Outcome<ConfigError>)
    requires AllEntries(nodes) != []
    ensures r.Pass? <==> ConnectedOk(nodes, links)
  {
    var vertices: set<NodeEntry> := {};
    var i := 0;
    while i < |nodes|
      invariant 0 <= i <= |nodes|
      invariant vertices == set e | e in AllEntries(nodes[..i])
    {
      AllEntriesStep(nodes, i);
      var nodeList := nodes[i].entries;
      var j := 0;
      while j < |nodeList|
        invariant 0 <= j <= |nodeList|
        invariant vertices == set e | e in AllEntries(nodes[..i]) + nodeList[..j]
      {
        assert AllEntries(nodes[..i]) + nodeList[..j + 1] == AllEntries(nodes[..i]) + nodeList[..j] + [nodeList[j]];
        vertices := vertices + {nodeList[j]};
        j := j + 1;
      }
      assert nodeList[..j] == nodeList;
      i := i + 1;
    }
    assert nodes[..i] == nodes;
    var edges: seq<Reach.Edge<NodeEntry>> := [];
    var k := 0;
    while k < |links|
      invariant 0 <= k <= |links|
      invariant vertices == (set e | e in AllEntries(nodes)) + (set m | 0 <= m < k :: links[m].a)
                            + (set m | 0 <= m < k :: links[m].b)
      invariant edges == GraphEdges(links[..k])
    {
      var a, b := links[k].a, links[k].b;
      vertices := vertices + {a, b};
      edges := edges + [Reach.Edge(a, b)];
      k := k + 1;
    }
    assert links[..k] == links;
    assert AllEntries(nodes)[0] in vertices;
    var connected := Reach.IsConnected(vertices, edges);
    if !connected {
      return Fail(NotConnected);
    }
    return Pass;
  }

  // ---------------------------------------------------------------------------
  // remove_unused_BR
  // ---------------------------------------------------------------------------

  /** `[BR for BR in entries if BR in BR_used]`. */
  function FilterUsed(entries: seq<NodeEntry>, used: set<string>): seq<NodeEntry>
    decreases |entries|
  {
    if entries == [] then []
    else (if entries[0].Str? && entries[0].name in used then [entries[0]] else []) + FilterUsed(entries[1..], used)
  }

  /** The Borderrouter list replaced by its filter by the used names; the other
      categories are left as they are. */
  function PruneNodes(nodes: seq<Category>, used: set<string>): seq<Category> {
    seq(|nodes|, i requires 0 <= i < |nodes| =>
      if nodes[i].key == Borderrouter then Category(Borderrouter, FilterUsed(nodes[i].entries, used))
      else nodes[i])
  }

  /** The links both of whose endpoints are in `declared`, in their original order. */
  function PruneLinks(links: seq<Link>, declared: seq<NodeEntry>): seq<Link>
    decreases |links|
  {
    if links == [] then []
    else
      var l := links[|links| - 1];
      PruneLinks(links[..|links| - 1], declared) + (if l.a in declared && l.b in declared then [l] else [])
  }

  /** The filtered Borderrouter list holds exactly the used string nodes. */
  lemma {:induction false} FilterUsedMembers(entries: seq<NodeEntry>, used: set<string>)
    ensures forall e :: e in FilterUsed(entries, used) <==> e in entries && e.Str? && e.name in used
    decreases |entries|
  {
    if entries != [] {
      FilterUsedMembers(entries[1..], used);
      assert entries == [entries[0]] + entries[1..];
    }
  }

  /** A link survives pruning exactly when both its endpoints are declared. */
  lemma {:induction false} PruneLinksMembers(links: seq<Link>, declared: seq<NodeEntry>)
    ensures forall l :: l in PruneLinks(links, declared) <==> l in links && l.a in declared && l.b in declared
    decreases |links|
  {
    if links != [] {
      PruneLinksMembers(links[..|links| - 1], declared);
      assert links == links[..|links| - 1] + [links[|links| - 1]];
    }
  }

  /** The document after `remove_unused_BR` / `gen_intra_topo_dict`. */
  function Prune(t: IntraTopo, used: set<string>): IntraTopo {
    var nodes := PruneNodes(t.nodes, used);
    IntraTopo(nodes, PruneLinks(t.links, AllEntries(nodes)))
  }

  /** Pruning keeps the category keys and every category except Borderrouter, makes the
      Borderrouter list an order-preserving filter of the old one, and never adds nodes. */
  lemma PruneNodesProperties(nodes: seq<Category>, used: set<string>)
    ensures KeySet(PruneNodes(nodes, used)) == KeySet(nodes)
    ensures forall i :: 0 <= i < |nodes| && nodes[i].key != Borderrouter ==> PruneNodes(nodes, used)[i] == nodes[i]
    ensures forall e :: e in AllEntries(PruneNodes(nodes, used)) ==> e in AllEntries(nodes)
  {
    var p := PruneNodes(nodes, used);
    assert forall i :: 0 <= i < |nodes| ==> p[i].key == nodes[i].key;
    forall i | 0 <= i < |nodes| ensures forall e :: e in p[i].entries ==> e in nodes[i].entries {
      FilterUsedMembers(nodes[i].entries, used);
    }
    AllEntriesMono(p, nodes);
  }

  /** Concatenating node lists that are pointwise smaller gives a smaller concatenation. */
  lemma {:induction false} AllEntriesMono(a: seq<Category>, b: seq<Category>)
    requires |a| == |b|
    requires forall i, e :: 0 <= i < |a| && e in a[i].entries ==> e in b[i].entries
    ensures forall e :: e in AllEntries(a) ==> e in AllEntries(b)
    decreases |a|
  {
    if a != [] {
      var n := |a| - 1;
      AllEntriesMono(a[..n], b[..n]);
    }
  }

  /** When every Borderrouter node is used and every link joins declared nodes, pruning
      changes nothing (both border routers used, as in the two-BR example topology). */
  lemma PruneKeepsFullyUsed(t: IntraTopo, used: set<string>)
    requires forall i, e :: 0 <= i < |t.nodes| && t.nodes[i].key == Borderrouter && e in t.nodes[i].entries ==>
               e.Str? && e.name in used
    requires forall k :: 0 <= k < |t.links| ==> t.links[k].a in AllEntries(t.nodes) && t.links[k].b in AllEntries(t.nodes)
    ensures Prune(t, used) == t
  {
    forall i | 0 <= i < |t.nodes| && t.nodes[i].key == Borderrouter
      ensures FilterUsed(t.nodes[i].entries, used) == t.nodes[i].entries
    {
      FilterKeepsAll(t.nodes[i].entries, used);
    }
    assert PruneNodes(t.nodes, used) == t.nodes;
    PruneLinksKeepsAll(t.links, AllEntries(t.nodes));
  }

  lemma {:induction false} FilterKeepsAll(entries: seq<NodeEntry>, used: set<string>)
    requires forall e :: e in entries ==> e.Str? && e.name in used
    ensures FilterUsed(entries, used) == entries
    decreases |entries|
  {
    if entries != [] {
      FilterKeepsAll(entries[1..], used);
    }
  }

  lemma {:induction false} PruneLinksKeepsAll(links: seq<Link>, declared: seq<NodeEntry>)
    requires forall k :: 0 <= k < |links| ==> links[k].a in declared && links[k].b in declared
    ensures PruneLinks(links, declared) == links
    decreases |links|
  {
    if links != [] {
      PruneLinksKeepsAll(links[..|links| - 1], declared);
      assert links == links[..|links| - 1] + [links[|links| - 1]];
    }
  }

  lemma PruneLinksStep(links: seq<Link>, i: nat, declared: seq<NodeEntry>)
    requires i < |links|
    ensures PruneLinks(links[..i + 1], declared) ==
            PruneLinks(links[..i], declared) + (if links[i].a in declared && links[i].b in declared then [links[i]] else [])
  {
    assert links[..i + 1][..i] == links[..i];
  }

  /** Python's `list.remove(x)`: drops the first occurrence of `x`. */
  function RemoveFirst<T(==)>(s: seq<T>, x: T): seq<T>
    requires x in s
    decreases |s|
  {
    if s[0] == x then s[1..] else [s[0]] + RemoveFirst(s[1..], x)
  }

  lemma {:induction false} RemoveFirstAfter<T>(kept: seq<T>, x: T, rest: seq<T>)
    requires x !in kept
    ensures x in kept + [x] + rest
    ensures RemoveFirst(kept + [x] + rest, x) == kept + rest
    decreases |kept|
  {
    if kept != [] {
      assert (kept + [x] + rest)[1..] == kept[1..] + [x] + rest;
      RemoveFirstAfter(kept[1..], x, rest);
    }
  }

  /** One step of the removal loop: removing the first occurrence of a dangling link
      from the live list drops exactly that link. */
  lemma RemoveStep(snapshot: seq<Link>, i: nat, allNodes: seq<NodeEntry>)
    requires i < |snapshot|
    ensures var l := snapshot[i];
            var live := PruneLinks(snapshot[..i], allNodes) + snapshot[i..];
            if l.a in allNodes && l.b in allNodes then
              live == PruneLinks(snapshot[..i + 1], allNodes) + snapshot[i + 1..]
            else
              l in live && RemoveFirst(live, l) == PruneLinks(snapshot[..i + 1], allNodes) + snapshot[i + 1..]
  {
    var l := snapshot[i];
    var kept := PruneLinks(snapshot[..i], allNodes);
    PruneLinksStep(snapshot, i, allNodes);
    assert snapshot[i..] == [l] + snapshot[i + 1..];
    if !(l.a in allNodes && l.b in allNodes) {
      PruneLinksMembers(snapshot[..i], allNodes);
      RemoveFirstAfter(kept, l, snapshot[i + 1..]);
      assert kept + snapshot[i..] == kept + [l] + snapshot[i + 1..];
    }
  }

  /** The mutable intra-topology dictionary. */
  class IntraTopoDict {
    var nodes: seq<Category>
    var links: seq<Link>

    constructor (t: IntraTopo)
      ensures nodes == t.nodes && links == t.links
    {
      nodes := t.nodes;
      links := t.links;
    }

    function Value(): IntraTopo
      reads this
    {
      IntraTopo(nodes, links)
    }
  }

  /** The link loop of `remove_unused_BR` / `gen_intra_topo_dict`: over a copy of the list,
      every link with an endpoint outside `allNodes` is removed from the live list with
      `list.remove`, which ends up as the order-preserving filter. */
  method RemoveDanglingLinks(d: IntraTopoDict, allNodes: seq<NodeEntry>)
    modifies d
    ensures d.nodes == old(d.nodes)
    ensures d.links == PruneLinks(old(d.links), allNodes)
  {
    var snapshot := d.links;
    var i := 0;
    while i < |snapshot|
      invariant 0 <= i <= |snapshot|
      invariant d.nodes == old(d.nodes)
      invariant d.links == PruneLinks(snapshot[..i], allNodes) + snapshot[i..]
    {
      var link := snapshot[i];
      RemoveStep(snapshot, i, allNodes);
      if link.a !in allNodes || link.b !in allNodes {
        d.links := RemoveFirst(d.links, link);
      }
      i := i + 1;
    }
    assert snapshot[..i] == snapshot;
  }

  // ---------------------------------------------------------------------------
  // _ensure_correct_format
  // ---------------------------------------------------------------------------

  /** Everything `_ensure_correct_format` demands of one AS, in its order: border-router
      reconciliation, a topology document, its format and naming, and then the link,
      degree and connectivity checks on the pruned document. */
  ghost predicate AsTopologyOk(asName: string, links: seq<InterLink>, cfg: AsIntraConfig,
                               files: map<string, IntraTopo>) {
    && BRDefinedOk(asName, links, cfg.borderrouter)
    && asName in files
    && DocumentOk(files[asName], cfg.borderrouter.Keys)
  }

  /** The checks on one intra-topology document: format and naming on the document as
      loaded, links, degrees and connectivity on the pruned one. */
  ghost predicate DocumentOk(t: IntraTopo, used: set<string>) {
    FileFormatOk(t.nodes) && NodeNamingOk(t.nodes, used) && PrunedOk(Prune(t, used))
  }

  ghost predicate PrunedOk(p: IntraTopo) {
    LinksOk(p.nodes, p.links) && NROk(p.nodes, p.links) && ConnectedOk(p.nodes, p.links)
  }

  /** The configuration generator's state: the loaded topology file, the intra config,
      the loaded intra-topology documents (keyed by AS; reading the files is I/O) and the
      pruned documents it stores. */
  class ConfigGenerator {
    const topoAses: map<string, TopoAS>
    const interLinks: seq<InterLink>
    const intraAses: map<string, AsIntraConfig>
    const topologyFiles: map<string, IntraTopo>
    var intraTopoDicts: map<string, IntraTopo>

    constructor (topoAses: map<string, TopoAS>, interLinks: seq<InterLink>,
                 intraAses: map<string, AsIntraConfig>, topologyFiles: map<string, IntraTopo>)
      ensures this.topoAses == topoAses && this.interLinks == interLinks
      ensures this.intraAses == intraAses && this.topologyFiles == topologyFiles
      ensures intraTopoDicts == map[]
    {
      this.topoAses := topoAses;
      this.interLinks := interLinks;
      this.intraAses := intraAses;
      this.topologyFiles := topologyFiles;
      intraTopoDicts := map[];
    }

    /** `remove_unused_BR` (config.py:126-139). */
    method RemoveUnusedBR(d: IntraTopoDict, asName: string)
      requires asName in intraAses
      requires Lookup(d.nodes, Borderrouter).Some?
      modifies d
      ensures d.Value() == Prune(old(d.Value()), intraAses[asName].borderrouter.Keys)
    {
      var brUsed := intraAses[asName].borderrouter.Keys;
      d.nodes := PruneNodes(d.nodes, brUsed);
      var allNodes := CollectEntries(d.nodes);
      RemoveDanglingLinks(d, allNodes);
    }

    ghost predicate FormatOk()
    {
      && IPv4Only(topoAses)
      && intraAses.Keys == topoAses.Keys
      && forall a :: a in intraAses ==> AsTopologyOk(a, interLinks, intraAses[a], topologyFiles)
    }

    /** The body of the per-AS loop of `_ensure_correct_format` (config.py:152-172): the
        checks on one AS, storing its pruned document before the link checks. */
    method CheckAS(asName: string) returns (r: Outcome<ConfigError>)
      requires asName in intraAses
      modifies this
      ensures r.Pass? <==> AsTopologyOk(asName, interLinks, intraAses[asName], topologyFiles)
      ensures intraTopoDicts - {asName} == old(intraTopoDicts) - {asName}
      ensures r.Pass? ==> asName in intraTopoDicts &&
                          intraTopoDicts[asName] == Prune(topologyFiles[asName], intraAses[asName].borderrouter.Keys)
    {
      var config := intraAses[asName];
      var borderrouters := config.borderrouter;
      r := CheckAllBRDefined(asName, interLinks, borderrouters);
      if r.Fail? { return; }
      if asName !in topologyFiles {
        return Fail(TopologyFileMissing(asName));
      }
      var file := topologyFiles[asName];
      r := CheckFileFormat(file.nodes);
      if r.Fail? { return; }
      r := CheckNodeNaming(file.nodes, borderrouters.Keys);
      if r.Fail? { return; }
      LookupByKey(file.nodes, Borderrouter);
      var d := new IntraTopoDict(file);
      RemoveUnusedBR(d, asName);
      var pruned := d.Value();
      assert pruned == Prune(file, borderrouters.Keys);
      intraTopoDicts := intraTopoDicts[asName := pruned];
      assert intraTopoDicts - {asName} == old(intraTopoDicts) - {asName};
      r := CheckLinks(pruned.nodes, pruned.links);
      if r.Fail? { return; }
      PruneNodesProperties(file.nodes, borderrouters.Keys);
      LookupByKey(pruned.nodes, InternalRouter);
      r := CheckNRConnections(pruned.nodes, pruned.links);
      if r.Fail? { return; }
      FormatLeavesNodes(file.nodes, borderrouters.Keys);
      r := CheckNetworkConnected(pruned.nodes, pruned.links);
    }

    /** `_ensure_correct_format` (config.py:141-172): the checks in their order, the later
        three on the pruned document, which is stored for the generator. The intra-config
        ASes are visited in an arbitrary order (the verdict does not depend on it). */
    method EnsureCorrectFormat() returns (r: Outcome<ConfigError>)
      modifies this
      ensures r.Pass? <==> FormatOk()
      ensures r.Pass? ==> forall a :: a in intraAses ==>
        a in intraTopoDicts && intraTopoDicts[a] == Prune(topologyFiles[a], intraAses[a].borderrouter.Keys)
    {
      r := CheckIPVersion(topoAses);
      if r.Fail? { return; }
      r := CheckASInternalTopology(topoAses.Keys, intraAses.Keys);
      if r.Fail? { return; }
      var todo := intraAses.Keys;
      while todo != {}
        invariant todo <= intraAses.Keys
        invariant forall a :: a in intraAses.Keys - todo ==> AsTopologyOk(a, interLinks, intraAses[a], topologyFiles)
        invariant forall a :: a in intraAses.Keys - todo ==>
          a in intraTopoDicts && intraTopoDicts[a] == Prune(topologyFiles[a], intraAses[a].borderrouter.Keys)
        decreases todo
      {
        var asName :| asName in todo;
        ghost var before := intraTopoDicts;
        r := CheckAS(asName);
        if r.Fail? { return; }
        forall a | a in intraAses.Keys - todo
          ensures a in intraTopoDicts && intraTopoDicts[a] == before[a]
        {
          MapMinusKeeps(intraTopoDicts, before, asName, a);
        }
        todo := todo - {asName};
      }
      return Pass;
    }
  }

  lemma MapMinusKeeps<K, V>(m1: map<K, V>, m2: map<K, V>, x: K, a: K)
    requires m1 - {x} == m2 - {x} && a in m2 && a != x
    ensures a in m1 && m1[a] == m2[a]
  {
    assert a in m2 - {x};
  }

  /** A well-formed document keeps at least one node after pruning: the Colibri
      category is not touched and holds a node. */
  lemma FormatLeavesNodes(nodes: seq<Category>, used: set<string>)
    requires FileFormatOk(nodes)
    ensures AllEntries(PruneNodes(nodes, used)) != []
  {
    assert Colibri in KeySet(nodes);
    var i :| 0 <= i < |nodes| && nodes[i].key == Colibri;
    assert CategoryOk(nodes[i]);
    NonNullEmpty(nodes[i].entries);
    PruneNodesProperties(nodes, used);
    EntryInAll(PruneNodes(nodes, used), i, nodes[i].entries[0]);
  }

  // ---------------------------------------------------------------------------
  // remove_v4_nets
  // ---------------------------------------------------------------------------

  /** `remove_v4_nets` (config.py:507-514): drop the networks whose name ends in `_v4`. */
  method RemoveV4Nets(nets: map<string, NetworkDescription>) returns (res: map<string, NetworkDescription>)
    ensures forall n :: n in res <==> n in nets && !EndsWith(nets[n].name, "_v4")
    ensures forall n :: n in res ==> res[n] == nets[n]
  {
    res := map[];
    var todo := nets.Keys;
    while todo != {}
      invariant todo <= nets.Keys
      invariant forall n :: n in res <==> n in nets.Keys - todo && !EndsWith(nets[n].name, "_v4")
      invariant forall n :: n in res ==> res[n] == nets[n]
      decreases todo
    {
      var net :| net in todo;
      if !EndsWith(nets[net].name, "_v4") {
        res := res[net := nets[net]];
      }
      todo := todo - {net};
    }
  }
}

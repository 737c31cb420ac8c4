/** The AS configuration generator of intra-AS-simulation/AS_config_creator.py: the
    border routers each AS uses on the inter-AS links of a SCION topology (`get_BRs_per_AS`)
    and the AS entries that map the internal border-router nodes of one intra-topology to
    them (`generate_intra_dict`). The same `get_BRs_per_AS` appears verbatim in
    default_intra_topo_generator.py. */
module AsConfigCreator {
  import opened Wrappers
  import opened Text
  import opened TopologyConfig

  // ---------------------------------------------------------------------------
  // The protocol option
  // ---------------------------------------------------------------------------

  /** `args.protocol.upper()`, accepted only when it is one of the supported protocols
      (only OSPF); `None` is the `sys.exit(1)`. */
  function NormalizeProtocol(protocol: string): (r: Option<string>)
    ensures r.Some? <==> ToUpper(protocol) == "OSPF"
    ensures r.Some? ==> r.value == "OSPF"
  {
    var upper := ToUpper(protocol);
    if upper in ["OSPF"] then Some(upper) else None
  }

  /** The protocol is accepted in any letter case. */
  lemma ProtocolCaseInsensitive()
    ensures NormalizeProtocol("ospf") == Some("OSPF")
    ensures NormalizeProtocol("Ospf") == Some("OSPF")
    ensures NormalizeProtocol("rip") == None
  {
    assert ToUpper("ospf") == "OSPF";
    assert ToUpper("Ospf") == "OSPF";
    assert ToUpper("rip")[0] == 'R';
  }

  // ---------------------------------------------------------------------------
  // get_BRs_per_AS
  // ---------------------------------------------------------------------------

  /** One endpoint visited for an AS: an endpoint of the AS (a prefix match) adds its
      stripped three-part ID unless already listed, or its full name otherwise. */
  function WithEndpoint(list: seq<string>, x: string, asName: string): seq<string> {
    if !StartsWith(x, asName) then list
    else if IsThreePart(x) then (if NoInterface(x) in list then list else list + [NoInterface(x)])
    else list + [x]
  }

  /** The list of an AS after visiting the endpoints in order. */
  function BRList(eps: seq<string>, asName: string): seq<string>
    decreases |eps|
  {
    if eps == [] then [] else WithEndpoint(BRList(eps[..|eps| - 1], asName), eps[|eps| - 1], asName)
  }

  /** The list holds exactly the names of the AS's endpoints: the same set as the one
      config.py's `check_all_BR_defined` collects. */
  lemma {:induction false} BRListMembers(eps: seq<string>, asName: string, y: string)
    ensures y in BRList(eps, asName) <==> y in NameSet(eps, asName)
    decreases |eps|
  {
    if eps != [] {
      var p, x := eps[..|eps| - 1], eps[|eps| - 1];
      BRListMembers(p, asName, y);
      if y in NameSet(eps, asName) {
        var i :| 0 <= i < |eps| && StartsWith(eps[i], asName) && BRName(eps[i]) == y;
        if i < |p| {
          assert p[i] == eps[i];
          assert y in NameSet(p, asName);
        }
      }
      if y in NameSet(p, asName) {
        var i :| 0 <= i < |p| && StartsWith(p[i], asName) && BRName(p[i]) == y;
        assert eps[i] == p[i];
      }
      if StartsWith(x, asName) {
        assert BRName(eps[|eps| - 1]) == BRName(x);
      }
    }
  }

  /** A stripped three-part ID is itself three-part. */
  lemma StrippedIsThreePart(x: string)
    requires IsThreePart(x)
    ensures IsThreePart(NoInterface(x))
  {
    SplitFirstIsStable(x, '#');
  }

  /** A three-part ID is listed at most once. */
  lemma {:induction false} ThreePartListedOnce(eps: seq<string>, asName: string)
    ensures forall i, j :: 0 <= i < j < |BRList(eps, asName)| && IsThreePart(BRList(eps, asName)[i])
              ==> BRList(eps, asName)[i] != BRList(eps, asName)[j]
    decreases |eps|
  {
    if eps != [] {
      var p, x := eps[..|eps| - 1], eps[|eps| - 1];
      ThreePartListedOnce(p, asName);
      var l := BRList(p, asName);
      var l' := BRList(eps, asName);
      forall i, j | 0 <= i < j < |l'| && IsThreePart(l'[i]) ensures l'[i] != l'[j] {
        if j == |l| {
          assert l'[i] == l[i];
        }
      }
    }
  }

  /** A name that is not a three-part ID is listed once per occurrence among the endpoints,
      so repeated plain names are kept. */
  lemma {:induction false} PlainNamesKept(eps: seq<string>, asName: string, x: string)
    requires IsPlain(x, asName)
    ensures multiset(BRList(eps, asName))[x] == multiset(eps)[x]
    decreases |eps|
  {
    if eps != [] {
      var p, y := eps[..|eps| - 1], eps[|eps| - 1];
      assert eps == p + [y];
      PlainNamesKept(p, asName, x);
      if StartsWith(y, asName) && IsThreePart(y) {
        ThreePartDiffers(x, y);
      }
    }
  }

  /** Every listed name comes from an endpoint with the AS's name as prefix. */
  lemma NoMatchNoList(eps: seq<string>, asName: string)
    requires forall i :: 0 <= i < |eps| ==> !StartsWith(eps[i], asName)
    ensures BRList(eps, asName) == []
  {
    if BRList(eps, asName) != [] {
      BRListMembers(eps, asName, BRList(eps, asName)[0]);
    }
  }

  /** The list of an AS, that of `defaultdict(list)`: empty when absent. */
  function ListOf(mapping: map<string, seq<string>>, asName: string): seq<string> {
    if asName in mapping then mapping[asName] else []
  }

  /** `get_BRs_per_AS(topo_dict, AS_names)` (AS_config_creator.py:58-78,
      default_intra_topo_generator.py:44-64). The AS names are the keys of the topology's
      `ASes` dictionary, hence distinct. An AS none of whose names matches gets no entry. */
  method GetBRsPerAS(links: seq<InterLink>, asNames: seq<string>) returns (mapping: map<string, seq<string>>)
    requires forall i, j :: 0 <= i < j < |asNames| ==> asNames[i] != asNames[j]
    ensures forall n :: n in mapping <==> n in asNames && BRList(Endpoints(links), n) != []
    ensures forall n :: n in mapping ==> mapping[n] == BRList(Endpoints(links), n)
  {
    mapping := map[];
    var i := 0;
    while i < |asNames|
      invariant 0 <= i <= |asNames|
      invariant forall n :: n in mapping <==> n in asNames[..i] && BRList(Endpoints(links), n) != []
      invariant forall n :: n in mapping ==> mapping[n] == BRList(Endpoints(links), n)
    {
      var asName := asNames[i];
      assert asName !in asNames[..i];
      ghost var before := mapping;
      var j := 0;
      while j < |links|
        invariant 0 <= j <= |links|
        invariant ListOf(mapping, asName) == BRList(Endpoints(links[..j]), asName)
        invariant asName in mapping ==> mapping[asName] != []
        invariant forall n :: n != asName ==> (n in mapping <==> n in before)
        invariant forall n :: n != asName && n in mapping ==> mapping[n] == before[n]
      {
        BRListStep(links, j, asName);
        mapping := Visit(mapping, asName, links[j].a);
        mapping := Visit(mapping, asName, links[j].b);
        j := j + 1;
      }
      assert links[..j] == links;
      assert asNames[..i + 1] == asNames[..i] + [asName];
      i := i + 1;
    }
    assert asNames[..i] == asNames;
  }

  lemma BRListStep(links: seq<InterLink>, j: nat, asName: string)
    requires j < |links|
    ensures BRList(Endpoints(links[..j + 1]), asName)
              == WithEndpoint(WithEndpoint(BRList(Endpoints(links[..j]), asName), links[j].a, asName), links[j].b, asName)
  {
    var e := Endpoints(links[..j]);
    assert links[..j + 1][..j] == links[..j];
    var e' := Endpoints(links[..j + 1]);
    assert e' == e + [links[j].a, links[j].b];
    assert e'[..|e'| - 1] == e + [links[j].a];
    assert (e + [links[j].a])[..|e|] == e;
  }

  /** The body of the `for x in [a, b]` loop for one endpoint. */
  method Visit(mapping: map<string, seq<string>>, asName: string, x: string) returns (m: map<string, seq<string>>)
    ensures StartsWith(x, asName) ==> m == mapping[asName := WithEndpoint(ListOf(mapping, asName), x, asName)]
    ensures !StartsWith(x, asName) ==> m == mapping
  {
    m := mapping;
    if StartsWith(x, asName) {
      var noItf := Split(x, "#")[0];
      var parts := Split(noItf, "-");
      if |parts| == 3 {
        if noItf in ListOf(m, asName) {
          return;
        }
        m := m[asName := ListOf(m, asName) + [noItf]];
      } else {
        m := m[asName := ListOf(m, asName) + [x]];
      }
    }
  }

  // ---------------------------------------------------------------------------
  // generate_intra_dict
  // ---------------------------------------------------------------------------

  /** One generated `ASes` entry. The Borderrouter keys are the entries of the intra
      topology's `Borderrouter` list as they stand (strings, normally). */
  datatype GeneratedAs = GeneratedAs(intraTopology: string, routingProtocol: string,
                                     borderrouter: map<NodeEntry, string>)

  /** The failures of `generate_intra_dict`: `.get` on the `[]` default when `Nodes` is
      missing (AttributeError), and the `sys.exit(1)` for too few internal border routers. */
  datatype CreatorError = NoNodes | NotEnoughBorderrouters(asName: string)

  /** `topo_dict.get('Nodes', []).get('Borderrouter', [])` on a document that has `Nodes`. */
  function InternalBRs(nodes: seq<Category>): seq<NodeEntry> {
    Lookup(nodes, "Borderrouter").GetOr([])
  }

  /** `BR_map` after `BR_map[internal_BRs[i]] = BR` for every `i`: a later index
      overwrites an earlier one with the same key. */
  function BrMapOf(internal: seq<NodeEntry>, brs: seq<string>): map<NodeEntry, string>
    requires |brs| <= |internal|
    decreases |brs|
  {
    if brs == [] then map[]
    else BrMapOf(internal, brs[..|brs| - 1])[internal[|brs| - 1] := brs[|brs| - 1]]
  }

  /** The map's keys are the first `|brs|` internal names. */
  lemma {:induction false} BrMapKeys(internal: seq<NodeEntry>, brs: seq<string>, k: NodeEntry)
    requires |brs| <= |internal|
    ensures k in BrMapOf(internal, brs) <==> exists i :: 0 <= i < |brs| && internal[i] == k
    decreases |brs|
  {
    if brs != [] {
      BrMapKeys(internal, brs[..|brs| - 1], k);
    }
  }

  /** When the first `|brs|` internal names are distinct, the i-th internal border router
      stands for the i-th used one. */
  lemma {:induction false} BrMapValues(internal: seq<NodeEntry>, brs: seq<string>, i: nat)
    requires |brs| <= |internal| && i < |brs|
    requires forall a, b :: 0 <= a < b < |brs| ==> internal[a] != internal[b]
    ensures internal[i] in BrMapOf(internal, brs) && BrMapOf(internal, brs)[internal[i]] == brs[i]
    decreases |brs|
  {
    var n := |brs| - 1;
    if i < n {
      var init := brs[..n];
      assert init[i] == brs[i];
      BrMapValues(internal, init, i);
    }
  }

  /** The `enumerate` loop filling `BR_map`. */
  method MapBRs(internal: seq<NodeEntry>, brs: seq<string>) returns (brMap: map<NodeEntry, string>)
    requires |brs| <= |internal|
    ensures brMap == BrMapOf(internal, brs)
  {
    brMap := map[];
    var i := 0;
    while i < |brs|
      invariant 0 <= i <= |brs|
      invariant brMap == BrMapOf(internal, brs[..i])
    {
      assert brs[..i + 1][..i] == brs[..i];
      brMap := brMap[internal[i] := brs[i]];
      i := i + 1;
    }
    assert brs[..i] == brs;
  }

  /** `generate_intra_dict(BRs_per_AS, protocol, intra_topo)` (AS_config_creator.py:81-100),
      given the `Nodes` of the intra topology read from `intra_topo` (`None`: no `Nodes`).
      The ASes are visited in some order; the first one with more used border routers than
      there are internal ones ends the run. */
  method GenerateIntraDict(brsPerAS: map<string, seq<string>>, protocol: string, intraTopo: string,
                           nodes: Option<seq<Category>>)
    returns (r: Result<map<string, GeneratedAs>, CreatorError>)
    ensures nodes.None? ==> r == Err(NoNodes)
    ensures r.Ok? <==> nodes.Some? && forall n :: n in brsPerAS ==> |brsPerAS[n]| <= |InternalBRs(nodes.value)|
    ensures r.Err? && r.error.NotEnoughBorderrouters? ==>
              nodes.Some? && r.error.asName in brsPerAS
              && |InternalBRs(nodes.value)| < |brsPerAS[r.error.asName]|
    ensures r.Ok? ==> r.value.Keys == brsPerAS.Keys
    ensures r.Ok? ==> forall n :: n in r.value ==>
              r.value[n] == GeneratedAs(intraTopo, protocol, BrMapOf(InternalBRs(nodes.value), brsPerAS[n]))
  {
    if nodes.None? {
      return Err(NoNodes);
    }
    var internal := InternalBRs(nodes.value);
    var intraDict: map<string, GeneratedAs> := map[];
    var remaining := brsPerAS.Keys;
    while remaining != {}
      invariant remaining <= brsPerAS.Keys
      invariant intraDict.Keys == brsPerAS.Keys - remaining
      invariant forall n :: n in intraDict ==> |brsPerAS[n]| <= |internal|
      invariant forall n :: n in intraDict ==>
                  intraDict[n] == GeneratedAs(intraTopo, protocol, BrMapOf(internal, brsPerAS[n]))
      decreases |remaining|
    {
      var asName :| asName in remaining;
      var brs := brsPerAS[asName];
      if |internal| < |brs| {
        return Err(NotEnoughBorderrouters(asName));
      }
      var brMap := MapBRs(internal, brs);
      intraDict := intraDict[asName := GeneratedAs(intraTopo, protocol, brMap)];
      remaining := remaining - {asName};
    }
    return Ok(intraDict);
  }
}

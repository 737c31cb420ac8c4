/** The default intra-domain configuration generator of
    intra-AS-simulation/default_intra_topo_generator.py: every AS that uses border routers
    on inter-AS links gets the default intra topology, the chosen protocol and border
    routers named br1, br2, ... in order of use. Its `get_BRs_per_AS` and its protocol check
    are those of `AsConfigCreator`. */
module DefaultIntraTopoGenerator {
  import opened Text
  import opened TopologyConfig
  import opened AsConfigCreator

  const DefaultIntraTopology := "default.intra.topo"

  /** The internal name of the border router at index `i`: `f'br{i+1}'`. */
  function BrKey(i: nat): NodeEntry {
    Str("br" + NatToString(i + 1))
  }

  /** Different indices give different names. */
  lemma BrKeyInjective(i: nat, j: nat)
    requires BrKey(i) == BrKey(j)
    ensures i == j
  {
    var a, b := "br" + NatToString(i + 1), "br" + NatToString(j + 1);
    assert a[2..] == NatToString(i + 1) && b[2..] == NatToString(j + 1);
    NatToStringInjective(i + 1, j + 1);
  }

  /** `BR_map` names the border routers br1..brN: one key per used border router. */
  predicate Numbered(brMap: map<NodeEntry, string>, brs: seq<string>) {
    NumberedUpTo(brMap, brs, |brs|)
  }

  /** `BR_map` after the first `n` border routers. */
  predicate NumberedUpTo(brMap: map<NodeEntry, string>, brs: seq<string>, n: nat)
    requires n <= |brs|
  {
    |brMap| == n
    && (forall i :: 0 <= i < n ==> BrKey(i) in brMap && brMap[BrKey(i)] == brs[i])
    && (forall k :: k in brMap ==> exists i :: 0 <= i < n && k == BrKey(i))
  }

  /** The `enumerate` loop of `generate_intra_dict` (default_intra_topo_generator.py:70-72). */
  method NumberBRs(brs: seq<string>) returns (brMap: map<NodeEntry, string>)
    ensures Numbered(brMap, brs)
  {
    brMap := map[];
    var i := 0;
    while i < |brs|
      invariant 0 <= i <= |brs|
      invariant NumberedUpTo(brMap, brs, i)
    {
      NumberedStep(brMap, brs, i);
      brMap := brMap[BrKey(i) := brs[i]];
      i := i + 1;
    }
  }

  lemma NumberedStep(brMap: map<NodeEntry, string>, brs: seq<string>, i: nat)
    requires i < |brs| && NumberedUpTo(brMap, brs, i)
    ensures BrKey(i) !in brMap
    ensures NumberedUpTo(brMap[BrKey(i) := brs[i]], brs, i + 1)
  {
    if BrKey(i) in brMap {
      var j :| 0 <= j < i && BrKey(i) == BrKey(j);
      BrKeyInjective(i, j);
    }
    var m := brMap[BrKey(i) := brs[i]];
    assert |m| == i + 1;
    forall j | 0 <= j < i ensures BrKey(j) in m && m[BrKey(j)] == brs[j] {
      if BrKey(j) == BrKey(i) {
        BrKeyInjective(i, j);
      }
    }
    forall k | k in m ensures exists j :: 0 <= j < i + 1 && k == BrKey(j) {
      if k != BrKey(i) {
        var j :| 0 <= j < i && k == BrKey(j);
      }
    }
  }

  /** One `ASes` entry as the default generator writes it. */
  predicate DefaultEntry(e: GeneratedAs, brs: seq<string>, protocol: string) {
    e.intraTopology == DefaultIntraTopology && e.routingProtocol == protocol && Numbered(e.borderrouter, brs)
  }

  /** `generate_intra_dict(BRs_per_AS, protocol)` (default_intra_topo_generator.py:67-79):
      one entry per AS, with the default intra topology and the given protocol. */
  method GenerateDefaultIntraDict(brsPerAS: map<string, seq<string>>, protocol: string)
    returns (intraDict: map<string, GeneratedAs>)
    ensures intraDict.Keys == brsPerAS.Keys
    ensures forall n :: n in intraDict ==> DefaultEntry(intraDict[n], brsPerAS[n], protocol)
  {
    intraDict := map[];
    var remaining := brsPerAS.Keys;
    while remaining != {}
      invariant remaining <= brsPerAS.Keys
      invariant intraDict.Keys == brsPerAS.Keys - remaining
      invariant forall n :: n in intraDict ==> DefaultEntry(intraDict[n], brsPerAS[n], protocol)
      decreases |remaining|
    {
      var asName :| asName in remaining;
      var brMap := NumberBRs(brsPerAS[asName]);
      intraDict := intraDict[asName := GeneratedAs(DefaultIntraTopology, protocol, brMap)];
      remaining := remaining - {asName};
    }
  }

  /** Every AS the generator lists uses at least one border router, since
      `get_BRs_per_AS` only creates entries it appends to. */
  lemma GeneratedASesUseBRs(links: seq<InterLink>, asNames: seq<string>, mapping: map<string, seq<string>>, n: string)
    requires forall k :: k in mapping <==> k in asNames && BRList(Endpoints(links), k) != []
    requires forall k :: k in mapping ==> mapping[k] == BRList(Endpoints(links), k)
    requires n in mapping
    ensures exists i :: 0 <= i < |Endpoints(links)| && StartsWith(Endpoints(links)[i], n)
  {
    var y := mapping[n][0];
    BRListMembers(Endpoints(links), n, y);
  }
}

/**
 * The neighbourhood of a protein as the graph queries return it, and its
 * conversion into nodes and edges for display (get_protein_neighborhood and
 * export_neighborhood_for_visualization). The Cypher queries run in the graph
 * engine; their answer is an input here.
 */
module Visualization {
  import opened Common
  import opened EdgeStats

  /** The properties of a Protein node; an absent property is None. */
  datatype ProteinProps = ProteinProps(
    uniprotId: string, entryName: Option<string>, isLabelled: Option<bool>, length: Option<int>, ecNumbers: Option<seq<string>>)

  datatype DomainProps = DomainProps(interproId: string)

  /** The property map of a SIMILAR relationship, as `dict(r)` gives it. */
  datatype RelProps = RelProps(startNodeId: Option<string>, endNodeId: Option<string>, jaccardWeight: Option<real>, sharedDomains: Option<int>)

  /**
   * A SIMILAR relationship: the uniprot ids of its two end nodes, which the
   * driver's relationship object carries, and its property map.
   */
  datatype Relationship = Relationship(startId: string, endId: string, props: RelProps)

  // ---------------------------------------------------------------------------
  // get_protein_neighborhood
  // ---------------------------------------------------------------------------

  /** The single row of either neighbourhood query; collected lists may hold nulls. */
  datatype QueryRecord = QueryRecord(
    center: Option<ProteinProps>,
    neighbors: seq<Option<ProteinProps>>,
    relationships: seq<Option<Relationship>>,
    domains: seq<Option<DomainProps>>)

  datatype Neighborhood = Neighborhood(
    center: ProteinProps, neighbors: seq<ProteinProps>, relationships: seq<Relationship>, domains: seq<DomainProps>, depth: int)

  datatype NeighborhoodQuery = DirectNeighbors | WithinTwoHops

  /** The query `get_protein_neighborhood` sends for a depth. */
  function QueryFor(depth: int): (q: NeighborhoodQuery)
  {
    if depth == 1 then DirectNeighbors else WithinTwoHops
  }

  /** Any depth other than 1 takes the two-hop query. */
  lemma {:induction false} QueryForDepth(depth: int)
    ensures QueryFor(depth) == DirectNeighbors <==> depth == 1
    ensures depth != 1 ==> QueryFor(depth) == WithinTwoHops
  {
  }

  /** `[x for x in s if x is not None]`. */
  function FilterSome<T(!new)>(s: seq<Option<T>>): (r: seq<T>)
    ensures forall x :: x in r <==> Some(x) in s
    ensures |r| <= |s|
    ensures (forall k :: 0 <= k < |s| ==> s[k].Some?) ==> |r| == |s|
  {
    if s == [] then []
    else
      var init := s[..|s| - 1];
      var last := s[|s| - 1];
      assert forall y :: y in s <==> y in init || y == last;
      FilterSome(init) + (if last.Some? then [last.value] else [])
  }

  /** The neighbourhood for the engine's answer to the query of that depth; no row or no center gives `{}`. */
  function GetProteinNeighborhood(depth: int, answer: Option<QueryRecord>): (r: Option<Neighborhood>)
    ensures r.None? <==> answer.None? || answer.value.center.None?
    ensures r.Some? ==>
      && r.value.center == answer.value.center.value
      && r.value.depth == depth
      && (forall n :: n in r.value.neighbors <==> Some(n) in answer.value.neighbors)
      && (forall e :: e in r.value.relationships <==> Some(e) in answer.value.relationships)
      && (forall d :: d in r.value.domains <==> Some(d) in answer.value.domains)
  {
    if answer.None? || answer.value.center.None? then None
    else
      var a := answer.value;
      Some(Neighborhood(a.center.value, FilterSome(a.neighbors), FilterSome(a.relationships), FilterSome(a.domains), depth))
  }

  // ---------------------------------------------------------------------------
  // Nodes
  // ---------------------------------------------------------------------------

  datatype NodeKind = Center | Neighbor

  datatype VizNode =
    | ProteinVizNode(id: string, caption: string, kind: NodeKind, isLabelled: bool, length: int, ecNumbers: seq<string>)
    | DomainVizNode(id: string, caption: string)

  datatype VizEdge =
    | SimilarityEdge(from: string, to: string, weight: real, sharedDomains: int)
    | HasDomainEdge(from: string, to: string)

  datatype Viz = Viz(nodes: seq<VizNode>, edges: seq<VizEdge>, centerProtein: string)

  /** A protein's display node; absent properties take the export's defaults. */
  function ProteinNodeOf(p: ProteinProps, kind: NodeKind): VizNode
  {
    ProteinVizNode(
      p.uniprotId,
      if p.entryName.Some? then p.entryName.value else p.uniprotId,
      kind,
      p.isLabelled == Some(true),
      if p.length.Some? then p.length.value else 0,
      if p.ecNumbers.Some? then p.ecNumbers.value else [])
  }

  function DomainNodeId(d: DomainProps): string
  {
    "domain_" + d.interproId
  }

  /** The neighbour nodes: every neighbour except the center itself, in input order. */
  function NeighborNodes(ns: seq<ProteinProps>, proteinId: string): (r: seq<VizNode>)
    ensures |r| <= |ns|
  {
    if ns == [] then []
    else
      var n := ns[|ns| - 1];
      NeighborNodes(ns[..|ns| - 1], proteinId) + (if n.uniprotId != proteinId then [ProteinNodeOf(n, Neighbor)] else [])
  }

  /** Every neighbour node is a neighbour-kind protein other than the center, and every other neighbour has one. */
  lemma {:induction false} NeighborNodesFacts(ns: seq<ProteinProps>, proteinId: string)
    ensures forall k :: 0 <= k < |NeighborNodes(ns, proteinId)| ==>
      NeighborNodes(ns, proteinId)[k].ProteinVizNode? && NeighborNodes(ns, proteinId)[k].kind == Neighbor && NeighborNodes(ns, proteinId)[k].id != proteinId
    ensures forall n :: n in ns && n.uniprotId != proteinId ==> ProteinNodeOf(n, Neighbor) in NeighborNodes(ns, proteinId)
  {
    if ns != [] {
      var n := ns[|ns| - 1];
      var init := ns[..|ns| - 1];
      NeighborNodesFacts(init, proteinId);
      assert ns == init + [n];
      assert forall y :: y in ns <==> y in init || y == n;
    }
  }

  lemma {:induction false} NeighborNodesStep(ns: seq<ProteinProps>, i: nat, proteinId: string)
    requires i < |ns|
    ensures NeighborNodes(ns[..i + 1], proteinId) ==
      NeighborNodes(ns[..i], proteinId) + (if ns[i].uniprotId != proteinId then [ProteinNodeOf(ns[i], Neighbor)] else [])
  {
    assert ns[..i + 1][..i] == ns[..i];
  }

  function DomainNodes(ds: seq<DomainProps>): (r: seq<VizNode>)
    ensures |r| == |ds|
    ensures forall k :: 0 <= k < |ds| ==> r[k] == DomainVizNode(DomainNodeId(ds[k]), ds[k].interproId)
  {
    seq(|ds|, k requires 0 <= k < |ds| => DomainVizNode(DomainNodeId(ds[k]), ds[k].interproId))
  }

  function DomainEdges(centerId: string, ds: seq<DomainProps>): (r: seq<VizEdge>)
    ensures |r| == |ds|
    ensures forall k :: 0 <= k < |ds| ==> r[k] == HasDomainEdge(centerId, DomainNodeId(ds[k]))
  {
    seq(|ds|, k requires 0 <= k < |ds| => HasDomainEdge(centerId, DomainNodeId(ds[k])))
  }

  // ---------------------------------------------------------------------------
  // Similarity edges, deduplicated by unordered endpoint pair
  // ---------------------------------------------------------------------------

  /** The endpoints and properties the edge loop reads from one relationship. */
  datatype Candidate = Candidate(from: Option<string>, to: Option<string>, weight: real, shared: int)

  predicate Emits(c: Candidate)
  {
    Truthy(c.from) && Truthy(c.to)
  }

  /** `tuple(sorted([start_id, end_id]))`: the endpoints without their order. */
  function Key(c: Candidate): set<string>
    requires Emits(c)
  {
    {c.from.value, c.to.value}
  }

  function EdgeOf(c: Candidate): VizEdge
    requires Emits(c)
  {
    SimilarityEdge(c.from.value, c.to.value, c.weight, c.shared)
  }

  /** The contents of `added_edges` after the candidates `cs`. */
  function SeenKeys(cs: seq<Candidate>): set<set<string>>
  {
    if cs == [] then {}
    else
      var c := cs[|cs| - 1];
      SeenKeys(cs[..|cs| - 1]) + (if Emits(c) then {Key(c)} else {})
  }

  /** The similarity edges: the first candidate of each unordered pair of truthy endpoints. */
  function Deduplicated(cs: seq<Candidate>): seq<VizEdge>
  {
    if cs == [] then []
    else
      var c := cs[|cs| - 1];
      var init := cs[..|cs| - 1];
      Deduplicated(init) + (if Emits(c) && Key(c) !in SeenKeys(init) then [EdgeOf(c)] else [])
  }

  function EdgeKey(e: VizEdge): set<string>
  {
    {e.from, e.to}
  }

  /**
   * Every similarity edge has truthy endpoints, no two share an unordered
   * pair, and the pairs they cover are exactly those of the emitting
   * candidates; hence at most one edge per candidate.
   */
  lemma {:induction false} DeduplicatedFacts(cs: seq<Candidate>)
    ensures |Deduplicated(cs)| <= |cs|
    ensures forall k :: 0 <= k < |Deduplicated(cs)| ==>
      var e := Deduplicated(cs)[k];
      e.SimilarityEdge? && e.from != "" && e.to != ""
    ensures forall i, j :: 0 <= i < j < |Deduplicated(cs)| ==> EdgeKey(Deduplicated(cs)[i]) != EdgeKey(Deduplicated(cs)[j])
    ensures forall s :: s in SeenKeys(cs) <==> exists k :: 0 <= k < |Deduplicated(cs)| && EdgeKey(Deduplicated(cs)[k]) == s
  {
    if cs != [] {
      var init := cs[..|cs| - 1];
      var c := cs[|cs| - 1];
      DeduplicatedFacts(init);
      var d := Deduplicated(init);
      if Emits(c) && Key(c) !in SeenKeys(init) {
        var r := d + [EdgeOf(c)];
        assert Deduplicated(cs) == r;
        assert EdgeKey(r[|d|]) == Key(c);
        forall s | s in SeenKeys(cs) ensures exists k :: 0 <= k < |r| && EdgeKey(r[k]) == s {
          if s in SeenKeys(init) {
            var k :| 0 <= k < |d| && EdgeKey(d[k]) == s;
            assert r[k] == d[k];
          } else {
            assert s == Key(c);
          }
        }
        forall s | exists k :: 0 <= k < |r| && EdgeKey(r[k]) == s ensures s in SeenKeys(cs) {
          var k :| 0 <= k < |r| && EdgeKey(r[k]) == s;
          if k < |d| {
            assert r[k] == d[k];
          }
        }
      } else {
        assert Deduplicated(cs) == d;
        assert SeenKeys(cs) == SeenKeys(init);
      }
    }
  }

  /** The edge loop over the relationships, with the `added_edges` set. */
  method SimilarityEdges(cs: seq<Candidate>) returns (edges: seq<VizEdge>)
    ensures edges == Deduplicated(cs)
  {
    edges := [];
    var added: set<set<string>> := {};
    var i := 0;
    while i < |cs|
      invariant 0 <= i <= |cs|
      invariant edges == Deduplicated(cs[..i])
      invariant added == SeenKeys(cs[..i])
    {
      var c := cs[i];
      assert cs[..i + 1][..i] == cs[..i];
      if c.from.Some? && c.from.value != "" && c.to.Some? && c.to.value != "" {
        var key := {c.from.value, c.to.value};
        if key !in added {
          edges := edges + [SimilarityEdge(c.from.value, c.to.value, c.weight, c.shared)];
          added := added + {key};
        }
      }
      i := i + 1;
    }
    assert cs[..i] == cs;
  }

  // ---------------------------------------------------------------------------
  // The export
  // ---------------------------------------------------------------------------

  /** `rel.get(…, 0)` for the weight and the shared-domain count. */
  function WeightOf(r: Relationship): real
  {
    if r.props.jaccardWeight.Some? then r.props.jaccardWeight.value else 0.0
  }

  function SharedOf(r: Relationship): int
  {
    if r.props.sharedDomains.Some? then r.props.sharedDomains.value else 0
  }

  /** As written: the endpoints are read from the `start_node_id` and `end_node_id` properties. */
  function AsWrittenCandidates(rels: seq<Relationship>): (r: seq<Candidate>)
    ensures |r| == |rels|
    ensures forall k :: 0 <= k < |rels| ==>
      r[k] == Candidate(rels[k].props.startNodeId, rels[k].props.endNodeId, WeightOf(rels[k]), SharedOf(rels[k]))
  {
    seq(|rels|, k requires 0 <= k < |rels| =>
      Candidate(rels[k].props.startNodeId, rels[k].props.endNodeId, WeightOf(rels[k]), SharedOf(rels[k])))
  }

  /** Corrected: the endpoints are the relationship's own end nodes. */
  function EndpointCandidates(rels: seq<Relationship>): (r: seq<Candidate>)
    ensures |r| == |rels|
    ensures forall k :: 0 <= k < |rels| ==>
      r[k] == Candidate(Some(rels[k].startId), Some(rels[k].endId), WeightOf(rels[k]), SharedOf(rels[k]))
  {
    seq(|rels|, k requires 0 <= k < |rels| =>
      Candidate(Some(rels[k].startId), Some(rels[k].endId), WeightOf(rels[k]), SharedOf(rels[k])))
  }

  /** The display data for a neighbourhood, given the edge candidates its relationships yield. */
  ghost predicate Exported(nb: Neighborhood, proteinId: string, cs: seq<Candidate>, v: Viz)
  {
    && v.centerProtein == proteinId
    && v.nodes == [ProteinNodeOf(nb.center, Center)] + NeighborNodes(nb.neighbors, proteinId) + DomainNodes(nb.domains)
    && v.edges == Deduplicated(cs) + DomainEdges(nb.center.uniprotId, nb.domains)
  }

  /** The loop over the neighbours. */
  method AddNeighborNodes(nodes: seq<VizNode>, ns: seq<ProteinProps>, proteinId: string) returns (r: seq<VizNode>)
    ensures r == nodes + NeighborNodes(ns, proteinId)
  {
    r := nodes;
    var i := 0;
    while i < |ns|
      invariant 0 <= i <= |ns|
      invariant r == nodes + NeighborNodes(ns[..i], proteinId)
    {
      NeighborNodesStep(ns, i, proteinId);
      var n := ns[i];
      if n.uniprotId != proteinId {
        var x := ProteinNodeOf(n, Neighbor);
        assert (nodes + NeighborNodes(ns[..i], proteinId)) + [x] == nodes + (NeighborNodes(ns[..i], proteinId) + [x]);
        r := r + [x];
      } else {
        assert NeighborNodes(ns[..i], proteinId) + [] == NeighborNodes(ns[..i], proteinId);
      }
      i := i + 1;
    }
    assert ns[..i] == ns;
  }

  /** The two loops over the domains: their nodes, then their edges from the center. */
  method AddDomains(nodes: seq<VizNode>, edges: seq<VizEdge>, centerId: string, ds: seq<DomainProps>)
    returns (nodes': seq<VizNode>, edges': seq<VizEdge>)
    ensures nodes' == nodes + DomainNodes(ds)
    ensures edges' == edges + DomainEdges(centerId, ds)
  {
    nodes' := nodes;
    var i := 0;
    while i < |ds|
      invariant 0 <= i <= |ds|
      invariant nodes' == nodes + DomainNodes(ds[..i])
    {
      nodes' := nodes' + [DomainVizNode("domain_" + ds[i].interproId, ds[i].interproId)];
      i := i + 1;
    }
    assert ds[..i] == ds;
    edges' := edges;
    i := 0;
    while i < |ds|
      invariant 0 <= i <= |ds|
      invariant edges' == edges + DomainEdges(centerId, ds[..i])
    {
      edges' := edges' + [HasDomainEdge(centerId, "domain_" + ds[i].interproId)];
      i := i + 1;
    }
    assert ds[..i] == ds;
  }

  method ExportWith(nb: Neighborhood, proteinId: string, cs: seq<Candidate>) returns (v: Viz)
    ensures Exported(nb, proteinId, cs, v)
  {
    var nodes := [ProteinNodeOf(nb.center, Center)];
    nodes := AddNeighborNodes(nodes, nb.neighbors, proteinId);
    var edges := SimilarityEdges(cs);
    nodes, edges := AddDomains(nodes, edges, nb.center.uniprotId, nb.domains);
    v := Viz(nodes, edges, proteinId);
  }

  /** export_neighborhood_for_visualization as written; an empty neighbourhood gives `{}`. */
  method ExportNeighborhood(nb: Option<Neighborhood>, proteinId: string) returns (v: Option<Viz>)
    ensures v.None? <==> nb.None?
    ensures v.Some? ==> Exported(nb.value, proteinId, AsWrittenCandidates(nb.value.relationships), v.value)
  {
    if nb.None? {
      return None;
    }
    var viz := ExportWith(nb.value, proteinId, AsWrittenCandidates(nb.value.relationships));
    v := Some(viz);
  }

  /** The export with the endpoints taken from each relationship's end nodes. */
  method ExportNeighborhoodFixed(nb: Option<Neighborhood>, proteinId: string) returns (v: Option<Viz>)
    ensures v.None? <==> nb.None?
    ensures v.Some? ==> Exported(nb.value, proteinId, EndpointCandidates(nb.value.relationships), v.value)
  {
    if nb.None? {
      return None;
    }
    var viz := ExportWith(nb.value, proteinId, EndpointCandidates(nb.value.relationships));
    v := Some(viz);
  }

  /**
   * The shape of every export: the center first, labelled by its entry name
   * or else its id; no neighbour node repeats the center's id; one node and
   * one `has_domain` edge from the center per domain; the counts.
   */
  lemma {:induction false} ExportedShape(nb: Neighborhood, proteinId: string, cs: seq<Candidate>, v: Viz)
    requires Exported(nb, proteinId, cs, v)
    ensures v.nodes[0] == ProteinNodeOf(nb.center, Center) && v.nodes[0].id == nb.center.uniprotId
    ensures nb.center.entryName.None? ==> v.nodes[0].caption == nb.center.uniprotId
    ensures |v.nodes| == 1 + |NeighborNodes(nb.neighbors, proteinId)| + |nb.domains|
    ensures forall k :: 1 <= k < 1 + |NeighborNodes(nb.neighbors, proteinId)| ==>
      v.nodes[k].ProteinVizNode? && v.nodes[k].kind == Neighbor && v.nodes[k].id != proteinId
    ensures forall k :: 0 <= k < |nb.domains| ==>
      v.nodes[1 + |NeighborNodes(nb.neighbors, proteinId)| + k] == DomainVizNode("domain_" + nb.domains[k].interproId, nb.domains[k].interproId)
    ensures forall k :: 0 <= k < |nb.domains| ==>
      v.edges[|Deduplicated(cs)| + k] == HasDomainEdge(nb.center.uniprotId, "domain_" + nb.domains[k].interproId)
    ensures |v.edges| <= |cs| + |nb.domains|
  {
    NeighborNodesFacts(nb.neighbors, proteinId);
    DeduplicatedFacts(cs);
  }

  // ---------------------------------------------------------------------------
  // The endpoints of imported relationships
  // ---------------------------------------------------------------------------

  /**
   * A SIMILAR relationship as the graph build leaves it: the similarity
   * algorithm writes `jaccard_weight`, the statistics passes write
   * `shared_domains` and `union_domains`, and nothing writes `start_node_id`
   * or `end_node_id`.
   */
  function ImportedRelationship(e: SimilarEdge): Relationship
  {
    Relationship(e.src, e.dst, RelProps(None, None, Some(e.jaccard), e.shared))
  }

  /** As written, no relationship of the built graph yields a similarity edge. */
  lemma {:induction false} AsWrittenDropsSimilarity(nb: Neighborhood, proteinId: string, v: Viz)
    requires forall k :: 0 <= k < |nb.relationships| ==> nb.relationships[k].props.startNodeId.None?
    requires Exported(nb, proteinId, AsWrittenCandidates(nb.relationships), v)
    ensures v.edges == DomainEdges(nb.center.uniprotId, nb.domains)
    ensures forall k :: 0 <= k < |v.edges| ==> !v.edges[k].SimilarityEdge?
  {
    var cs := AsWrittenCandidates(nb.relationships);
    DeduplicatedFacts(cs);
    NoEmitNoEdges(cs);
  }

  lemma {:induction false} NoEmitNoEdges(cs: seq<Candidate>)
    requires forall k :: 0 <= k < |cs| ==> !Emits(cs[k])
    ensures Deduplicated(cs) == []
  {
    if cs != [] {
      NoEmitNoEdges(cs[..|cs| - 1]);
    }
  }

  /** A neighbourhood with one imported relationship between two proteins. */
  function OneEdgeNeighborhood(): Neighborhood
  {
    var e := SimilarEdge("P1", "P2", 0.5, Some(1), Some(2));
    Neighborhood(ProteinProps("P1", None, None, None, None), [ProteinProps("P2", None, None, None, None)],
                 [ImportedRelationship(e)], [], 1)
  }

  /** The as-written export of that neighbourhood has no edge at all; the corrected one has the similarity edge. */
  lemma {:induction false} SimilarityEdgeLost(v: Viz, w: Viz)
    requires Exported(OneEdgeNeighborhood(), "P1", AsWrittenCandidates(OneEdgeNeighborhood().relationships), v)
    requires Exported(OneEdgeNeighborhood(), "P1", EndpointCandidates(OneEdgeNeighborhood().relationships), w)
    ensures v.edges == []
    ensures w.edges == [SimilarityEdge("P1", "P2", 0.5, 1)]
  {
    var nb := OneEdgeNeighborhood();
    var cs := AsWrittenCandidates(nb.relationships);
    assert cs == [Candidate(None, None, 0.5, 1)];
    assert cs[..0] == [];
    var fs := EndpointCandidates(nb.relationships);
    assert fs == [Candidate(Some("P1"), Some("P2"), 0.5, 1)];
    assert fs[..0] == [];
  }

  /**
   * Corrected: every relationship between two proteins with non-empty ids
   * gives exactly one similarity edge per unordered pair of endpoints.
   */
  lemma {:induction false} EndpointsKeepSimilarity(nb: Neighborhood, proteinId: string, v: Viz)
    requires Exported(nb, proteinId, EndpointCandidates(nb.relationships), v)
    ensures forall k :: 0 <= k < |nb.relationships| && nb.relationships[k].startId != "" && nb.relationships[k].endId != "" ==>
      exists j :: 0 <= j < |Deduplicated(EndpointCandidates(nb.relationships))| &&
        EdgeKey(v.edges[j]) == {nb.relationships[k].startId, nb.relationships[k].endId}
    ensures forall i, j :: 0 <= i < j < |Deduplicated(EndpointCandidates(nb.relationships))| ==> EdgeKey(v.edges[i]) != EdgeKey(v.edges[j])
  {
    var cs := EndpointCandidates(nb.relationships);
    var d := Deduplicated(cs);
    DeduplicatedFacts(cs);
    assert forall j :: 0 <= j < |d| ==> v.edges[j] == d[j];
    forall k | 0 <= k < |nb.relationships| && nb.relationships[k].startId != "" && nb.relationships[k].endId != ""
      ensures exists j :: 0 <= j < |d| && EdgeKey(v.edges[j]) == {nb.relationships[k].startId, nb.relationships[k].endId}
    {
      SeenKeysMember(cs, k);
      var j :| 0 <= j < |d| && EdgeKey(d[j]) == Key(cs[k]);
      assert v.edges[j] == d[j];
    }
  }

  lemma {:induction false} SeenKeysMember(cs: seq<Candidate>, k: nat)
    requires k < |cs| && Emits(cs[k])
    ensures Key(cs[k]) in SeenKeys(cs)
  {
    var init := cs[..|cs| - 1];
    if k < |cs| - 1 {
      assert init[k] == cs[k];
      SeenKeysMember(init, k);
    }
  }
}

/**
 * The shared_domains / union_domains properties of SIMILAR edges. The edges
 * and their jaccard_weight come from the node-similarity algorithm, which is
 * not modelled: they are inputs here. Two ways of filling the properties are
 * modelled: the closed form from the weight and the two domain counts (with
 * a parallel pass whose failed batches a sequential pass completes) and the
 * set computation over the HAS_DOMAIN neighbours, in the directed form of
 * the application and the undirected form of the backend.
 */
module EdgeStats {
  import opened Common
  import opened GraphImport

  datatype SimilarEdge = SimilarEdge(src: string, dst: string, jaccard: real, shared: Option<int>, union: Option<int>)

  /** Cypher `toInteger(round(x))`: halves round up. */
  function Round(x: real): int
  {
    (x + 0.5).Floor
  }

  /** The Jaccard index of two finite sets whose union is not empty. */
  function Jaccard(d1: set<string>, d2: set<string>): real
    requires d1 + d2 != {}
  {
    (|d1 * d2| as real) / (|d1 + d2| as real)
  }

  // ---------------------------------------------------------------------------
  // The closed form
  // ---------------------------------------------------------------------------

  /** The real-valued estimate J·T/(1+J) of the shared count for T = A + B domains. */
  function Estimate(j: real, total: int): real
    requires 0.0 <= j
  {
    j * (total as real) / (1.0 + j)
  }

  /** shared = round(J·(A+B)/(1+J)) and union = (A+B) − shared. */
  function MathStats(j: real, a: int, b: int): (int, int)
    requires 0.0 <= j
  {
    var shared := Round(Estimate(j, a + b));
    (shared, (a + b) - shared)
  }

  lemma {:induction false} DivUpper(p: real, c: real, q: real)
    requires c > 0.0 && p <= q * c
    ensures p / c <= q
  {
    var x := p / c;
    assert x * c == p;
  }

  lemma {:induction false} DivExact(p: real, c: real, q: real)
    requires c > 0.0 && p == q * c
    ensures p / c == q
  {
  }

  lemma {:induction false} RoundBounds(x: real, lo: int, hi: int)
    requires lo as real <= x <= hi as real
    ensures lo <= Round(x) <= hi
  {
  }

  lemma {:induction false} RoundWhole(s: int)
    ensures Round(s as real) == s
  {
  }

  /** A weight in [0, 1] keeps the estimate between 0 and the total. */
  lemma {:induction false} EstimateRange(j: real, total: nat)
    requires 0.0 <= j <= 1.0
    ensures 0.0 <= Estimate(j, total) <= total as real
  {
    var n := total as real;
    assert 0.0 <= n;
    MulNonneg(j, n);
    assert n * (1.0 + j) == n + j * n;
    DivUpper(j * n, 1.0 + j, n);
    DivNonneg(j * n, 1.0 + j);
  }

  lemma {:induction false} MulNonneg(x: real, y: real)
    requires 0.0 <= x && 0.0 <= y
    ensures 0.0 <= x * y
  {
  }

  lemma {:induction false} DivNonneg(p: real, c: real)
    requires 0.0 <= p && 0.0 < c
    ensures 0.0 <= p / c
  {
  }

  /** For s shared out of a total T, the weight s / (T − s) makes the estimate exactly s. */
  lemma {:induction false} EstimateExact(s: nat, total: nat)
    requires s < total
    ensures 0.0 <= (s as real) / ((total - s) as real)
    ensures Estimate((s as real) / ((total - s) as real), total) == s as real
  {
    var u := (total - s) as real;
    var n := total as real;
    var j := (s as real) / u;
    assert j * u == s as real;
    assert (1.0 + j) * u == n;
    assert j * n == (s as real) * (1.0 + j) by {
      calc {
        j * n;
        j * ((1.0 + j) * u);
        (j * u) * (1.0 + j);
        (s as real) * (1.0 + j);
      }
    }
    DivExact(j * n, 1.0 + j, s as real);
  }

  /** A weight in [0, 1] and non-negative counts give counts between 0 and A + B. */
  lemma {:induction false} MathStatsRange(j: real, a: nat, b: nat)
    requires 0.0 <= j <= 1.0
    ensures 0 <= MathStats(j, a, b).0 <= a + b
    ensures 0 <= MathStats(j, a, b).1 <= a + b
  {
    EstimateRange(j, a + b);
    RoundBounds(Estimate(j, a + b), 0, a + b);
  }

  /**
   * The closed form inverts the Jaccard definition: for two domain sets of
   * sizes A and B that share s domains, the weight s / (A + B − s) gives
   * back shared = s and union = A + B − s.
   */
  lemma {:induction false} MathStatsRecovers(a: nat, b: nat, s: nat)
    requires s <= a && s <= b
    requires a + b - s > 0
    ensures MathStats((s as real) / ((a + b - s) as real), a, b) == (s, a + b - s)
  {
    EstimateExact(s, a + b);
    RoundWhole(s);
  }

  /** One statement of the closed-form update: a missing domain count makes the arithmetic null. */
  function FillMath(e: SimilarEdge, counts: map<string, nat>): SimilarEdge
    requires 0.0 <= e.jaccard
  {
    if e.src in counts && e.dst in counts then
      var st := MathStats(e.jaccard, counts[e.src], counts[e.dst]);
      e.(shared := Some(st.0), union := Some(st.1))
    else
      e.(shared := None, union := None)
  }

  /** The weights the similarity algorithm writes are non-negative. */
  predicate Weighted(edges: seq<SimilarEdge>)
  {
    forall k :: 0 <= k < |edges| ==> 0.0 <= edges[k].jaccard
  }

  /**
   * The parallel pass: every edge in a committed batch gets the closed-form
   * values; the edges of batches that failed keep what they had.
   */
  function ParallelPass(edges: seq<SimilarEdge>, counts: map<string, nat>, committed: set<nat>): (r: seq<SimilarEdge>)
    requires Weighted(edges)
    ensures |r| == |edges|
    ensures forall k :: 0 <= k < |edges| ==> r[k] == if k in committed then FillMath(edges[k], counts) else edges[k]
  {
    if edges == [] then []
    else
      var n := |edges| - 1;
      var init := ParallelPass(edges[..n], counts, committed);
      init + [if n in committed then FillMath(edges[n], counts) else edges[n]]
  }

  /** The sequential pass: only edges whose shared_domains is still null are updated. */
  function SequentialPass(edges: seq<SimilarEdge>, counts: map<string, nat>): (r: seq<SimilarEdge>)
    requires Weighted(edges)
    ensures |r| == |edges|
    ensures forall k :: 0 <= k < |edges| ==>
      r[k] == if edges[k].shared.None? then FillMath(edges[k], counts) else edges[k]
  {
    if edges == [] then []
    else
      var n := |edges| - 1;
      var init := SequentialPass(edges[..n], counts);
      init + [if edges[n].shared.None? then FillMath(edges[n], counts) else edges[n]]
  }

  /** The closed form on every edge: what the two passes aim at. */
  function MathPass(edges: seq<SimilarEdge>, counts: map<string, nat>): (r: seq<SimilarEdge>)
    requires Weighted(edges)
    ensures |r| == |edges|
    ensures forall k :: 0 <= k < |edges| ==> r[k] == FillMath(edges[k], counts)
  {
    if edges == [] then []
    else
      var n := |edges| - 1;
      MathPass(edges[..n], counts) + [FillMath(edges[n], counts)]
  }

  /**
   * The sequential pass leaves filled edges alone; an unfilled edge is filled
   * exactly when both of its proteins have a domain_count, so every edge is
   * filled afterwards when every protein has one; running it twice changes
   * nothing further.
   */
  lemma {:induction false} SequentialPassIdempotent(edges: seq<SimilarEdge>, counts: map<string, nat>)
    requires Weighted(edges)
    ensures forall k :: 0 <= k < |edges| && edges[k].shared.Some? ==> SequentialPass(edges, counts)[k] == edges[k]
    ensures forall k :: 0 <= k < |edges| && edges[k].shared.None? ==>
      (SequentialPass(edges, counts)[k].shared.Some? <==> edges[k].src in counts && edges[k].dst in counts)
    ensures (forall k :: 0 <= k < |edges| ==> edges[k].src in counts && edges[k].dst in counts) ==>
      forall k :: 0 <= k < |edges| ==> SequentialPass(edges, counts)[k].shared.Some?
    ensures Weighted(SequentialPass(edges, counts))
    ensures SequentialPass(SequentialPass(edges, counts), counts) == SequentialPass(edges, counts)
  {
    var once := SequentialPass(edges, counts);
    assert Weighted(once) by {
      forall k | 0 <= k < |once| ensures 0.0 <= once[k].jaccard {
        assert once[k].jaccard == edges[k].jaccard;
      }
    }
    var twice := SequentialPass(once, counts);
    forall k | 0 <= k < |edges| ensures twice[k] == once[k] {
      if once[k].shared.None? {
        assert edges[k].shared.None?;
        assert once[k] == FillMath(edges[k], counts);
        assert FillMath(once[k], counts) == FillMath(edges[k], counts);
      }
    }
  }

  /**
   * Edges fresh from the similarity algorithm carry no shared_domains;
   * whichever batches of the parallel pass commit, the sequential pass then
   * completes the closed form on every edge. A protein whose domain_count is
   * missing leaves its edges null in both.
   */
  lemma {:induction false} PassesComplete(edges: seq<SimilarEdge>, counts: map<string, nat>, committed: set<nat>)
    requires Weighted(edges)
    requires forall k :: 0 <= k < |edges| ==> edges[k].shared.None?
    ensures Weighted(ParallelPass(edges, counts, committed))
    ensures SequentialPass(ParallelPass(edges, counts, committed), counts) == MathPass(edges, counts)
  {
    var first := ParallelPass(edges, counts, committed);
    assert Weighted(first) by {
      forall k | 0 <= k < |first| ensures 0.0 <= first[k].jaccard {
        assert first[k].jaccard == edges[k].jaccard;
      }
    }
    var second := SequentialPass(first, counts);
    var goal := MathPass(edges, counts);
    forall k | 0 <= k < |edges| ensures second[k] == goal[k] {
      if k in committed {
        assert first[k] == FillMath(edges[k], counts);
        assert FillMath(first[k], counts) == first[k];
      } else {
        assert first[k] == edges[k];
      }
    }
  }

  // ---------------------------------------------------------------------------
  // The set computation
  // ---------------------------------------------------------------------------

  /**
   * Shared and union sizes of the two proteins' domain sets. A protein with
   * no HAS_DOMAIN edge makes the domain MATCH yield no row: no update.
   */
  function SetStats(g: Graph, p1: string, p2: string): Option<(int, int)>
  {
    var d1 := DomainsOf(g, p1);
    var d2 := DomainsOf(g, p2);
    if d1 == {} || d2 == {} then None else Some((|d1 * d2|, |d1 + d2|))
  }

  /** shared ≤ min(|d1|, |d2|) ≤ max(|d1|, |d2|) ≤ union, and shared + union = |d1| + |d2|. */
  lemma {:induction false} SetStatsBounds(g: Graph, p1: string, p2: string)
    ensures SetStats(g, p1, p2).None? <==> DomainsOf(g, p1) == {} || DomainsOf(g, p2) == {}
    ensures SetStats(g, p1, p2).Some? ==>
      var st := SetStats(g, p1, p2).value;
      var d1 := DomainsOf(g, p1);
      var d2 := DomainsOf(g, p2);
      && 0 <= st.0 <= Min(|d1|, |d2|)
      && |d1| <= st.1 && |d2| <= st.1
      && st.0 + st.1 == |d1| + |d2|
  {
    var d1 := DomainsOf(g, p1);
    var d2 := DomainsOf(g, p2);
    assert d1 * d2 <= d1 && d1 * d2 <= d2;
    assert d1 <= d1 + d2 && d2 <= d1 + d2;
    SubsetCard(d1 * d2, d1);
    SubsetCard(d1 * d2, d2);
    SubsetCard(d1, d1 + d2);
    SubsetCard(d2, d1 + d2);
  }

  lemma {:induction false} SubsetCard(a: set<string>, b: set<string>)
    requires a <= b
    ensures |a| <= |b|
  {
    assert b == a + (b - a);
  }

  /** Intersection and union are symmetric: both orientations of an edge give the same counts. */
  lemma {:induction false} SetStatsSymmetric(g: Graph, p1: string, p2: string)
    ensures SetStats(g, p1, p2) == SetStats(g, p2, p1)
  {
    assert DomainsOf(g, p1) * DomainsOf(g, p2) == DomainsOf(g, p2) * DomainsOf(g, p1);
    assert DomainsOf(g, p1) + DomainsOf(g, p2) == DomainsOf(g, p2) + DomainsOf(g, p1);
  }

  /** One SET of the set computation, for the edge matched from p1 to p2. */
  function FillSet(g: Graph, e: SimilarEdge, p1: string, p2: string): SimilarEdge
  {
    match SetStats(g, p1, p2)
    case None => e
    case Some(st) => e.(shared := Some(st.0), union := Some(st.1))
  }

  /** The application's directed match: each edge from its source to its target. */
  function DirectedFill(g: Graph, e: SimilarEdge): SimilarEdge
  {
    FillSet(g, e, e.src, e.dst)
  }

  /** The backend's undirected match: the edge is set once from each end. */
  function UndirectedFill(g: Graph, e: SimilarEdge): SimilarEdge
  {
    FillSet(g, FillSet(g, e, e.src, e.dst), e.dst, e.src)
  }

  /** Visiting the edge in both orientations gives what the directed visit gives. */
  lemma {:induction false} UndirectedAgrees(g: Graph, e: SimilarEdge)
    ensures UndirectedFill(g, e) == DirectedFill(g, e)
  {
    SetStatsSymmetric(g, e.src, e.dst);
  }

  /**
   * The two computations agree on an edge whose weight is the exact Jaccard
   * index of its endpoints' domain sets, the counts being the domain_count
   * of each protein.
   */
  lemma {:induction false} MathAgreesWithSets(g: Graph, e: SimilarEdge)
    requires e.src in g.proteins && e.dst in g.proteins
    requires DomainsOf(g, e.src) != {} && DomainsOf(g, e.dst) != {}
    requires e.jaccard == Jaccard(DomainsOf(g, e.src), DomainsOf(g, e.dst))
    ensures FillMath(e, DomainCounts(g)) == DirectedFill(g, e)
  {
    var d1 := DomainsOf(g, e.src);
    var d2 := DomainsOf(g, e.dst);
    var s := |d1 * d2|;
    SetStatsBounds(g, e.src, e.dst);
    assert |d1 + d2| == |d1| + |d2| - s;
    MathStatsRecovers(|d1|, |d2|, s);
  }

  // ---------------------------------------------------------------------------
  // The report of the set computation
  // ---------------------------------------------------------------------------

  /** `count(r)`: the edges the set computation updates, those whose two ends have a domain. */
  function UpdatedCount(g: Graph, edges: seq<SimilarEdge>): nat
  {
    if edges == [] then 0
    else
      var e := edges[|edges| - 1];
      UpdatedCount(g, edges[..|edges| - 1]) + (if SetStats(g, e.src, e.dst).Some? then 1 else 0)
  }

  /** Both ends of the edge have a HAS_DOMAIN neighbour, so the domain MATCHes yield a row. */
  predicate BothHaveDomains(g: Graph, e: SimilarEdge)
  {
    DomainsOf(g, e.src) != {} && DomainsOf(g, e.dst) != {}
  }

  /** The positions of the edges whose two ends have a domain. */
  function Matched(g: Graph, edges: seq<SimilarEdge>): set<nat>
  {
    set k: nat | k < |edges| && BothHaveDomains(g, edges[k])
  }

  lemma {:induction false} MatchedAppend(g: Graph, edges: seq<SimilarEdge>, e: SimilarEdge)
    ensures BothHaveDomains(g, e) ==> Matched(g, edges + [e]) == Matched(g, edges) + {|edges|}
    ensures !BothHaveDomains(g, e) ==> Matched(g, edges + [e]) == Matched(g, edges)
  {
    var s := edges + [e];
    assert forall k: nat :: k < |edges| ==> s[k] == edges[k];
  }

  /** A returned record: its columns and their integer values. */
  type Record = map<string, int>

  /** What the report step gives: the count it prints, or the KeyError of a missing column. */
  datatype Report = Reported(updated: int) | KeyError(column: string)

  /** The record of the update query: `RETURN count(r) AS updated_relationships_count` is its only column. */
  function UpdateRecord(g: Graph, edges: seq<SimilarEdge>): Record
  {
    map["updated_relationships_count" := UpdatedCount(g, edges)]
  }

  /** The report as written: it reads `updated_relationships_count`, then `errorMessages`. */
  function ReportAsWritten(rec: Record): Report
  {
    if "updated_relationships_count" !in rec then KeyError("updated_relationships_count")
    else if "errorMessages" !in rec then KeyError("errorMessages")
    else Reported(rec["updated_relationships_count"])
  }

  /** The corrected report: it reads only the column the query returns. */
  function ReportFixed(rec: Record): Report
  {
    if "updated_relationships_count" !in rec then KeyError("updated_relationships_count")
    else Reported(rec["updated_relationships_count"])
  }

  /** The update of calculate_shared_union_domains_cypher: the directed SET on every edge. */
  function SetPass(g: Graph, edges: seq<SimilarEdge>): (r: seq<SimilarEdge>)
    ensures |r| == |edges|
  {
    seq(|edges|, k requires 0 <= k < |edges| => DirectedFill(g, edges[k]))
  }

  /** calculate_shared_union_domains_cypher as written: the edges after the committed update, and its report. */
  function CypherSharedUnion(g: Graph, edges: seq<SimilarEdge>): (seq<SimilarEdge>, Report)
  {
    (SetPass(g, edges), ReportAsWritten(UpdateRecord(g, edges)))
  }

  /** calculate_shared_union_domains_cypher with the `errorMessages` lookup removed. */
  function CypherSharedUnionFixed(g: Graph, edges: seq<SimilarEdge>): (seq<SimilarEdge>, Report)
  {
    (SetPass(g, edges), ReportFixed(UpdateRecord(g, edges)))
  }

  /**
   * As written, the report always raises KeyError on `errorMessages`, and
   * it does so after the update has run: the edges are those of the corrected version.
   */
  lemma {:induction false} ErrorMessagesMissing(g: Graph, edges: seq<SimilarEdge>)
    ensures CypherSharedUnion(g, edges).1 == KeyError("errorMessages")
    ensures CypherSharedUnion(g, edges).0 == CypherSharedUnionFixed(g, edges).0
  {
    assert "errorMessages" != "updated_relationships_count";
  }

  lemma {:induction false} UpdatedCountMatched(g: Graph, edges: seq<SimilarEdge>)
    ensures UpdatedCount(g, edges) == |Matched(g, edges)|
  {
    if edges != [] {
      var n := |edges| - 1;
      var init := edges[..n];
      UpdatedCountMatched(g, init);
      SetStatsBounds(g, edges[n].src, edges[n].dst);
      assert edges == init + [edges[n]];
      MatchedAppend(g, init, edges[n]);
      assert n !in Matched(g, init);
    }
  }

  /**
   * Corrected, the report is the number of edges whose two ends have a
   * domain, and exactly those edges carry the set counts afterwards.
   */
  lemma {:induction false} FixedReportsUpdated(g: Graph, edges: seq<SimilarEdge>)
    ensures CypherSharedUnionFixed(g, edges).1 == Reported(|Matched(g, edges)|)
    ensures forall k :: 0 <= k < |edges| ==>
      CypherSharedUnionFixed(g, edges).0[k] ==
        if k in Matched(g, edges) then
          edges[k].(shared := Some(|DomainsOf(g, edges[k].src) * DomainsOf(g, edges[k].dst)|),
                    union := Some(|DomainsOf(g, edges[k].src) + DomainsOf(g, edges[k].dst)|))
        else edges[k]
  {
    UpdatedCountMatched(g, edges);
  }
}

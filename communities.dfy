/**
 * analyze_communities of ProteinCommunityDetector: the per-community
 * composition (labelled count, EC numbers, sequence lengths, organisms,
 * samples) and the global summary over all communities. The community ids
 * come from label propagation, which runs in the graph engine and is not
 * modelled; the grouping query's rows are the input.
 */
module Communities {
  import opened Common

  /** A Protein node as the analysis and the write rules see it; an absent property is None. */
  datatype Member = Member(
    uniprotId: Option<string>,
    entryName: Option<string>,
    communityId: Option<int>,
    isLabelled: Option<bool>,
    ecNumbers: Option<seq<string>>,
    length: Option<int>,
    organism: Option<string>,
    ecCalculated: Option<seq<string>>)

  /** `p.get('is_labelled', False)` is truthy. */
  predicate Labelled(m: Member)
  {
    m.isLabelled == Some(true)
  }

  /** `p.get('ec_numbers')` is truthy: present and non-empty. */
  predicate HasEc(m: Member)
  {
    m.ecNumbers.Some? && m.ecNumbers.value != []
  }

  /** `p.get('length')` is truthy: present and non-zero. */
  predicate HasLength(m: Member)
  {
    m.length.Some? && m.length.value != 0
  }

  // ---------------------------------------------------------------------------
  // Reference definitions of the per-community aggregates
  // ---------------------------------------------------------------------------

  function LabeledCount(ps: seq<Member>): nat
  {
    if ps == [] then 0 else LabeledCount(ps[..|ps| - 1]) + (if Labelled(ps[|ps| - 1]) then 1 else 0)
  }

  /** The EC numbers listed by the members. */
  function EcUnion(ps: seq<Member>): set<string>
  {
    if ps == [] then {}
    else
      var m := ps[|ps| - 1];
      EcUnion(ps[..|ps| - 1]) + (if HasEc(m) then Elems(m.ecNumbers.value) else {})
  }

  function LengthSum(ps: seq<Member>): int
  {
    if ps == [] then 0
    else
      var m := ps[|ps| - 1];
      LengthSum(ps[..|ps| - 1]) + (if HasLength(m) then m.length.value else 0)
  }

  /** The distinct truthy organisms. */
  function Organisms(ps: seq<Member>): set<string>
  {
    if ps == [] then {}
    else
      var m := ps[|ps| - 1];
      Organisms(ps[..|ps| - 1]) + (if Truthy(m.organism) then {m.organism.value} else {})
  }

  lemma {:induction false} LabeledCountBound(ps: seq<Member>)
    ensures LabeledCount(ps) <= |ps|
  {
    if ps != [] {
      LabeledCountBound(ps[..|ps| - 1]);
    }
  }

  /** An EC number is in the union exactly when some member with a non-empty list lists it. */
  lemma {:induction false} EcUnionMembers(ps: seq<Member>, ec: string)
    ensures ec in EcUnion(ps) <==> exists k :: 0 <= k < |ps| && HasEc(ps[k]) && ec in ps[k].ecNumbers.value
  {
    if ps != [] {
      var init := ps[..|ps| - 1];
      EcUnionMembers(init, ec);
      if ec in EcUnion(init) {
        var k :| 0 <= k < |init| && HasEc(init[k]) && ec in init[k].ecNumbers.value;
        assert ps[k] == init[k];
      }
      if exists k :: 0 <= k < |ps| && HasEc(ps[k]) && ec in ps[k].ecNumbers.value {
        var k :| 0 <= k < |ps| && HasEc(ps[k]) && ec in ps[k].ecNumbers.value;
        if k < |init| {
          assert init[k] == ps[k];
        }
      }
    }
  }

  /** How each aggregate grows when the loop takes member i. */
  lemma {:induction false} AggregatesStep(ps: seq<Member>, i: nat)
    requires i < |ps|
    ensures LabeledCount(ps[..i + 1]) == LabeledCount(ps[..i]) + (if Labelled(ps[i]) then 1 else 0)
    ensures EcUnion(ps[..i + 1]) == EcUnion(ps[..i]) + (if HasEc(ps[i]) then Elems(ps[i].ecNumbers.value) else {})
    ensures LengthSum(ps[..i + 1]) == LengthSum(ps[..i]) + (if HasLength(ps[i]) then ps[i].length.value else 0)
    ensures Organisms(ps[..i + 1]) == Organisms(ps[..i]) + (if Truthy(ps[i].organism) then {ps[i].organism.value} else {})
  {
    assert ps[..i + 1][..i] == ps[..i];
  }

  // ---------------------------------------------------------------------------
  // One community
  // ---------------------------------------------------------------------------

  /** One of the sample entries; absent properties take the query's defaults. */
  datatype Sample = Sample(uniprotId: string, entryName: string, ecNumbers: seq<string>, length: int, isLabelled: bool)

  function SampleOf(m: Member): Sample
  {
    Sample(
      if m.uniprotId.Some? then m.uniprotId.value else "N/A",
      if m.entryName.Some? then m.entryName.value else "N/A",
      if m.ecNumbers.Some? then m.ecNumbers.value else [],
      if m.length.Some? then m.length.value else 0,
      m.isLabelled == Some(true))
  }

  const SampleLimit: nat := 20

  datatype CommunityInfo = CommunityInfo(
    communityId: int,
    size: nat,
    labeled: nat,
    unlabeled: nat,
    labelingRate: real,
    uniqueEc: nat,
    ecNumbers: seq<string>,
    avgLength: real,
    uniqueOrganisms: nat,
    samples: seq<Sample>)

  /** `x / n if n > 0 else 0`. */
  function Ratio(x: int, n: nat): real
  {
    if n > 0 then (x as real) / (n as real) else 0.0
  }

  /** A count of at most n items gives a ratio in [0, 1]. */
  lemma {:induction false} RatioRange(x: nat, n: nat)
    requires x <= n
    ensures 0.0 <= Ratio(x, n) <= 1.0
  {
    if n > 0 {
      var r := (x as real) / (n as real);
      assert r * (n as real) == x as real;
      if r > 1.0 {
        assert r * (n as real) > n as real;
      }
    }
  }

  /** What the analysis reports about the community `cid` whose members are `ps`. */
  ghost predicate Describes(cid: int, ps: seq<Member>, info: CommunityInfo)
  {
    && info.communityId == cid
    && info.size == |ps|
    && info.labeled == LabeledCount(ps)
    && info.labeled + info.unlabeled == info.size
    && info.labelingRate == Ratio(info.labeled, info.size)
    && NoDuplicates(info.ecNumbers)
    && Elems(info.ecNumbers) == EcUnion(ps)
    && info.uniqueEc == |info.ecNumbers|
    && info.avgLength == Ratio(LengthSum(ps), info.size)
    && info.uniqueOrganisms == |Organisms(ps)|
    && |info.samples| == Min(SampleLimit, |ps|)
    && (forall k :: 0 <= k < |info.samples| ==> info.samples[k] == SampleOf(ps[k]))
  }

  /** Adds the EC numbers of one list to a duplicate-free accumulator (`set.update`). */
  method AddAll(acc: seq<string>, ecs: seq<string>) returns (r: seq<string>)
    requires NoDuplicates(acc)
    ensures NoDuplicates(r)
    ensures Elems(r) == Elems(acc) + Elems(ecs)
  {
    r := acc;
    var j := 0;
    while j < |ecs|
      invariant 0 <= j <= |ecs|
      invariant NoDuplicates(r)
      invariant Elems(r) == Elems(acc) + Elems(ecs[..j])
    {
      assert ecs[..j + 1] == ecs[..j] + [ecs[j]];
      assert Elems(ecs[..j + 1]) == Elems(ecs[..j]) + {ecs[j]};
      if ecs[j] !in r {
        assert Elems(r + [ecs[j]]) == Elems(r) + {ecs[j]};
        r := r + [ecs[j]];
      }
      j := j + 1;
    }
    assert ecs[..j] == ecs;
  }

  /** The labelled-member count (the generator sum over `is_labelled`). */
  method CountLabeled(ps: seq<Member>) returns (labeled: nat)
    ensures labeled == LabeledCount(ps)
  {
    labeled := 0;
    var i := 0;
    while i < |ps|
      invariant 0 <= i <= |ps|
      invariant labeled == LabeledCount(ps[..i])
    {
      AggregatesStep(ps, i);
      if ps[i].isLabelled == Some(true) {
        labeled := labeled + 1;
      }
      i := i + 1;
    }
    assert ps[..i] == ps;
  }

  /** The loop that gathers EC numbers, the length sum and the organisms. */
  method Composition(ps: seq<Member>) returns (ecs: seq<string>, lengthSum: int, organisms: set<string>)
    ensures NoDuplicates(ecs) && Elems(ecs) == EcUnion(ps)
    ensures lengthSum == LengthSum(ps)
    ensures organisms == Organisms(ps)
  {
    ecs, lengthSum, organisms := [], 0, {};
    var i := 0;
    while i < |ps|
      invariant 0 <= i <= |ps|
      invariant NoDuplicates(ecs) && Elems(ecs) == EcUnion(ps[..i])
      invariant lengthSum == LengthSum(ps[..i])
      invariant organisms == Organisms(ps[..i])
    {
      AggregatesStep(ps, i);
      var p := ps[i];
      if p.ecNumbers.Some? && p.ecNumbers.value != [] {
        ecs := AddAll(ecs, p.ecNumbers.value);
      }
      if p.length.Some? && p.length.value != 0 {
        lengthSum := lengthSum + p.length.value;
      }
      if p.organism.Some? && p.organism.value != "" {
        organisms := organisms + {p.organism.value};
      }
      i := i + 1;
    }
    assert ps[..i] == ps;
  }

  /** The body of the loop over the grouping query's rows, for one community. */
  method AnalyzeCommunity(cid: int, ps: seq<Member>) returns (info: CommunityInfo)
    ensures Describes(cid, ps, info)
  {
    var labeled := CountLabeled(ps);
    LabeledCountBound(ps);
    var ecs, lengthSum, organisms := Composition(ps);
    var n := Min(SampleLimit, |ps|);
    var samples := seq(n, k requires 0 <= k < n => SampleOf(ps[k]));
    info := CommunityInfo(cid, |ps|, labeled, |ps| - labeled, Ratio(labeled, |ps|), |ecs|, ecs,
                          Ratio(lengthSum, |ps|), |organisms|, samples);
  }

  /** The per-community facts the source states: 0 ≤ labelled ≤ size, the rate in [0, 1], one count per distinct EC number. */
  lemma {:induction false} DescribesFacts(cid: int, ps: seq<Member>, info: CommunityInfo)
    requires Describes(cid, ps, info)
    ensures info.labeled <= info.size
    ensures 0.0 <= info.labelingRate <= 1.0
    ensures info.uniqueEc == |EcUnion(ps)|
    ensures info.size == 0 ==> info.labelingRate == 0.0 && info.avgLength == 0.0
  {
    RatioRange(info.labeled, info.size);
    DistinctLength(info.ecNumbers, info.ecNumbers);
  }

  // ---------------------------------------------------------------------------
  // The global summary
  // ---------------------------------------------------------------------------

  datatype Analysis = Analysis(
    totalCommunities: nat,
    totalProteins: nat,
    totalLabeled: nat,
    overallRate: real,
    largest: nat,
    smallest: nat,
    avgSize: real,
    communities: seq<CommunityInfo>)

  function SumSizes(cs: seq<CommunityInfo>): nat
  {
    if cs == [] then 0 else SumSizes(cs[..|cs| - 1]) + cs[|cs| - 1].size
  }

  function SumLabeled(cs: seq<CommunityInfo>): nat
  {
    if cs == [] then 0 else SumLabeled(cs[..|cs| - 1]) + cs[|cs| - 1].labeled
  }

  /** `max((c['size'] for c in communities), default=0)`. */
  function Largest(cs: seq<CommunityInfo>): (r: nat)
    ensures forall k :: 0 <= k < |cs| ==> cs[k].size <= r
    ensures cs == [] ==> r == 0
    ensures cs != [] ==> exists k :: 0 <= k < |cs| && cs[k].size == r
  {
    if cs == [] then 0
    else if |cs| == 1 then cs[0].size
    else
      var m := Largest(cs[..|cs| - 1]);
      var last := cs[|cs| - 1].size;
      if m >= last then m else last
  }

  /** `min((c['size'] for c in communities), default=0)`. */
  function Smallest(cs: seq<CommunityInfo>): (r: nat)
    ensures forall k :: 0 <= k < |cs| ==> r <= cs[k].size
    ensures cs == [] ==> r == 0
    ensures cs != [] ==> exists k :: 0 <= k < |cs| && cs[k].size == r
  {
    if cs == [] then 0
    else if |cs| == 1 then cs[0].size
    else
      var m := Smallest(cs[..|cs| - 1]);
      var last := cs[|cs| - 1].size;
      if m <= last then m else last
  }

  /** The summary built after the loop over the rows. */
  function Summarize(cs: seq<CommunityInfo>): (a: Analysis)
    ensures a.communities == cs && a.totalCommunities == |cs|
    ensures a.smallest <= a.largest
    ensures cs == [] ==> a.totalProteins == 0 && a.overallRate == 0.0 && a.avgSize == 0.0
  {
    var total := SumSizes(cs);
    var labeled := SumLabeled(cs);
    Analysis(|cs|, total, labeled, Ratio(labeled, total), Largest(cs), Smallest(cs), Ratio(total, |cs|), cs)
  }

  /** Summed labelled counts never exceed summed sizes, so the overall rate is in [0, 1]. */
  lemma {:induction false} SummaryRate(cs: seq<CommunityInfo>)
    requires forall k :: 0 <= k < |cs| ==> cs[k].labeled <= cs[k].size
    ensures SumLabeled(cs) <= SumSizes(cs)
    ensures 0.0 <= Summarize(cs).overallRate <= 1.0
  {
    if cs != [] {
      SummaryRate(cs[..|cs| - 1]);
    }
    RatioRange(SumLabeled(cs), SumSizes(cs));
  }

  /** The members of all rows, in row order. */
  function RowMembers(rows: seq<(int, seq<Member>)>): seq<Member>
  {
    if rows == [] then [] else RowMembers(rows[..|rows| - 1]) + rows[|rows| - 1].1
  }

  /** The members the grouping query collects: those with a community id. */
  function InCommunities(members: seq<Member>): seq<Member>
  {
    if members == [] then []
    else
      var m := members[|members| - 1];
      InCommunities(members[..|members| - 1]) + (if m.communityId.Some? then [m] else [])
  }

  /**
   * The loop over the grouping query's rows (community id, members): one
   * description per row, in row order, then the summary.
   */
  method AnalyzeCommunities(rows: seq<(int, seq<Member>)>) returns (a: Analysis)
    ensures a == Summarize(a.communities)
    ensures |a.communities| == |rows|
    ensures forall k :: 0 <= k < |rows| ==> Describes(rows[k].0, rows[k].1, a.communities[k])
  {
    var cs: seq<CommunityInfo> := [];
    var i := 0;
    while i < |rows|
      invariant 0 <= i <= |rows|
      invariant |cs| == i
      invariant forall k :: 0 <= k < i ==> Describes(rows[k].0, rows[k].1, cs[k])
    {
      var info := AnalyzeCommunity(rows[i].0, rows[i].1);
      cs := cs + [info];
      i := i + 1;
    }
    a := Summarize(cs);
  }

  /** The sizes reported add up to the number of members in the rows. */
  lemma {:induction false} SumSizesCountsRows(rows: seq<(int, seq<Member>)>, cs: seq<CommunityInfo>)
    requires |cs| == |rows|
    requires forall k :: 0 <= k < |rows| ==> cs[k].size == |rows[k].1|
    ensures SumSizes(cs) == |RowMembers(rows)|
  {
    if rows != [] {
      var n := |rows| - 1;
      SumSizesCountsRows(rows[..n], cs[..n]);
    }
  }

  /**
   * When the rows are a grouping of the graph's members (every member with a
   * community id in exactly one row), the summary's total is the number of
   * members that have a community id.
   */
  lemma {:induction false} TotalIsMembersInCommunities(members: seq<Member>, rows: seq<(int, seq<Member>)>, cs: seq<CommunityInfo>)
    requires multiset(RowMembers(rows)) == multiset(InCommunities(members))
    requires |cs| == |rows|
    requires forall k :: 0 <= k < |rows| ==> cs[k].size == |rows[k].1|
    ensures Summarize(cs).totalProteins == |InCommunities(members)|
  {
    SumSizesCountsRows(rows, cs);
    assert |multiset(RowMembers(rows))| == |RowMembers(rows)|;
    assert |multiset(InCommunities(members))| == |InCommunities(members)|;
  }
}

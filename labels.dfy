/**
 * Label inference over detected communities: which communities receive a
 * prediction, the "majority" label (the first EC number of the community),
 * and the three write rules that fill `ec_numbers_calculated`: the majority
 * write, the weighted-threshold rule and the union rule.
 */
module LabelInference {
  import opened Common
  import opened Communities

  // ---------------------------------------------------------------------------
  // Selection of communities
  // ---------------------------------------------------------------------------

  /** A mixed community: unknown members to label and EC numbers to label them with. */
  predicate Qualifies(c: CommunityInfo)
  {
    c.unlabeled > 0 && c.uniqueEc > 0
  }

  /** The qualifying communities, in input order. */
  function Qualifying(cs: seq<CommunityInfo>): (r: seq<CommunityInfo>)
    ensures |r| <= |cs|
    ensures forall c :: c in r <==> c in cs && Qualifies(c)
  {
    if cs == [] then []
    else
      var init := cs[..|cs| - 1];
      var c := cs[|cs| - 1];
      assert forall x :: x in cs <==> x in init || x == c;
      Qualifying(init) + (if Qualifies(c) then [c] else [])
  }

  /** `community['ec_numbers'][0]` raises no IndexError for any qualifying community. */
  predicate Indexable(cs: seq<CommunityInfo>)
  {
    forall k :: 0 <= k < |cs| && Qualifies(cs[k]) ==> cs[k].ecNumbers != []
  }

  lemma {:induction false} QualifyingStep(cs: seq<CommunityInfo>, i: nat)
    requires i < |cs|
    ensures Qualifying(cs[..i + 1]) == Qualifying(cs[..i]) + (if Qualifies(cs[i]) then [cs[i]] else [])
  {
    assert cs[..i + 1][..i] == cs[..i];
  }

  /** The communities built by the analysis never make the majority pick fail. */
  lemma {:induction false} DescribedIndexable(rows: seq<(int, seq<Member>)>, cs: seq<CommunityInfo>)
    requires |cs| == |rows|
    requires forall k :: 0 <= k < |rows| ==> Describes(rows[k].0, rows[k].1, cs[k])
    ensures Indexable(cs)
  {
  }

  function SumUnlabeled(cs: seq<CommunityInfo>): nat
  {
    if cs == [] then 0 else SumUnlabeled(cs[..|cs| - 1]) + cs[|cs| - 1].unlabeled
  }

  lemma {:induction false} SumUnlabeledAppend(cs: seq<CommunityInfo>, c: CommunityInfo)
    ensures SumUnlabeled(cs + [c]) == SumUnlabeled(cs) + c.unlabeled
  {
    assert (cs + [c])[..|cs|] == cs;
  }

  /** One entry of predictions_details. */
  datatype Detail = Detail(communityId: int, predictedLabel: string, proteinsAffected: nat, labeledNeighbors: nat)

  function DetailOf(c: CommunityInfo): Detail
    requires c.ecNumbers != []
  {
    Detail(c.communityId, c.ecNumbers[0], c.unlabeled, c.labeled)
  }

  /** The details of every qualifying community, before truncation. */
  function AllDetails(cs: seq<CommunityInfo>): (r: seq<Detail>)
    requires Indexable(cs)
    ensures |r| == |Qualifying(cs)|
  {
    if cs == [] then []
    else
      var c := cs[|cs| - 1];
      AllDetails(cs[..|cs| - 1]) + (if Qualifies(c) then [DetailOf(c)] else [])
  }

  /** Detail k is about the k-th qualifying community and predicts its first EC number. */
  lemma {:induction false} DetailsFollowQualifying(cs: seq<CommunityInfo>)
    requires Indexable(cs)
    ensures forall k :: 0 <= k < |AllDetails(cs)| ==>
      Qualifying(cs)[k].ecNumbers != [] && AllDetails(cs)[k] == DetailOf(Qualifying(cs)[k])
  {
    if cs != [] {
      DetailsFollowQualifying(cs[..|cs| - 1]);
    }
  }

  /** The prediction loop's state after the first i communities. */
  ghost predicate Predicted(cs: seq<CommunityInfo>, i: nat, total: nat, details: seq<Detail>)
  {
    && i <= |cs|
    && Indexable(cs[..i])
    && total == SumUnlabeled(Qualifying(cs[..i]))
    && details == AllDetails(cs[..i])
  }

  lemma {:induction false} IndexableStep(cs: seq<CommunityInfo>, i: nat)
    requires i < |cs| && Indexable(cs[..i])
    requires Qualifies(cs[i]) ==> cs[i].ecNumbers != []
    ensures Indexable(cs[..i + 1])
  {
    var p := cs[..i + 1];
    forall k | 0 <= k < |p| && Qualifies(p[k])
      ensures p[k].ecNumbers != []
    {
      if k < i {
        assert p[k] == cs[..i][k];
      }
    }
  }

  lemma {:induction false} AllDetailsStep(cs: seq<CommunityInfo>, i: nat)
    requires i < |cs| && Indexable(cs[..i]) && Indexable(cs[..i + 1])
    ensures AllDetails(cs[..i + 1]) == AllDetails(cs[..i]) + (if Qualifies(cs[i]) then [DetailOf(cs[i])] else [])
  {
    assert cs[..i + 1][..i] == cs[..i];
  }

  /** A qualifying community with no EC list makes the whole input fail the majority pick. */
  lemma {:induction false} PredictStepError(cs: seq<CommunityInfo>, i: nat)
    requires i < |cs| && Qualifies(cs[i]) && cs[i].ecNumbers == []
    ensures !Indexable(cs)
  {
    assert !(0 <= i < |cs| && Qualifies(cs[i]) ==> cs[i].ecNumbers != []);
  }

  /** A community that does not qualify leaves the loop state as it is. */
  lemma {:induction false} PredictStepSkip(cs: seq<CommunityInfo>, i: nat, total: nat, details: seq<Detail>)
    requires i < |cs| && Predicted(cs, i, total, details) && !Qualifies(cs[i])
    ensures Predicted(cs, i + 1, total, details)
  {
    QualifyingStep(cs, i);
    IndexableStep(cs, i);
    AllDetailsStep(cs, i);
    var q := Qualifying(cs[..i]);
    assert q + [] == q;
    assert Qualifying(cs[..i + 1]) == q;
    assert AllDetails(cs[..i]) + [] == AllDetails(cs[..i]);
  }

  /** A qualifying community adds its unknown members to the total and its detail to the list. */
  lemma {:induction false} PredictStepTake(cs: seq<CommunityInfo>, i: nat, total: nat, details: seq<Detail>)
    requires i < |cs| && Predicted(cs, i, total, details) && Qualifies(cs[i]) && cs[i].ecNumbers != []
    ensures Predicted(cs, i + 1, total + cs[i].unlabeled, details + [DetailOf(cs[i])])
  {
    QualifyingStep(cs, i);
    IndexableStep(cs, i);
    AllDetailsStep(cs, i);
    SumUnlabeledAppend(Qualifying(cs[..i]), cs[i]);
  }

  /** Once every community is read, the loop state is the reference prediction. */
  lemma {:induction false} PredictedAll(cs: seq<CommunityInfo>, total: nat, details: seq<Detail>)
    requires Predicted(cs, |cs|, total, details)
    ensures Indexable(cs)
    ensures total == SumUnlabeled(Qualifying(cs))
    ensures details == AllDetails(cs) && |details| == |Qualifying(cs)|
  {
    assert cs[..|cs|] == cs;
  }

  const DetailLimit: nat := 10

  datatype Prediction =
    | Prediction(totalNew: nat, processed: nat, details: seq<Detail>)
    | PredictionError

  /** The first `n` items of `s`, or all of them if there are fewer. */
  function Take<T>(s: seq<T>, n: nat): (r: seq<T>)
    ensures |r| == Min(n, |s|) && r <= s
  {
    if |s| <= n then s else s[..n]
  }

  /**
   * predict_missing_labels: one detail per qualifying community, the running
   * total of its unknown members, and an error when a qualifying community has
   * an empty EC list.
   */
  method PredictMissingLabels(cs: seq<CommunityInfo>) returns (r: Prediction)
    ensures r.PredictionError? <==> !Indexable(cs)
    ensures r.Prediction? ==>
      && r.totalNew == SumUnlabeled(Qualifying(cs))
      && r.processed == |Qualifying(cs)|
      && r.details == Take(AllDetails(cs), DetailLimit)
  {
    var newAnnotations: nat := 0;
    var details: seq<Detail> := [];
    var i := 0;
    while i < |cs|
      invariant i <= |cs|
      invariant Predicted(cs, i, newAnnotations, details)
    {
      var c := cs[i];
      if Qualifies(c) {
        if c.ecNumbers == [] {
          PredictStepError(cs, i);
          return PredictionError;
        }
        PredictStepTake(cs, i, newAnnotations, details);
        newAnnotations := newAnnotations + c.unlabeled;
        details := details + [DetailOf(c)];
      } else {
        PredictStepSkip(cs, i, newAnnotations, details);
      }
      i := i + 1;
    }
    PredictedAll(cs, newAnnotations, details);
    r := Prediction(newAnnotations, |details|, Take(details, DetailLimit));
  }

  /**
   * On the analysis's own output the prediction succeeds, and every predicted
   * label is an EC number that some member of that community carries.
   */
  lemma {:induction false} PredictedLabelsAreKnown(rows: seq<(int, seq<Member>)>, cs: seq<CommunityInfo>, k: nat)
    requires |cs| == |rows|
    requires forall j :: 0 <= j < |rows| ==> Describes(rows[j].0, rows[j].1, cs[j])
    requires k < |cs| && Qualifies(cs[k])
    ensures Indexable(cs)
    ensures cs[k].ecNumbers != [] && DetailOf(cs[k]).predictedLabel in EcUnion(rows[k].1)
  {
    DescribedIndexable(rows, cs);
    assert cs[k].ecNumbers[0] in Elems(cs[k].ecNumbers);
  }

  // ---------------------------------------------------------------------------
  // Comparison of the two methods (no writes)
  // ---------------------------------------------------------------------------

  datatype Comparison = Comparison(
    communityId: int, size: nat, nbKnown: nat, nbUnknown: nat, majority: string, union: seq<string>)

  function ComparisonOf(c: CommunityInfo): Comparison
  {
    Comparison(c.communityId, c.size, c.labeled, c.unlabeled,
               if c.ecNumbers != [] then c.ecNumbers[0] else "N/A", c.ecNumbers)
  }

  function AllComparisons(cs: seq<CommunityInfo>): (r: seq<Comparison>)
    ensures |r| == |Qualifying(cs)|
  {
    if cs == [] then []
    else
      var c := cs[|cs| - 1];
      AllComparisons(cs[..|cs| - 1]) + (if Qualifies(c) then [ComparisonOf(c)] else [])
  }

  lemma {:induction false} ComparisonsFollowQualifying(cs: seq<CommunityInfo>)
    ensures forall k :: 0 <= k < |AllComparisons(cs)| ==> AllComparisons(cs)[k] == ComparisonOf(Qualifying(cs)[k])
  {
    if cs != [] {
      ComparisonsFollowQualifying(cs[..|cs| - 1]);
    }
  }

  lemma {:induction false} ComparisonsStep(cs: seq<CommunityInfo>, i: nat)
    requires i < |cs|
    ensures AllComparisons(cs[..i + 1]) == AllComparisons(cs[..i]) + (if Qualifies(cs[i]) then [ComparisonOf(cs[i])] else [])
  {
    assert cs[..i + 1][..i] == cs[..i];
  }

  const ComparisonLimit: nat := 50

  /** compare_prediction_methods: the count of qualifying communities and the first 50 comparisons. */
  method CompareMethods(cs: seq<CommunityInfo>) returns (count: nat, data: seq<Comparison>)
    ensures count == |Qualifying(cs)|
    ensures data == Take(AllComparisons(cs), ComparisonLimit)
  {
    var results: seq<Comparison> := [];
    var i := 0;
    while i < |cs|
      invariant 0 <= i <= |cs|
      invariant results == AllComparisons(cs[..i])
    {
      ComparisonsStep(cs, i);
      var c := cs[i];
      if c.unlabeled > 0 && c.uniqueEc > 0 {
        var majority := if c.ecNumbers != [] then c.ecNumbers[0] else "N/A";
        results := results + [Comparison(c.communityId, c.size, c.labeled, c.unlabeled, majority, c.ecNumbers)];
      } else {
        assert results + [] == results;
      }
      i := i + 1;
    }
    assert cs[..i] == cs;
    count := |results|;
    data := Take(results, ComparisonLimit);
  }

  /**
   * Each comparison reports the full known EC list as the union result and,
   * for a non-empty list, its first element as the majority result; both
   * agree with the prediction's label.
   */
  lemma {:induction false} ComparisonContents(cs: seq<CommunityInfo>, k: nat)
    requires k < |Qualifying(cs)|
    ensures AllComparisons(cs)[k].union == Qualifying(cs)[k].ecNumbers
    ensures Qualifies(Qualifying(cs)[k])
    ensures Qualifying(cs)[k].ecNumbers != [] ==> AllComparisons(cs)[k].majority == Qualifying(cs)[k].ecNumbers[0]
    ensures Qualifying(cs)[k].ecNumbers == [] ==> AllComparisons(cs)[k].majority == "N/A"
    ensures Indexable(cs) ==> AllComparisons(cs)[k].majority == AllDetails(cs)[k].predictedLabel
  {
    ComparisonsFollowQualifying(cs);
    assert Qualifying(cs)[k] in Qualifying(cs);
    if Indexable(cs) {
      DetailsFollowQualifying(cs);
    }
  }

  // ---------------------------------------------------------------------------
  // Members and their communities
  // ---------------------------------------------------------------------------

  /** `WHERE p.ec_numbers IS NULL OR size(p.ec_numbers) = 0` within community `cid`. */
  predicate IsTarget(m: Member, cid: int)
  {
    m.communityId == Some(cid) && !HasEc(m)
  }

  /** Two stores agree on everything the write rules read. */
  predicate SameKeys(a: seq<Member>, b: seq<Member>)
  {
    |a| == |b| && forall k :: 0 <= k < |a| ==> a[k].communityId == b[k].communityId && a[k].ecNumbers == b[k].ecNumbers
  }

  /** Only `ec_numbers_calculated` differs between a member and its rewritten form. */
  predicate OnlyCalculated(before: Member, after: Member)
  {
    after == before.(ecCalculated := after.ecCalculated)
  }

  function TargetCount(ms: seq<Member>, cid: int): nat
  {
    if ms == [] then 0 else TargetCount(ms[..|ms| - 1], cid) + (if IsTarget(ms[|ms| - 1], cid) then 1 else 0)
  }

  /** The rows of `UNWIND p.ec_numbers` over the non-null lists of community `cid`. */
  function Occurrences(ms: seq<Member>, cid: int): seq<string>
  {
    if ms == [] then []
    else
      var m := ms[|ms| - 1];
      Occurrences(ms[..|ms| - 1], cid) + (if m.communityId == Some(cid) && m.ecNumbers.Some? then m.ecNumbers.value else [])
  }

  /** The members of community `cid` with a non-empty EC list. */
  function TotalLabeled(ms: seq<Member>, cid: int): nat
  {
    if ms == [] then 0
    else
      var m := ms[|ms| - 1];
      TotalLabeled(ms[..|ms| - 1], cid) + (if m.communityId == Some(cid) && HasEc(m) then 1 else 0)
  }

  lemma {:induction false} SameKeysPrefix(a: seq<Member>, b: seq<Member>)
    requires SameKeys(a, b) && a != []
    ensures SameKeys(a[..|a| - 1], b[..|b| - 1])
  {
  }

  /** What the rules read is the same in two stores that agree on ids and EC lists. */
  lemma {:induction false} SameKeysAggregates(a: seq<Member>, b: seq<Member>, cid: int)
    requires SameKeys(a, b)
    ensures Occurrences(a, cid) == Occurrences(b, cid)
    ensures TotalLabeled(a, cid) == TotalLabeled(b, cid)
    ensures TargetCount(a, cid) == TargetCount(b, cid)
  {
    if a != [] {
      SameKeysPrefix(a, b);
      SameKeysAggregates(a[..|a| - 1], b[..|b| - 1], cid);
    }
  }

  // ---------------------------------------------------------------------------
  // The majority write
  // ---------------------------------------------------------------------------

  /** The Cypher SET of one community: `[label]` on its targets. */
  function MajorityWrite(ms: seq<Member>, cid: int, winner: string): (r: seq<Member>)
    ensures SameKeys(ms, r)
  {
    seq(|ms|, k requires 0 <= k < |ms| =>
      if IsTarget(ms[k], cid) then ms[k].(ecCalculated := Some([winner])) else ms[k])
  }

  /** The store after the writes of every qualifying community, in order. */
  function ApplyMajority(ms: seq<Member>, cs: seq<CommunityInfo>): (r: seq<Member>)
    requires Indexable(cs)
    ensures SameKeys(ms, r)
  {
    if cs == [] then ms
    else
      var c := cs[|cs| - 1];
      var prev := ApplyMajority(ms, cs[..|cs| - 1]);
      if Qualifies(c) then MajorityWrite(prev, c.communityId, c.ecNumbers[0]) else prev
  }

  /** The sum of the counts the writes return. */
  function MajorityCount(ms: seq<Member>, cs: seq<CommunityInfo>): nat
  {
    if cs == [] then 0
    else
      var c := cs[|cs| - 1];
      MajorityCount(ms, cs[..|cs| - 1]) + (if Qualifies(c) then TargetCount(ms, c.communityId) else 0)
  }

  datatype WriteResult = Committed(count: nat) | Zero

  /**
   * write_majority_vote: for each qualifying community in turn, the SET and
   * its count. A qualifying community with an empty EC list aborts the loop:
   * the writes already made stay and the result is 0.
   */
  method WriteMajorityVote(ms: seq<Member>, cs: seq<CommunityInfo>) returns (store: seq<Member>, result: WriteResult)
    ensures Indexable(cs) ==> store == ApplyMajority(ms, cs) && result == Committed(MajorityCount(ms, cs))
    ensures !Indexable(cs) ==> result == Zero && (exists f :: 0 <= f < |cs| && Indexable(cs[..f])
                                                   && Qualifies(cs[f]) && cs[f].ecNumbers == [] && store == ApplyMajority(ms, cs[..f]))
  {
    store := ms;
    var updateCount: nat := 0;
    var i := 0;
    while i < |cs|
      invariant 0 <= i <= |cs|
      invariant Indexable(cs[..i])
      invariant store == ApplyMajority(ms, cs[..i])
      invariant updateCount == MajorityCount(ms, cs[..i])
    {
      var c := cs[i];
      assert cs[..i + 1][..i] == cs[..i];
      if c.unlabeled > 0 && c.uniqueEc > 0 {
        if c.ecNumbers == [] {
          result := Zero;
          return;
        }
        SameKeysAggregates(ms, store, c.communityId);
        var written := TargetCount(store, c.communityId);
        store := MajorityWrite(store, c.communityId, c.ecNumbers[0]);
        updateCount := updateCount + written;
      }
      i := i + 1;
    }
    assert cs[..i] == cs;
    result := Committed(updateCount);
  }

  /** Community `cid` appears only at index j among the qualifying communities. */
  predicate OnlyAt(cs: seq<CommunityInfo>, j: nat, cid: int)
  {
    forall i :: 0 <= i < |cs| && i != j && Qualifies(cs[i]) ==> cs[i].communityId != cid
  }

  /**
   * The majority write changes only `ec_numbers_calculated`, and only on
   * members of a qualifying community whose EC list is null or empty; a
   * target of a qualifying community listed once receives `[winner]`, the
   * community's first EC number.
   */
  lemma {:induction false} MajorityEffect(ms: seq<Member>, cs: seq<CommunityInfo>, k: nat)
    requires Indexable(cs) && k < |ms|
    ensures OnlyCalculated(ms[k], ApplyMajority(ms, cs)[k])
    ensures ApplyMajority(ms, cs)[k] != ms[k] ==>
      !HasEc(ms[k]) && exists j :: 0 <= j < |cs| && Qualifies(cs[j]) && IsTarget(ms[k], cs[j].communityId)
    ensures forall j :: 0 <= j < |cs| && Qualifies(cs[j]) && IsTarget(ms[k], cs[j].communityId) && OnlyAt(cs, j, cs[j].communityId) ==>
      ApplyMajority(ms, cs)[k].ecCalculated == Some([cs[j].ecNumbers[0]])
  {
    if cs != [] {
      var n := |cs| - 1;
      var init := cs[..n];
      assert Indexable(init);
      MajorityEffect(ms, init, k);
      var prev := ApplyMajority(ms, init);
      assert prev[k].communityId == ms[k].communityId && prev[k].ecNumbers == ms[k].ecNumbers;
      forall j | 0 <= j < |cs| && Qualifies(cs[j]) && IsTarget(ms[k], cs[j].communityId) && OnlyAt(cs, j, cs[j].communityId)
        ensures ApplyMajority(ms, cs)[k].ecCalculated == Some([cs[j].ecNumbers[0]])
      {
        if j < n {
          assert init[j] == cs[j];
          assert OnlyAt(init, j, init[j].communityId);
        }
      }
      if ApplyMajority(ms, cs)[k] != ms[k] && prev[k] == ms[k] {
        assert Qualifies(cs[n]) && IsTarget(ms[k], cs[n].communityId);
      }
      if prev[k] != ms[k] {
        var j :| 0 <= j < n && Qualifies(init[j]) && IsTarget(ms[k], init[j].communityId);
        assert cs[j] == init[j];
      }
    }
  }

  /** The members `WHERE` selects in community `cid`. */
  function Targets(ms: seq<Member>, cid: int): set<nat>
  {
    set k: nat | k < |ms| && IsTarget(ms[k], cid)
  }

  /** The count a write returns is the number of members its `WHERE` selects, which are the members it sets. */
  lemma {:induction false} TargetCountIsTargets(ms: seq<Member>, cid: int, winner: string)
    ensures TargetCount(ms, cid) == |Targets(ms, cid)|
    ensures forall k :: 0 <= k < |ms| ==>
      MajorityWrite(ms, cid, winner)[k] == if k in Targets(ms, cid) then ms[k].(ecCalculated := Some([winner])) else ms[k]
  {
    if ms != [] {
      var n := |ms| - 1;
      TargetCountIsTargets(ms[..n], cid, winner);
      assert Targets(ms, cid) == Targets(ms[..n], cid) + (if IsTarget(ms[n], cid) then {n} else {});
    }
  }

  // ---------------------------------------------------------------------------
  // The weighted-threshold rule
  // ---------------------------------------------------------------------------

  /** `toFloat(frequency) / total_labeled >= threshold`, from the UNWIND rows and the labelled count. */
  predicate Passes(rows: multiset<string>, total: nat, threshold: real, ec: string)
  {
    Ratio(rows[ec], total) >= threshold
  }

  /** The EC number `ec` passes the threshold in community `cid`. */
  predicate Selected(ms: seq<Member>, cid: int, threshold: real, ec: string)
  {
    Passes(multiset(Occurrences(ms, cid)), TotalLabeled(ms, cid), threshold, ec)
  }

  function Passing(occ: seq<string>, rows: multiset<string>, total: nat, threshold: real): (r: seq<string>)
    ensures forall x :: x in r <==> x in occ && Passes(rows, total, threshold, x)
  {
    if occ == [] then []
    else
      var x := occ[|occ| - 1];
      assert forall y :: y in occ <==> y in occ[..|occ| - 1] || y == x;
      Passing(occ[..|occ| - 1], rows, total, threshold) + (if Passes(rows, total, threshold, x) then [x] else [])
  }

  /** `collect(ec)` of the qualifying EC numbers; the model lists them once each, ascending. */
  function ValidEcs(ms: seq<Member>, cid: int, threshold: real): (r: seq<string>)
    ensures forall ec :: ec in r <==> ec in Occurrences(ms, cid) && Selected(ms, cid, threshold, ec)
  {
    var occ := Occurrences(ms, cid);
    SortDistinct(Passing(occ, multiset(occ), TotalLabeled(ms, cid), threshold))
  }

  function WeightedUpdate(ms: seq<Member>, m: Member, threshold: real): Member
  {
    if m.communityId.Some? && !HasEc(m) && ValidEcs(ms, m.communityId.value, threshold) != []
    then m.(ecCalculated := Some(ValidEcs(ms, m.communityId.value, threshold)))
    else m
  }

  /** update_ec_numbers_weighted, run on every community present in the store. */
  function WeightedRule(ms: seq<Member>, threshold: real): (r: seq<Member>)
    ensures SameKeys(ms, r)
  {
    seq(|ms|, k requires 0 <= k < |ms| => WeightedUpdate(ms, ms[k], threshold))
  }

  /**
   * An EC number is propagated to a target exactly when it occurs in the
   * target's community and its frequency over the labelled count reaches the
   * threshold; a target whose community has no such EC number, and every
   * member with EC numbers, is left as it was.
   */
  lemma {:induction false} WeightedSelects(ms: seq<Member>, threshold: real, k: nat, ec: string)
    requires k < |ms|
    ensures OnlyCalculated(ms[k], WeightedRule(ms, threshold)[k])
    ensures HasEc(ms[k]) || ms[k].communityId.None? ==> WeightedRule(ms, threshold)[k] == ms[k]
    ensures ms[k].communityId.Some? && !HasEc(ms[k]) ==>
      var v := ValidEcs(ms, ms[k].communityId.value, threshold);
      WeightedRule(ms, threshold)[k] == if v == [] then ms[k] else ms[k].(ecCalculated := Some(v))
    ensures ms[k].communityId.Some? && !HasEc(ms[k]) ==>
      var cid := ms[k].communityId.value;
      var passing := ec in Occurrences(ms, cid) && Selected(ms, cid, threshold, ec);
      && (WeightedRule(ms, threshold)[k] != ms[k] ==>
            WeightedRule(ms, threshold)[k].ecCalculated.Some? &&
            (ec in WeightedRule(ms, threshold)[k].ecCalculated.value <==> passing))
      && (passing ==> WeightedRule(ms, threshold)[k].ecCalculated.Some? &&
                      ec in WeightedRule(ms, threshold)[k].ecCalculated.value)
  {
    if ms[k].communityId.Some? && !HasEc(ms[k]) {
      var cid := ms[k].communityId.value;
      var v := ValidEcs(ms, cid, threshold);
      if ec in Occurrences(ms, cid) && Selected(ms, cid, threshold, ec) {
        assert ec in v;
      }
    }
  }

  /** The rule changes nothing that it reads, so running it again changes nothing. */
  lemma {:induction false} WeightedIdempotent(ms: seq<Member>, threshold: real)
    ensures WeightedRule(WeightedRule(ms, threshold), threshold) == WeightedRule(ms, threshold)
  {
    var once := WeightedRule(ms, threshold);
    var twice := WeightedRule(once, threshold);
    forall k | 0 <= k < |ms| ensures twice[k] == once[k] {
      if ms[k].communityId.Some? {
        SameKeysAggregates(ms, once, ms[k].communityId.value);
      }
    }
  }

  lemma {:induction false} ScaleByPositive(a: real, b: real, t: real)
    requires t > 0.0
    ensures a >= b <==> a * t >= b * t
  {
    if a >= b {
      assert (a - b) * t >= 0.0;
    } else {
      assert (b - a) * t > 0.0;
    }
  }

  /** The threshold test `frequency / total_labeled >= threshold` read as counts. */
  lemma {:induction false} RatioThreshold(x: nat, n: nat, threshold: real)
    requires n > 0
    ensures Ratio(x, n) >= threshold <==> x as real >= threshold * (n as real)
  {
    var f := x as real;
    var t := n as real;
    assert (f / t) * t == f;
    ScaleByPositive(f / t, threshold, t);
  }

  /** Passes in counts, for a positive labelled count. */
  lemma {:induction false} PassesByCounts(rows: multiset<string>, total: nat, threshold: real, ec: string)
    requires total > 0
    ensures Passes(rows, total, threshold, ec) <==> (rows[ec] as real) >= threshold * (total as real)
  {
    RatioThreshold(rows[ec], total, threshold);
  }

  /** An EC number occurs in a community only through a member that has EC numbers, so the labelled count is positive. */
  lemma {:induction false} OccursLabelled(ms: seq<Member>, cid: int, ec: string)
    requires ec in Occurrences(ms, cid)
    ensures TotalLabeled(ms, cid) > 0
  {
    var n := |ms| - 1;
    if ec in Occurrences(ms[..n], cid) {
      OccursLabelled(ms[..n], cid, ec);
    }
  }

  /**
   * The threshold test read as counts: an EC number occurring in the
   * community is selected exactly when its frequency is at least the
   * threshold times the number of labelled members; no division by zero arises.
   */
  lemma {:induction false} SelectedByCounts(ms: seq<Member>, cid: int, threshold: real, ec: string, frequency: nat, total: nat)
    requires ec in Occurrences(ms, cid)
    requires frequency == multiset(Occurrences(ms, cid))[ec]
    requires total == TotalLabeled(ms, cid)
    ensures total > 0
    ensures Selected(ms, cid, threshold, ec) <==> (frequency as real) >= threshold * (total as real)
  {
    OccursLabelled(ms, cid, ec);
    PassesByCounts(multiset(Occurrences(ms, cid)), total, threshold, ec);
  }

  // ---------------------------------------------------------------------------
  // The union rule
  // ---------------------------------------------------------------------------

  /** get_community_ec_numbers: the distinct EC numbers of community `cid`, ascending. */
  function CommunityEcs(ms: seq<Member>, cid: int): (r: seq<string>)
    ensures StrictlySorted(r) && NoDuplicates(r)
    ensures forall ec :: ec in r <==> ec in Occurrences(ms, cid)
  {
    var r := SortDistinct(Occurrences(ms, cid));
    SortedNoDuplicates(r);
    r
  }

  /** modify_ec_numbers_per_community: the list on every member of the community. */
  function ModifyCommunity(ms: seq<Member>, cid: int, ecs: seq<string>): (r: seq<Member>)
    ensures SameKeys(ms, r)
    ensures forall k :: 0 <= k < |ms| ==>
      r[k] == if ms[k].communityId == Some(cid) then ms[k].(ecCalculated := Some(ecs)) else ms[k]
  {
    seq(|ms|, k requires 0 <= k < |ms| =>
      if ms[k].communityId == Some(cid) then ms[k].(ecCalculated := Some(ecs)) else ms[k])
  }

  /** The union rule over the communities `ids`: skip a community without EC numbers, otherwise set its list on every member. */
  function UnionRule(ms: seq<Member>, ids: set<int>): (r: seq<Member>)
    ensures SameKeys(ms, r)
  {
    seq(|ms|, k requires 0 <= k < |ms| =>
      var m := ms[k];
      if m.communityId.Some? && m.communityId.value in ids && CommunityEcs(ms, m.communityId.value) != []
      then m.(ecCalculated := Some(CommunityEcs(ms, m.communityId.value)))
      else m)
  }

  lemma {:induction false} UnionStep(ms: seq<Member>, store: seq<Member>, ids: set<int>, cid: int)
    requires store == UnionRule(ms, ids)
    ensures CommunityEcs(store, cid) == CommunityEcs(ms, cid)
    ensures CommunityEcs(ms, cid) != [] ==> ModifyCommunity(store, cid, CommunityEcs(store, cid)) == UnionRule(ms, ids + {cid})
    ensures CommunityEcs(ms, cid) == [] ==> store == UnionRule(ms, ids + {cid})
  {
    SameKeysAggregates(ms, store, cid);
  }

  /** The community ids present in the store: what `RETURN DISTINCT p.community_id` yields, as a set. */
  function CommunityIdsOf(ms: seq<Member>): (r: set<int>)
    ensures forall cid :: cid in r <==> exists k :: 0 <= k < |ms| && ms[k].communityId == Some(cid)
  {
    set k | 0 <= k < |ms| && ms[k].communityId.Some? :: ms[k].communityId.value
  }

  /**
   * update_ec_numbers_from_communities, given the ids the DISTINCT query
   * read from the same store (in whatever order it returned them).
   */
  method UpdateEcNumbersFromCommunities(ms: seq<Member>, ids: seq<int>) returns (store: seq<Member>)
    requires NoDuplicates(ids) && Elems(ids) == CommunityIdsOf(ms)
    ensures store == UnionRule(ms, Elems(ids))
    ensures store == UnionRule(ms, CommunityIdsOf(ms))
  {
    store := ms;
    assert store == UnionRule(ms, {});
    var i := 0;
    while i < |ids|
      invariant 0 <= i <= |ids|
      invariant store == UnionRule(ms, Elems(ids[..i]))
    {
      var cid := ids[i];
      assert Elems(ids[..i + 1]) == Elems(ids[..i]) + {cid} by {
        assert ids[..i + 1] == ids[..i] + [cid];
      }
      UnionStep(ms, store, Elems(ids[..i]), cid);
      var ecs := CommunityEcs(store, cid);
      if ecs != [] {
        store := ModifyCommunity(store, cid, ecs);
      }
      i := i + 1;
    }
    assert ids[..i] == ids;
  }

  lemma {:induction false} OccurrenceMembers(ms: seq<Member>, cid: int, ec: string)
    ensures ec in Occurrences(ms, cid) <==>
      exists k :: 0 <= k < |ms| && ms[k].communityId == Some(cid) && ms[k].ecNumbers.Some? && ec in ms[k].ecNumbers.value
  {
    if ms != [] {
      var init := ms[..|ms| - 1];
      OccurrenceMembers(init, cid, ec);
      if ec in Occurrences(init, cid) {
        var k :| 0 <= k < |init| && init[k].communityId == Some(cid) && init[k].ecNumbers.Some? && ec in init[k].ecNumbers.value;
        assert ms[k] == init[k];
      }
      if exists k :: 0 <= k < |ms| && ms[k].communityId == Some(cid) && ms[k].ecNumbers.Some? && ec in ms[k].ecNumbers.value {
        var k :| 0 <= k < |ms| && ms[k].communityId == Some(cid) && ms[k].ecNumbers.Some? && ec in ms[k].ecNumbers.value;
        if k < |init| {
          assert init[k] == ms[k];
        }
      }
    }
  }

  /**
   * Every member of a processed community with EC numbers, labelled or not,
   * receives the community's list: ascending, duplicate-free, and holding
   * exactly the EC numbers some member of the community lists. Nothing else
   * changes.
   */
  lemma {:induction false} UnionEffect(ms: seq<Member>, ids: set<int>, k: nat, ec: string)
    requires k < |ms|
    ensures OnlyCalculated(ms[k], UnionRule(ms, ids)[k])
    ensures UnionRule(ms, ids)[k] != ms[k] ==> ms[k].communityId.Some? && ms[k].communityId.value in ids
    ensures ms[k].communityId.Some? && ms[k].communityId.value in ids && CommunityEcs(ms, ms[k].communityId.value) != [] ==>
      var r := UnionRule(ms, ids)[k].ecCalculated;
      && r.Some? && StrictlySorted(r.value) && NoDuplicates(r.value)
      && (ec in r.value <==> exists j :: 0 <= j < |ms| && ms[j].communityId == ms[k].communityId
                                          && ms[j].ecNumbers.Some? && ec in ms[j].ecNumbers.value)
  {
    if ms[k].communityId.Some? {
      OccurrenceMembers(ms, ms[k].communityId.value, ec);
    }
  }

  /**
   * Over the communities present in the store, every member of a community
   * with EC numbers receives that community's list, and every other node is
   * left as it was.
   */
  lemma {:induction false} UnionCoversPresent(ms: seq<Member>, k: nat)
    requires k < |ms|
    ensures ms[k].communityId.Some? && CommunityEcs(ms, ms[k].communityId.value) != [] ==>
      UnionRule(ms, CommunityIdsOf(ms))[k] == ms[k].(ecCalculated := Some(CommunityEcs(ms, ms[k].communityId.value)))
    ensures ms[k].communityId.None? || CommunityEcs(ms, ms[k].communityId.value) == [] ==>
      UnionRule(ms, CommunityIdsOf(ms))[k] == ms[k]
  {
    if ms[k].communityId.Some? {
      assert ms[k].communityId.value in CommunityIdsOf(ms);
    }
  }

  /** Re-running the union rule changes nothing further. */
  lemma {:induction false} UnionIdempotent(ms: seq<Member>, ids: set<int>)
    ensures UnionRule(UnionRule(ms, ids), ids) == UnionRule(ms, ids)
  {
    var once := UnionRule(ms, ids);
    var twice := UnionRule(once, ids);
    forall k | 0 <= k < |ms| ensures twice[k] == once[k] {
      if ms[k].communityId.Some? {
        SameKeysAggregates(ms, once, ms[k].communityId.value);
      }
    }
  }
}

/**
 Utilities of the eligible evaluations, and the recommendation: weights that add up to
 one, objectives normalized over the eligible values, candidates ranked by utility.
 */
module SolverScoring {
  import opened Numbers
  import opened Wrappers
  import opened SolverRanking

  datatype Weights = Weights(requirements: real, resilience: real, latency: real, cost: real, complexity: real)

  datatype WeightError = NegativeWeight | NoPositiveWeight

  datatype Limits = Limits(low: real, high: real)

  datatype Ranges = Ranges(requirements: Limits, resilience: Limits, latency: Limits, cost: Limits, complexity: Limits)

  lemma WeightedBounds(value: real, weight: real)
    requires 0.0 <= value <= 1.0 && weight >= 0.0
    ensures 0.0 <= Portion(value, weight) <= weight
  {
    PortionOfPart(value, 1.0, weight);
    assert Portion(1.0, weight) == weight;
  }

  // ---------------------------------------------------------------- weights

  predicate NonNegative(w: Weights) {
    w.requirements >= 0.0 && w.resilience >= 0.0 && w.latency >= 0.0 && w.cost >= 0.0 && w.complexity >= 0.0
  }

  function Total(w: Weights): real {
    w.requirements + w.resilience + w.latency + w.cost + w.complexity
  }

  function Part(weight: real, total: real): real
    requires total > 0.0
  {
    weight / total
  }

  function NormalizedWeights(w: Weights): Result<Weights, WeightError> {
    if !NonNegative(w) then Err(NegativeWeight)
    else if Total(w) <= 0.0 then Err(NoPositiveWeight)
    else
      var total := Total(w);
      Ok(Weights(Part(w.requirements, total), Part(w.resilience, total), Part(w.latency, total), Part(w.cost, total),
                 Part(w.complexity, total)))
  }

  lemma PartsAdd(a: real, b: real, c: real, d: real, e: real, total: real)
    requires total > 0.0 && total == a + b + c + d + e
    ensures Part(a, total) + Part(b, total) + Part(c, total) + Part(d, total) + Part(e, total) == 1.0
  {
    assert a / total + b / total == (a + b) / total;
    assert (a + b) / total + c / total == (a + b + c) / total;
    assert (a + b + c) / total + d / total == (a + b + c + d) / total;
    assert (a + b + c + d) / total + e / total == total / total;
  }

  lemma PartSign(weight: real, total: real)
    requires total > 0.0 && weight >= 0.0
    ensures Part(weight, total) >= 0.0
  {
  }

  lemma NormalizedWeightsAddUp(w: Weights)
    requires NormalizedWeights(w).Ok?
    ensures NonNegative(NormalizedWeights(w).value) && Total(NormalizedWeights(w).value) == 1.0
  {
    var total := Total(w);
    PartsAdd(w.requirements, w.resilience, w.latency, w.cost, w.complexity, total);
    PartSign(w.requirements, total);
    PartSign(w.resilience, total);
    PartSign(w.latency, total);
    PartSign(w.cost, total);
    PartSign(w.complexity, total);
  }

  // -------------------------------------------------------------- utilities

  /** Position of a value between its limits; in the middle when they hardly differ. */
  function Normalize(value: real, limits: Limits, lowerIsBetter: bool): real {
    if -EPSILON < limits.high - limits.low < EPSILON then 0.5
    else
      var normalized := (value - limits.low) / (limits.high - limits.low);
      if lowerIsBetter then 1.0 - normalized else normalized
  }

  lemma NormalizeBounds(value: real, limits: Limits, lowerIsBetter: bool)
    requires limits.low <= value <= limits.high
    ensures 0.0 <= Normalize(value, limits, lowerIsBetter) <= 1.0
  {
    if limits.high - limits.low >= EPSILON {
      var span, above := limits.high - limits.low, value - limits.low;
      assert 0.0 <= above / span;
      assert (span - above) / span >= 0.0;
      assert span / span == 1.0 && (span - above) / span == span / span - above / span;
    }
  }

  lemma NormalizeMonotone(x: real, y: real, limits: Limits, lowerIsBetter: bool)
    requires limits.low <= limits.high && (if lowerIsBetter then y <= x else x <= y)
    ensures Normalize(x, limits, lowerIsBetter) <= Normalize(y, limits, lowerIsBetter)
  {
    if limits.high - limits.low >= EPSILON {
      var span := limits.high - limits.low;
      var gap := if lowerIsBetter then x - y else y - x;
      assert gap / span >= 0.0;
      assert gap / span == (if lowerIsBetter then (x - limits.low) / span - (y - limits.low) / span
                            else (y - limits.low) / span - (x - limits.low) / span);
    }
  }

  function Utility(o: Objectives, ranges: Ranges, w: Weights): real {
    Portion(Normalize(o.requirements, ranges.requirements, false), w.requirements)
    + Portion(Normalize(o.resilience, ranges.resilience, false), w.resilience)
    + Portion(Normalize(o.latency, ranges.latency, true), w.latency)
    + Portion(Normalize(o.cost, ranges.cost, true), w.cost)
    + Portion(Normalize(o.complexity, ranges.complexity, true), w.complexity)
  }

  function Widen(limits: Limits, value: real): (r: Limits)
    ensures r.low <= value <= r.high && r.low <= limits.low && limits.high <= r.high
    ensures r.low == limits.low || r.low == value
    ensures r.high == limits.high || r.high == value
  {
    Limits(if value < limits.low then value else limits.low, if value > limits.high then value else limits.high)
  }

  /** Smallest and largest of each objective over the evaluations. */
  function RangesOf(values: seq<Objectives>): Ranges
    requires values != []
  {
    var last := values[|values| - 1];
    if |values| == 1 then
      Ranges(Limits(last.requirements, last.requirements), Limits(last.resilience, last.resilience),
             Limits(last.latency, last.latency),
             Limits(last.cost, last.cost), Limits(last.complexity, last.complexity))
    else
      var before := RangesOf(values[..|values| - 1]);
      Ranges(Widen(before.requirements, last.requirements), Widen(before.resilience, last.resilience),
             Widen(before.latency, last.latency),
             Widen(before.cost, last.cost), Widen(before.complexity, last.complexity))
  }

  predicate Within(o: Objectives, ranges: Ranges) {
    && ranges.requirements.low <= o.requirements <= ranges.requirements.high
    && ranges.resilience.low <= o.resilience <= ranges.resilience.high
    && ranges.latency.low <= o.latency <= ranges.latency.high
    && ranges.cost.low <= o.cost <= ranges.cost.high
    && ranges.complexity.low <= o.complexity <= ranges.complexity.high
  }

  lemma {:induction false} AllWithinRanges(values: seq<Objectives>, k: nat)
    requires k < |values|
    ensures Within(values[k], RangesOf(values))
  {
    var last := |values| - 1;
    if k < last {
      AllWithinRanges(values[..last], k);
    }
  }

  /** Every eligible utility lies between zero and one. */
  lemma UtilityInUnitInterval(values: seq<Objectives>, k: nat, w: Weights)
    requires k < |values| && NonNegative(w) && Total(w) == 1.0
    ensures 0.0 <= Utility(values[k], RangesOf(values), w) <= 1.0
  {
    AllWithinRanges(values, k);
    var o, ranges := values[k], RangesOf(values);
    NormalizeBounds(o.requirements, ranges.requirements, false);
    NormalizeBounds(o.resilience, ranges.resilience, false);
    NormalizeBounds(o.latency, ranges.latency, true);
    NormalizeBounds(o.cost, ranges.cost, true);
    NormalizeBounds(o.complexity, ranges.complexity, true);
    WeightedBounds(Normalize(o.requirements, ranges.requirements, false), w.requirements);
    WeightedBounds(Normalize(o.resilience, ranges.resilience, false), w.resilience);
    WeightedBounds(Normalize(o.latency, ranges.latency, true), w.latency);
    WeightedBounds(Normalize(o.cost, ranges.cost, true), w.cost);
    WeightedBounds(Normalize(o.complexity, ranges.complexity, true), w.complexity);
  }

  predicate AtLeastAsGood(a: Objectives, b: Objectives) {
    && a.requirements >= b.requirements && a.resilience >= b.resilience
    && a.latency <= b.latency && a.cost <= b.cost && a.complexity <= b.complexity
  }

  /** At least as good in every objective never has the lower utility. */
  lemma UtilityIsMonotone(values: seq<Objectives>, j: nat, k: nat, w: Weights)
    requires j < |values| && k < |values| && NonNegative(w) && AtLeastAsGood(values[j], values[k])
    ensures Utility(values[j], RangesOf(values), w) >= Utility(values[k], RangesOf(values), w)
  {
    AllWithinRanges(values, k);
    var a, b, ranges := values[j], values[k], RangesOf(values);
    NormalizeMonotone(b.requirements, a.requirements, ranges.requirements, false);
    NormalizeMonotone(b.resilience, a.resilience, ranges.resilience, false);
    NormalizeMonotone(b.latency, a.latency, ranges.latency, true);
    NormalizeMonotone(b.cost, a.cost, ranges.cost, true);
    NormalizeMonotone(b.complexity, a.complexity, ranges.complexity, true);
    PortionMonotone(Normalize(b.requirements, ranges.requirements, false),
                    Normalize(a.requirements, ranges.requirements, false), w.requirements);
    PortionMonotone(Normalize(b.resilience, ranges.resilience, false),
                    Normalize(a.resilience, ranges.resilience, false), w.resilience);
    PortionMonotone(Normalize(b.latency, ranges.latency, true), Normalize(a.latency, ranges.latency, true), w.latency);
    PortionMonotone(Normalize(b.cost, ranges.cost, true), Normalize(a.cost, ranges.cost, true), w.cost);
    PortionMonotone(Normalize(b.complexity, ranges.complexity, true), Normalize(a.complexity, ranges.complexity, true),
                    w.complexity);
  }

  const NO_UTILITY: real := -1.0

  /** The values that are compared: of the baseline when it is eligible, and of the eligible candidates. */
  function EligibleValues(entries: seq<Entry>): (values: seq<Objectives>)
    ensures forall k :: 0 <= k < |entries| && entries[k].eligible ==> entries[k].objectives in values
    ensures values != [] <==> exists k :: 0 <= k < |entries| && entries[k].eligible
  {
    if entries == [] then []
    else
      var before := EligibleValues(entries[..|entries| - 1]);
      if entries[|entries| - 1].eligible then before + [entries[|entries| - 1].objectives] else before
  }

  /** Utility of entry k over the ranges of the eligible entries; minus one when it is not eligible. */
  function UtilityOf(entries: seq<Entry>, w: Weights, k: nat): real
    requires k < |entries|
  {
    if entries[k].eligible then Utility(entries[k].objectives, RangesOf(EligibleValues(entries)), w) else NO_UTILITY
  }

  /** Entry 0 is the baseline. */
  method ScoreEvaluations(entries: seq<Entry>, w: Weights) returns (utilities: seq<real>)
    requires NonNegative(w) && Total(w) == 1.0
    ensures |utilities| == |entries|
    ensures forall k :: 0 <= k < |entries| ==> utilities[k] == UtilityOf(entries, w, k)
    ensures forall k :: 0 <= k < |entries| ==> if entries[k].eligible then 0.0 <= utilities[k] <= 1.0
            else utilities[k] == NO_UTILITY
  {
    var values := EligibleValues(entries);
    utilities := [];
    for i := 0 to |entries|
      invariant |utilities| == i
      invariant forall k :: 0 <= k < i ==> utilities[k] == UtilityOf(entries, w, k)
      invariant forall k :: 0 <= k < i ==> if entries[k].eligible then 0.0 <= utilities[k] <= 1.0
                else utilities[k] == NO_UTILITY
    {
      if entries[i].eligible {
        assert entries[i].objectives in values;
        var at :| 0 <= at < |values| && values[at] == entries[i].objectives;
        UtilityInUnitInterval(values, at, w);
        utilities := utilities + [Utility(entries[i].objectives, RangesOf(values), w)];
      } else {
        utilities := utilities + [NO_UTILITY];
      }
    }
  }

  // --------------------------------------------------------- recommendation

  datatype Candidate = Candidate(entry: Entry, utility: real, paretoOptimal: bool, dominatedByBaseline: bool)

  /** The order a locale puts texts in. */
  type Collation = string -> real

  /** Eligible first, then by utility, then by passed requirements, then by id. */
  predicate RanksBefore(collate: Collation, a: Candidate, b: Candidate) {
    if a.entry.eligible != b.entry.eligible then a.entry.eligible
    else if a.utility != b.utility then a.utility > b.utility
    else if a.entry.requirementsPassed != b.entry.requirementsPassed then
        a.entry.requirementsPassed > b.entry.requirementsPassed
    else collate(a.entry.id) < collate(b.entry.id)
  }

  /** Position of a candidate that no other ranks before. */
  method First(collate: Collation, candidates: seq<Candidate>) returns (k: nat)
    requires candidates != []
    ensures k < |candidates| && forall j :: 0 <= j < |candidates| ==>
              !RanksBefore(collate, candidates[j], candidates[k])
  {
    k := 0;
    for i := 1 to |candidates|
      invariant k < i && forall j :: 0 <= j < i ==> !RanksBefore(collate, candidates[j], candidates[k])
    {
      if RanksBefore(collate, candidates[i], candidates[k]) {
        k := i;
      }
    }
  }

  ghost predicate InRankOrder(collate: Collation, candidates: seq<Candidate>) {
    forall i, j :: 0 <= i < j < |candidates| ==> !RanksBefore(collate, candidates[j], candidates[i])
  }

  method Rank(collate: Collation, candidates: seq<Candidate>) returns (ranked: seq<Candidate>)
    ensures multiset(ranked) == multiset(candidates) && InRankOrder(collate, ranked)
  {
    ranked := [];
    var left := candidates;
    while left != []
      invariant multiset(ranked) + multiset(left) == multiset(candidates)
      invariant InRankOrder(collate, ranked)
      invariant forall i, c :: 0 <= i < |ranked| && c in left ==> !RanksBefore(collate, c, ranked[i])
      decreases |left|
    {
      var k := First(collate, left);
      assert left == left[..k] + [left[k]] + left[k + 1..];
      assert left[k] in left;
      assert forall c :: c in left ==> !RanksBefore(collate, c, left[k]);
      ranked := ranked + [left[k]];
      left := left[..k] + left[k + 1..];
    }
  }

  function Score(utility: real): real {
    Rounded((if utility > 0.0 then utility else 0.0) * 100.0, 1000)
  }

  predicate Recommendable(c: Candidate, baselineUtility: real) {
    c.entry.eligible && c.paretoOptimal && !c.dominatedByBaseline && Score(c.utility) > Score(baselineUtility)
  }

  /** A higher score is a higher utility. */
  lemma ScoreReflectsUtility(x: real, y: real)
    ensures Score(x) > Score(y) ==> x > y
  {
    if x <= y {
      RoundedMonotone((if x > 0.0 then x else 0.0) * 100.0, (if y > 0.0 then y else 0.0) * 100.0, 1000);
    }
  }

  /** The best candidate that may be recommended, or none when there is none. */
  method Recommend(collate: Collation, candidates: seq<Candidate>, baselineUtility: real)
    returns (recommended: Option<Candidate>)
    ensures recommended.None? ==> forall c :: c in candidates ==> !Recommendable(c, baselineUtility)
    ensures recommended.Some? ==>
              && recommended.value in candidates && Recommendable(recommended.value, baselineUtility)
              && recommended.value.utility > baselineUtility
              && forall c :: c in candidates && Recommendable(c, baselineUtility) ==>
                   c.utility <= recommended.value.utility
  {
    var ranked := Rank(collate, candidates);
    forall c
      ensures c in candidates <==> c in ranked
    {
      assert c in candidates <==> c in multiset(candidates);
      assert c in ranked <==> c in multiset(ranked);
    }
    for i := 0 to |ranked|
      invariant forall j :: 0 <= j < i ==> !Recommendable(ranked[j], baselineUtility)
    {
      if Recommendable(ranked[i], baselineUtility) {
        ScoreReflectsUtility(ranked[i].utility, baselineUtility);
        forall c | c in candidates && Recommendable(c, baselineUtility)
          ensures c.utility <= ranked[i].utility
        {
          assert c in ranked;
          var j :| 0 <= j < |ranked| && ranked[j] == c;
          assert j > i ==> !RanksBefore(collate, ranked[j], ranked[i]);
        }
        return Some(ranked[i]);
      }
    }
    return None;
  }

  // --------------------------------------------------------------- decision

  /** Entry k judged: entry 0 is the baseline, the others are candidates. */
  function Judged(entries: seq<Entry>, utilities: seq<real>, k: nat): Candidate
    requires 0 < k < |entries| == |utilities|
  {
    Candidate(entries[k], utilities[k], ParetoOptimal(entries, k),
              entries[0].eligible && Dominates(entries[0].objectives, entries[k].objectives))
  }

  predicate BaselinePareto(entries: seq<Entry>)
    requires entries != []
  {
    entries[0].eligible && !exists k ::
        1 <= k < |entries| && entries[k].eligible && Dominates(entries[k].objectives, entries[0].objectives)
  }

  method Judge(entries: seq<Entry>, utilities: seq<real>) returns (candidates: seq<Candidate>)
    requires 0 < |entries| == |utilities|
    ensures |candidates| == |entries| - 1
    ensures forall k :: 1 <= k < |entries| ==> candidates[k - 1] == Judged(entries, utilities, k)
  {
    candidates := [];
    for k := 1 to |entries|
      invariant |candidates| == k - 1
      invariant forall j :: 1 <= j < k ==> candidates[j - 1] == Judged(entries, utilities, j)
    {
      candidates := candidates + [Judged(entries, utilities, k)];
    }
  }

  method FrontierIds(entries: seq<Entry>, candidates: seq<Candidate>) returns (ids: seq<string>)
    requires entries != []
    ensures BaselinePareto(entries) ==> entries[0].id in ids
    ensures forall k :: 0 <= k < |candidates| && candidates[k].paretoOptimal ==> candidates[k].entry.id in ids
    ensures forall id :: id in ids ==> || (id == entries[0].id && BaselinePareto(entries))
                                       || exists k :: 0 <= k < |candidates| && candidates[k].paretoOptimal
                                                      && candidates[k].entry.id == id
  {
    ids := if BaselinePareto(entries) then [entries[0].id] else [];
    for i := 0 to |candidates|
      invariant BaselinePareto(entries) ==> entries[0].id in ids
      invariant forall k :: 0 <= k < i && candidates[k].paretoOptimal ==> candidates[k].entry.id in ids
      invariant forall id :: id in ids ==> || (id == entries[0].id && BaselinePareto(entries))
                                           || exists k :: 0 <= k < i && candidates[k].paretoOptimal
                                                          && candidates[k].entry.id == id
    {
      if candidates[i].paretoOptimal {
        ids := ids + [candidates[i].entry.id];
      }
    }
  }

  /** Candidate k meets every condition of a recommendation. */
  predicate Qualifies(entries: seq<Entry>, w: Weights, k: nat)
    requires k < |entries|
  {
    && k > 0 && ParetoOptimal(entries, k)
    && !(entries[0].eligible && Dominates(entries[0].objectives, entries[k].objectives))
    && Score(UtilityOf(entries, w, k)) > Score(UtilityOf(entries, w, 0))
  }

  predicate NothingEligible(entries: seq<Entry>) {
    forall k :: 0 <= k < |entries| ==> !entries[k].eligible
  }

  predicate NothingQualifies(entries: seq<Entry>, w: Weights) {
    forall k :: 0 <= k < |entries| ==> !Qualifies(entries, w, k)
  }

  /** Candidate k qualifies, has a higher utility than the baseline, and none that qualifies has a higher one. */
  ghost predicate IsRecommendation(entries: seq<Entry>, w: Weights, k: nat)
    requires k < |entries|
  {
    && Qualifies(entries, w, k) && entries[k].eligible && UtilityOf(entries, w, k) > UtilityOf(entries, w, 0)
    && forall j :: 0 <= j < |entries| && Qualifies(entries, w, j) ==>
         UtilityOf(entries, w, j) <= UtilityOf(entries, w, k)
  }

  /**
   From evaluations to the answer. The frontier is empty only when nothing is eligible. A
   candidate is recommended exactly when one qualifies; it is on the frontier, has a higher
   utility than the baseline, and no other that qualifies has a higher one.
   */
  method Decide(collate: Collation, entries: seq<Entry>, w: Weights)
    returns (frontier: seq<string>, recommended: Option<Candidate>, ghost chosen: nat)
    requires entries != [] && AllSummarized(entries) && NonNegative(w) && Total(w) == 1.0
    ensures frontier == [] <==> NothingEligible(entries)
    ensures recommended.None? <==> NothingQualifies(entries, w)
    ensures recommended.Some? ==>
              && recommended.value.entry.id in frontier
              && 0 < chosen < |entries| && IsRecommendation(entries, w, chosen)
              && recommended.value == Candidate(entries[chosen], UtilityOf(entries, w, chosen), true, false)
  {
    var utilities := ScoreEvaluations(entries, w);
    var candidates := Judge(entries, utilities);
    frontier := FrontierIds(entries, candidates);
    FrontierNonEmpty(entries, utilities, candidates, frontier);
    recommended := Recommend(collate, candidates, utilities[0]);
    RecommendableIffQualifies(entries, w, utilities, candidates);
    chosen := 0;
    if recommended.Some? {
      ghost var i :| 0 <= i < |candidates| && candidates[i] == recommended.value;
      BestIsRecommendation(entries, w, utilities, candidates, i);
      chosen := i + 1;
    }
  }

  lemma BestIsRecommendation(entries: seq<Entry>, w: Weights, utilities: seq<real>, candidates: seq<Candidate>, i: nat)
    requires 0 < |entries| == |utilities| == |candidates| + 1 && i < |candidates|
    requires forall k :: 0 <= k < |entries| ==> utilities[k] == UtilityOf(entries, w, k)
    requires forall k :: 1 <= k < |entries| ==> candidates[k - 1] == Judged(entries, utilities, k)
    requires Recommendable(candidates[i], utilities[0]) && candidates[i].utility > utilities[0]
    requires forall c :: c in candidates && Recommendable(c, utilities[0]) ==> c.utility <= candidates[i].utility
    ensures IsRecommendation(entries, w, i + 1)
    ensures candidates[i] == Candidate(entries[i + 1], UtilityOf(entries, w, i + 1), true, false)
  {
    RecommendableIffQualifies(entries, w, utilities, candidates);
    assert candidates[i + 1 - 1] == Judged(entries, utilities, i + 1);
  }

  lemma RecommendableIffQualifies(entries: seq<Entry>, w: Weights, utilities: seq<real>, candidates: seq<Candidate>)
    requires 0 < |entries| == |utilities| == |candidates| + 1
    requires forall k :: 0 <= k < |entries| ==> utilities[k] == UtilityOf(entries, w, k)
    requires forall k :: 1 <= k < |entries| ==> candidates[k - 1] == Judged(entries, utilities, k)
    ensures forall k :: 0 <= k < |candidates| ==>
              (Recommendable(candidates[k], utilities[0]) <==> Qualifies(entries, w, k + 1))
    ensures forall k :: 0 <= k < |entries| && Qualifies(entries, w, k) ==>
                          k > 0 && candidates[k - 1] in candidates && Recommendable(candidates[k - 1], utilities[0])
                          && candidates[k - 1].utility == UtilityOf(entries, w, k)
  {
    forall k | 0 <= k < |candidates|
      ensures Recommendable(candidates[k], utilities[0]) <==> Qualifies(entries, w, k + 1)
    {
      assert candidates[k + 1 - 1] == Judged(entries, utilities, k + 1);
    }
    forall k | 0 <= k < |entries| && Qualifies(entries, w, k)
      ensures k > 0 && candidates[k - 1] in candidates && Recommendable(candidates[k - 1], utilities[0])
              && candidates[k - 1].utility == UtilityOf(entries, w, k)
    {
      assert candidates[k - 1] == Judged(entries, utilities, k);
    }
  }

  lemma FrontierNonEmpty(entries: seq<Entry>, utilities: seq<real>, candidates: seq<Candidate>, frontier: seq<string>)
    requires 0 < |entries| == |utilities| == |candidates| + 1 && AllSummarized(entries)
    requires forall k :: 1 <= k < |entries| ==> candidates[k - 1] == Judged(entries, utilities, k)
    requires BaselinePareto(entries) ==> entries[0].id in frontier
    requires forall k :: 0 <= k < |candidates| && candidates[k].paretoOptimal ==> candidates[k].entry.id in frontier
    requires forall id :: id in frontier ==> || (id == entries[0].id && BaselinePareto(entries))
                                             || exists k :: 0 <= k < |candidates| && candidates[k].paretoOptimal
                                                            && candidates[k].entry.id == id
    ensures frontier == [] <==> NothingEligible(entries)
  {
    if exists k :: 0 <= k < |entries| && entries[k].eligible {
      var k := FrontierIsNotEmpty(entries);
      if k == 0 {
        assert BaselinePareto(entries);
      } else {
        assert candidates[k - 1] == Judged(entries, utilities, k);
        assert candidates[k - 1].entry.id in frontier;
      }
    }
    forall k | 0 <= k < |candidates|
      ensures candidates[k].paretoOptimal ==> entries[k + 1].eligible
    {
      assert candidates[k + 1 - 1] == Judged(entries, utilities, k + 1);
    }
    assert frontier != [] ==> frontier[0] in frontier;
  }
}

/**
 Comparing candidates: rounded objectives, dominance with a tolerance, and the Pareto
 flag that is raised for an undominated candidate.
 */
module SolverRanking {

  const EPSILON: real := 0.000001

  /** The five objectives; the first two grow for the better, the other three shrink. */
  datatype Objectives = Objectives(requirements: real, resilience: real, latency: real, cost: real, complexity: real)

  // --------------------------------------------------------------- rounding

  /** The k-th point of the grid with `factor` steps to a unit. */
  function Point(k: int, factor: nat): real
    requires factor > 0
  {
    k as real / factor as real
  }

  function NearestStep(value: real, factor: nat): int {
    (value * factor as real + 0.5).Floor
  }

  function Rounded(value: real, factor: nat): real
    requires factor > 0
  {
    Point(NearestStep(value, factor), factor)
  }

  /** Six digits for the fitness objectives, four for the others. */
  function Summarize(raw: Objectives): Objectives {
    Objectives(Rounded(raw.requirements, 1000000), Rounded(raw.resilience, 1000000),
               Rounded(raw.latency, 10000), Rounded(raw.cost, 10000), Rounded(raw.complexity, 10000))
  }

  ghost predicate OnGrid(value: real, factor: nat)
    requires factor > 0
  {
    exists k: int :: value == Point(k, factor)
  }

  ghost predicate Summarized(o: Objectives) {
    && OnGrid(o.requirements, 1000000) && OnGrid(o.resilience, 1000000)
    && OnGrid(o.latency, 10000) && OnGrid(o.cost, 10000) && OnGrid(o.complexity, 10000)
  }

  lemma SummarizeIsSummarized(raw: Objectives)
    ensures Summarized(Summarize(raw))
  {
    RoundedOnGrid(raw.requirements, 1000000);
    RoundedOnGrid(raw.resilience, 1000000);
    RoundedOnGrid(raw.latency, 10000);
    RoundedOnGrid(raw.cost, 10000);
    RoundedOnGrid(raw.complexity, 10000);
  }

  lemma RoundedOnGrid(value: real, factor: nat)
    requires factor > 0
    ensures OnGrid(Rounded(value, factor), factor)
  {
    assert Rounded(value, factor) == Point(NearestStep(value, factor), factor);
  }

  lemma RoundedMonotone(x: real, y: real, factor: nat)
    requires factor > 0 && x <= y
    ensures Rounded(x, factor) <= Rounded(y, factor)
  {
    assert x * factor as real <= y * factor as real;
    assert NearestStep(x, factor) <= NearestStep(y, factor);
    PointMonotone(NearestStep(x, factor), NearestStep(y, factor), factor);
  }

  lemma PointMonotone(j: int, k: int, factor: nat)
    requires j <= k && factor > 0
    ensures Point(j, factor) <= Point(k, factor)
  {
    var gap := (k - j) as real / factor as real;
    assert gap >= 0.0;
    assert Point(k, factor) == Point(j, factor) + gap;
  }

  // -------------------------------------------------------------- dominance

  predicate NoWorse(a: Objectives, b: Objectives) {
    && a.requirements + EPSILON >= b.requirements && a.resilience + EPSILON >= b.resilience
    && a.latency <= b.latency + EPSILON && a.cost <= b.cost + EPSILON && a.complexity <= b.complexity + EPSILON
  }

  predicate StrictlyBetter(a: Objectives, b: Objectives) {
    || a.requirements > b.requirements + EPSILON || a.resilience > b.resilience + EPSILON
    || a.latency + EPSILON < b.latency || a.cost + EPSILON < b.cost || a.complexity + EPSILON < b.complexity
  }

  predicate Dominates(a: Objectives, b: Objectives) {
    NoWorse(a, b) && StrictlyBetter(a, b)
  }

  /** The tolerance makes dominance intransitive, also between summarized objectives. */
  lemma DominanceIsNotTransitive()
    ensures exists a, b, c :: Summarized(a) && Summarized(b) && Summarized(c) && Dominates(a, b) && Dominates(b, c)
                              && !Dominates(a, c)
  {
    var a := Objectives(0.0, 0.0, 1.0, 0.0, 0.0);
    var b := Objectives(0.000001, 0.0, 2.0, 0.0, 0.0);
    var c := Objectives(0.000002, 0.0, 3.0, 0.0, 0.0);
    assert Point(0, 1000000) == 0.0 && Point(1, 1000000) == 0.000001 && Point(2, 1000000) == 0.000002;
    assert Point(0, 10000) == 0.0 && Point(10000, 10000) == 1.0 && Point(20000, 10000) == 2.0
        && Point(30000, 10000) == 3.0;
    assert Summarized(a) && Summarized(b) && Summarized(c);
    assert Dominates(a, b) && Dominates(b, c) && !Dominates(a, c);
  }

  /** Everything that costs, taken together. */
  function Burden(o: Objectives): real {
    o.latency + o.cost + o.complexity
  }

  function Fitness(o: Objectives): real {
    o.requirements + o.resilience
  }

  /** A strict order that dominance between summarized objectives implies. */
  predicate Ahead(a: Objectives, b: Objectives) {
    Burden(a) < Burden(b) || (Burden(a) == Burden(b) && Fitness(a) > Fitness(b))
  }

  lemma CoarsePoints(j: int, k: int)
    ensures Point(j, 10000) == j as real * 0.0001
    ensures Point(j, 10000) <= Point(k, 10000) + EPSILON <==> j <= k
    ensures Point(j, 10000) <= Point(k, 10000) <==> j <= k
  {
  }

  /** On the four-digit grid the tolerance is too small to matter. */
  lemma CoarseGrid(x: real, y: real)
    requires OnGrid(x, 10000) && OnGrid(y, 10000)
    ensures x <= y + EPSILON <==> x <= y
    ensures x + EPSILON < y <==> x < y
  {
    var j: int :| x == Point(j, 10000);
    var k: int :| y == Point(k, 10000);
    CoarsePoints(j, k);
    CoarsePoints(k, j);
  }

  /** On the six-digit grid it is one step. */
  lemma FineGrid(x: real, y: real)
    requires OnGrid(x, 1000000) && OnGrid(y, 1000000)
    ensures x > y + EPSILON ==> x >= y + 2.0 * EPSILON
  {
    var j: int :| x == Point(j, 1000000);
    var k: int :| y == Point(k, 1000000);
    assert 1000000.0 * x == j as real && 1000000.0 * y == k as real;
    if x > y + EPSILON {
      assert j > k + 1;
    }
  }

  lemma DominanceIsAhead(a: Objectives, b: Objectives)
    requires Summarized(a) && Summarized(b) && Dominates(a, b)
    ensures Ahead(a, b)
  {
    CoarseGrid(a.latency, b.latency);
    CoarseGrid(a.cost, b.cost);
    CoarseGrid(a.complexity, b.complexity);
    FineGrid(a.requirements, b.requirements);
    FineGrid(a.resilience, b.resilience);
  }

  /** Each entry dominates the next. */
  ghost predicate DominanceChain(chain: seq<Objectives>) {
    && (forall i :: 0 <= i < |chain| ==> Summarized(chain[i]))
    && forall i :: 0 <= i < |chain| - 1 ==> Dominates(chain[i], chain[i + 1])
  }

  lemma {:induction false} ChainIsAhead(chain: seq<Objectives>, j: nat)
    requires DominanceChain(chain) && 0 < j < |chain|
    ensures Ahead(chain[0], chain[j])
  {
    assert Dominates(chain[j - 1], chain[j - 1 + 1]);
    DominanceIsAhead(chain[j - 1], chain[j]);
    if j > 1 {
      ChainIsAhead(chain, j - 1);
    }
  }

  /** Between summarized objectives dominance never runs in a circle. */
  lemma DominanceIsAcyclic(chain: seq<Objectives>)
    requires DominanceChain(chain) && |chain| > 1
    ensures chain[0] != chain[|chain| - 1]
  {
    ChainIsAhead(chain, |chain| - 1);
  }

  // --------------------------------------------------------------- frontier

  /** An evaluation that takes part in the comparison, by its id. */
  datatype Entry = Entry(id: string, objectives: Objectives, eligible: bool, requirementsPassed: int)

  /** Entry k is dominated by an eligible entry with another id. */
  predicate DominatedByOther(entries: seq<Entry>, k: nat)
    requires k < |entries|
  {
    exists j :: 0 <= j < |entries| && entries[j].eligible && entries[j].id != entries[k].id
                && Dominates(entries[j].objectives, entries[k].objectives)
  }

  /** Entry k is dominated by any other eligible entry. */
  ghost predicate Dominated(entries: seq<Entry>, k: nat)
    requires k < |entries|
  {
    exists j :: 0 <= j < |entries| && j != k && entries[j].eligible
        && Dominates(entries[j].objectives, entries[k].objectives)
  }

  predicate ParetoOptimal(entries: seq<Entry>, k: nat)
    requires k < |entries|
  {
    entries[k].eligible && !DominatedByOther(entries, k)
  }

  ghost predicate DistinctIds(entries: seq<Entry>) {
    forall i, j :: 0 <= i < j < |entries| ==> entries[i].id != entries[j].id
  }

  lemma NothingDominatesItself(o: Objectives)
    ensures !Dominates(o, o)
  {
  }

  /**
   The flag means undominated when no two entries share an id; in general it may be raised too
   often, never too seldom.
   */
  lemma FlagMeansUndominated(entries: seq<Entry>, k: nat)
    requires k < |entries| && entries[k].eligible
    ensures !Dominated(entries, k) ==> ParetoOptimal(entries, k)
    ensures DistinctIds(entries) ==> (ParetoOptimal(entries, k) <==> !Dominated(entries, k))
    ensures ParetoOptimal(entries, k) && Dominated(entries, k) ==>
              exists j :: 0 <= j < |entries| && j != k && entries[j].eligible && entries[j].id == entries[k].id
                          && Dominates(entries[j].objectives, entries[k].objectives)
  {
    NothingDominatesItself(entries[k].objectives);
  }

  ghost predicate AllSummarized(entries: seq<Entry>) {
    forall k :: 0 <= k < |entries| ==> Summarized(entries[k].objectives)
  }

  ghost predicate MostAhead(entries: seq<Entry>, k: nat)
    requires k < |entries|
  {
    entries[k].eligible && forall j :: 0 <= j < |entries| && entries[j].eligible ==>
        !Ahead(entries[j].objectives, entries[k].objectives)
  }

  lemma {:induction false} SomeMostAhead(entries: seq<Entry>) returns (k: nat)
    requires exists i :: 0 <= i < |entries| && entries[i].eligible
    ensures k < |entries| && MostAhead(entries, k)
  {
    var last := |entries| - 1;
    if exists i :: 0 <= i < last && entries[i].eligible {
      var before := entries[..last];
      assert exists i :: 0 <= i < |before| && before[i].eligible by {
        var i :| 0 <= i < last && entries[i].eligible;
        assert before[i].eligible;
      }
      k := SomeMostAhead(before);
      if entries[last].eligible && Ahead(entries[last].objectives, entries[k].objectives) {
        forall j | 0 <= j < |entries| && entries[j].eligible
          ensures !Ahead(entries[j].objectives, entries[last].objectives)
        {
          assert j < last ==> before[j] == entries[j];
        }
        k := last;
      } else {
        forall j | 0 <= j < |entries| && entries[j].eligible
          ensures !Ahead(entries[j].objectives, entries[k].objectives)
        {
          assert j < last ==> before[j] == entries[j];
        }
      }
    } else {
      k := last;
    }
  }

  /** Some eligible entry is undominated, so the frontier is not empty. */
  lemma FrontierIsNotEmpty(entries: seq<Entry>) returns (k: nat)
    requires AllSummarized(entries) && exists i :: 0 <= i < |entries| && entries[i].eligible
    ensures k < |entries| && !Dominated(entries, k) && ParetoOptimal(entries, k)
  {
    k := SomeMostAhead(entries);
    if Dominated(entries, k) {
      var j :| 0 <= j < |entries| && j != k && entries[j].eligible
          && Dominates(entries[j].objectives, entries[k].objectives);
      DominanceIsAhead(entries[j].objectives, entries[k].objectives);
    }
    FlagMeansUndominated(entries, k);
  }
}

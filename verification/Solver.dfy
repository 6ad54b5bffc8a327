/**
 The solver as one call, from a request to its answer: options are checked, candidates
 explored within the budget, every architecture evaluated, and a candidate recommended.
 What an evaluation measures is a parameter.
 */
module Solver {
  import opened Wrappers
  import opened Architecture
  import opened ArchitectureSchema
  import opened SolverNames
  import opened SolverSearch
  import opened SolverCandidates
  import opened SolverRanking
  import opened SolverScoring
  import Flags = SolverFlags
  import Mutations = SolverMutations

  const MAX_SOLVER_CANDIDATES := 64

  datatype Request = Request(
    extent: Extent, allowed: set<Mutations.Strategy>, locked: set<string>,
    maximumCandidates: int, maximumChanges: int, workUnitBudget: real,
    maximumCost: Option<real>, maximumComplexity: Option<real>, weights: Weights)

  datatype SolverError =
    | CandidateCount | ChangeCount | WorkBudget | NoStrategy | UnknownLock | NegativeCeiling
    | InvalidWeights(reason: WeightError) | OverBudget(overrun: BudgetError)

  /** What the simulation of an architecture yields for the solver. */
  datatype Measured = Measured(raw: Objectives, requirementsPassed: int, bottleneck: Option<string>)

  predicate NonNegativeCeiling(ceiling: Option<real>) {
    ceiling.Some? ==> ceiling.value >= 0.0
  }

  /** `validateOptions`: the checks in their order, and the weights that add up to one. */
  function ValidateOptions(request: Request, architecture: Architecture): Result<Weights, SolverError> {
    if !(1 <= request.maximumCandidates <= MAX_SOLVER_CANDIDATES) then Err(CandidateCount)
    else if request.maximumChanges != 1 && request.maximumChanges != 2 then Err(ChangeCount)
    else if request.workUnitBudget < 1.0 then Err(WorkBudget)
    else if request.allowed == {} then Err(NoStrategy)
    else if exists id :: id in request.locked && Mutations.Find(architecture.nodes, id).None? then Err(UnknownLock)
    else if !NonNegativeCeiling(request.maximumCost) || !NonNegativeCeiling(request.maximumComplexity) then
        Err(NegativeCeiling)
    else
      match NormalizedWeights(request.weights)
      case Ok(weights) => Ok(weights)
      case Err(error) => Err(InvalidWeights(error))
  }

  /** Within the ceilings of the request. */
  predicate Eligible(request: Request, o: Objectives) {
    && (request.maximumCost.Some? ==> o.cost <= request.maximumCost.value)
    && (request.maximumComplexity.Some? ==> o.complexity <= request.maximumComplexity.value)
  }

  function Evaluated(request: Request, id: string, measured: Measured): Entry {
    var objectives := Summarize(measured.raw);
    Entry(id, objectives, Eligible(request, objectives), measured.requirementsPassed)
  }

  function OptionsOf(request: Request, baseline: Measured): Options {
    Options(request.allowed, request.locked, baseline.bottleneck)
  }

  /** The baseline and the candidates, evaluated. */
  function EntriesOf(request: Request, evaluate: Architecture -> Measured, architecture: Architecture,
                     blueprints: seq<Blueprint>): (entries: seq<Entry>)
    ensures |entries| == |blueprints| + 1
  {
    [Evaluated(request, "baseline", evaluate(architecture))]
    + seq(|blueprints|, k requires 0 <= k < |blueprints| =>
          Evaluated(request, blueprints[k].id, evaluate(blueprints[k].architecture)))
  }

  datatype Answer = Answer(exploration: Exploration, frontier: seq<string>, recommended: Option<string>)

  lemma EntriesAreSummarized(request: Request, evaluate: Architecture -> Measured, architecture: Architecture,
                             blueprints: seq<Blueprint>)
    ensures AllSummarized(EntriesOf(request, evaluate, architecture, blueprints))
    ensures Flags.Evaluated(blueprints, EntriesOf(request, evaluate, architecture, blueprints))
  {
    var entries := EntriesOf(request, evaluate, architecture, blueprints);
    SummarizeIsSummarized(evaluate(architecture).raw);
    forall k | 1 <= k < |entries|
      ensures Summarized(entries[k].objectives)
    {
      SummarizeIsSummarized(evaluate(blueprints[k - 1].architecture).raw);
    }
  }

  /**
   Within the budget, valid by the schema, locked nodes as they were, and different from the
   baseline and each other.
   */
  ghost predicate WellExplored(request: Request, architecture: Architecture, options: Options, e: Exploration)
    requires request.maximumChanges >= 0
  {
    && request.maximumCandidates >= 0
    && Affordable(request.maximumCandidates, request.workUnitBudget, WorkUnits(request.extent, architecture), e)
    && AllKept(request.extent, architecture, options, e.blueprints)
    && Explored(architecture, options, request.maximumChanges, e)
  }

  /** Candidate k has the answer's id, is on its frontier, and no other that qualifies has a higher utility. */
  ghost predicate Recommends(answer: Answer, entries: seq<Entry>, w: Weights, k: nat)
    requires |entries| == |answer.exploration.blueprints| + 1 && k < |answer.exploration.blueprints|
  {
    && answer.recommended == Some(answer.exploration.blueprints[k].id) && answer.recommended.value in answer.frontier
    && IsRecommendation(entries, w, k + 1)
  }

  /** With clear node ids nothing dominates it and no other candidate has its id. */
  ghost predicate StandsAlone(answer: Answer, entries: seq<Entry>, k: nat)
    requires |entries| == |answer.exploration.blueprints| + 1 && k < |answer.exploration.blueprints|
  {
    var blueprints := answer.exploration.blueprints;
    !Dominated(entries, k + 1) && forall j :: 0 <= j < |blueprints| && blueprints[j].id == blueprints[k].id ==> j == k
  }

  lemma ClearRecommendation(architecture: Architecture, options: Options, maximumChanges: nat, answer: Answer,
                            entries: seq<Entry>, w: Weights, k: nat)
    requires ValidArchitecture(architecture) && (maximumChanges == 1 || maximumChanges == 2)
    requires Explored(architecture, options, maximumChanges, answer.exploration)
    requires Flags.Evaluated(answer.exploration.blueprints, entries) && k < |answer.exploration.blueprints|
    requires Recommends(answer, entries, w, k) && ClearIds(architecture, options, maximumChanges)
    ensures StandsAlone(answer, entries, k)
  {
    assert ParetoOptimal(entries, k + 1);
    Flags.FlaggedStandsAlone(architecture, options, maximumChanges, answer.exploration, entries, k);
  }

  /**
   The frontier is empty only when nothing is eligible, a candidate is recommended exactly when
   one qualifies, and it is the best of those; with clear node ids it stands alone.
   */
  ghost predicate Answers(architecture: Architecture, options: Options, maximumChanges: nat, answer: Answer,
                          entries: seq<Entry>, w: Weights)
    requires |entries| == |answer.exploration.blueprints| + 1
  {
    && (answer.frontier == [] <==> NothingEligible(entries))
    && (answer.recommended.None? <==> NothingQualifies(entries, w))
    && (answer.recommended.Some? ==>
          exists k :: 0 <= k < |answer.exploration.blueprints| && Recommends(answer, entries, w, k)
                      && (ClearIds(architecture, options, maximumChanges) ==> StandsAlone(answer, entries, k)))
  }

  lemma IsRecommended(answer: Answer, entries: seq<Entry>, w: Weights, k: nat, entry: Entry)
    requires Flags.Evaluated(answer.exploration.blueprints, entries) && k < |answer.exploration.blueprints|
    requires IsRecommendation(entries, w, k + 1) && entry == entries[k + 1]
    requires answer.recommended == Some(entry.id) && entry.id in answer.frontier
    ensures Recommends(answer, entries, w, k)
  {
    assert entries[k + 1].id == answer.exploration.blueprints[k].id;
  }

  method AnswerFrom(collate: Collation, entries: seq<Entry>, w: Weights, e: Exploration)
    returns (answer: Answer, ghost k: nat)
    requires Flags.Evaluated(e.blueprints, entries) && AllSummarized(entries) && NonNegative(w) && Total(w) == 1.0
    ensures answer.exploration == e
    ensures answer.frontier == [] <==> NothingEligible(entries)
    ensures answer.recommended.None? <==> NothingQualifies(entries, w)
    ensures answer.recommended.Some? ==> k < |e.blueprints| && Recommends(answer, entries, w, k)
  {
    var frontier, best;
    ghost var chosen;
    frontier, best, chosen := Decide(collate, entries, w);
    answer := Answer(e, frontier, if best.Some? then Some(best.value.entry.id) else None);
    k := 0;
    if best.Some? {
      k := chosen - 1;
      IsRecommended(answer, entries, w, k, best.value.entry);
    }
  }

  lemma AnswersWhenClear(architecture: Architecture, options: Options, maximumChanges: nat, answer: Answer,
                         entries: seq<Entry>, w: Weights, k: nat)
    requires ValidArchitecture(architecture) && (maximumChanges == 1 || maximumChanges == 2)
    requires Explored(architecture, options, maximumChanges, answer.exploration)
    requires Flags.Evaluated(answer.exploration.blueprints, entries)
    requires answer.frontier == [] <==> NothingEligible(entries)
    requires answer.recommended.None? <==> NothingQualifies(entries, w)
    requires answer.recommended.Some? ==> k < |answer.exploration.blueprints| && Recommends(answer, entries, w, k)
    ensures Answers(architecture, options, maximumChanges, answer, entries, w)
  {
    if answer.recommended.Some? && ClearIds(architecture, options, maximumChanges) {
      ClearRecommendation(architecture, options, maximumChanges, answer, entries, w, k);
    }
  }

  /**
   From a request to its answer. It is refused exactly when an option is or when the baseline
   alone exceeds the budget; otherwise the candidates are well explored and one is recommended
   as the evaluations demand.
   */
  method SolveArchitecture(collate: Collation, request: Request, evaluate: Architecture -> Measured,
                           architecture: Architecture)
    returns (r: Result<Answer, SolverError>)
    requires ValidArchitecture(architecture)
    ensures r.Err? <==> || ValidateOptions(request, architecture).Err?
                        || WorkUnits(request.extent, architecture) as real > request.workUnitBudget
    ensures ValidateOptions(request, architecture).Err? ==> r == Err(ValidateOptions(request, architecture).error)
    ensures r.Ok? ==>
              var options := OptionsOf(request, evaluate(architecture));
              var entries := EntriesOf(request, evaluate, architecture, r.value.exploration.blueprints);
              && WellExplored(request, architecture, options, r.value.exploration)
              && Answers(architecture, options, request.maximumChanges, r.value, entries,
                         ValidateOptions(request, architecture).value)
  {
    var validated := ValidateOptions(request, architecture);
    if validated.Err? {
      return Err(validated.error);
    }
    NormalizedWeightsAddUp(request.weights);
    var options := OptionsOf(request, evaluate(architecture));
    var explored := Explore(request.extent, architecture, options, request.maximumCandidates, request.maximumChanges,
                            request.workUnitBudget);
    if explored.Err? {
      return Err(OverBudget(explored.error));
    }
    var entries := EntriesOf(request, evaluate, architecture, explored.value.blueprints);
    EntriesAreSummarized(request, evaluate, architecture, explored.value.blueprints);
    ghost var k;
    var answer;
    answer, k := AnswerFrom(collate, entries, validated.value, explored.value);
    AnswersWhenClear(architecture, options, request.maximumChanges, answer, entries, validated.value, k);
    return Ok(answer);
  }
}

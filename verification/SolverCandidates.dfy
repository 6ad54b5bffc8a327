/**
 Candidate blueprints: every architecture one change, or two changes of different
 strategies, lead to, each architecture once, up to a limit that the work budget sets.
 */
module SolverCandidates {
  import opened Wrappers
  import opened Architecture
  import opened ArchitectureSchema
  import opened SolverMutations
  import opened SolverNames
  import opened SolverSearch

  // ------------------------------------------------------------- selections

  function ApplyAll(nodes: seq<Node>, selected: seq<Mutation>): Result<seq<Node>, string> {
    if selected == [] then Ok(nodes)
    else
      match ApplyAll(nodes, selected[..|selected| - 1])
      case Ok(next) => Apply(next, selected[|selected| - 1])
      case Err(id) => Err(id)
  }

  /** One change of the catalog, or two of different strategies when two are allowed. */
  ghost predicate Selectable(mutations: seq<Mutation>, maximumChanges: nat, selected: seq<Mutation>) {
    || (|selected| == 1 && selected[0] in mutations)
    || (|selected| == 2 && maximumChanges == 2 && exists i, j ::
        0 <= i < j < |mutations| && IsPair(mutations, i, j, selected))
  }

  ghost predicate IsPair(mutations: seq<Mutation>, i: nat, j: nat, selected: seq<Mutation>)
    requires i < |mutations| && j < |mutations|
  {
    selected == [mutations[i], mutations[j]] && StrategyOf(mutations[i]) != StrategyOf(mutations[j])
  }

  function Candidate(architecture: Architecture, selected: seq<Mutation>): Architecture {
    match ApplyAll(architecture.nodes, selected)
    case Ok(nodes) => architecture.(nodes := nodes)
    case Err(_) => architecture
  }

  ghost predicate FromCatalog(architecture: Architecture, options: Options, mutations: seq<Mutation>) {
    forall m :: m in mutations ==> Offered(architecture, options, m)
  }

  lemma SelectionKeeps(architecture: Architecture, options: Options, mutations: seq<Mutation>, maximumChanges: nat,
                       selected: seq<Mutation>)
    requires ValidArchitecture(architecture) && FromCatalog(architecture, options, mutations)
             && Selectable(mutations, maximumChanges, selected)
    ensures ApplyAll(architecture.nodes, selected).Ok?
    ensures KeepsBaseline(architecture, options, Candidate(architecture, selected))
  {
    var nodes := architecture.nodes;
    assert selected[..0] == [] && ApplyAll(nodes, []) == Ok(nodes);
    if |selected| == 1 {
      SingleChangeKeeps(architecture, options, selected[0]);
    } else {
      var i, j :| 0 <= i < j < |mutations| && IsPair(mutations, i, j, selected);
      assert mutations[i] in mutations && mutations[j] in mutations;
      assert selected[..1] == [selected[0]] && [selected[0]][..0] == [];
      PairOfChangesKeeps(architecture, options, selected[0], selected[1]);
    }
  }

  // ------------------------------------------------------------- blueprints

  ghost predicate IsBlueprint(architecture: Architecture, mutations: seq<Mutation>, maximumChanges: nat, b: Blueprint) {
    && Selectable(mutations, maximumChanges, b.changes)
    && b.architecture == Candidate(architecture, b.changes) && b.id == CandidateId(b.changes)
  }

  ghost predicate HasArchitecture(blueprints: seq<Blueprint>, candidate: Architecture) {
    exists k :: 0 <= k < |blueprints| && blueprints[k].architecture == candidate
  }

  /** The selection led to the baseline again or to an architecture that is already there. */
  ghost predicate Covered(architecture: Architecture, blueprints: seq<Blueprint>, selected: seq<Mutation>) {
    Candidate(architecture, selected) == architecture || HasArchitecture(blueprints, Candidate(architecture, selected))
  }

  /** Blueprints built so far: selections of the catalog, new architectures, each once. */
  ghost predicate Growing(architecture: Architecture, mutations: seq<Mutation>, maximumChanges: nat,
                          blueprints: seq<Blueprint>) {
    && (forall k :: 0 <= k < |blueprints| ==> IsBlueprint(architecture, mutations, maximumChanges, blueprints[k]))
    && (forall k :: 0 <= k < |blueprints| ==> blueprints[k].architecture != architecture)
    && (forall i, j :: 0 <= i < j < |blueprints| ==> blueprints[i].architecture != blueprints[j].architecture)
  }

  function BlueprintOf(architecture: Architecture, selected: seq<Mutation>): Blueprint {
    Blueprint(CandidateId(selected), Candidate(architecture, selected), selected)
  }

  /** A selection is taken when it leads to an architecture that is neither the baseline nor there already. */
  ghost function Extended(architecture: Architecture, before: seq<Blueprint>, selected: seq<Mutation>): seq<Blueprint> {
    if Covered(architecture, before, selected) then before else before + [BlueprintOf(architecture, selected)]
  }

  /** The blueprints of a list of selections. */
  ghost function Collected(architecture: Architecture, selections: seq<seq<Mutation>>): seq<Blueprint> {
    if selections == [] then []
    else Extended(architecture, Collected(architecture, selections[..|selections| - 1]), selections[|selections| - 1])
  }

  lemma CollectedOneMore(architecture: Architecture, selections: seq<seq<Mutation>>, selected: seq<Mutation>)
    ensures Collected(architecture, selections + [selected])
            == Extended(architecture, Collected(architecture, selections), selected)
  {
    assert (selections + [selected])[..|selections|] == selections;
  }

  lemma {:induction false} CollectedGrows(architecture: Architecture, some: seq<seq<Mutation>>, all: seq<seq<Mutation>>)
    requires some <= all
    ensures Collected(architecture, some) <= Collected(architecture, all)
    decreases |all|
  {
    if some != all {
      var before := all[..|all| - 1];
      assert some <= before;
      CollectedGrows(architecture, some, before);
    }
  }

  // ------------------------------------------------- selections in their order

  ghost function Singles(mutations: seq<Mutation>, n: nat): seq<seq<Mutation>>
    requires n <= |mutations|
  {
    if n == 0 then [] else Singles(mutations, n - 1) + [[mutations[n - 1]]]
  }

  /** The pairs of one change with later ones of other strategies. */
  ghost function PairsOf(mutations: seq<Mutation>, left: nat, right: nat): seq<seq<Mutation>>
    requires left < right <= |mutations|
  {
    if right == left + 1 then []
    else
      var before, last := PairsOf(mutations, left, right - 1), mutations[right - 1];
      if StrategyOf(mutations[left]) != StrategyOf(last) then before + [[mutations[left], last]] else before
  }

  ghost function Pairs(mutations: seq<Mutation>, n: nat): seq<seq<Mutation>>
    requires n <= |mutations|
  {
    if n == 0 then [] else Pairs(mutations, n - 1) + PairsOf(mutations, n - 1, |mutations|)
  }

  /** All selections in the order the search takes them up: single changes first, then pairs. */
  ghost function Selections(mutations: seq<Mutation>, maximumChanges: nat): seq<seq<Mutation>> {
    Singles(mutations, |mutations|) + (if maximumChanges == 2 then Pairs(mutations, |mutations|) else [])
  }

  lemma {:induction false} SinglesListed(mutations: seq<Mutation>, n: nat, selected: seq<Mutation>)
    requires n <= |mutations|
    ensures selected in Singles(mutations, n) <==> exists i :: 0 <= i < n && selected == [mutations[i]]
  {
    if n > 0 {
      SinglesListed(mutations, n - 1, selected);
    }
  }

  lemma {:induction false} PairsOfListed(mutations: seq<Mutation>, left: nat, right: nat, selected: seq<Mutation>)
    requires left < right <= |mutations|
    ensures selected in PairsOf(mutations, left, right)
            <==> exists j :: left < j < right && IsPair(mutations, left, j, selected)
    decreases right
  {
    if right > left + 1 {
      PairsOfListed(mutations, left, right - 1, selected);
      if IsPair(mutations, left, right - 1, selected) {
        var before := PairsOf(mutations, left, right - 1);
        assert PairsOf(mutations, left, right) == before + [selected];
      }
    }
  }

  lemma {:induction false} PairsListed(mutations: seq<Mutation>, n: nat, selected: seq<Mutation>)
    requires n <= |mutations|
    ensures selected in Pairs(mutations, n) <==> exists i :: 0 <= i < n && IsPairOf(mutations, i, selected)
  {
    if n > 0 {
      PairsListed(mutations, n - 1, selected);
      PairsOfListed(mutations, n - 1, |mutations|, selected);
      assert IsPairOf(mutations, n - 1, selected) <==> selected in PairsOf(mutations, n - 1, |mutations|);
    }
  }

  ghost predicate IsPairOf(mutations: seq<Mutation>, i: nat, selected: seq<Mutation>)
    requires i < |mutations|
  {
    exists j :: i < j < |mutations| && IsPair(mutations, i, j, selected)
  }

  /** The list holds all selections and nothing else. */
  lemma SelectionsListed(mutations: seq<Mutation>, maximumChanges: nat, selected: seq<Mutation>)
    ensures selected in Selections(mutations, maximumChanges) <==> Selectable(mutations, maximumChanges, selected)
  {
    SinglesListed(mutations, |mutations|, selected);
    PairsListed(mutations, |mutations|, selected);
    if |selected| == 1 && selected[0] in mutations {
      var i :| 0 <= i < |mutations| && mutations[i] == selected[0];
      assert selected == [mutations[i]];
    }
    if i, j :| 0 <= i < j < |mutations| && IsPair(mutations, i, j, selected) {
      assert IsPairOf(mutations, i, selected);
    }
  }

  lemma {:induction false} CollectedIsGrowing(architecture: Architecture, mutations: seq<Mutation>, maximumChanges: nat,
                                              selections: seq<seq<Mutation>>)
    requires forall k :: 0 <= k < |selections| ==> Selectable(mutations, maximumChanges, selections[k])
    ensures Growing(architecture, mutations, maximumChanges, Collected(architecture, selections))
  {
    if selections != [] {
      var before, last := selections[..|selections| - 1], selections[|selections| - 1];
      CollectedIsGrowing(architecture, mutations, maximumChanges, before);
      GrowingBy(architecture, mutations, maximumChanges, Collected(architecture, before), last);
    }
  }

  lemma GrowingBy(architecture: Architecture, mutations: seq<Mutation>, maximumChanges: nat, before: seq<Blueprint>,
                  selected: seq<Mutation>)
    requires Growing(architecture, mutations, maximumChanges, before) && Selectable(mutations, maximumChanges, selected)
    ensures Growing(architecture, mutations, maximumChanges, Extended(architecture, before, selected))
  {
    if !Covered(architecture, before, selected) {
      GrowingByOne(architecture, mutations, maximumChanges, before, BlueprintOf(architecture, selected));
    }
  }

  lemma GrowingByOne(architecture: Architecture, mutations: seq<Mutation>, maximumChanges: nat, before: seq<Blueprint>,
                     last: Blueprint)
    requires Growing(architecture, mutations, maximumChanges, before)
    requires IsBlueprint(architecture, mutations, maximumChanges, last) && last.architecture != architecture
    requires !HasArchitecture(before, last.architecture)
    ensures Growing(architecture, mutations, maximumChanges, before + [last])
  {
    forall k | 0 <= k <= |before|
      ensures IsBlueprint(architecture, mutations, maximumChanges, (before + [last])[k])
    {
      assert k < |before| ==> IsBlueprint(architecture, mutations, maximumChanges, before[k]);
    }
  }

  lemma CoveredStays(architecture: Architecture, before: seq<Blueprint>, after: seq<Blueprint>, selected: seq<Mutation>)
    requires Covered(architecture, before, selected) && before <= after
    ensures Covered(architecture, after, selected)
  {
    if HasArchitecture(before, Candidate(architecture, selected)) {
      var k :| 0 <= k < |before| && before[k].architecture == Candidate(architecture, selected);
      assert after[k] == before[k];
    }
  }

  lemma ExtendedCovers(architecture: Architecture, before: seq<Blueprint>, selected: seq<Mutation>)
    ensures before <= Extended(architecture, before, selected)
    ensures Covered(architecture, Extended(architecture, before, selected), selected)
  {
    if !Covered(architecture, before, selected) {
      var after := before + [BlueprintOf(architecture, selected)];
      assert after[|before|].architecture == Candidate(architecture, selected);
    }
  }

  lemma {:induction false} CollectedCovers(architecture: Architecture, selections: seq<seq<Mutation>>, k: nat)
    requires k < |selections|
    ensures Covered(architecture, Collected(architecture, selections), selections[k])
  {
    var before, last := selections[..|selections| - 1], selections[|selections| - 1];
    ExtendedCovers(architecture, Collected(architecture, before), last);
    if k < |before| {
      CollectedCovers(architecture, before, k);
      CoveredStays(architecture, Collected(architecture, before), Collected(architecture, selections), before[k]);
    }
  }

  /** No selection leads anywhere that is neither the baseline nor among the blueprints. */
  ghost predicate Exhaustive(architecture: Architecture, mutations: seq<Mutation>, maximumChanges: nat,
                             blueprints: seq<Blueprint>) {
    forall selected :: Selectable(mutations, maximumChanges, selected) ==> Covered(architecture, blueprints, selected)
  }

  /** What a search collects: different new architectures, and when it is complete all there are. */
  lemma SearchCollects(architecture: Architecture, mutations: seq<Mutation>, maximumChanges: nat,
                       blueprints: seq<Blueprint>)
    requires blueprints <= Collected(architecture, Selections(mutations, maximumChanges))
    ensures Growing(architecture, mutations, maximumChanges, blueprints)
    ensures blueprints == Collected(architecture, Selections(mutations, maximumChanges)) ==>
              Exhaustive(architecture, mutations, maximumChanges, blueprints)
  {
    var selections := Selections(mutations, maximumChanges);
    var all := Collected(architecture, selections);
    forall k | 0 <= k < |selections|
      ensures Selectable(mutations, maximumChanges, selections[k])
    {
      assert selections[k] in selections;
      SelectionsListed(mutations, maximumChanges, selections[k]);
    }
    CollectedIsGrowing(architecture, mutations, maximumChanges, selections);
    GrowingPrefix(architecture, mutations, maximumChanges, blueprints, all);
    forall selected | Selectable(mutations, maximumChanges, selected)
      ensures Covered(architecture, all, selected)
    {
      SelectionsListed(mutations, maximumChanges, selected);
      var k :| 0 <= k < |selections| && selections[k] == selected;
      CollectedCovers(architecture, selections, k);
    }
  }

  lemma GrowingPrefix(architecture: Architecture, mutations: seq<Mutation>, maximumChanges: nat, some: seq<Blueprint>,
                      all: seq<Blueprint>)
    requires some <= all && Growing(architecture, mutations, maximumChanges, all)
    ensures Growing(architecture, mutations, maximumChanges, some)
  {
    forall k | 0 <= k < |some|
      ensures some[k] == all[k]
    {
    }
  }

  // -------------------------------------------------------------- the search

  method Append(architecture: Architecture, before: seq<Blueprint>, selected: seq<Mutation>)
    returns (blueprints: seq<Blueprint>)
    ensures blueprints == Extended(architecture, before, selected)
    ensures before <= blueprints && |blueprints| <= |before| + 1
  {
    var candidate := Candidate(architecture, selected);
    if candidate == architecture || exists k :: 0 <= k < |before| && before[k].architecture == candidate {
      return before;
    }
    return before + [Blueprint(CandidateId(selected), candidate, selected)];
  }

  method AppendSingles(architecture: Architecture, mutations: seq<Mutation>, limit: nat)
    returns (blueprints: seq<Blueprint>, full: bool)
    ensures blueprints <= Collected(architecture, Singles(mutations, |mutations|)) && |blueprints| <= limit
    ensures full ==> |blueprints| == limit && mutations != []
    ensures !full ==> blueprints == Collected(architecture, Singles(mutations, |mutations|))
  {
    blueprints := [];
    for i := 0 to |mutations|
      invariant blueprints == Collected(architecture, Singles(mutations, i)) && |blueprints| <= limit
    {
      if |blueprints| >= limit {
        SinglesPrefix(mutations, i, |mutations|);
        CollectedGrows(architecture, Singles(mutations, i), Singles(mutations, |mutations|));
        return blueprints, true;
      }
      CollectedOneMore(architecture, Singles(mutations, i), [mutations[i]]);
      blueprints := Append(architecture, blueprints, [mutations[i]]);
    }
    return blueprints, false;
  }

  lemma {:induction false} SinglesPrefix(mutations: seq<Mutation>, m: nat, n: nat)
    requires m <= n <= |mutations|
    ensures Singles(mutations, m) <= Singles(mutations, n)
  {
    if m < n {
      SinglesPrefix(mutations, m, n - 1);
    }
  }

  /**
   All single changes, all pairs of the first `left` changes, and those of the next one with
   changes below `right`.
   */
  ghost function Taken(mutations: seq<Mutation>, left: nat, right: nat): seq<seq<Mutation>>
    requires left < right <= |mutations|
  {
    if right == left + 1 then TakenBefore(mutations, left)
    else
      var before, last := Taken(mutations, left, right - 1), mutations[right - 1];
      if StrategyOf(mutations[left]) != StrategyOf(last) then before + [[mutations[left], last]] else before
  }

  ghost function TakenBefore(mutations: seq<Mutation>, left: nat): seq<seq<Mutation>>
    requires left <= |mutations|
  {
    Singles(mutations, |mutations|) + Pairs(mutations, left)
  }

  lemma {:induction false} TakenSplits(mutations: seq<Mutation>, left: nat, right: nat)
    requires left < right <= |mutations|
    ensures Taken(mutations, left, right) == TakenBefore(mutations, left) + PairsOf(mutations, left, right)
  {
    if right == left + 1 {
      assert TakenBefore(mutations, left) + [] == TakenBefore(mutations, left);
    } else {
      TakenSplits(mutations, left, right - 1);
      var x, y := TakenBefore(mutations, left), PairsOf(mutations, left, right - 1);
      var pair := [[mutations[left], mutations[right - 1]]];
      assert (x + y) + pair == x + (y + pair);
    }
  }

  lemma {:induction false} PairsOfPrefix(mutations: seq<Mutation>, left: nat, m: nat, n: nat)
    requires left < m <= n <= |mutations|
    ensures PairsOf(mutations, left, m) <= PairsOf(mutations, left, n)
  {
    if m < n {
      PairsOfPrefix(mutations, left, m, n - 1);
    }
  }

  lemma {:induction false} PairsPrefix(mutations: seq<Mutation>, m: nat, n: nat)
    requires m <= n <= |mutations|
    ensures Pairs(mutations, m) <= Pairs(mutations, n)
  {
    if m < n {
      PairsPrefix(mutations, m, n - 1);
    }
  }

  lemma PrefixInside<T>(x: seq<T>, y: seq<T>, z: seq<T>, w: seq<T>)
    requires y + z <= w
    ensures x + y + z <= x + w
  {
    assert x + y + z == x + (y + z);
  }

  lemma PrefixWithin<T>(x: seq<T>, y: seq<T>, z: seq<T>, w: seq<T>)
    requires y <= z && x + z <= w
    ensures x + y <= w
  {
    assert x + y == (x + z)[..|x + y|];
  }

  lemma PairsAreListed(mutations: seq<Mutation>, left: nat)
    requires left < |mutations|
    ensures Pairs(mutations, left) + PairsOf(mutations, left, |mutations|) <= Pairs(mutations, |mutations|)
  {
    assert Pairs(mutations, left + 1) == Pairs(mutations, left) + PairsOf(mutations, left, |mutations|);
    PairsPrefix(mutations, left + 1, |mutations|);
  }

  lemma PairsBehind(mutations: seq<Mutation>, left: nat, right: nat)
    requires left < right <= |mutations|
    ensures Pairs(mutations, left) + PairsOf(mutations, left, right) <= Pairs(mutations, |mutations|)
  {
    PairsOfPrefix(mutations, left, right, |mutations|);
    PairsAreListed(mutations, left);
    PrefixWithin(Pairs(mutations, left), PairsOf(mutations, left, right), PairsOf(mutations, left, |mutations|),
                 Pairs(mutations, |mutations|));
  }

  lemma TakenIsPrefix(mutations: seq<Mutation>, left: nat, right: nat)
    requires left < right <= |mutations|
    ensures Taken(mutations, left, right) <= Selections(mutations, 2)
  {
    TakenSplits(mutations, left, right);
    PairsBehind(mutations, left, right);
    PrefixInside(Singles(mutations, |mutations|), Pairs(mutations, left), PairsOf(mutations, left, right),
                 Pairs(mutations, |mutations|));
  }

  lemma TakenOneMore(mutations: seq<Mutation>, left: nat, right: nat)
    requires left < right < |mutations|
    ensures Taken(mutations, left, right + 1)
            == if StrategyOf(mutations[left]) != StrategyOf(mutations[right]) then
              Taken(mutations, left, right) + [[mutations[left], mutations[right]]]
               else Taken(mutations, left, right)
  {
  }

  /** The blueprints of the first selections, which are those up to the pair of `left` and `right`. */
  ghost predicate CollectedTo(architecture: Architecture, mutations: seq<Mutation>, left: nat, right: nat,
                              blueprints: seq<Blueprint>)
    requires left < right <= |mutations|
  {
    blueprints == Collected(architecture, Taken(mutations, left, right))
  }

  lemma CollectedToIsPrefix(architecture: Architecture, mutations: seq<Mutation>, left: nat, right: nat,
                            blueprints: seq<Blueprint>)
    requires left < right <= |mutations| && CollectedTo(architecture, mutations, left, right, blueprints)
    ensures blueprints <= Collected(architecture, Selections(mutations, 2))
  {
    TakenIsPrefix(mutations, left, right);
    CollectedGrows(architecture, Taken(mutations, left, right), Selections(mutations, 2));
  }

  lemma SkippedPair(architecture: Architecture, mutations: seq<Mutation>, left: nat, right: nat,
                    blueprints: seq<Blueprint>)
    requires left < right < |mutations| && CollectedTo(architecture, mutations, left, right, blueprints)
    requires StrategyOf(mutations[left]) == StrategyOf(mutations[right])
    ensures CollectedTo(architecture, mutations, left, right + 1, blueprints)
  {
    TakenOneMore(mutations, left, right);
  }

  method AppendPair(architecture: Architecture, mutations: seq<Mutation>, left: nat, right: nat, before: seq<Blueprint>)
    returns (blueprints: seq<Blueprint>)
    requires left < right < |mutations| && CollectedTo(architecture, mutations, left, right, before)
    requires StrategyOf(mutations[left]) != StrategyOf(mutations[right])
    ensures CollectedTo(architecture, mutations, left, right + 1, blueprints) && |blueprints| <= |before| + 1
  {
    TakenOneMore(mutations, left, right);
    CollectedOneMore(architecture, Taken(mutations, left, right), [mutations[left], mutations[right]]);
    blueprints := Append(architecture, before, [mutations[left], mutations[right]]);
  }

  /** The pair of `left` and `right`, unless the limit is reached. */
  method VisitPair(architecture: Architecture, mutations: seq<Mutation>, left: nat, right: nat, before: seq<Blueprint>,
                   limit: nat)
    returns (blueprints: seq<Blueprint>, full: bool)
    requires left < right < |mutations| && |before| <= limit
    requires CollectedTo(architecture, mutations, left, right, before)
    ensures |blueprints| <= limit && (full ==> blueprints == before && |before| == limit)
    ensures !full ==> CollectedTo(architecture, mutations, left, right + 1, blueprints)
  {
    if StrategyOf(mutations[left]) == StrategyOf(mutations[right]) {
      SkippedPair(architecture, mutations, left, right, before);
      return before, false;
    }
    if |before| >= limit {
      return before, true;
    }
    blueprints := AppendPair(architecture, mutations, left, right, before);
    full := false;
  }

  /** Pairs of one change; `right` is how far it came. */
  method AppendPairsOf(architecture: Architecture, mutations: seq<Mutation>, left: nat, start: seq<Blueprint>,
                       limit: nat)
    returns (blueprints: seq<Blueprint>, full: bool, ghost right: nat)
    requires left < |mutations| && |start| <= limit && CollectedTo(architecture, mutations, left, left + 1, start)
    ensures left < right <= |mutations| && CollectedTo(architecture, mutations, left, right, blueprints)
    ensures |blueprints| <= limit && (full ==> |blueprints| == limit) && (!full ==> right == |mutations|)
  {
    blueprints := start;
    for r := left + 1 to |mutations|
      invariant CollectedTo(architecture, mutations, left, r, blueprints) && |blueprints| <= limit
    {
      var next, reached := VisitPair(architecture, mutations, left, r, blueprints, limit);
      if reached {
        return blueprints, true, r;
      }
      blueprints := next;
    }
    return blueprints, false, |mutations|;
  }

  lemma AllTaken(mutations: seq<Mutation>, left: nat)
    requires left < |mutations|
    ensures Taken(mutations, left, |mutations|) == TakenBefore(mutations, left + 1)
  {
    TakenSplits(mutations, left, |mutations|);
    var x, y, z := Singles(mutations, |mutations|), Pairs(mutations, left), PairsOf(mutations, left, |mutations|);
    assert x + y + z == x + (y + z);
  }

  /** The blueprints of all selections in their order, as many as the limit allows. */
  method CandidateBlueprints(architecture: Architecture, mutations: seq<Mutation>, maximumChanges: nat, limit: nat)
    returns (blueprints: seq<Blueprint>, truncated: bool)
    requires maximumChanges == 1 || maximumChanges == 2
    ensures blueprints <= Collected(architecture, Selections(mutations, maximumChanges)) && |blueprints| <= limit
    ensures truncated ==> |blueprints| == limit && mutations != []
    ensures !truncated ==> blueprints == Collected(architecture, Selections(mutations, maximumChanges))
    ensures Growing(architecture, mutations, maximumChanges, blueprints)
    ensures !truncated ==> Exhaustive(architecture, mutations, maximumChanges, blueprints)
  {
    blueprints, truncated := Search(architecture, mutations, maximumChanges, limit);
    SearchCollects(architecture, mutations, maximumChanges, blueprints);
  }

  method Search(architecture: Architecture, mutations: seq<Mutation>, maximumChanges: nat, limit: nat)
    returns (blueprints: seq<Blueprint>, truncated: bool)
    requires maximumChanges == 1 || maximumChanges == 2
    ensures blueprints <= Collected(architecture, Selections(mutations, maximumChanges)) && |blueprints| <= limit
    ensures truncated ==> |blueprints| == limit && mutations != []
    ensures !truncated ==> blueprints == Collected(architecture, Selections(mutations, maximumChanges))
  {
    ghost var singles := Singles(mutations, |mutations|);
    CollectedGrows(architecture, singles, Selections(mutations, maximumChanges));
    assert singles + [] == singles;
    if limit == 0 {
      return [], |mutations| > 0;
    }
    blueprints, truncated := AppendSingles(architecture, mutations, limit);
    if truncated {
      return;
    }
    if maximumChanges == 2 {
      FirstPairs(architecture, mutations, blueprints);
      blueprints, truncated := AppendPairs(architecture, mutations, blueprints, limit);
      return;
    }
    return blueprints, false;
  }

  /** The blueprints of all single changes and of all pairs of the first `left` changes. */
  ghost predicate CollectedPairs(architecture: Architecture, mutations: seq<Mutation>, left: nat,
                                 blueprints: seq<Blueprint>)
    requires left <= |mutations|
  {
    blueprints == Collected(architecture, TakenBefore(mutations, left))
  }

  lemma FirstPairs(architecture: Architecture, mutations: seq<Mutation>, blueprints: seq<Blueprint>)
    requires blueprints == Collected(architecture, Singles(mutations, |mutations|))
    ensures CollectedPairs(architecture, mutations, 0, blueprints)
  {
    assert Singles(mutations, |mutations|) + [] == Singles(mutations, |mutations|);
  }

  lemma NextPairs(architecture: Architecture, mutations: seq<Mutation>, left: nat, blueprints: seq<Blueprint>)
    requires left < |mutations|
    ensures CollectedPairs(architecture, mutations, left, blueprints)
            <==> CollectedTo(architecture, mutations, left, left + 1, blueprints)
    ensures CollectedPairs(architecture, mutations, left + 1, blueprints)
            <==> CollectedTo(architecture, mutations, left, |mutations|, blueprints)
  {
    AllTaken(mutations, left);
  }

  method AppendPairsFrom(architecture: Architecture, mutations: seq<Mutation>, left: nat, start: seq<Blueprint>,
                         limit: nat)
    returns (blueprints: seq<Blueprint>, full: bool)
    requires left < |mutations| && |start| <= limit && CollectedPairs(architecture, mutations, left, start)
    ensures |blueprints| <= limit && (full ==> |blueprints| == limit)
    ensures blueprints <= Collected(architecture, Selections(mutations, 2))
    ensures !full ==> CollectedPairs(architecture, mutations, left + 1, blueprints)
  {
    ghost var right;
    NextPairs(architecture, mutations, left, start);
    blueprints, full, right := AppendPairsOf(architecture, mutations, left, start, limit);
    CollectedToIsPrefix(architecture, mutations, left, right, blueprints);
    NextPairs(architecture, mutations, left, blueprints);
  }

  method AppendPairs(architecture: Architecture, mutations: seq<Mutation>, start: seq<Blueprint>, limit: nat)
    returns (blueprints: seq<Blueprint>, truncated: bool)
    requires |start| <= limit && CollectedPairs(architecture, mutations, 0, start)
    ensures |blueprints| <= limit && (truncated ==> |blueprints| == limit && mutations != [])
    ensures truncated ==> blueprints <= Collected(architecture, Selections(mutations, 2))
    ensures !truncated ==> CollectedPairs(architecture, mutations, |mutations|, blueprints)
  {
    blueprints := start;
    for left := 0 to |mutations|
      invariant CollectedPairs(architecture, mutations, left, blueprints) && |blueprints| <= limit
    {
      blueprints, truncated := AppendPairsFrom(architecture, mutations, left, blueprints, limit);
      if truncated {
        return;
      }
    }
    return blueprints, false;
  }

  // ------------------------------------------------------- first selections

  /** Selection i is the first that leads to its architecture, and that is not the baseline. */
  ghost predicate IsFirst(architecture: Architecture, selections: seq<seq<Mutation>>, i: nat)
    requires i < |selections|
  {
    && Candidate(architecture, selections[i]) != architecture
    && forall k :: 0 <= k < i ==> Candidate(architecture, selections[k]) != Candidate(architecture, selections[i])
  }

  lemma FirstStays(architecture: Architecture, before: seq<seq<Mutation>>, last: seq<Mutation>, i: nat)
    requires i < |before|
    ensures IsFirst(architecture, before + [last], i) <==> IsFirst(architecture, before, i)
  {
    assert forall k :: 0 <= k < |before| ==> (before + [last])[k] == before[k];
  }

  /** The last selection is a first one exactly when those before do not cover it. */
  lemma LastIsFirst(architecture: Architecture, before: seq<seq<Mutation>>, last: seq<Mutation>)
    ensures IsFirst(architecture, before + [last], |before|)
            <==> !Covered(architecture, Collected(architecture, before), last)
    decreases |before|, 1
  {
    var selections, earlier := before + [last], Collected(architecture, before);
    if Candidate(architecture, last) != architecture {
      if HasArchitecture(earlier, Candidate(architecture, last)) {
        var k :| 0 <= k < |earlier| && earlier[k].architecture == Candidate(architecture, last);
        var j := CollectedIsFirst(architecture, before, k);
        assert selections[j] == before[j];
      } else {
        forall j | 0 <= j < |before|
          ensures Candidate(architecture, selections[j]) != Candidate(architecture, last)
        {
          CollectedCovers(architecture, before, j);
          assert selections[j] == before[j];
        }
      }
    }
  }

  /** Every blueprint comes from a first selection. */
  lemma {:induction false} CollectedIsFirst(architecture: Architecture, selections: seq<seq<Mutation>>, k: nat)
    returns (i: nat)
    requires k < |Collected(architecture, selections)|
    ensures i < |selections| && IsFirst(architecture, selections, i)
    ensures Collected(architecture, selections)[k] == BlueprintOf(architecture, selections[i])
    decreases |selections|, 0
  {
    var before, last := selections[..|selections| - 1], selections[|selections| - 1];
    assert selections == before + [last];
    if k < |Collected(architecture, before)| {
      i := CollectedIsFirst(architecture, before, k);
      FirstStays(architecture, before, last, i);
    } else {
      i := |before|;
      LastIsFirst(architecture, before, last);
    }
  }

  /** And every first selection gives a blueprint. */
  lemma {:induction false} FirstIsCollected(architecture: Architecture, selections: seq<seq<Mutation>>, i: nat)
    returns (k: nat)
    requires i < |selections| && IsFirst(architecture, selections, i)
    ensures k < |Collected(architecture, selections)|
    ensures Collected(architecture, selections)[k] == BlueprintOf(architecture, selections[i])
    decreases |selections|
  {
    var before, last := selections[..|selections| - 1], selections[|selections| - 1];
    assert selections == before + [last];
    if i < |before| {
      FirstStays(architecture, before, last, i);
      k := FirstIsCollected(architecture, before, i);
    } else {
      LastIsFirst(architecture, before, last);
      k := |Collected(architecture, before)|;
    }
  }

  // ----------------------------------------------------------------- budget

  /** Candidates that fit into the budget beside the baseline, at most as many as asked for. */
  function CandidateLimit(maximumCandidates: nat, budget: real, work: nat): nat
    requires work > 0
  {
    var affordable := (budget / work as real).Floor - 1;
    if affordable < 0 then 0 else if maximumCandidates < affordable then maximumCandidates else affordable
  }

  lemma FloorFits(budget: real, work: nat)
    requires work > 0 && budget >= 0.0
    ensures (budget / work as real).Floor * work <= budget.Floor
  {
    var quotient := budget / work as real;
    assert quotient * work as real == budget;
    assert quotient.Floor as real * work as real <= quotient * work as real;
  }

  lemma AffordsBaseline(budget: real, work: nat)
    requires work > 0 && work as real <= budget
    ensures (budget / work as real).Floor >= 1
  {
    assert budget / work as real >= 1.0;
  }

  lemma FewerCostLess(few: nat, many: nat, work: nat)
    requires few <= many
    ensures Times(few, work) <= Times(many, work)
  {
  }

  /** Whatever is explored within the limit costs, together with the baseline, no more than the budget. */
  lemma LimitFitsBudget(maximumCandidates: nat, budget: real, work: nat, explored: nat)
    requires work > 0 && work as real <= budget && explored <= CandidateLimit(maximumCandidates, budget, work)
    ensures Times(explored + 1, work) <= budget.Floor
  {
    FloorFits(budget, work);
    var affordable := (budget / work as real).Floor;
    AffordsBaseline(budget, work);
    FewerCostLess(explored + 1, affordable, work);
  }

  lemma WorkIsPositive(extent: Extent, architecture: Architecture)
    requires |architecture.nodes| > 0
    ensures WorkUnits(extent, architecture) > 0
  {
  }

  datatype BudgetError = BaselineOverBudget(workUnits: nat)

  lemma BlueprintsKeep(extent: Extent, architecture: Architecture, options: Options, mutations: seq<Mutation>,
                       maximumChanges: nat, blueprints: seq<Blueprint>)
    requires ValidArchitecture(architecture) && FromCatalog(architecture, options, mutations)
    requires Growing(architecture, mutations, maximumChanges, blueprints)
    ensures AllKept(extent, architecture, options, blueprints)
  {
    forall k | 0 <= k < |blueprints|
      ensures Kept(extent, architecture, options, blueprints[k])
    {
      assert IsBlueprint(architecture, mutations, maximumChanges, blueprints[k]);
      SelectionKeeps(architecture, options, mutations, maximumChanges, blueprints[k].changes);
      SameWork(extent, architecture, options, blueprints[k].architecture);
    }
  }

  ghost predicate Kept(extent: Extent, architecture: Architecture, options: Options, b: Blueprint) {
    && KeepsBaseline(architecture, options, b.architecture) && b.architecture != architecture
    && WorkUnits(extent, b.architecture) == WorkUnits(extent, architecture)
  }

  ghost predicate AllKept(extent: Extent, architecture: Architecture, options: Options, blueprints: seq<Blueprint>) {
    forall k :: 0 <= k < |blueprints| ==> Kept(extent, architecture, options, blueprints[k])
  }

  datatype Exploration = Exploration(blueprints: seq<Blueprint>, truncated: bool)

  ghost predicate Searched(architecture: Architecture, mutations: seq<Mutation>, maximumChanges: nat, e: Exploration) {
    var all := Collected(architecture, Selections(mutations, maximumChanges));
    && Growing(architecture, mutations, maximumChanges, e.blueprints) && e.blueprints <= all
    && (!e.truncated ==> e.blueprints == all && Exhaustive(architecture, mutations, maximumChanges, e.blueprints))
  }

  /** Blueprints of the catalog: new and different, and every selection of the catalog covered unless truncated. */
  ghost predicate Explored(architecture: Architecture, options: Options, maximumChanges: nat, e: Exploration) {
    exists mutations :: IsCatalog(architecture, options, mutations)
                        && Searched(architecture, mutations, maximumChanges, e)
  }

  /** Within the limit and, together with the baseline, within the budget; truncated only at the limit. */
  ghost predicate Affordable(maximumCandidates: nat, budget: real, work: nat, e: Exploration) {
    && work > 0 && |e.blueprints| <= maximumCandidates && Times(|e.blueprints| + 1, work) <= budget.Floor
    && (e.truncated ==> |e.blueprints| == CandidateLimit(maximumCandidates, budget, work))
  }

  /** The candidates of the catalog, as many as the limit allows. */
  method ExploreCatalog(extent: Extent, architecture: Architecture, options: Options, maximumChanges: nat, limit: nat)
    returns (e: Exploration)
    requires ValidArchitecture(architecture) && (maximumChanges == 1 || maximumChanges == 2)
    ensures |e.blueprints| <= limit && (e.truncated ==> |e.blueprints| == limit)
    ensures AllKept(extent, architecture, options, e.blueprints) && Explored(architecture, options, maximumChanges, e)
  {
    var mutations := MutationCatalog(architecture, options);
    var blueprints, truncated := CandidateBlueprints(architecture, mutations, maximumChanges, limit);
    e := Exploration(blueprints, truncated);
    BlueprintsKeep(extent, architecture, options, mutations, maximumChanges, blueprints);
    assert Searched(architecture, mutations, maximumChanges, e);
  }

  /** The same with the limit that a positive amount of work per evaluation leaves. */
  method ExploreWithin(extent: Extent, architecture: Architecture, options: Options, maximumCandidates: nat,
                       maximumChanges: nat, budget: real, work: nat)
    returns (e: Exploration)
    requires ValidArchitecture(architecture) && (maximumChanges == 1 || maximumChanges == 2)
    requires work > 0 && work as real <= budget
    ensures Affordable(maximumCandidates, budget, work, e)
    ensures AllKept(extent, architecture, options, e.blueprints) && Explored(architecture, options, maximumChanges, e)
  {
    var limit := CandidateLimit(maximumCandidates, budget, work);
    e := ExploreCatalog(extent, architecture, options, maximumChanges, limit);
    LimitFitsBudget(maximumCandidates, budget, work, |e.blueprints|);
  }

  /** The candidates explored for a request: valid, not the baseline, and together with it within the budget. */
  method Explore(extent: Extent, architecture: Architecture, options: Options, maximumCandidates: nat,
                 maximumChanges: nat, budget: real)
    returns (r: Result<Exploration, BudgetError>)
    requires ValidArchitecture(architecture) && (maximumChanges == 1 || maximumChanges == 2) && budget >= 1.0
    ensures r.Err? <==> WorkUnits(extent, architecture) as real > budget
    ensures r.Ok? ==> Affordable(maximumCandidates, budget, WorkUnits(extent, architecture), r.value)
    ensures r.Ok? ==> AllKept(extent, architecture, options, r.value.blueprints)
    ensures r.Ok? ==> Explored(architecture, options, maximumChanges, r.value)
  {
    var work := WorkUnits(extent, architecture);
    WorkIsPositive(extent, architecture);
    if work as real > budget {
      return Err(BaselineOverBudget(work));
    }
    var e := ExploreWithin(extent, architecture, options, maximumCandidates, maximumChanges, budget, work);
    return Ok(e);
  }
}

/**
 When the Pareto flag of the solver means what it says: the flag compares candidates by
 id, so it is exact under all objectives if and only if candidates have ids of their own.
 After a complete search that is a condition on the changes the architecture offers.
 */
module SolverFlags {
  import opened Wrappers
  import opened Architecture
  import opened ArchitectureSchema
  import opened SolverMutations
  import opened SolverNames
  import opened SolverSearch
  import opened SolverCandidates
  import Ranking = SolverRanking

  /** Entry 0 is the evaluated baseline, the others are the evaluated candidates. */
  ghost predicate Evaluated(blueprints: seq<Blueprint>, entries: seq<Ranking.Entry>) {
    && |entries| == |blueprints| + 1 && entries[0].id == "baseline"
    && forall k :: 0 <= k < |blueprints| ==> entries[k + 1].id == blueprints[k].id
  }

  lemma SelectedAreOffered(architecture: Architecture, options: Options, mutations: seq<Mutation>, maximumChanges: nat,
                           selected: seq<Mutation>)
    requires IsCatalog(architecture, options, mutations) && Selectable(mutations, maximumChanges, selected)
    requires maximumChanges == 1 || maximumChanges == 2
    ensures AllOffered(architecture, options, selected) && 1 <= |selected| <= maximumChanges
  {
    if |selected| == 2 {
      var i, j :| 0 <= i < j < |mutations| && IsPair(mutations, i, j, selected);
      assert mutations[i] in mutations && mutations[j] in mutations;
    }
  }

  lemma BlueprintIdsDiffer(architecture: Architecture, options: Options, maximumChanges: nat, mutations: seq<Mutation>,
                           blueprints: seq<Blueprint>, i: nat, j: nat)
    requires ValidArchitecture(architecture) && ClearIds(architecture, options, maximumChanges)
             && (maximumChanges == 1 || maximumChanges == 2)
    requires IsCatalog(architecture, options, mutations) && Growing(architecture, mutations, maximumChanges, blueprints)
    requires i < j < |blueprints|
    ensures blueprints[i].id != blueprints[j].id
  {
    var x, y := blueprints[i], blueprints[j];
    assert IsBlueprint(architecture, mutations, maximumChanges, x)
        && IsBlueprint(architecture, mutations, maximumChanges, y);
    SelectedAreOffered(architecture, options, mutations, maximumChanges, x.changes);
    SelectedAreOffered(architecture, options, mutations, maximumChanges, y.changes);
    if x.id == y.id {
      IdTellsChanges(architecture, options, maximumChanges, x.changes, y.changes);
    }
  }

  lemma BlueprintIsNotBaseline(architecture: Architecture, options: Options, maximumChanges: nat,
                               mutations: seq<Mutation>, blueprints: seq<Blueprint>, k: nat)
    requires IsCatalog(architecture, options, mutations) && Growing(architecture, mutations, maximumChanges, blueprints)
    requires k < |blueprints| && (maximumChanges == 1 || maximumChanges == 2)
    ensures blueprints[k].id != "baseline"
  {
    assert IsBlueprint(architecture, mutations, maximumChanges, blueprints[k]);
    SelectedAreOffered(architecture, options, mutations, maximumChanges, blueprints[k].changes);
    NotTheBaseline(blueprints[k].changes);
  }

  /** Every candidate has an id of its own, and none has that of the baseline. */
  ghost predicate IdsApart(blueprints: seq<Blueprint>) {
    && (forall k :: 0 <= k < |blueprints| ==> blueprints[k].id != "baseline")
    && forall i, j :: 0 <= i < j < |blueprints| ==> blueprints[i].id != blueprints[j].id
  }

  lemma ExploredIdsApart(architecture: Architecture, options: Options, maximumChanges: nat, e: Exploration)
    requires ValidArchitecture(architecture) && ClearIds(architecture, options, maximumChanges)
             && (maximumChanges == 1 || maximumChanges == 2)
    requires Explored(architecture, options, maximumChanges, e)
    ensures IdsApart(e.blueprints)
  {
    var mutations :| IsCatalog(architecture, options, mutations)
        && Searched(architecture, mutations, maximumChanges, e);
    forall k | 0 <= k < |e.blueprints|
      ensures e.blueprints[k].id != "baseline"
    {
      BlueprintIsNotBaseline(architecture, options, maximumChanges, mutations, e.blueprints, k);
    }
    forall i, j | 0 <= i < j < |e.blueprints|
      ensures e.blueprints[i].id != e.blueprints[j].id
    {
      BlueprintIdsDiffer(architecture, options, maximumChanges, mutations, e.blueprints, i, j);
    }
  }

  lemma EntryIdsDiffer(blueprints: seq<Blueprint>, entries: seq<Ranking.Entry>)
    requires IdsApart(blueprints) && Evaluated(blueprints, entries)
    ensures Ranking.DistinctIds(entries)
  {
    forall i, j | 0 <= i < j < |entries|
      ensures entries[i].id != entries[j].id
    {
      assert entries[j - 1 + 1].id == blueprints[j - 1].id;
      assert i > 0 ==> entries[i - 1 + 1].id == blueprints[i - 1].id;
    }
  }

  /** With clear node ids an eligible candidate is flagged exactly when nothing eligible dominates it. */
  lemma FlagIsExact(architecture: Architecture, options: Options, maximumChanges: nat, e: Exploration,
                    entries: seq<Ranking.Entry>, k: nat)
    requires ValidArchitecture(architecture) && ClearIds(architecture, options, maximumChanges)
             && (maximumChanges == 1 || maximumChanges == 2)
    requires Explored(architecture, options, maximumChanges, e) && Evaluated(e.blueprints, entries)
    requires k < |entries| && entries[k].eligible
    ensures Ranking.ParetoOptimal(entries, k) <==> !Ranking.Dominated(entries, k)
  {
    ExploredIdsApart(architecture, options, maximumChanges, e);
    EntryIdsDiffer(e.blueprints, entries);
    Ranking.FlagMeansUndominated(entries, k);
  }

  lemma FlaggedIsAlone(blueprints: seq<Blueprint>, entries: seq<Ranking.Entry>, k: nat)
    requires IdsApart(blueprints) && Evaluated(blueprints, entries)
    requires k < |blueprints| && Ranking.ParetoOptimal(entries, k + 1)
    ensures !Ranking.Dominated(entries, k + 1)
    ensures forall j :: 0 <= j < |blueprints| && blueprints[j].id == blueprints[k].id ==> j == k
  {
    EntryIdsDiffer(blueprints, entries);
    Ranking.FlagMeansUndominated(entries, k + 1);
  }

  /** With clear node ids nothing dominates a flagged candidate, and no other candidate has its id. */
  lemma FlaggedStandsAlone(architecture: Architecture, options: Options, maximumChanges: nat, e: Exploration,
                           entries: seq<Ranking.Entry>, k: nat)
    requires ValidArchitecture(architecture) && ClearIds(architecture, options, maximumChanges)
    requires maximumChanges == 1 || maximumChanges == 2
    requires Explored(architecture, options, maximumChanges, e) && Evaluated(e.blueprints, entries)
    requires k < |e.blueprints| && Ranking.ParetoOptimal(entries, k + 1)
    ensures !Ranking.Dominated(entries, k + 1)
    ensures forall j :: 0 <= j < |e.blueprints| && e.blueprints[j].id == e.blueprints[k].id ==> j == k
  {
    ExploredIdsApart(architecture, options, maximumChanges, e);
    FlaggedIsAlone(e.blueprints, entries, k);
  }

  // ----------------------------------------------------------- exactly when

  /** Whatever the objectives turn out to be, the flag says which eligible entries are undominated. */
  ghost predicate FlagAlwaysExact(blueprints: seq<Blueprint>) {
    forall entries: seq<Ranking.Entry>, k: nat ::
      Evaluated(blueprints, entries) && Ranking.AllSummarized(entries) && k < |entries| && entries[k].eligible ==>
        (Ranking.ParetoOptimal(entries, k) <==> !Ranking.Dominated(entries, k))
  }

  /** Only candidates i and j are eligible, and i is faster. */
  function TwoEligible(blueprints: seq<Blueprint>, i: nat, j: nat): seq<Ranking.Entry> {
    var better, worse := Ranking.Objectives(1.0, 1.0, 1.0, 1.0, 1.0), Ranking.Objectives(1.0, 1.0, 2.0, 1.0, 1.0);
    seq(|blueprints| + 1, k requires 0 <= k <= |blueprints| =>
      Ranking.Entry(if k == 0 then "baseline" else blueprints[k - 1].id,
                    if k == i + 1 then better else worse, k == i + 1 || k == j + 1, 1))
  }

  lemma GridPoints()
    ensures 1.0 == Ranking.Point(1000000, 1000000) == Ranking.Point(10000, 10000) && 2.0 == Ranking.Point(20000, 10000)
  {
  }

  lemma SharedIdIsFlagged(blueprints: seq<Blueprint>, i: nat, j: nat)
    requires i < |blueprints| && j < |blueprints| && i != j && blueprints[i].id == blueprints[j].id
    ensures var entries := TwoEligible(blueprints, i, j);
            && Evaluated(blueprints, entries) && Ranking.AllSummarized(entries)
            && Ranking.ParetoOptimal(entries, j + 1) && Ranking.Dominated(entries, j + 1)
  {
    var entries := TwoEligible(blueprints, i, j);
    assert Ranking.Dominates(entries[i + 1].objectives, entries[j + 1].objectives);
    Ranking.NothingDominatesItself(entries[j + 1].objectives);
    GridPoints();
  }

  /** The flag is exact under all objectives exactly when every candidate has an id of its own. */
  lemma FlagAlwaysExactIff(architecture: Architecture, options: Options, maximumChanges: nat, e: Exploration)
    requires (maximumChanges == 1 || maximumChanges == 2) && Explored(architecture, options, maximumChanges, e)
    ensures FlagAlwaysExact(e.blueprints) <==> IdsApart(e.blueprints)
  {
    if IdsApart(e.blueprints) {
      forall entries: seq<Ranking.Entry>, k: nat
          | Evaluated(e.blueprints, entries) && Ranking.AllSummarized(entries) && k < |entries| && entries[k].eligible
        ensures Ranking.ParetoOptimal(entries, k) <==> !Ranking.Dominated(entries, k)
      {
        EntryIdsDiffer(e.blueprints, entries);
        Ranking.FlagMeansUndominated(entries, k);
      }
    } else {
      SomeIdIsShared(architecture, options, maximumChanges, e);
      var i, j :| 0 <= i < j < |e.blueprints| && e.blueprints[i].id == e.blueprints[j].id;
      SharedIdIsFlagged(e.blueprints, i, j);
      assert TwoEligible(e.blueprints, i, j)[j + 1].eligible;
    }
  }

  lemma SomeIdIsShared(architecture: Architecture, options: Options, maximumChanges: nat, e: Exploration)
    requires (maximumChanges == 1 || maximumChanges == 2) && Explored(architecture, options, maximumChanges, e)
             && !IdsApart(e.blueprints)
    ensures exists i, j :: 0 <= i < j < |e.blueprints| && e.blueprints[i].id == e.blueprints[j].id
  {
    var mutations :| IsCatalog(architecture, options, mutations)
        && Searched(architecture, mutations, maximumChanges, e);
    forall k | 0 <= k < |e.blueprints|
      ensures e.blueprints[k].id != "baseline"
    {
      BlueprintIsNotBaseline(architecture, options, maximumChanges, mutations, e.blueprints, k);
    }
  }

  /** Candidates of one strategy change nodes whose slugs differ. */
  ghost predicate SlugsApart(blueprints: seq<Blueprint>)
    requires forall k :: 0 <= k < |blueprints| ==> |blueprints[k].changes| == 1
  {
    forall i, j :: 0 <= i < j < |blueprints|
                   && StrategyOf(blueprints[i].changes[0]) == StrategyOf(blueprints[j].changes[0]) ==>
                     Slug(blueprints[i].changes[0].id) != Slug(blueprints[j].changes[0].id)
  }

  lemma SingleChanges(architecture: Architecture, options: Options, e: Exploration)
    requires Explored(architecture, options, 1, e)
    ensures forall k :: 0 <= k < |e.blueprints| ==>
                          && |e.blueprints[k].changes| == 1
                             && Offered(architecture, options, e.blueprints[k].changes[0])
                          && e.blueprints[k].id == Name(e.blueprints[k].changes[0])
  {
    var mutations :| IsCatalog(architecture, options, mutations) && Searched(architecture, mutations, 1, e);
    forall k | 0 <= k < |e.blueprints|
      ensures |e.blueprints[k].changes| == 1 && Offered(architecture, options, e.blueprints[k].changes[0])
      ensures e.blueprints[k].id == Name(e.blueprints[k].changes[0])
    {
      var b := e.blueprints[k];
      assert IsBlueprint(architecture, mutations, 1, b);
      SelectedAreOffered(architecture, options, mutations, 1, b.changes);
      Listed(b.changes);
      SingleId(b.changes[0]);
    }
  }

  /** With one change per candidate the ids are apart, and so the flag exact, exactly when the slugs are. */
  lemma SingleFlagsExactIff(architecture: Architecture, options: Options, e: Exploration)
    requires Explored(architecture, options, 1, e)
    ensures forall k :: 0 <= k < |e.blueprints| ==> |e.blueprints[k].changes| == 1
    ensures FlagAlwaysExact(e.blueprints) <==> SlugsApart(e.blueprints)
  {
    SingleChanges(architecture, options, e);
    FlagAlwaysExactIff(architecture, options, 1, e);
    if !IdsApart(e.blueprints) {
      SomeIdIsShared(architecture, options, 1, e);
    }
    forall i, j | 0 <= i < j < |e.blueprints|
      ensures e.blueprints[i].id == e.blueprints[j].id <==>
              && StrategyOf(e.blueprints[i].changes[0]) == StrategyOf(e.blueprints[j].changes[0])
              && Slug(e.blueprints[i].changes[0].id) == Slug(e.blueprints[j].changes[0].id)
    {
      NameIsStrategyAndSlug(architecture, options, e.blueprints[i].changes[0], e.blueprints[j].changes[0]);
    }
  }

  // ------------------------------------------- on the architecture alone

  /** The selections that a complete search keeps, as their positions among all selections, have ids of their own. */
  ghost predicate FirstsApart(architecture: Architecture, mutations: seq<Mutation>, maximumChanges: nat) {
    var selections := Selections(mutations, maximumChanges);
    forall i, j :: 0 <= i < j < |selections| && IsFirst(architecture, selections, i)
                   && IsFirst(architecture, selections, j) ==>
                     !SameId(selections[i], selections[j])
  }

  /** What the ids of two selections have in common, from strategies and slugs of node ids. */
  ghost predicate SameId(s: seq<Mutation>, t: seq<Mutation>) {
    if |s| == 1 && |t| == 1 then SameLabel(s[0], t[0])
    else if |s| == 1 && |t| == 2 then LabelOf(s[0]) == LabelOf(t[0]) + "__" + LabelOf(t[1])
    else if |s| == 2 && |t| == 1 then LabelOf(t[0]) == LabelOf(s[0]) + "__" + LabelOf(s[1])
    else if |s| == 2 && |t| == 2 then LabelOf(s[0]) + "__" + LabelOf(s[1]) == LabelOf(t[0]) + "__" + LabelOf(t[1])
    else false
  }

  function LabelOf(m: Mutation): string {
    StrategyName(StrategyOf(m)) + "-" + Slug(m.id) + Slug(Tail(WorkersOf(m)))
  }

  predicate SameLabel(a: Mutation, b: Mutation) {
    StrategyOf(a) == StrategyOf(b) && Slug(a.id) == Slug(b.id)
  }

  lemma SameIdIff(architecture: Architecture, options: Options, mutations: seq<Mutation>, maximumChanges: nat,
                  s: seq<Mutation>, t: seq<Mutation>)
    requires IsCatalog(architecture, options, mutations) && (maximumChanges == 1 || maximumChanges == 2)
    requires Selectable(mutations, maximumChanges, s) && Selectable(mutations, maximumChanges, t)
    ensures CandidateId(s) == CandidateId(t) <==> SameId(s, t)
  {
    SelectedAreOffered(architecture, options, mutations, maximumChanges, s);
    SelectedAreOffered(architecture, options, mutations, maximumChanges, t);
    IdFromLabels(s);
    IdFromLabels(t);
    if |s| == 1 && |t| == 1 {
      NameIsStrategyAndSlug(architecture, options, s[0], t[0]);
      NameParts(s[0]);
      NameParts(t[0]);
    }
  }

  lemma IdFromLabels(s: seq<Mutation>)
    requires |s| == 1 || |s| == 2
    ensures CandidateId(s) == if |s| == 1 then LabelOf(s[0]) else LabelOf(s[0]) + "__" + LabelOf(s[1])
  {
    Listed(s);
    NameParts(s[0]);
    if |s| == 1 {
      SingleId(s[0]);
    } else {
      PairId(s[0], s[1]);
      NameParts(s[1]);
    }
  }

  lemma SelectionIsSelectable(mutations: seq<Mutation>, maximumChanges: nat, i: nat)
    requires i < |Selections(mutations, maximumChanges)|
    ensures Selectable(mutations, maximumChanges, Selections(mutations, maximumChanges)[i])
  {
    SelectionsListed(mutations, maximumChanges, Selections(mutations, maximumChanges)[i]);
  }

  /** Firsts with one id are blueprints with one id. */
  lemma SharedFirstsShareId(architecture: Architecture, options: Options, mutations: seq<Mutation>, maximumChanges: nat,
                            i: nat, j: nat)
    requires IsCatalog(architecture, options, mutations) && (maximumChanges == 1 || maximumChanges == 2)
    requires i < j < |Selections(mutations, maximumChanges)|
    requires IsFirst(architecture, Selections(mutations, maximumChanges), i)
             && IsFirst(architecture, Selections(mutations, maximumChanges), j)
    requires SameId(Selections(mutations, maximumChanges)[i], Selections(mutations, maximumChanges)[j])
    ensures !IdsApart(Collected(architecture, Selections(mutations, maximumChanges)))
  {
    var selections := Selections(mutations, maximumChanges);
    SelectionIsSelectable(mutations, maximumChanges, i);
    SelectionIsSelectable(mutations, maximumChanges, j);
    SameIdIff(architecture, options, mutations, maximumChanges, selections[i], selections[j]);
    var k := FirstIsCollected(architecture, selections, i);
    var l := FirstIsCollected(architecture, selections, j);
    SharedIdIsNotApart(Collected(architecture, selections), k, l);
  }

  lemma SharedIdIsNotApart(blueprints: seq<Blueprint>, k: nat, l: nat)
    requires k < |blueprints| && l < |blueprints| && blueprints[k].id == blueprints[l].id
    requires blueprints[k].architecture != blueprints[l].architecture
    ensures !IdsApart(blueprints)
  {
  }

  /** And blueprints with one id come from such firsts. */
  lemma SharedIdFromFirsts(architecture: Architecture, options: Options, mutations: seq<Mutation>, maximumChanges: nat,
                           k: nat, l: nat)
    requires IsCatalog(architecture, options, mutations) && (maximumChanges == 1 || maximumChanges == 2)
    requires var all := Collected(architecture, Selections(mutations, maximumChanges));
             && k < |all| && l < |all| && all[k].id == all[l].id && all[k].architecture != all[l].architecture
    ensures !FirstsApart(architecture, mutations, maximumChanges)
  {
    var selections := Selections(mutations, maximumChanges);
    var i := CollectedIsFirst(architecture, selections, k);
    var j := CollectedIsFirst(architecture, selections, l);
    SelectionIsSelectable(mutations, maximumChanges, i);
    SelectionIsSelectable(mutations, maximumChanges, j);
    SameIdIff(architecture, options, mutations, maximumChanges, selections[i], selections[j]);
    SameIdIff(architecture, options, mutations, maximumChanges, selections[j], selections[i]);
    assert i != j;
  }

  lemma CollectedIdsApartIff(architecture: Architecture, options: Options, mutations: seq<Mutation>,
                             maximumChanges: nat)
    requires IsCatalog(architecture, options, mutations) && (maximumChanges == 1 || maximumChanges == 2)
    ensures IdsApart(Collected(architecture, Selections(mutations, maximumChanges)))
            <==> FirstsApart(architecture, mutations, maximumChanges)
  {
    var selections := Selections(mutations, maximumChanges);
    var all := Collected(architecture, selections);
    SearchCollects(architecture, mutations, maximumChanges, all);
    if !FirstsApart(architecture, mutations, maximumChanges) {
      var i, j :| 0 <= i < j < |selections| && IsFirst(architecture, selections, i)
          && IsFirst(architecture, selections, j)
                  && SameId(selections[i], selections[j]);
      SharedFirstsShareId(architecture, options, mutations, maximumChanges, i, j);
    }
    if !IdsApart(all) {
      var e := Exploration(all, false);
      assert Searched(architecture, mutations, maximumChanges, e);
      SomeIdIsShared(architecture, options, maximumChanges, e);
      var k, l :| 0 <= k < l < |all| && all[k].id == all[l].id;
      SharedIdFromFirsts(architecture, options, mutations, maximumChanges, k, l);
    }
  }

  /** After a complete search the flag is always exact if and only if the selections it keeps have ids of their own. */
  lemma CompleteSearchExactIff(architecture: Architecture, options: Options, maximumChanges: nat, e: Exploration,
                               mutations: seq<Mutation>)
    requires UniqueNodeIds(architecture) && IsCatalog(architecture, options, mutations)
    requires (maximumChanges == 1 || maximumChanges == 2) && Explored(architecture, options, maximumChanges, e)
             && !e.truncated
    ensures FlagAlwaysExact(e.blueprints) <==> FirstsApart(architecture, mutations, maximumChanges)
  {
    var searched :| IsCatalog(architecture, options, searched) && Searched(architecture, searched, maximumChanges, e);
    CatalogIsUnique(architecture, options, mutations, searched);
    FlagAlwaysExactIff(architecture, options, maximumChanges, e);
    CollectedIdsApartIff(architecture, options, mutations, maximumChanges);
  }

  // ------------------------------------------------------------ a wrong flag

  const TWINS := Architecture([PlainNode("b.1", Api), PlainNode("b-1", Api)], [])
  const HARDEN_ONLY := Options({ResilienceControls}, {}, None)
  const TWIN_CATALOG: seq<Mutation> := [Harden("b.1"), Harden("b-1")]

  lemma TwinsAreValid()
    ensures ValidArchitecture(TWINS) && TWINS.nodes[0].id != TWINS.nodes[1].id
  {
    assert TWINS.nodes[0].id[1] != TWINS.nodes[1].id[1];
  }

  lemma TwinCatalog()
    ensures IsCatalog(TWINS, HARDEN_ONLY, TWIN_CATALOG)
  {
    var nodes, workers := TWINS.nodes, Workers(TWINS, HARDEN_ONLY);
    assert Offer(ResilienceControls, nodes[0], workers) == Some(TWIN_CATALOG[0]);
    assert Offer(ResilienceControls, nodes[1], workers) == Some(TWIN_CATALOG[1]);
    assert OrderedNodes(nodes, None) == nodes;
    assert NodeBefore(nodes, nodes[0].id, nodes[1].id);
    forall m
      ensures m in TWIN_CATALOG <==> Offered(TWINS, HARDEN_ONLY, m)
    {
      if m in TWIN_CATALOG {
        assert m == TWIN_CATALOG[0] || m == TWIN_CATALOG[1];
      }
    }
  }

  /** Hardening twin i changes that node and not the other. */
  lemma TwinHardened(i: nat)
    requires i < 2
    ensures var next := Candidate(TWINS, [TWIN_CATALOG[i]]);
            && |next.nodes| == 2 && next.nodes[1 - i] == TWINS.nodes[1 - i] && next.nodes[i] != TWINS.nodes[i]
  {
    var m := TWIN_CATALOG[i];
    TwinsAreValid();
    TwinCatalog();
    assert m in TWIN_CATALOG;
    OfferedIsApplicable(TWINS, HARDEN_ONLY, m);
    ApplyIsMap(TWINS.nodes, m);
    assert [m][..0] == [] && ApplyAll(TWINS.nodes, []) == Ok(TWINS.nodes);
    assert Candidate(TWINS, [m]).nodes == Apply(TWINS.nodes, m).value;
    assert ChangeOf(m, TWINS.nodes[i]).config.behavior.resilience.Some?;
  }

  function TwinBlueprint(i: nat): Blueprint
    requires i < 2
  {
    var selected := [TWIN_CATALOG[i]];
    Blueprint(CandidateId(selected), Candidate(TWINS, selected), selected)
  }

  lemma TwinsGrow()
    ensures Growing(TWINS, TWIN_CATALOG, 1, [TwinBlueprint(0), TwinBlueprint(1)])
  {
    TwinHardened(0);
    TwinHardened(1);
    assert TWIN_CATALOG[0] in TWIN_CATALOG && TWIN_CATALOG[1] in TWIN_CATALOG;
  }

  lemma TwinsCover()
    ensures Exhaustive(TWINS, TWIN_CATALOG, 1, [TwinBlueprint(0), TwinBlueprint(1)])
  {
    var blueprints := [TwinBlueprint(0), TwinBlueprint(1)];
    forall selected | Selectable(TWIN_CATALOG, 1, selected)
      ensures Covered(TWINS, blueprints, selected)
    {
      assert selected == [TWIN_CATALOG[0]] || selected == [TWIN_CATALOG[1]];
      assert blueprints[0].architecture == Candidate(TWINS, [TWIN_CATALOG[0]]);
      assert blueprints[1].architecture == Candidate(TWINS, [TWIN_CATALOG[1]]);
    }
  }

  /** The baseline is as good as the second twin; the first is faster. */
  function TwinEntries(id: string): seq<Ranking.Entry> {
    var better, worse := Ranking.Objectives(1.0, 1.0, 1.0, 1.0, 1.0), Ranking.Objectives(1.0, 1.0, 2.0, 1.0, 1.0);
    [Ranking.Entry("baseline", worse, true, 1), Ranking.Entry(id, better, true, 1), Ranking.Entry(id, worse, true, 1)]
  }

  lemma TwinFlag(id: string)
    ensures var entries := TwinEntries(id);
            Ranking.AllSummarized(entries) && Ranking.ParetoOptimal(entries, 2) && Ranking.Dominated(entries, 2)
  {
    var entries := TwinEntries(id);
    assert Ranking.Dominates(entries[1].objectives, entries[2].objectives);
    Ranking.NothingDominatesItself(entries[2].objectives);
    GridPoints();
  }

  lemma TwinSelections()
    ensures Selections(TWIN_CATALOG, 1) == [[TWIN_CATALOG[0]], [TWIN_CATALOG[1]]]
  {
    assert Singles(TWIN_CATALOG, 0) == [] && Singles(TWIN_CATALOG, 1) == [[TWIN_CATALOG[0]]];
    assert Singles(TWIN_CATALOG, 2) == [[TWIN_CATALOG[0]], [TWIN_CATALOG[1]]];
  }

  lemma TwinsCollected()
    ensures Collected(TWINS, [[TWIN_CATALOG[0]], [TWIN_CATALOG[1]]]) == [TwinBlueprint(0), TwinBlueprint(1)]
  {
    var x, y := [TWIN_CATALOG[0]], [TWIN_CATALOG[1]];
    TwinHardened(0);
    TwinHardened(1);
    CollectedOneMore(TWINS, [], x);
    CollectedOneMore(TWINS, [x], y);
    assert [] + [x] == [x] && [x] + [y] == [x, y];
    assert Collected(TWINS, [x]) == [TwinBlueprint(0)];
    assert TwinBlueprint(0).architecture != TwinBlueprint(1).architecture;
  }

  lemma TwinsExplored()
    ensures Explored(TWINS, HARDEN_ONLY, 1, Exploration([TwinBlueprint(0), TwinBlueprint(1)], false))
  {
    TwinCatalog();
    TwinsGrow();
    TwinsCover();
    TwinSelections();
    TwinsCollected();
    assert Searched(TWINS, TWIN_CATALOG, 1, Exploration([TwinBlueprint(0), TwinBlueprint(1)], false));
  }

  lemma TwinsShareId()
    ensures TwinBlueprint(0).id == TwinBlueprint(1).id
  {
    CandidateIdsCollide();
  }

  /** A search whose evaluated candidate k is flagged although it is dominated. */
  ghost predicate FlagsDominated(architecture: Architecture, options: Options, maximumChanges: nat, e: Exploration,
                                 entries: seq<Ranking.Entry>, k: nat) {
    && ValidArchitecture(architecture) && Explored(architecture, options, maximumChanges, e)
       && Evaluated(e.blueprints, entries)
    && k < |entries| && Ranking.AllSummarized(entries) && Ranking.ParetoOptimal(entries, k)
       && Ranking.Dominated(entries, k)
  }

  lemma TwinsAreEvaluated()
    ensures Evaluated([TwinBlueprint(0), TwinBlueprint(1)], TwinEntries(TwinBlueprint(0).id))
  {
    TwinsShareId();
  }

  /**
   Two candidates of one valid architecture share an id; when one dominates the other, the
   dominated one is flagged too.
   */
  lemma SharedIdHidesDominance()
    ensures exists architecture, options, e, entries, k :: FlagsDominated(architecture, options, 1, e, entries, k)
  {
    var e, entries := Exploration([TwinBlueprint(0), TwinBlueprint(1)], false), TwinEntries(TwinBlueprint(0).id);
    TwinsAreValid();
    TwinsExplored();
    TwinsAreEvaluated();
    TwinFlag(TwinBlueprint(0).id);
    assert FlagsDominated(TWINS, HARDEN_ONLY, 1, e, entries, 2);
  }
}

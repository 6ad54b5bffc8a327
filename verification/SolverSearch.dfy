/**
 The bounded search of the design solver: the catalog of changes, the candidates built
 from one change or from two of different strategies, and the work budget.
 */
module SolverSearch {
  import opened Collections
  import opened Wrappers
  import opened Architecture
  import opened ArchitectureSchema
  import opened SolverMutations

  datatype Options = Options(allowed: set<Strategy>, locked: set<string>, bottleneck: Option<string>)

  datatype Blueprint = Blueprint(id: string, architecture: Architecture, changes: seq<Mutation>)

  const STRATEGIES: seq<Strategy> :=
    [HorizontalScale, ElasticScale, ResilienceControls, DurableReplication, StoragePartitioning, CacheEfficiency,
     ConsumerParallelism]

  // ---------------------------------------------------------------- catalog

  /** The bottleneck first, the others in their order. */
  function OrderedNodes(nodes: seq<Node>, bottleneck: Option<string>): (ordered: seq<Node>)
    ensures multiset(ordered) == multiset(nodes)
    ensures forall node :: node in ordered <==> node in nodes
  {
    if bottleneck.None? then nodes
    else
      match Find(nodes, bottleneck.value)
      case None => nodes
      case Some(k) =>
        assert nodes == nodes[..k] + [nodes[k]] + nodes[k + 1..];
        [nodes[k]] + nodes[..k] + nodes[k + 1..]
  }

  predicate Unlocked(options: Options, m: Mutation) {
    forall id :: id in NodeIdsOf(m) ==> id !in options.locked
  }

  function Workers(architecture: Architecture, options: Options): seq<string> {
    WorkerIds(OrderedNodes(architecture.nodes, options.bottleneck))
  }

  /** A change the solver may make: an allowed strategy offers it for a node, and it touches no locked node. */
  ghost predicate Offered(architecture: Architecture, options: Options, m: Mutation) {
    && Unlocked(options, m)
    && exists strategy, i :: strategy in options.allowed && 0 <= i < |architecture.nodes|
                             && Offer(strategy, architecture.nodes[i], Workers(architecture, options)) == Some(m)
  }

  function StrategyRank(strategy: Strategy): (rank: nat)
    ensures rank < |STRATEGIES| && STRATEGIES[rank] == strategy
  {
    match strategy
    case HorizontalScale => 0
    case ElasticScale => 1
    case ResilienceControls => 2
    case DurableReplication => 3
    case StoragePartitioning => 4
    case CacheEfficiency => 5
    case ConsumerParallelism => 6
  }

  /** The catalog goes by strategy, and within a strategy by node: the bottleneck first. */
  ghost predicate Precedes(nodes: seq<Node>, a: Mutation, b: Mutation) {
    var x, y := StrategyRank(StrategyOf(a)), StrategyRank(StrategyOf(b));
    x < y || (x == y && NodeBefore(nodes, a.id, b.id))
  }

  ghost predicate NodeBefore(nodes: seq<Node>, a: string, b: string) {
    exists i, j :: 0 <= i < j < |nodes| && nodes[i].id == a && nodes[j].id == b
  }

  ghost predicate InCatalogOrder(nodes: seq<Node>, mutations: seq<Mutation>) {
    forall i, j :: 0 <= i < j < |mutations| ==> Precedes(nodes, mutations[i], mutations[j])
  }

  /** All changes that may be made and no others, in the order in which the search takes them up. */
  ghost predicate IsCatalog(architecture: Architecture, options: Options, mutations: seq<Mutation>) {
    && (forall m :: m in mutations <==> Offered(architecture, options, m))
    && InCatalogOrder(OrderedNodes(architecture.nodes, options.bottleneck), mutations)
  }

  /** With unique node ids the catalog is fixed: no change comes twice, and no two may change places. */
  lemma CatalogOrderIsStrict(nodes: seq<Node>, a: Mutation, b: Mutation)
    requires DistinctIds(nodes) && Precedes(nodes, a, b)
    ensures a != b && !Precedes(nodes, b, a)
  {
    if NodeBefore(nodes, a.id, b.id) {
      var i, j :| 0 <= i < j < |nodes| && nodes[i].id == a.id && nodes[j].id == b.id;
    }
  }

  /** Two lists of the same changes in catalog order are one list. */
  lemma {:induction false} SameOrderSameList(nodes: seq<Node>, a: seq<Mutation>, b: seq<Mutation>)
    requires DistinctIds(nodes) && InCatalogOrder(nodes, a) && InCatalogOrder(nodes, b)
    requires forall m :: m in a <==> m in b
    ensures a == b
  {
    if a == [] {
      assert forall k :: 0 <= k < |b| ==> b[k] in b;
    } else {
      assert a[0] in b && b != [] && b[0] in a;
      SameFirst(nodes, a, b);
      forall m
        ensures m in a[1..] <==> m in b[1..]
      {
        RestWithoutFirst(nodes, a, m);
        RestWithoutFirst(nodes, b, m);
      }
      SameOrderSameList(nodes, a[1..], b[1..]);
    }
  }

  lemma SameFirst(nodes: seq<Node>, a: seq<Mutation>, b: seq<Mutation>)
    requires DistinctIds(nodes) && InCatalogOrder(nodes, a) && InCatalogOrder(nodes, b)
    requires a != [] && b != [] && a[0] in b && b[0] in a
    ensures a[0] == b[0]
  {
    var j :| 0 <= j < |b| && b[j] == a[0];
    var i :| 0 <= i < |a| && a[i] == b[0];
    if i > 0 && j > 0 {
      CatalogOrderIsStrict(nodes, a[0], a[i]);
    }
  }

  lemma RestWithoutFirst(nodes: seq<Node>, a: seq<Mutation>, m: Mutation)
    requires DistinctIds(nodes) && InCatalogOrder(nodes, a) && a != []
    ensures m in a[1..] <==> m in a && m != a[0]
  {
    if m in a[1..] {
      var k :| 0 <= k < |a| - 1 && a[1..][k] == m;
      CatalogOrderIsStrict(nodes, a[0], a[k + 1]);
    }
  }

  /** An architecture has one catalog. */
  lemma CatalogIsUnique(architecture: Architecture, options: Options, a: seq<Mutation>, b: seq<Mutation>)
    requires UniqueNodeIds(architecture) && IsCatalog(architecture, options, a) && IsCatalog(architecture, options, b)
    ensures a == b
  {
    OrderedDistinct(architecture.nodes, options.bottleneck);
    SameOrderSameList(OrderedNodes(architecture.nodes, options.bottleneck), a, b);
  }

  /** The bottleneck comes first, and the others stay in their order. */
  lemma BottleneckFirst(nodes: seq<Node>, bottleneck: string, i: nat, j: nat)
    requires i < |nodes| && j < |nodes| && i != j && DistinctIds(nodes)
    requires nodes[i].id == bottleneck || (i < j && nodes[j].id != bottleneck)
    ensures NodeBefore(OrderedNodes(nodes, Some(bottleneck)), nodes[i].id, nodes[j].id)
  {
    var ordered := OrderedNodes(nodes, Some(bottleneck));
    match Find(nodes, bottleneck)
    case None => assert ordered[i].id == nodes[i].id && ordered[j].id == nodes[j].id;
    case Some(k) =>
      var p := if i == k then 0 else if i < k then i + 1 else i;
      var q := if j < k then j + 1 else j;
      assert p < q && ordered[p] == nodes[i] && ordered[q] == nodes[j];
  }

  method MutationCatalog(architecture: Architecture, options: Options) returns (mutations: seq<Mutation>)
    ensures IsCatalog(architecture, options, mutations)
  {
    var nodes := OrderedNodes(architecture.nodes, options.bottleneck);
    var workers := WorkerIds(nodes);
    mutations := [];
    for s := 0 to |STRATEGIES|
      invariant forall m :: m in mutations <==> FromStrategies(options, nodes, workers, s, |nodes|, m)
      invariant OfFirst(mutations, s) && InCatalogOrder(nodes, mutations)
    {
      if STRATEGIES[s] in options.allowed {
        mutations := AddOffers(options, s, nodes, workers, mutations);
      }
    }
    forall m
      ensures m in mutations <==> Offered(architecture, options, m)
    {
      CatalogIsOffered(architecture, options, m);
    }
  }

  /** Changes of the first s strategies only. */
  ghost predicate OfFirst(mutations: seq<Mutation>, s: nat) {
    forall k :: 0 <= k < |mutations| ==> StrategyRank(StrategyOf(mutations[k])) < s
  }

  /** Offered by one of the first s strategies. */
  ghost predicate FromStrategies(options: Options, nodes: seq<Node>, workers: seq<string>, s: nat, n: nat, m: Mutation)
    requires s <= |STRATEGIES| && n <= |nodes|
  {
    exists t :: 0 <= t < s && STRATEGIES[t] in options.allowed
        && FromNodes(options, STRATEGIES[t], nodes, workers, n, m)
  }

  ghost predicate FromNodes(options: Options, strategy: Strategy, nodes: seq<Node>, workers: seq<string>, n: nat,
                            m: Mutation)
    requires n <= |nodes|
  {
    Unlocked(options, m) && exists i :: 0 <= i < n && Offer(strategy, nodes[i], workers) == Some(m)
  }

  /** The changes of one strategy are made for nodes at increasing positions. */
  ghost predicate AtPositions(nodes: seq<Node>, strategy: Strategy, n: nat, offers: seq<Mutation>,
                              positions: seq<nat>) {
    && |positions| == |offers| && (forall i, j :: 0 <= i < j < |positions| ==> positions[i] < positions[j])
    && forall k :: 0 <= k < |offers| ==>
         positions[k] < n <= |nodes| && offers[k].id == nodes[positions[k]].id && StrategyOf(offers[k]) == strategy
  }

  lemma OffersFollow(nodes: seq<Node>, s: nat, before: seq<Mutation>, offers: seq<Mutation>, positions: seq<nat>)
    requires s < |STRATEGIES| && OfFirst(before, s) && InCatalogOrder(nodes, before)
    requires AtPositions(nodes, STRATEGIES[s], |nodes|, offers, positions)
    ensures OfFirst(before + offers, s + 1) && InCatalogOrder(nodes, before + offers)
  {
    RankOfListed(s);
    var all := before + offers;
    forall i, j | 0 <= i < j < |all|
      ensures Precedes(nodes, all[i], all[j])
    {
      if i >= |before| {
        var x, y := i - |before|, j - |before|;
        assert all[i] == offers[x] && all[j] == offers[y] && positions[x] < positions[y];
        assert NodeBefore(nodes, all[i].id, all[j].id);
      } else if j >= |before| {
        assert all[j] == offers[j - |before|];
      }
    }
  }

  lemma RankOfListed(s: nat)
    requires s < |STRATEGIES|
    ensures StrategyRank(STRATEGIES[s]) == s
  {
  }

  method AddOffers(options: Options, s: nat, nodes: seq<Node>, workers: seq<string>, before: seq<Mutation>)
    returns (mutations: seq<Mutation>)
    requires s < |STRATEGIES| && OfFirst(before, s) && InCatalogOrder(nodes, before)
    ensures forall m :: m in mutations <==> m in before || FromNodes(options, STRATEGIES[s], nodes, workers, |nodes|, m)
    ensures OfFirst(mutations, s + 1) && InCatalogOrder(nodes, mutations)
  {
    var offers := [];
    ghost var positions: seq<nat> := [];
    for i := 0 to |nodes|
      invariant forall m :: m in offers <==> FromNodes(options, STRATEGIES[s], nodes, workers, i, m)
      invariant AtPositions(nodes, STRATEGIES[s], i, offers, positions)
    {
      var offer := Offer(STRATEGIES[s], nodes[i], workers);
      if offer.Some? && Unlocked(options, offer.value) {
        OfferNames(STRATEGIES[s], nodes[i], workers);
        offers := offers + [offer.value];
        positions := positions + [i];
      }
    }
    OffersFollow(nodes, s, before, offers, positions);
    return before + offers;
  }

  lemma CatalogIsOffered(architecture: Architecture, options: Options, m: Mutation)
    ensures var nodes := OrderedNodes(architecture.nodes, options.bottleneck);
            FromStrategies(options, nodes, WorkerIds(nodes), |STRATEGIES|, |nodes|, m)
            <==> Offered(architecture, options, m)
  {
    var nodes := OrderedNodes(architecture.nodes, options.bottleneck);
    if FromStrategies(options, nodes, WorkerIds(nodes), |STRATEGIES|, |nodes|, m) {
      ListedIsOffered(architecture, options, m);
    }
    if Offered(architecture, options, m) {
      OfferedIsListed(architecture, options, m);
    }
  }

  lemma ListedIsOffered(architecture: Architecture, options: Options, m: Mutation)
    requires var nodes := OrderedNodes(architecture.nodes, options.bottleneck);
             FromStrategies(options, nodes, WorkerIds(nodes), |STRATEGIES|, |nodes|, m)
    ensures Offered(architecture, options, m)
  {
    var nodes, workers := OrderedNodes(architecture.nodes, options.bottleneck), Workers(architecture, options);
    var t :| 0 <= t < |STRATEGIES| && STRATEGIES[t] in options.allowed
        && FromNodes(options, STRATEGIES[t], nodes, workers, |nodes|, m);
    var i :| 0 <= i < |nodes| && Offer(STRATEGIES[t], nodes[i], workers) == Some(m);
    assert nodes[i] in nodes;
    var k :| 0 <= k < |architecture.nodes| && architecture.nodes[k] == nodes[i];
    assert Offer(STRATEGIES[t], architecture.nodes[k], workers) == Some(m);
  }

  lemma OfferedIsListed(architecture: Architecture, options: Options, m: Mutation)
    requires Offered(architecture, options, m)
    ensures var nodes := OrderedNodes(architecture.nodes, options.bottleneck);
            FromStrategies(options, nodes, WorkerIds(nodes), |STRATEGIES|, |nodes|, m)
  {
    var nodes, workers := OrderedNodes(architecture.nodes, options.bottleneck), Workers(architecture, options);
    var strategy, k :| strategy in options.allowed && 0 <= k < |architecture.nodes|
        && Offer(strategy, architecture.nodes[k], workers) == Some(m);
    assert architecture.nodes[k] in nodes;
    var i :| 0 <= i < |nodes| && nodes[i] == architecture.nodes[k];
    var t := StrategyRank(strategy);
    assert FromNodes(options, STRATEGIES[t], nodes, workers, |nodes|, m);
  }

  // ------------------------------------------------- what candidates keep

  /** Node by node valid, with ids and kinds as they were and locked nodes untouched. */
  ghost predicate KeepsBaseline(architecture: Architecture, options: Options, candidate: Architecture) {
    && ValidArchitecture(candidate) && candidate.edges == architecture.edges
    && SameIds(architecture.nodes, candidate.nodes)
    && forall i :: 0 <= i < |architecture.nodes| && architecture.nodes[i].id in options.locked ==>
         candidate.nodes[i] == architecture.nodes[i]
  }

  lemma {:induction false} WorkersDistinct(nodes: seq<Node>)
    requires DistinctIds(nodes)
    ensures NoDuplicates(WorkerIds(nodes))
  {
    if nodes != [] {
      var before := nodes[..|nodes| - 1];
      WorkersDistinct(before);
      var ids := WorkerIds(before);
      forall k | 0 <= k < |ids|
        ensures ids[k] != nodes[|nodes| - 1].id
      {
        assert ids[k] in ids;
        var i :| 0 <= i < |before| && before[i].id == ids[k];
        assert nodes[i] == before[i];
      }
    }
  }

  lemma OrderedDistinct(nodes: seq<Node>, bottleneck: Option<string>)
    requires DistinctIds(nodes)
    ensures DistinctIds(OrderedNodes(nodes, bottleneck))
  {
    var ordered := OrderedNodes(nodes, bottleneck);
    if bottleneck.Some? && Find(nodes, bottleneck.value).Some? {
      var k := Find(nodes, bottleneck.value).value;
      forall i | 0 <= i < |ordered|
        ensures ordered[i] == nodes[if i == 0 then k else if i <= k then i - 1 else i]
      {
      }
    }
  }

  lemma OfferNames(strategy: Strategy, node: Node, workers: seq<string>)
    ensures Offer(strategy, node, workers).Some? ==>
              var m := Offer(strategy, node, workers).value;
              m.id == node.id && StrategyOf(m) == strategy
                  && (m.Consume? ==> m.workers == workers && !node.kind.Worker?)
  {
  }

  lemma WorkerIsNode(architecture: Architecture, options: Options, id: string)
    requires id in Workers(architecture, options)
    ensures exists i :: 0 <= i < |architecture.nodes| && architecture.nodes[i].id == id
                        && architecture.nodes[i].kind.Worker?
  {
    var ordered := OrderedNodes(architecture.nodes, options.bottleneck);
    var o :| 0 <= o < |ordered| && ordered[o].id == id && ordered[o].kind.Worker?;
    assert ordered[o] in architecture.nodes;
    var i :| 0 <= i < |architecture.nodes| && architecture.nodes[i] == ordered[o];
  }

  lemma NamesDistinct(architecture: Architecture, options: Options, m: Mutation, i: nat)
    requires ValidArchitecture(architecture) && i < |architecture.nodes| && m.id == architecture.nodes[i].id
    requires m.Consume? ==> m.workers == Workers(architecture, options) && !architecture.nodes[i].kind.Worker?
    ensures NoDuplicates(NodeIdsOf(m))
  {
    OrderedDistinct(architecture.nodes, options.bottleneck);
    WorkersDistinct(OrderedNodes(architecture.nodes, options.bottleneck));
    if m.Consume? {
      forall k | 0 <= k < |m.workers|
        ensures m.workers[k] != m.id
      {
        WorkerIsNode(architecture, options, m.workers[k]);
      }
    }
  }

  lemma NamesPresent(architecture: Architecture, options: Options, m: Mutation, i: nat)
    requires i < |architecture.nodes| && m.id == architecture.nodes[i].id
    requires m.Consume? ==> m.workers == Workers(architecture, options)
    ensures AllPresent(architecture.nodes, NodeIdsOf(m))
  {
    assert Present(architecture.nodes, m.id);
    if m.Consume? {
      forall k | 0 <= k < |m.workers|
        ensures Present(architecture.nodes, m.workers[k])
      {
        WorkerIsNode(architecture, options, m.workers[k]);
      }
    }
  }

  lemma OfferedIsApplicable(architecture: Architecture, options: Options, m: Mutation)
    requires ValidArchitecture(architecture) && Offered(architecture, options, m)
    ensures Applicable(architecture.nodes, m)
  {
    var nodes, workers := architecture.nodes, Workers(architecture, options);
    var strategy, i :| strategy in options.allowed && 0 <= i < |nodes| && Offer(strategy, nodes[i], workers) == Some(m);
    OfferNames(strategy, nodes[i], workers);
    NamesPresent(architecture, options, m, i);
    NamesDistinct(architecture, options, m, i);
  }

  /** What a change made from the baseline does to one node, on top of at most one other change. */
  lemma ChangeOfKeeps(architecture: Architecture, options: Options, m: Mutation, i: nat, now: Node)
    requires ValidArchitecture(architecture) && Offered(architecture, options, m) && i < |architecture.nodes|
    requires StillSound(architecture.nodes[i], now)
    ensures ValidNode(ChangeOf(m, now)) && ChangeOf(m, now).id == now.id && ChangeOf(m, now).kind == now.kind
    ensures now == architecture.nodes[i] ==> StillSound(architecture.nodes[i], ChangeOf(m, now))
    ensures architecture.nodes[i].id in options.locked ==> ChangeOf(m, now) == now
  {
    var nodes, workers := architecture.nodes, Workers(architecture, options);
    var was := nodes[i];
    var strategy, k :| strategy in options.allowed && 0 <= k < |nodes| && Offer(strategy, nodes[k], workers) == Some(m);
    OfferNames(strategy, nodes[k], workers);
    assert m.id == NodeIdsOf(m)[0];
    if now.id == m.id {
      assert k == i;
      ChangeKeepsValid(was, now, strategy, workers);
      OneChangeIsSound(was, strategy, workers);
    } else if m.Consume? && now.id in m.workers {
      assert now.id in NodeIdsOf(m);
      GrownBounds(was.config.instances);
      WorkerGrownKeepsValid(now);
    }
  }

  lemma {:induction false} SameIdsSameIndex(nodes: seq<Node>, next: seq<Node>, id: string)
    requires SameIds(nodes, next)
    ensures IndexOf(next, id) == IndexOf(nodes, id)
  {
    if nodes != [] {
      SameIdsSameIndex(nodes[..|nodes| - 1], next[..|next| - 1], id);
    }
  }

  lemma StaysValid(architecture: Architecture, next: seq<Node>)
    requires ValidArchitecture(architecture) && SameIds(architecture.nodes, next)
    requires forall i :: 0 <= i < |next| ==> ValidNode(next[i])
    ensures ValidArchitecture(architecture.(nodes := next))
  {
    forall e | 0 <= e < |architecture.edges|
      ensures IndexOf(next, architecture.edges[e].source).Some? && IndexOf(next, architecture.edges[e].target).Some?
    {
      SameIdsSameIndex(architecture.nodes, next, architecture.edges[e].source);
      SameIdsSameIndex(architecture.nodes, next, architecture.edges[e].target);
    }
  }

  /** A single change from the catalog applies, and keeps the architecture valid and locked nodes as they are. */
  lemma SingleChangeKeeps(architecture: Architecture, options: Options, m: Mutation)
    requires ValidArchitecture(architecture) && Offered(architecture, options, m)
    ensures Apply(architecture.nodes, m).Ok?
    ensures KeepsBaseline(architecture, options, architecture.(nodes := Apply(architecture.nodes, m).value))
    ensures forall i :: 0 <= i < |architecture.nodes| ==>
              StillSound(architecture.nodes[i], Apply(architecture.nodes, m).value[i])
  {
    var nodes := architecture.nodes;
    OfferedIsApplicable(architecture, options, m);
    ApplyIsMap(nodes, m);
    var next := Apply(nodes, m).value;
    forall i | 0 <= i < |nodes|
      ensures StillSound(nodes[i], next[i]) && (nodes[i].id in options.locked ==> next[i] == nodes[i])
    {
      GrownBounds(nodes[i].config.instances);
      ChangeOfKeeps(architecture, options, m, i, nodes[i]);
    }
    StaysValid(architecture, next);
  }

  lemma ApplicableStays(nodes: seq<Node>, next: seq<Node>, m: Mutation)
    requires SameIds(nodes, next) && Applicable(nodes, m)
    ensures Applicable(next, m)
  {
    var ids := NodeIdsOf(m);
    forall k | 0 <= k < |ids|
      ensures Present(next, ids[k])
    {
      assert Present(nodes, ids[k]);
      var i :| 0 <= i < |nodes| && nodes[i].id == ids[k];
      assert next[i].id == ids[k];
    }
  }

  /** So do two changes of the catalog, one after the other, in either order. */
  lemma PairOfChangesKeeps(architecture: Architecture, options: Options, first: Mutation, second: Mutation)
    requires ValidArchitecture(architecture) && Offered(architecture, options, first)
             && Offered(architecture, options, second)
    ensures Apply(architecture.nodes, first).Ok? && Apply(Apply(architecture.nodes, first).value, second).Ok?
    ensures KeepsBaseline(architecture, options,
                          architecture.(nodes := Apply(Apply(architecture.nodes, first).value, second).value))
  {
    var nodes := architecture.nodes;
    SingleChangeKeeps(architecture, options, first);
    var middle := Apply(nodes, first).value;
    OfferedIsApplicable(architecture, options, second);
    ApplicableStays(nodes, middle, second);
    ApplyIsMap(middle, second);
    var next := Apply(middle, second).value;
    forall i | 0 <= i < |nodes|
      ensures ValidNode(next[i]) && next[i].id == nodes[i].id && next[i].kind == nodes[i].kind
      ensures nodes[i].id in options.locked ==> next[i] == nodes[i]
    {
      ChangeOfKeeps(architecture, options, second, i, middle[i]);
    }
    StaysValid(architecture, next);
  }

  /** Candidates cost what the baseline costs. */
  lemma SameWork(extent: Extent, architecture: Architecture, options: Options, candidate: Architecture)
    requires KeepsBaseline(architecture, options, candidate)
    ensures WorkUnits(extent, candidate) == WorkUnits(extent, architecture)
  {
    if HasCache(candidate.nodes) {
      var i :| 0 <= i < |candidate.nodes| && candidate.nodes[i].kind.Cache?;
      assert architecture.nodes[i].kind.Cache?;
    }
    if HasCache(architecture.nodes) {
      var i :| 0 <= i < |architecture.nodes| && architecture.nodes[i].kind.Cache?;
      assert candidate.nodes[i].kind.Cache?;
    }
  }
}

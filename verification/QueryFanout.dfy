/**
 Why the admission bound needs its condition. A class that asks a database several times
 per request makes the edge to it pass on more than it is given: on the smallest such
 architecture the engine exceeds what the analysis admits.
 */
module QueryFanout {
  import opened Numbers
  import opened Wrappers
  import opened Architecture
  import opened Collections
  import opened Graph
  import opened Paths
  import opened TopologyBounds
  import opened ExecutionPlan
  import opened EdgeTransfer
  import opened TrafficFlow
  import opened TrafficLaws
  import opened AdmissionBound

  // ---------------------------------------------------- one edge of the engine

  /** One entry and one lossless edge that carries everything. */
  ghost predicate OneEdge(t: Topology, plan: ClassPlan, r: Retries, now: Second) {
    && ValidTopology(t) && Fits(t, plan) && FitsRetries(t, r) && FitsSecond(t, now)
    && |t.nodes| == 2 && t.ends == [Ends(0, 1)] && t.outgoing == [[0], []] && (t.order == [0, 1] || t.order == [1, 0])
    && plan.entries == [Entry(0, 1.0)] && plan.terminal == None
    && plan.models[0].trafficShare == 1.0 && plan.models[0].survivalRate == 1.0
    && r.total == [0.0] && now.forwarding == [1.0, 1.0] && Portion(now.requestedRps, plan.share) > 0.0
  }

  lemma PortionOfAll(amount: real)
    ensures Portion(amount, 1.0) == amount
  {
  }

  lemma GrowsBeyond(amount: real, factor: real)
    requires amount > 0.0 && factor > 1.0
    ensures Portion(amount, factor) > amount
  {
  }

  lemma OneEdgeRoute(t: Topology)
    requires ValidTopology(t) && t.outgoing == [[0], []] && (t.order == [0, 1] || t.order == [1, 0])
    ensures Route(t) == [0]
  {
    if t.order == [0, 1] {
      assert RouteOver(t, 0) == [] && RouteOver(t, 1) == [0] && RouteOver(t, 2) == [0];
    } else {
      assert RouteOver(t, 0) == [] && RouteOver(t, 1) == [] && RouteOver(t, 2) == [0];
    }
  }

  lemma OneEdgeTransfer(t: Topology, plan: ClassPlan, r: Retries, now: Second, start: ClassFlow, demand: real)
    requires OneEdge(t, plan, r, now) && FitsFlow(t, start) && start.forward[0] == demand
    ensures TransferAt(t, plan, r, now, start, 0).onward.flow
            == Portion(demand, ForwardedFactor(plan.models[0], HitRate(t, plan, now.hitRates, 0)))
  {
    var forwarded := Portion(demand, ForwardedFactor(plan.models[0], HitRate(t, plan, now.hitRates, 0)));
    PortionOfAll(demand);
    PortionOfAll(forwarded);
    assert Attempted(plan.models[0], demand, r.total[0]) == demand;
  }

  /** Beyond a factor of one the second node forwards more than the demand of the class. */
  lemma EdgeExceedsDemand(t: Topology, plan: ClassPlan, r: Retries, now: Second)
    requires OneEdge(t, plan, r, now) && ForwardedFactor(plan.models[0], HitRate(t, plan, now.hitRates, 0)) > 1.0
    ensures FlowOf(t, plan, r, now).forward[1] > Portion(now.requestedRps, plan.share)
  {
    var demand := Portion(now.requestedRps, plan.share);
    PortionOfAll(demand);
    OneEdgeRoute(t);
    var start := Entered(t, plan, now, 1);
    EnterForward(t, plan, now, StillFlow(t), plan.entries[0], 0);
    EnterForward(t, plan, now, StillFlow(t), plan.entries[0], 1);
    assert Entered(t, plan, now, 0) == StillFlow(t);
    assert start.forward[0] == demand && start.forward[1] == 0.0;
    assert FlowAlong(t, plan, r, now, []) == start;
    assert [0][..0] == [];
    assert FlowOf(t, plan, r, now) == Visit(t, plan, r, now, start, 0);
    assert Passes(t, plan, start, 0);
    var x := TransferAt(t, plan, r, now, start, 0);
    ReceiveForward(t, start, plan.models[0], 0, x, r.total[0], 1);
    OneEdgeTransfer(t, plan, r, now, start, demand);
    GrowsBeyond(demand, ForwardedFactor(plan.models[0], HitRate(t, plan, now.hitRates, 0)));
  }

  // ------------------------------------------------- users and their database

  const ONE_CALL := Architecture([PlainNode("users", Users), PlainNode("database", Database)],
                                 [Edge("call", "users", "database", None, None, false)])

  lemma OneCallGraph()
    ensures ValidGraph(ONE_CALL)
    ensures IndexOf(ONE_CALL.nodes, "users") == Some(0) && IndexOf(ONE_CALL.nodes, "database") == Some(1)
    ensures IndexArcs(ONE_CALL) == [Arc(0, 1, 1.0)]
    ensures SourceSet(ONE_CALL) == {0}
  {
    var nodes := ONE_CALL.nodes;
    assert |nodes[0].id| != |nodes[1].id|;
    IndexOfUnique(nodes, 0);
    IndexOfUnique(nodes, 1);
    assert IndexArcs(ONE_CALL)[0] == IndexArc(nodes, ONE_CALL.edges[0]);
    var explicit := IndexesWhere(|nodes|, (i: nat) => i < |nodes| && IsEntry(nodes[i]));
    assert 0 in explicit && 1 !in explicit;
    assert explicit != [];
    forall v
      ensures v in SourceSet(ONE_CALL) <==> v == 0
    {
    }
  }

  /** A path with an edge ends at the database and starts at the users. */
  lemma OneCallPath(from: nat, path: seq<nat>, to: nat)
    requires IsPath([Arc(0, 1, 1.0)], from, path, to) && path != []
    ensures from == 0 && to == 1
  {
    var before := path[..|path| - 1];
    if before != [] {
      assert false;
    }
  }

  lemma OneCallReach()
    ensures var arcs, sources := IndexArcs(ONE_CALL), SourceSet(ONE_CALL);
            Acyclic(arcs, sources) && Reachable(arcs, sources, 0) && Reachable(arcs, sources, 1)
  {
    OneCallGraph();
    var arcs, sources := IndexArcs(ONE_CALL), SourceSet(ONE_CALL);
    SourceReachable(arcs, sources, 0);
    assert EnabledAt(arcs, 0);
    ArcExtendsReach(arcs, sources, 0);
    forall c, cycle | cycle != [] && IsPath(arcs, c, cycle, c)
      ensures false
    {
      OneCallPath(c, cycle, c);
    }
  }

  /** Every analysis gives the database an amplification of one. */
  lemma OneCallAmplification(order: seq<nat>, amplification: seq<real>)
    requires IsAnalysis(ONE_CALL, order, amplification)
    ensures |amplification| == 2 && amplification[1] == 1.0
  {
    OneCallGraph();
    OneCallReach();
    var arcs, sources, done := IndexArcs(ONE_CALL), SourceSet(ONE_CALL), Members(order);
    assert 0 in order;
    assert InFlow(arcs, ByShare(arcs), 0, done, amplification, 0) == 0.0
        && InFlow(arcs, ByShare(arcs), 0, done, amplification, 1) == 0.0;
    assert Balanced(arcs, ByShare(arcs), sources, done, amplification, 0);
    assert amplification[0] == 1.0;
    assert Balanced(arcs, ByShare(arcs), sources, done, amplification, 1);
  }

  /** Every plan visits both nodes. */
  lemma OneCallPlanned(planned: Plan)
    requires IsPlanFor(ONE_CALL, planned)
    ensures forall i :: 0 <= i < |planned.executionOrder| ==> IndexOf(ONE_CALL.nodes, planned.executionOrder[i]).Some?
    ensures var t := IndexedTopology(ONE_CALL, planned.executionOrder);
            ValidTopology(t) && (t.order == [0, 1] || t.order == [1, 0])
  {
    OneCallGraph();
    OneCallReach();
    IndexedTopologyIsValid(ONE_CALL, planned);
    var t := IndexedTopology(ONE_CALL, planned.executionOrder);
    forall v | v == 0 || v == 1
      ensures v in t.order
    {
      ReachAgrees(ONE_CALL, v);
      var id := ONE_CALL.nodes[v].id;
      assert id in Members(planned.reached);
      assert id in planned.executionOrder;
      var i :| 0 <= i < |planned.executionOrder| && planned.executionOrder[i] == id;
      assert t.order[i] == v;
    }
    TwoListed(t.order);
  }

  lemma TwoListed(order: seq<nat>)
    requires NoDuplicates(order) && AllBelow(order, 2) && 0 in order && 1 in order
    ensures order == [0, 1] || order == [1, 0]
  {
    DistinctBounded(order, Below(2));
  }

  lemma OneCallTopology(order: seq<string>)
    requires forall i :: 0 <= i < |order| ==> IndexOf(ONE_CALL.nodes, order[i]).Some?
    ensures EdgesResolve(ONE_CALL)
    ensures var t := IndexedTopology(ONE_CALL, order);
            t.nodes == ONE_CALL.nodes && t.ends == [Ends(0, 1)] && t.outgoing == [[0], []]
  {
    OneCallGraph();
    var t, arcs := IndexedTopology(ONE_CALL, order), ArcsById(ONE_CALL.edges);
    assert t.ends[0] == Ends(0, 1);
    assert arcs[..0] == [] && AllOut(arcs[..0], "users") == [] && AllOut(arcs[..0], "database") == [];
    assert |"users"| != |"database"|;
    assert AllOut(arcs, "users") == [0] && AllOut(arcs, "database") == [];
    assert t.outgoing[0] == [0] && t.outgoing[1] == [];
  }

  /** The class enters at the users and follows the edge models of its profile. */
  ghost function CallPlan(t: Topology, p: Profile, share: real): ClassPlan
    requires t.nodes == ONE_CALL.nodes && t.ends == [Ends(0, 1)]
  {
    ClassPlan(share, [Entry(0, 1.0)], None, ClassModels(ONE_CALL, t, p, [0.0, 0.0], [true], false))
  }

  ghost function Steady(requestedRps: real): Second {
    Second(requestedRps, [1.0, 1.0], [0.0, 0.0])
  }

  /** All that the bound asks for holds, except that edges pass on at most what they are given. */
  ghost predicate MeetsTheRest(t: Topology, plan: ClassPlan, r: Retries, now: Second) {
    && ValidTopology(t) && ValidClass(t, plan) && ValidSecond(t, now) && FitsRetries(t, r)
    && (forall e :: 0 <= e < |r.total| ==> r.total[e] == 0.0)
    && DefaultEntries(ONE_CALL, plan) && AuthoredShares(ONE_CALL, plan)
  }

  lemma CallPlanMeetsTheRest(t: Topology, p: Profile, share: real, requestedRps: real)
    requires ValidTopology(t) && t.nodes == ONE_CALL.nodes && t.ends == [Ends(0, 1)] && ValidProfile(p) && share >= 0.0
             && requestedRps >= 0.0
    ensures MeetsTheRest(t, CallPlan(t, p, share), NoRetries(t), Steady(requestedRps))
  {
    OneCallGraph();
    ModelIsValid(t.nodes[0], t.nodes[1], ONE_CALL.edges[0], p, 0.0, true, false);
  }

  lemma CallIsOneEdge(t: Topology, p: Profile, share: real, requestedRps: real)
    requires ValidTopology(t) && t.nodes == ONE_CALL.nodes && t.ends == [Ends(0, 1)] && t.outgoing == [[0], []]
    requires t.order == [0, 1] || t.order == [1, 0]
    requires ValidProfile(p) && p.databaseQueries > 1.0 && Portion(requestedRps, share) > 0.0
    ensures var plan, now := CallPlan(t, p, share), Steady(requestedRps);
            OneEdge(t, plan, NoRetries(t), now) && HitRate(t, plan, now.hitRates, 0) == 0.0
                && ForwardedFactor(plan.models[0], 0.0) > 1.0
  {
    OnlyQueriesMultiply(t.nodes[0], t.nodes[1], ONE_CALL.edges[0], p, 0.0, true, false, 0.0);
    assert NoRetries(t).total == [0.0];
    CallHasNoHits(t, CallPlan(t, p, share));
  }

  lemma CallHasNoHits(t: Topology, plan: ClassPlan)
    requires ValidTopology(t) && |t.nodes| == 2 && t.ends == [Ends(0, 1)] && t.outgoing == [[0], []]
             && |plan.models| == 1
    requires !plan.models[0].cacheTarget
    ensures HitRate(t, plan, [0.0, 0.0], 0) == 0.0
  {
    assert [0][..0] == [];
    assert CoveredShare(t, plan, []) == 0.0 && CoveredShare(t, plan, [0]) == 0.0;
  }

  /**
   Users who ask their database several times per request: every plan has the engine forward
   more at the database than the demand times the amplification every analysis computes.
   */
  lemma MultiplyingEdgeBreaksTheBound(p: Profile, share: real, requestedRps: real, order: seq<nat>,
                                      amplification: seq<real>, planned: Plan)
    requires ValidProfile(p) && p.databaseQueries > 1.0 && Portion(requestedRps, share) > 0.0 && share >= 0.0
             && requestedRps >= 0.0
    requires IsAnalysis(ONE_CALL, order, amplification) && IsPlanFor(ONE_CALL, planned)
    ensures ValidGraph(ONE_CALL) && Acyclic(IndexArcs(ONE_CALL), SourceSet(ONE_CALL)) && |amplification| == 2
    ensures forall i :: 0 <= i < |planned.executionOrder| ==> IndexOf(ONE_CALL.nodes, planned.executionOrder[i]).Some?
    ensures IndexedTopology(ONE_CALL, planned.executionOrder).ends == [Ends(0, 1)]
    ensures BoundFails(IndexedTopology(ONE_CALL, planned.executionOrder), p, share, requestedRps, amplification[1])
  {
    OneCallGraph();
    OneCallReach();
    OneCallAmplification(order, amplification);
    OneCallPlanned(planned);
    OneCallTopology(planned.executionOrder);
    CallBreaksTheBound(IndexedTopology(ONE_CALL, planned.executionOrder), p, share, requestedRps, amplification[1]);
  }

  /** The bound of this amplification does not hold, though all else it asks for does. */
  ghost predicate BoundFails(t: Topology, p: Profile, share: real, requestedRps: real, amplification: real)
    requires t.nodes == ONE_CALL.nodes && t.ends == [Ends(0, 1)]
  {
    var plan, now := CallPlan(t, p, share), Steady(requestedRps);
    && MeetsTheRest(t, plan, NoRetries(t), now)
    && FlowOf(t, plan, NoRetries(t), now).forward[1] > Portion(Portion(requestedRps, share), amplification)
  }

  lemma CallBreaksTheBound(t: Topology, p: Profile, share: real, requestedRps: real, amplification: real)
    requires ValidTopology(t) && t.nodes == ONE_CALL.nodes && t.ends == [Ends(0, 1)] && t.outgoing == [[0], []]
    requires (t.order == [0, 1] || t.order == [1, 0]) && amplification == 1.0
    requires ValidProfile(p) && p.databaseQueries > 1.0 && Portion(requestedRps, share) > 0.0 && share >= 0.0
             && requestedRps >= 0.0
    ensures BoundFails(t, p, share, requestedRps, amplification)
  {
    CallPlanMeetsTheRest(t, p, share, requestedRps);
    CallIsOneEdge(t, p, share, requestedRps);
    EdgeExceedsDemand(t, CallPlan(t, p, share), NoRetries(t), Steady(requestedRps));
    PortionOfAll(Portion(requestedRps, share));
  }

  // -------------------------------------------------- when the bound holds

  lemma OneCallReachOnly(v: nat)
    requires Reachable(IndexArcs(ONE_CALL), SourceSet(ONE_CALL), v)
    ensures v == 0 || v == 1
  {
    OneCallGraph();
    var path :| PathFrom(IndexArcs(ONE_CALL), SourceSet(ONE_CALL), path, v);
    var s :| s in SourceSet(ONE_CALL) && IsPath(IndexArcs(ONE_CALL), s, path, v);
    if path != [] {
      OneCallPath(s, path, v);
    }
  }

  lemma OneCallFlows()
    ensures FlowsTo(IndexArcs(ONE_CALL), SourceSet(ONE_CALL), Members([0, 1]), [1.0, 1.0])
  {
    OneCallGraph();
    var arcs, a := IndexArcs(ONE_CALL), [1.0, 1.0];
    var carry, done: set<nat> := ByShare(arcs), Members([0, 1]);
    assert 0 in [0, 1] && 0 in done;
    assert InFlow(arcs, carry, 0, done, a, 0) == 0.0 && InFlow(arcs, carry, 0, done, a, 1) == 0.0;
    assert carry(1.0, 0) == 1.0;
    assert Sent(arcs, carry, 0, done, a, 0) == 0.0 && Sent(arcs, carry, 0, done, a, 1) == 1.0;
  }

  lemma OneCallScheduled(v: nat)
    ensures var arcs, sources := IndexArcs(ONE_CALL), SourceSet(ONE_CALL);
            && (v in [0, 1] <==> Reachable(arcs, sources, v))
            && (Reachable(arcs, sources, v) ==> !DownstreamOfCycle(arcs, sources, v))
  {
    OneCallReach();
    if Reachable(IndexArcs(ONE_CALL), SourceSet(ONE_CALL), v) {
      OneCallReachOnly(v);
    }
  }

  lemma OneCallReachable(nodes: set<nat>)
    requires nodes == {0, 1}
    ensures IsReachableSet(IndexArcs(ONE_CALL), SourceSet(ONE_CALL), nodes)
  {
    forall v
      ensures v in nodes <==> Reachable(IndexArcs(ONE_CALL), SourceSet(ONE_CALL), v)
    {
      OneCallScheduled(v);
      assert v in nodes <==> v in [0, 1];
    }
  }

  lemma OneCallAnalysis()
    ensures IsAnalysis(ONE_CALL, [0, 1], [1.0, 1.0])
  {
    var order: seq<nat>, nodes: set<nat> := [0, 1], {0, 1};
    OneCallFlows();
    forall v
      ensures v in order <==> Reachable(IndexArcs(ONE_CALL), SourceSet(ONE_CALL), v)
                              && !DownstreamOfCycle(IndexArcs(ONE_CALL), SourceSet(ONE_CALL), v)
    {
      OneCallScheduled(v);
    }
    OneCallReachable(nodes);
    OneCallOrder(nodes);
  }

  lemma OneCallOrder(nodes: set<nat>)
    requires nodes == {0, 1}
    ensures TopologicalOrder(IndexArcs(ONE_CALL), nodes, [0, 1])
  {
    OneCallGraph();
    assert [0, 1][..1] == [0];
  }

  const ONE_CALL_PLAN :=
    Plan(["users"], ["users", "database"], ["users", "database"], map[], [0.0, 0.0], [[0], []])

  lemma OneCallEntries()
    ensures IdsAt(ONE_CALL.nodes, SourceIndexes(ONE_CALL)) == ["users"]
  {
    OneCallGraph();
    var indexes := SourceIndexes(ONE_CALL);
    assert 0 in SourceSet(ONE_CALL);
    assert 0 in indexes && forall i :: i in indexes ==> i in SourceSet(ONE_CALL);
    DistinctBounded(indexes, {0});
    assert indexes == [0];
  }

  lemma OneCallReachById(id: string)
    ensures Reachable(ArcsById(ONE_CALL.edges), EntryIds(ONE_CALL), id) <==> id == "users" || id == "database"
  {
    OneCallGraph();
    OneCallReach();
    ReachAgrees(ONE_CALL, 0);
    ReachAgrees(ONE_CALL, 1);
    assert ONE_CALL.nodes[0].id == "users" && ONE_CALL.nodes[1].id == "database";
    if Reachable(ArcsById(ONE_CALL.edges), EntryIds(ONE_CALL), id) {
      ReachedIsNode(ONE_CALL, id);
    }
  }

  lemma OneCallReachedIds()
    ensures var reached := ONE_CALL_PLAN.reached;
            && NoDuplicates(reached)
            && forall id :: id in reached <==> Reachable(ArcsById(ONE_CALL.edges), EntryIds(ONE_CALL), id)
  {
    var reached := ONE_CALL_PLAN.reached;
    assert |reached[0]| != |reached[1]|;
    forall id
      ensures id in reached <==> Reachable(ArcsById(ONE_CALL.edges), EntryIds(ONE_CALL), id)
    {
      OneCallReachById(id);
      assert id in reached <==> id == "users" || id == "database";
    }
  }

  lemma OneCallByIndex(i: nat)
    requires i < 2
    ensures ONE_CALL_PLAN.outgoingByIndex[i] == AllOut(ArcsById(ONE_CALL.edges), ONE_CALL.nodes[i].id)
    ensures (forall k :: 0 <= k < |ONE_CALL_PLAN.outgoingByIndex[i]| ==>
             ONE_CALL_PLAN.outgoingByIndex[i][k] < |ONE_CALL.edges|)
            && ONE_CALL_PLAN.cacheCoverage[i]
               == Clamp(CacheShares(ONE_CALL, ONE_CALL_PLAN.outgoingByIndex[i]), 0.0, 1.0)
  {
    OneCallCoverage();
  }

  lemma OneCallPlan()
    ensures IsPlanFor(ONE_CALL, ONE_CALL_PLAN)
  {
    OneCallEntries();
    OneCallReachedIds();
    forall i | 0 <= i < 2
      ensures ONE_CALL_PLAN.outgoingByIndex[i] == AllOut(ArcsById(ONE_CALL.edges), ONE_CALL.nodes[i].id)
      ensures (forall k :: 0 <= k < |ONE_CALL_PLAN.outgoingByIndex[i]| ==>
               ONE_CALL_PLAN.outgoingByIndex[i][k] < |ONE_CALL.edges|)
              && ONE_CALL_PLAN.cacheCoverage[i]
                 == Clamp(CacheShares(ONE_CALL, ONE_CALL_PLAN.outgoingByIndex[i]), 0.0, 1.0)
    {
      OneCallByIndex(i);
    }
  }

  lemma OneCallCoverage()
    ensures var arcs := ArcsById(ONE_CALL.edges);
            && AllOut(arcs, "users") == [0] && AllOut(arcs, "database") == []
            && CacheShares(ONE_CALL, [0]) == 0.0 && CacheShares(ONE_CALL, []) == 0.0
  {
    OneCallGraph();
    OneCallTopology([]);
    var t := IndexedTopology(ONE_CALL, []);
    assert t.outgoing[0] == AllOut(ArcsById(ONE_CALL.edges), "users");
    assert t.outgoing[1] == AllOut(ArcsById(ONE_CALL.edges), "database");
    assert [0][..0] == [];
    assert ExecutionPlan.CacheShare(ONE_CALL, ONE_CALL.edges[0]) == 0.0;
  }

  /** A class without an authored route in one second of an analysed and planned architecture. */
  datatype Case = Case(
    architecture: Architecture, order: seq<nat>, amplification: seq<real>, planned: Plan,
    coverage: seq<real>, enabled: seq<bool>, plan: ClassPlan, retries: Retries, now: Second)

  ghost predicate Planned(c: Case) {
    && ValidGraph(c.architecture) && Acyclic(IndexArcs(c.architecture), SourceSet(c.architecture))
    && IsAnalysis(c.architecture, c.order, c.amplification) && IsPlanFor(c.architecture, c.planned)
    && forall i :: 0 <= i < |c.planned.executionOrder| ==>
         IndexOf(c.architecture.nodes, c.planned.executionOrder[i]).Some?
  }

  ghost function TopologyOf(c: Case): Topology
    requires Planned(c)
  {
    IndexedTopology(c.architecture, c.planned.executionOrder)
  }

  /** Values within the ranges of the schema, the models of the profile, default entries, and no retries pending. */
  ghost predicate InRanges(c: Case, p: Profile)
    requires Planned(c)
  {
    var t := TopologyOf(c);
    && ValidTopology(t) && |c.coverage| == |t.nodes| && |c.enabled| == |t.ends|
    && (forall e :: 0 <= e < |t.ends| ==> ValidRates(c.architecture.edges[e]))
    && (forall v :: 0 <= v < |t.nodes| ==> UnitInterval(c.coverage[v]) && MaxRetries(t.nodes[v]) >= 0)
    && Fits(t, c.plan) && c.plan.models == ClassModels(c.architecture, t, p, c.coverage, c.enabled, false)
    && c.plan.share >= 0.0 && DefaultEntries(c.architecture, c.plan)
    && ValidSecond(t, c.now) && FitsRetries(t, c.retries)
    && forall e :: 0 <= e < |c.retries.total| ==> c.retries.total[e] == 0.0
  }

  ghost predicate Admitted(c: Case, p: Profile) {
    Planned(c) && InRanges(c, p)
  }

  ghost predicate Bounded(c: Case, p: Profile)
    requires Admitted(c, p)
  {
    |c.amplification| == |c.architecture.nodes|
    && var flow := FlowOf(TopologyOf(c), c.plan, c.retries, c.now);
       forall v :: 0 <= v < |c.architecture.nodes| ==>
                     flow.forward[v] <= Portion(Portion(c.now.requestedRps, c.plan.share), c.amplification[v])
  }

  /** In every architecture, under every plan, in every second without retries, the amplification bounds the class. */
  ghost predicate AlwaysBounded(p: Profile) {
    forall c :: Admitted(c, p) ==> Bounded(c, p)
  }

  lemma SingleQueryIsBounded(c: Case, p: Profile)
    requires ValidProfile(p) && p.databaseQueries <= 1.0 && Admitted(c, p)
    ensures Bounded(c, p)
  {
    var t := TopologyOf(c);
    SingleQueryModelsFit(c.architecture, t, p, c.coverage, c.enabled, c.plan, c.now);
    forall v | 0 <= v < |c.architecture.nodes|
      ensures FlowOf(t, c.plan, c.retries, c.now).forward[v]
              <= Portion(Portion(c.now.requestedRps, c.plan.share), c.amplification[v])
    {
      AmplificationBoundsForward(c.architecture, c.order, c.amplification, c.planned, c.plan, c.retries, c.now, v);
    }
  }

  ghost function OneCallCase(t: Topology, p: Profile): Case
    requires t.nodes == ONE_CALL.nodes && t.ends == [Ends(0, 1)]
  {
    Case(ONE_CALL, [0, 1], [1.0, 1.0], ONE_CALL_PLAN, [0.0, 0.0], [true], CallPlan(t, p, 1.0), NoRetries(t),
         Steady(1.0))
  }

  lemma OneCallIsPlanned()
    ensures ValidGraph(ONE_CALL) && Acyclic(IndexArcs(ONE_CALL), SourceSet(ONE_CALL))
    ensures IsAnalysis(ONE_CALL, [0, 1], [1.0, 1.0]) && IsPlanFor(ONE_CALL, ONE_CALL_PLAN)
    ensures var order := ONE_CALL_PLAN.executionOrder;
            && (forall i :: 0 <= i < |order| ==> IndexOf(ONE_CALL.nodes, order[i]).Some?)
            && var t := IndexedTopology(ONE_CALL, order);
               ValidTopology(t) && t.nodes == ONE_CALL.nodes && t.ends == [Ends(0, 1)]
  {
    OneCallGraph();
    OneCallReach();
    OneCallAnalysis();
    OneCallPlan();
    OneCallPlanned(ONE_CALL_PLAN);
    OneCallTopology(ONE_CALL_PLAN.executionOrder);
  }

  lemma OneCallInRanges(t: Topology)
    requires ValidTopology(t) && t.nodes == ONE_CALL.nodes && t.ends == [Ends(0, 1)]
    ensures forall e :: 0 <= e < |t.ends| ==> ValidRates(ONE_CALL.edges[e])
    ensures forall v :: 0 <= v < |t.nodes| ==> UnitInterval([0.0, 0.0][v]) && MaxRetries(t.nodes[v]) >= 0
  {
  }

  lemma OneCallIsAdmitted(t: Topology, p: Profile)
    requires ValidProfile(p) && ValidTopology(t) && t.nodes == ONE_CALL.nodes && t.ends == [Ends(0, 1)]
    requires Planned(OneCallCase(t, p)) && TopologyOf(OneCallCase(t, p)) == t
    ensures Admitted(OneCallCase(t, p), p)
  {
    OneCallInRanges(t);
    CallPlanMeetsTheRest(t, p, 1.0, 1.0);
    MeetsTheRestIsInRanges(OneCallCase(t, p), p, t);
  }

  lemma MeetsTheRestIsInRanges(c: Case, p: Profile, t: Topology)
    requires Planned(c) && TopologyOf(c) == t && c.architecture == ONE_CALL
    requires MeetsTheRest(t, c.plan, c.retries, c.now) && |c.coverage| == |t.nodes| && |c.enabled| == |t.ends|
    requires forall e :: 0 <= e < |t.ends| ==> ValidRates(ONE_CALL.edges[e])
    requires forall v :: 0 <= v < |t.nodes| ==> UnitInterval(c.coverage[v]) && MaxRetries(t.nodes[v]) >= 0
    requires c.plan.models == ClassModels(ONE_CALL, t, p, c.coverage, c.enabled, false)
    ensures InRanges(c, p)
  {
  }

  lemma SeveralQueriesAreUnbounded(p: Profile)
    requires ValidProfile(p) && p.databaseQueries > 1.0
    ensures exists c :: Admitted(c, p) && !Bounded(c, p)
  {
    OneCallIsPlanned();
    var t := IndexedTopology(ONE_CALL, ONE_CALL_PLAN.executionOrder);
    var c := OneCallCase(t, p);
    OneCallIsAdmitted(t, p);
    PortionOfAll(1.0);
    MultiplyingEdgeBreaksTheBound(p, 1.0, 1.0, [0, 1], [1.0, 1.0], ONE_CALL_PLAN);
    assert BoundFails(t, p, 1.0, 1.0, 1.0);
    assert !Bounded(c, p);
  }

  /** The bound holds for every case of a class exactly when the class asks a database at most once per request. */
  lemma AlwaysBoundedIff(p: Profile)
    requires ValidProfile(p)
    ensures AlwaysBounded(p) <==> p.databaseQueries <= 1.0
  {
    if p.databaseQueries <= 1.0 {
      forall c | Admitted(c, p)
        ensures Bounded(c, p)
      {
        SingleQueryIsBounded(c, p);
      }
    } else {
      SeveralQueriesAreUnbounded(p);
    }
  }
}

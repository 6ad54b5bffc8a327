/**
 When the engine forwards less than the sum over all paths. Within the schema, for every
 class that can be built, it forwards exactly the path sums if and only if no edge brings
 flow to a node that was already visited and sends on. Such a node is always an entry:
 the order of the plan leaves edges into entries aside.
 */
module LateFlow {
  import opened Numbers
  import opened Wrappers
  import opened Architecture
  import opened Collections
  import opened Graph
  import opened Paths
  import opened TopologyBounds
  import opened ExecutionPlan
  import opened EdgeTransfer
  import opened TrafficFlow
  import opened TrafficLaws
  import opened AdmissionBound
  import opened FlowPaths

  // --------------------------------------------- classes of an architecture

  predicate LetsThrough(edge: Edge) {
    Share(edge) > 0.0 && LossRate(edge) < 1.0
  }

  ghost function Usable(architecture: Architecture): set<nat> {
    set e | e in Below(|architecture.edges|) && LetsThrough(architecture.edges[e])
  }

  /** A request class: its profile, the cache coverage of the nodes, and the edges of its route, if it has one. */
  datatype Class = Class(profile: Profile, coverage: seq<real>, enabled: seq<bool>, fixedRoute: bool, plan: ClassPlan)

  ghost predicate ValidFields(architecture: Architecture) {
    && (forall e :: 0 <= e < |architecture.edges| ==> ValidRates(architecture.edges[e]))
    && forall v :: 0 <= v < |architecture.nodes| ==> MaxRetries(architecture.nodes[v]) >= 0
  }

  /** An architecture within the schema, with a plan for it. */
  ghost predicate Prepared(architecture: Architecture, planned: Plan) {
    && ValidGraph(architecture) && ValidFields(architecture)
    && Acyclic(IndexArcs(architecture), SourceSet(architecture)) && IsPlanFor(architecture, planned)
    && forall i :: 0 <= i < |planned.executionOrder| ==> IndexOf(architecture.nodes, planned.executionOrder[i]).Some?
  }

  ghost function TopologyOf(architecture: Architecture, planned: Plan): (t: Topology)
    requires Prepared(architecture, planned)
    ensures ValidTopology(t)
    ensures t.nodes == architecture.nodes && |t.ends| == |architecture.edges|
  {
    IndexedTopologyIsValid(architecture, planned);
    IndexedTopology(architecture, planned.executionOrder)
  }

  /** The class follows the models of its profile and enters at nodes of the order; routes take usable edges only. */
  ghost predicate BuiltFor(architecture: Architecture, t: Topology, c: Class) {
    && ValidTopology(t) && t.nodes == architecture.nodes && |t.ends| == |architecture.edges|
    && ValidProfile(c.profile) && |c.coverage| == |t.nodes| && |c.enabled| == |t.ends|
    && (forall v :: 0 <= v < |t.nodes| ==> UnitInterval(c.coverage[v]))
    && (c.fixedRoute ==> forall e :: 0 <= e < |t.ends| && c.enabled[e] ==> Share(architecture.edges[e]) > 0.0)
    && Fits(t, c.plan) && c.plan.share >= 0.0
    && c.plan.models == ClassModels(architecture, t, c.profile, c.coverage, c.enabled, c.fixedRoute)
    && forall i :: 0 <= i < |c.plan.entries| ==> c.plan.entries[i].weight >= 0.0 && c.plan.entries[i].node in t.order
  }

  ghost predicate NoPending(t: Topology, r: Retries) {
    ValidRetries(t, r) && forall e :: 0 <= e < |r.total| ==> r.total[e] == 0.0
  }

  lemma BuiltIsValid(architecture: Architecture, t: Topology, c: Class)
    requires ValidFields(architecture) && BuiltFor(architecture, t, c)
    ensures ValidClass(t, c.plan)
  {
    forall e | 0 <= e < |t.ends|
      ensures ValidModel(c.plan.models[e])
    {
      ModelIsValid(t.nodes[t.ends[e].source], t.nodes[t.ends[e].target], architecture.edges[e], c.profile,
                   c.coverage[t.ends[e].source], c.enabled[e], c.fixedRoute);
    }
  }

  lemma BuiltUsesOnly(architecture: Architecture, t: Topology, c: Class)
    requires ValidFields(architecture) && BuiltFor(architecture, t, c)
    ensures UsesOnly(t, c.plan, Usable(architecture))
  {
    forall e | 0 <= e < |t.ends| && Open(t, c.plan, e)
      ensures e in Usable(architecture)
    {
      assert c.plan.models[e] == ModelOf(t.nodes[t.ends[e].source], t.nodes[t.ends[e].target], architecture.edges[e],
                                         c.profile, c.coverage[t.ends[e].source], c.enabled[e], c.fixedRoute);
    }
  }

  // ------------------------------------------------- the plan's own topology

  lemma {:induction false} AllOutHolds<K>(arcs: seq<Arc<K>>, u: K, e: nat)
    requires e < |arcs| && arcs[e].src == u
    ensures e in AllOut(arcs, u)
  {
    if e < |arcs| - 1 {
      AllOutHolds(arcs[..|arcs| - 1], u, e);
    }
  }

  lemma PlannedHoldsAllEdges(architecture: Architecture, planned: Plan)
    requires Prepared(architecture, planned)
    ensures HoldsAllEdges(TopologyOf(architecture, planned))
  {
    var t := TopologyOf(architecture, planned);
    forall e | 0 <= e < |t.ends|
      ensures e in t.outgoing[t.ends[e].source]
    {
      IndexedEnds(architecture, planned.executionOrder, e);
      AllOutHolds(ArcsById(architecture.edges), architecture.nodes[t.ends[e].source].id, e);
    }
  }

  lemma PlannedIffReached(architecture: Architecture, planned: Plan, v: nat)
    requires Prepared(architecture, planned) && v < |architecture.nodes|
    ensures v in TopologyOf(architecture, planned).order
            <==> Reachable(IndexArcs(architecture), SourceSet(architecture), v)
  {
    var t := TopologyOf(architecture, planned);
    IndexedTopologyIsValid(architecture, planned);
    if Reachable(IndexArcs(architecture), SourceSet(architecture), v) {
      ReachAgrees(architecture, v);
      var id := architecture.nodes[v].id;
      assert id in Members(planned.reached) && id in planned.executionOrder;
      var i :| 0 <= i < |planned.executionOrder| && planned.executionOrder[i] == id;
      IndexOfUnique(architecture.nodes, v);
      assert t.order[i] == v;
    }
  }

  lemma UsableArc(architecture: Architecture, planned: Plan, e: nat)
    requires Prepared(architecture, planned) && e in Usable(architecture)
    ensures var arcs, ends := IndexArcs(architecture), TopologyOf(architecture, planned).ends[e];
            EnabledAt(arcs, e) && arcs[e].src == ends.source && arcs[e].dst == ends.target
  {
    assert IndexArcs(architecture)[e] == IndexArc(architecture.nodes, architecture.edges[e]);
  }

  lemma PlannedStaysOrdered(architecture: Architecture, planned: Plan)
    requires Prepared(architecture, planned)
    ensures StaysOrdered(TopologyOf(architecture, planned), Usable(architecture))
  {
    var t := TopologyOf(architecture, planned);
    forall e | 0 <= e < |t.ends| && e in Usable(architecture) && t.ends[e].source in t.order
      ensures t.ends[e].target in t.order
    {
      UsableArc(architecture, planned, e);
      PlannedIffReached(architecture, planned, t.ends[e].source);
      ArcExtendsReach(IndexArcs(architecture), SourceSet(architecture), e);
      PlannedIffReached(architecture, planned, t.ends[e].target);
    }
  }

  // ------------------------------------------------------------- the theorem

  ghost predicate SumsFor(architecture: Architecture, t: Topology, c: Class, r: Retries, now: Second) {
    && BuiltFor(architecture, t, c) && ValidSecond(t, now) && NoPending(t, r)
    && ValidClass(t, c.plan) && ForwardsPathSums(t, c.plan, r, now)
  }

  /** In every second without pending retries, every class is forwarded by its path sums. */
  ghost predicate AlwaysPathSums(architecture: Architecture, t: Topology) {
    forall c, r, now :: BuiltFor(architecture, t, c) && ValidSecond(t, now) && NoPending(t, r) ==>
                          SumsFor(architecture, t, c, r, now)
  }

  lemma TimelySums(architecture: Architecture, planned: Plan)
    requires Prepared(architecture, planned) && NothingLate(TopologyOf(architecture, planned), Usable(architecture))
    ensures AlwaysPathSums(architecture, TopologyOf(architecture, planned))
  {
    var t := TopologyOf(architecture, planned);
    PlannedHoldsAllEdges(architecture, planned);
    PlannedStaysOrdered(architecture, planned);
    forall c, r, now | BuiltFor(architecture, t, c) && ValidSecond(t, now) && NoPending(t, r)
      ensures SumsFor(architecture, t, c, r, now)
    {
      BuiltIsValid(architecture, t, c);
      BuiltUsesOnly(architecture, t, c);
      FlowIsPathSum(t, c.plan, r, now, Usable(architecture));
    }
  }

  // ------------------------------------------------- a route with a late edge

  const NO_READS := Profile(0.0, 0.0, 0.0, 1.0)

  /** A class whose route takes edge e and then edge f, and ends there. */
  ghost function RouteClass(architecture: Architecture, t: Topology, e: nat, f: nat): Class
    requires ValidTopology(t) && t.nodes == architecture.nodes && |t.ends| == |architecture.edges|
    requires e < |t.ends| && f < |t.ends|
  {
    var coverage := seq(|t.nodes|, _ => 0.0);
    var enabled := seq(|t.ends|, k => k == e || k == f);
    Class(NO_READS, coverage, enabled, true,
          ClassPlan(1.0, [Entry(t.ends[e].source, 1.0)], Some(t.nodes[t.ends[f].target].id),
                    ClassModels(architecture, t, NO_READS, coverage, enabled, true)))
  }

  /** One request a second, every node passes on everything, and no cache hits. */
  ghost function Undisturbed(t: Topology): Second {
    Second(1.0, seq(|t.nodes|, _ => 1.0), seq(|t.nodes|, _ => 0.0))
  }

  /** Edges e and f in a row, between three nodes, in a class that uses nothing else and starts before e. */
  ghost predicate Detour(t: Topology, plan: ClassPlan, r: Retries, now: Second, e: nat, f: nat) {
    && Unhurried(t, plan, r, now) && e < |t.ends| && f < |t.ends| && t.ends[e].target == t.ends[f].source
    && t.ends[e].source != t.ends[f].source && t.ends[f].source != t.ends[f].target
       && t.ends[e].source != t.ends[f].target
    && (forall k :: 0 <= k < |t.ends| ==> (Open(t, plan, k) <==> k == e || k == f))
    && plan.entries == [Entry(t.ends[e].source, 1.0)]
  }

  /** What enters gets through both edges. */
  ghost predicate GetsThrough(t: Topology, plan: ClassPlan, r: Retries, now: Second, e: nat, f: nat)
    requires Detour(t, plan, r, now, e, f)
  {
    && EntersWith(t, plan, now, 0) > 0.0
    && (forall amount :: amount > 0.0 ==> PassedOn(t, plan, now, e, amount) > 0.0)
    && (forall amount :: amount > 0.0 ==> PassedOn(t, plan, now, f, amount) > 0.0)
  }

  lemma EnteredOnce(t: Topology, plan: ClassPlan, now: Second, v: nat)
    requires Fits(t, plan) && FitsSecond(t, now) && |plan.entries| == 1 && v < |t.nodes| && v != plan.entries[0].node
    ensures Entered(t, plan, now, 1).forward[v] == 0.0
  {
    assert Entered(t, plan, now, 0) == StillFlow(t);
    EnterForward(t, plan, now, Entered(t, plan, now, 0), plan.entries[0], v);
  }

  /** Edge f is never taken after e. */
  ghost predicate NeverAfter(route: seq<nat>, e: nat, f: nat) {
    forall k :: 0 <= k < |route| && route[k] == f ==> e !in route[..k]
  }

  /** Only e fills the middle node. */
  lemma MiddleStays(t: Topology, plan: ClassPlan, r: Retries, now: Second, e: nat, f: nat, k: nat)
    requires Detour(t, plan, r, now, e, f) && k < |Route(t)| && Route(t)[k] != e
    ensures FlowAlong(t, plan, r, now, Route(t)[..k + 1]).forward[t.ends[f].source]
            == FlowAlong(t, plan, r, now, Route(t)[..k]).forward[t.ends[f].source]
  {
    AlongStep(t, plan, r, now, Route(t), k, t.ends[f].source);
  }

  /** And only f, with something to pass on, the last node. */
  lemma LastStays(t: Topology, plan: ClassPlan, r: Retries, now: Second, e: nat, f: nat, k: nat)
    requires Detour(t, plan, r, now, e, f) && k < |Route(t)|
    requires Route(t)[k] == f ==> FlowAlong(t, plan, r, now, Route(t)[..k]).forward[t.ends[f].source] == 0.0
    ensures FlowAlong(t, plan, r, now, Route(t)[..k + 1]).forward[t.ends[f].target]
            == FlowAlong(t, plan, r, now, Route(t)[..k]).forward[t.ends[f].target]
  {
    AlongStep(t, plan, r, now, Route(t), k, t.ends[f].target);
    NothingIsPassedOn(t, plan, now, f);
  }

  /** Visited too early, the middle node has nothing to send, and the last node gets nothing. */
  lemma {:induction false} DetourStaysEmpty(t: Topology, plan: ClassPlan, r: Retries, now: Second, e: nat, f: nat,
                                            k: nat)
    requires Detour(t, plan, r, now, e, f) && NeverAfter(Route(t), e, f) && k <= |Route(t)|
    ensures FlowAlong(t, plan, r, now, Route(t)[..k]).forward[t.ends[f].target] == 0.0
    ensures e !in Route(t)[..k] ==> FlowAlong(t, plan, r, now, Route(t)[..k]).forward[t.ends[f].source] == 0.0
  {
    if k == 0 {
      EnteredOnce(t, plan, now, t.ends[f].target);
      EnteredOnce(t, plan, now, t.ends[f].source);
    } else {
      DetourStaysEmpty(t, plan, r, now, e, f, k - 1);
      LastStays(t, plan, r, now, e, f, k - 1);
      if e !in Route(t)[..k] {
        MiddleStays(t, plan, r, now, e, f, k - 1);
      }
    }
  }

  lemma LateIsNeverBefore(t: Topology, usable: set<nat>, e: nat, f: nat, i: nat, j: nat)
    requires ValidTopology(t) && Late(t, usable, e, f, i, j) && t.ends[e].source != t.ends[f].source
    ensures NeverAfter(Route(t), e, f)
  {
    var route := Route(t);
    forall k | 0 <= k < |route| && route[k] == f
      ensures e !in route[..k]
    {
      if e in route[..k] {
        var l :| 0 <= l < k && route[l] == e;
        var a, b := RouteInOrder(t, |t.order|, l, k);
        assert false;
      }
    }
  }

  // -------------------------------------------------- what the path would bring

  lemma DetourPath(t: Topology, plan: ClassPlan, r: Retries, now: Second, e: nat, f: nat)
    requires Detour(t, plan, r, now, e, f)
    ensures PathFrom(FlowArcs(t, plan), {|t.nodes|}, [|t.ends|, e, f], t.ends[f].target)
  {
    var arcs := FlowArcs(t, plan);
    assert arcs[|t.ends|] == FlowArcAt(t, plan, |t.ends|) && arcs[e] == FlowArcAt(t, plan, e)
        && arcs[f] == FlowArcAt(t, plan, f);
    assert [|t.ends|][..0] == [] && [|t.ends|, e][..1] == [|t.ends|] && [|t.ends|, e, f][..2] == [|t.ends|, e];
    assert IsPath(arcs, |t.nodes|, [], |t.nodes|);
    assert IsPath(arcs, |t.nodes|, [|t.ends|], t.ends[e].source);
    assert IsPath(arcs, |t.nodes|, [|t.ends|, e], t.ends[e].target);
    assert IsPath(arcs, |t.nodes|, [|t.ends|, e, f], t.ends[f].target);
  }

  lemma DetourWeight(t: Topology, plan: ClassPlan, r: Retries, now: Second, e: nat, f: nat)
    requires Detour(t, plan, r, now, e, f) && GetsThrough(t, plan, r, now, e, f)
    ensures Weight(FlowCarry(t, plan, now), [|t.ends|, e, f]) > 0.0
  {
    var carry := FlowCarry(t, plan, now);
    assert [|t.ends|][..0] == [] && [|t.ends|, e][..1] == [|t.ends|] && [|t.ends|, e, f][..2] == [|t.ends|, e];
    PortionOfUnit(EntersWith(t, plan, now, 0));
    assert Weight(carry, [|t.ends|]) == carry(1.0, |t.ends|) > 0.0;
    assert Weight(carry, [|t.ends|, e]) == PassedOn(t, plan, now, e, Weight(carry, [|t.ends|]));
    assert Weight(carry, [|t.ends|, e, f]) == PassedOn(t, plan, now, f, Weight(carry, [|t.ends|, e]));
  }

  lemma PassedOnSign(t: Topology, plan: ClassPlan, r: Retries, now: Second, e: nat, amount: real)
    requires Unhurried(t, plan, r, now) && e < |t.ends| && amount >= 0.0
    ensures PassedOn(t, plan, now, e, amount) >= 0.0
  {
    var model := plan.models[e];
    var factor := ForwardedFactor(model, HitRate(t, plan, now.hitRates, e));
    PortionSign(amount, model.trafficShare);
    PortionSign(Portion(amount, model.trafficShare), factor);
    PortionSign(Portion(Portion(amount, model.trafficShare), factor), model.survivalRate);
    PortionSign(Portion(Portion(Portion(amount, model.trafficShare), factor), model.survivalRate),
                now.forwarding[t.ends[e].target]);
  }

  lemma FlowKeepsSign(t: Topology, plan: ClassPlan, r: Retries, now: Second)
    requires Unhurried(t, plan, r, now)
    ensures KeepsSign(FlowCarry(t, plan, now))
  {
    var carry := FlowCarry(t, plan, now);
    forall amount, k: nat | amount >= 0.0
      ensures carry(amount, k) >= 0.0
    {
      if k < |t.ends| {
        PassedOnSign(t, plan, r, now, k, amount);
      } else if k < |t.ends| + |plan.entries| {
        var i := k - |t.ends|;
        SourceDemandSign(t, plan, now, i);
        PortionSign(SourceDemand(plan, now, plan.entries[i]), now.forwarding[plan.entries[i].node]);
        PortionSign(amount, EntersWith(t, plan, now, i));
      }
    }
  }

  /** The path over both edges would bring something to the last node, which gets nothing. */
  lemma DetourIsLost(t: Topology, plan: ClassPlan, r: Retries, now: Second, e: nat, f: nat)
    requires Detour(t, plan, r, now, e, f) && GetsThrough(t, plan, r, now, e, f) && NeverAfter(Route(t), e, f)
    ensures !ForwardsPathSums(t, plan, r, now)
  {
    var route, x := Route(t), t.ends[f].target;
    DetourStaysEmpty(t, plan, r, now, e, f, |route|);
    assert route[..|route|] == route;
    DetourPath(t, plan, r, now, e, f);
    DetourWeight(t, plan, r, now, e, f);
    FlowKeepsSign(t, plan, r, now);
    if ForwardsPathSums(t, plan, r, now) {
      PathSumAtLeast(FlowArcs(t, plan), FlowCarry(t, plan, now), {|t.nodes|}, x, FlowOf(t, plan, r, now).forward[x],
                     [|t.ends|, e, f]);
      assert false;
    }
  }

  // --------------------------------------------------- the route class detours

  lemma RouteClassIsBuilt(architecture: Architecture, t: Topology, e: nat, f: nat)
    requires ValidTopology(t) && t.nodes == architecture.nodes && |t.ends| == |architecture.edges|
    requires e in Usable(architecture) && f in Usable(architecture) && t.ends[e].source in t.order
    ensures BuiltFor(architecture, t, RouteClass(architecture, t, e, f))
  {
  }

  lemma UndisturbedIsValid(t: Topology)
    ensures ValidSecond(t, Undisturbed(t)) && NoPending(t, NoRetries(t))
  {
  }

  lemma RouteModel(architecture: Architecture, t: Topology, e: nat, f: nat, k: nat, hitRate: real)
    requires ValidTopology(t) && t.nodes == architecture.nodes && |t.ends| == |architecture.edges|
    requires e < |t.ends| && f < |t.ends| && k < |t.ends|
    ensures var model := RouteClass(architecture, t, e, f).plan.models[k];
            && model.trafficShare == (if k == e || k == f then 1.0 else 0.0)
            && model.survivalRate == 1.0 - LossRate(architecture.edges[k])
            && ForwardedFactor(model, hitRate) == 1.0
  {
    PortionOfZero(0.0);
    PortionOfZero(hitRate);
  }

  lemma PortionPositive(amount: real, rate: real)
    requires amount > 0.0 && rate > 0.0
    ensures Portion(amount, rate) > 0.0
  {
  }

  lemma RoutePassesOn(architecture: Architecture, t: Topology, e: nat, f: nat, k: nat, amount: real)
    requires ValidTopology(t) && t.nodes == architecture.nodes && |t.ends| == |architecture.edges|
    requires e < |t.ends| && f < |t.ends| && (k == e || k == f) && k in Usable(architecture) && amount > 0.0
    ensures PassedOn(t, RouteClass(architecture, t, e, f).plan, Undisturbed(t), k, amount) > 0.0
  {
    var plan, now := RouteClass(architecture, t, e, f).plan, Undisturbed(t);
    var model := plan.models[k];
    var factor := ForwardedFactor(model, HitRate(t, plan, now.hitRates, k));
    RouteModel(architecture, t, e, f, k, HitRate(t, plan, now.hitRates, k));
    PortionPositive(amount, model.trafficShare);
    PortionPositive(Portion(amount, model.trafficShare), factor);
    PortionPositive(Portion(Portion(amount, model.trafficShare), factor), model.survivalRate);
    PortionPositive(Portion(Portion(Portion(amount, model.trafficShare), factor), model.survivalRate),
                    now.forwarding[t.ends[k].target]);
  }

  /** Two usable edges in a row between three nodes, the first leaving a node of the order. */
  ghost predicate InARow(architecture: Architecture, t: Topology, e: nat, f: nat) {
    && ValidTopology(t) && t.nodes == architecture.nodes && |t.ends| == |architecture.edges|
    && e in Usable(architecture) && f in Usable(architecture) && t.ends[e].source in t.order
    && t.ends[e].target == t.ends[f].source && t.ends[e].source != t.ends[f].source
    && t.ends[f].source != t.ends[f].target && t.ends[e].source != t.ends[f].target
  }

  lemma RouteDetours(architecture: Architecture, t: Topology, e: nat, f: nat)
    requires UniqueNodeIds(architecture) && ValidFields(architecture) && InARow(architecture, t, e, f)
    ensures Detour(t, RouteClass(architecture, t, e, f).plan, NoRetries(t), Undisturbed(t), e, f)
  {
    var c := RouteClass(architecture, t, e, f);
    RouteClassIsBuilt(architecture, t, e, f);
    BuiltIsValid(architecture, t, c);
    UndisturbedIsValid(t);
    forall k | 0 <= k < |t.ends|
      ensures Open(t, c.plan, k) <==> k == e || k == f
    {
      RouteModel(architecture, t, e, f, k, 0.0);
    }
  }

  lemma RouteGetsThrough(architecture: Architecture, t: Topology, e: nat, f: nat)
    requires UniqueNodeIds(architecture) && ValidFields(architecture) && InARow(architecture, t, e, f)
    requires Detour(t, RouteClass(architecture, t, e, f).plan, NoRetries(t), Undisturbed(t), e, f)
    ensures GetsThrough(t, RouteClass(architecture, t, e, f).plan, NoRetries(t), Undisturbed(t), e, f)
  {
    forall amount | amount > 0.0
      ensures PassedOn(t, RouteClass(architecture, t, e, f).plan, Undisturbed(t), e, amount) > 0.0
      ensures PassedOn(t, RouteClass(architecture, t, e, f).plan, Undisturbed(t), f, amount) > 0.0
    {
      RoutePassesOn(architecture, t, e, f, e, amount);
      RoutePassesOn(architecture, t, e, f, f, amount);
    }
    PortionOfUnit(1.0);
  }

  lemma RouteLosesFlow(architecture: Architecture, t: Topology, e: nat, f: nat)
    requires UniqueNodeIds(architecture) && ValidFields(architecture) && InARow(architecture, t, e, f)
    requires NeverAfter(Route(t), e, f)
    ensures !AlwaysPathSums(architecture, t)
  {
    var c, r, now := RouteClass(architecture, t, e, f), NoRetries(t), Undisturbed(t);
    RouteClassIsBuilt(architecture, t, e, f);
    UndisturbedIsValid(t);
    RouteDetours(architecture, t, e, f);
    RouteGetsThrough(architecture, t, e, f);
    DetourIsLost(t, c.plan, r, now, e, f);
    assert !SumsFor(architecture, t, c, r, now);
  }

  /** On an acyclic graph two arcs in a row join three nodes. */
  lemma ThreeEnds(arcs: seq<Arc<nat>>, sources: set<nat>, e: nat, f: nat)
    requires Acyclic(arcs, sources) && EnabledAt(arcs, e) && EnabledAt(arcs, f)
    requires arcs[e].dst == arcs[f].src && Reachable(arcs, sources, arcs[e].src)
    ensures arcs[e].src != arcs[f].src && arcs[f].src != arcs[f].dst && arcs[e].src != arcs[f].dst
  {
    ArcExtendsReach(arcs, sources, e);
    ArcPath(arcs, e);
    ArcPath(arcs, f);
    PathConcat(arcs, arcs[e].src, [e], arcs[e].dst, [f], arcs[f].dst);
    assert [e] != [] && [f] != [] && [e] + [f] != [];
  }

  lemma LateIsInARow(architecture: Architecture, planned: Plan, t: Topology, e: nat, f: nat, i: nat, j: nat)
    requires Prepared(architecture, planned) && t == TopologyOf(architecture, planned)
    requires Late(t, Usable(architecture), e, f, i, j)
    ensures InARow(architecture, t, e, f)
  {
    UsableArc(architecture, planned, e);
    UsableArc(architecture, planned, f);
    PlannedIffReached(architecture, planned, t.ends[e].source);
    ThreeEnds(IndexArcs(architecture), SourceSet(architecture), e, f);
  }

  lemma LateLosesFlow(architecture: Architecture, planned: Plan, t: Topology, e: nat, f: nat, i: nat, j: nat)
    requires Prepared(architecture, planned) && t == TopologyOf(architecture, planned)
    requires Late(t, Usable(architecture), e, f, i, j)
    ensures !AlwaysPathSums(architecture, t)
  {
    LateIsInARow(architecture, planned, t, e, f, i, j);
    LateIsNeverBefore(t, Usable(architecture), e, f, i, j);
    RouteLosesFlow(architecture, t, e, f);
  }

  /**
   Every class is always forwarded by its path sums exactly when no edge brings flow to a node
   already visited that sends on.
   */
  lemma AlwaysPathSumsIff(architecture: Architecture, planned: Plan)
    requires Prepared(architecture, planned)
    ensures AlwaysPathSums(architecture, TopologyOf(architecture, planned))
            <==> NothingLate(TopologyOf(architecture, planned), Usable(architecture))
  {
    var t := TopologyOf(architecture, planned);
    if NothingLate(t, Usable(architecture)) {
      TimelySums(architecture, planned);
    } else {
      var e, f, i, j :| Late(t, Usable(architecture), e, f, i, j);
      LateLosesFlow(architecture, planned, t, e, f, i, j);
    }
  }

  // ---------------------------------------------------- where flow comes late

  lemma EntryById(architecture: Architecture, v: nat)
    requires ValidGraph(architecture) && v < |architecture.nodes| && architecture.nodes[v].id in EntryIds(architecture)
    ensures v in SourceSet(architecture)
  {
    var indexes := SourceIndexes(architecture);
    var ids := IdsAt(architecture.nodes, indexes);
    var k :| 0 <= k < |ids| && ids[k] == architecture.nodes[v].id;
    IndexOfUnique(architecture.nodes, v);
    IndexOfUnique(architecture.nodes, indexes[k]);
  }

  /** A forward schedule places the source of every edge first, unless the edge leads into an entry. */
  lemma ForwardFirst(architecture: Architecture, planned: Plan, e: nat, i: nat, j: nat)
    requires ValidGraph(architecture) && IsPlanFor(architecture, planned)
    requires IsForwardSchedule(architecture, planned.reached, planned.executionOrder)
    requires e in Usable(architecture) && i < |planned.executionOrder| && j < |planned.executionOrder|
    requires planned.executionOrder[i] == architecture.edges[e].source
             && planned.executionOrder[j] == architecture.edges[e].target
    requires architecture.edges[e].target !in EntryIds(architecture)
    ensures i < j
  {
    var order, forward := planned.executionOrder, ForwardArcs(architecture);
    assert forward[e] == ArcsById(architecture.edges)[e] && EnabledAt(forward, e);
    assert order[i] in Members(order) && order[i] in Members(planned.reached);
    assert forward[e].src in order[..j];
  }

  /** Under the plan that is built, flow comes late to entries only. */
  lemma LateIsIntoEntry(architecture: Architecture, planned: Plan, e: nat, f: nat, i: nat, j: nat)
    requires Prepared(architecture, planned)
    requires IsForwardSchedule(architecture, planned.reached, planned.executionOrder)
    requires Late(TopologyOf(architecture, planned), Usable(architecture), e, f, i, j)
    ensures TopologyOf(architecture, planned).ends[e].target in SourceSet(architecture)
  {
    IndexedOrder(architecture, planned);
    IndexedEnds(architecture, planned.executionOrder, e);
    if architecture.edges[e].target !in EntryIds(architecture) {
      ForwardFirst(architecture, planned, e, i, j);
      assert false;
    }
    EntryById(architecture, TopologyOf(architecture, planned).ends[e].target);
  }

  // -------------------------------------------- users behind users, as authored

  /** The second users, authored first, get part of their traffic from the first ones. */
  const TWO_USERS := Architecture(
    [PlainNode("second", Users), PlainNode("first", Users), PlainNode("api", Api)],
    [Edge("over", "first", "second", None, None, false), Edge("call", "second", "api", None, None, false)])

  lemma TwoUsersIds()
    ensures UniqueNodeIds(TWO_USERS)
    ensures IndexOf(TWO_USERS.nodes, "second") == Some(0) && IndexOf(TWO_USERS.nodes, "first") == Some(1)
    ensures IndexOf(TWO_USERS.nodes, "api") == Some(2)
  {
    var nodes := TWO_USERS.nodes;
    assert |nodes[0].id| == 6 && |nodes[1].id| == 5 && |nodes[2].id| == 3;
    IndexOfUnique(nodes, 0);
    IndexOfUnique(nodes, 1);
    IndexOfUnique(nodes, 2);
  }

  lemma TwoUsersArcs()
    ensures EdgesResolve(TWO_USERS) && IndexArcs(TWO_USERS) == [Arc(1, 0, 1.0), Arc(0, 2, 1.0)]
  {
    TwoUsersIds();
    var arcs := IndexArcs(TWO_USERS);
    assert arcs[0] == IndexArc(TWO_USERS.nodes, TWO_USERS.edges[0])
        && arcs[1] == IndexArc(TWO_USERS.nodes, TWO_USERS.edges[1]);
  }

  lemma TwoUsersEnter()
    ensures SourceSet(TWO_USERS) == {0, 1}
  {
    var nodes := TWO_USERS.nodes;
    var explicit := IndexesWhere(|nodes|, (i: nat) => i < |nodes| && IsEntry(nodes[i]));
    assert 0 in explicit && 1 in explicit && 2 !in explicit;
    assert explicit != [];
    forall v
      ensures v in SourceSet(TWO_USERS) <==> v == 0 || v == 1
    {
    }
  }

  lemma TwoUsersGraph()
    ensures ValidGraph(TWO_USERS) && ValidFields(TWO_USERS)
  {
    TwoUsersIds();
    TwoUsersArcs();
  }

  function TwoUsersRank(v: nat): nat {
    if v == 1 then 0 else if v == 0 then 1 else 2
  }

  lemma {:induction false} TwoUsersPath(from: nat, path: seq<nat>, to: nat)
    requires IsPath([Arc(1, 0, 1.0), Arc(0, 2, 1.0)], from, path, to) && path != []
    ensures TwoUsersRank(from) < TwoUsersRank(to)
    decreases |path|
  {
    var last, before := path[|path| - 1], path[..|path| - 1];
    if before != [] {
      TwoUsersPath(from, before, [1, 0][last]);
    }
  }

  lemma TwoUsersAcyclic()
    ensures Acyclic(IndexArcs(TWO_USERS), SourceSet(TWO_USERS))
  {
    TwoUsersArcs();
    forall c, cycle | cycle != [] && IsPath(IndexArcs(TWO_USERS), c, cycle, c)
      ensures false
    {
      TwoUsersPath(c, cycle, c);
    }
  }

  ghost predicate IsFree(architecture: Architecture, arcs: seq<Arc<string>>, reached: set<string>, i: nat) {
    && i < |architecture.nodes| && architecture.nodes[i].id in reached
    && InCount(arcs, reached, architecture.nodes[i].id) == 0
  }

  lemma FirstTwo(n: nat, p: nat -> bool)
    requires n == 3 && p(0) && p(1)
    ensures |IndexesWhere(n, p)| >= 2 && IndexesWhere(n, p)[0] == 0 && IndexesWhere(n, p)[1] == 1
  {
    assert IndexesWhere(0, p) == [] && IndexesWhere(1, p) == [0] && IndexesWhere(2, p) == [0, 1];
  }

  /** If the first two of three nodes are free, they come first. */
  lemma FirstTwoFree(architecture: Architecture, arcs: seq<Arc<string>>, reached: set<string>)
    requires |architecture.nodes| == 3
    requires IsFree(architecture, arcs, reached, 0) && IsFree(architecture, arcs, reached, 1)
    ensures var free := FreeIds(architecture, arcs, reached);
            |free| >= 2 && free[0] == architecture.nodes[0].id && free[1] == architecture.nodes[1].id
  {
    var nodes := architecture.nodes;
    FirstTwo(|nodes|, (i: nat) => i < |nodes| && nodes[i].id in reached && InCount(arcs, reached, nodes[i].id) == 0);
  }

  /** No forward edge leads into an entry. */
  lemma {:induction false} NoneIntoEntry(arcs: seq<Arc<string>>, stops: set<string>, from: set<string>, v: string,
                                         m: nat)
    requires m <= |arcs| && v in stops
    ensures InCount(WithoutArcsInto(arcs, stops)[..m], from, v) == 0
  {
    if m > 0 {
      NoneIntoEntry(arcs, stops, from, v, m - 1);
      assert WithoutArcsInto(arcs, stops)[..m][..m - 1] == WithoutArcsInto(arcs, stops)[..m - 1];
    }
  }

  /** Every entry is reached and free. */
  lemma EntryIsFree(architecture: Architecture, planned: Plan, v: nat)
    requires IsPlanFor(architecture, planned) && v in SourceSet(architecture)
    ensures IsFree(architecture, ForwardArcs(architecture), Members(planned.reached), v)
  {
    var indexes, byId := SourceIndexes(architecture), ArcsById(architecture.edges);
    var k :| 0 <= k < |indexes| && indexes[k] == v;
    assert IdsAt(architecture.nodes, indexes)[k] == architecture.nodes[v].id;
    SourceReachable(byId, EntryIds(architecture), architecture.nodes[v].id);
    NoneIntoEntry(byId, EntryIds(architecture), Members(planned.reached), architecture.nodes[v].id, |byId|);
    assert ForwardArcs(architecture)[..|byId|] == ForwardArcs(architecture);
  }

  /** Of three nodes, the built order starts with the first two if they are entries. */
  lemma TwoEntriesFirst(architecture: Architecture, planned: Plan)
    requires IsPlanFor(architecture, planned) && |architecture.nodes| == 3 && {0, 1} <= SourceSet(architecture)
    requires FreeIds(architecture, ForwardArcs(architecture), Members(planned.reached)) <= planned.executionOrder
    ensures |planned.executionOrder| >= 2
    ensures planned.executionOrder[0] == architecture.nodes[0].id
            && planned.executionOrder[1] == architecture.nodes[1].id
  {
    EntryIsFree(architecture, planned, 0);
    EntryIsFree(architecture, planned, 1);
    FirstTwoFree(architecture, ForwardArcs(architecture), Members(planned.reached));
  }

  lemma TwoUsersTopology(planned: Plan)
    requires Prepared(TWO_USERS, planned)
    ensures var ends := TopologyOf(TWO_USERS, planned).ends; ends[0] == Ends(1, 0) && ends[1] == Ends(0, 2)
  {
    TwoUsersIds();
  }

  lemma TwoUsersUsable()
    ensures 0 in Usable(TWO_USERS) && 1 in Usable(TWO_USERS)
  {
  }

  lemma TwoUsersLate(planned: Plan)
    requires Prepared(TWO_USERS, planned)
    requires |planned.executionOrder| >= 2 && planned.executionOrder[0] == "second"
             && planned.executionOrder[1] == "first"
    ensures Late(TopologyOf(TWO_USERS, planned), Usable(TWO_USERS), 0, 1, 1, 0)
  {
    TwoUsersIds();
    TwoUsersTopology(planned);
    TwoUsersUsable();
    assert TopologyOf(TWO_USERS, planned).order[0] == 0 && TopologyOf(TWO_USERS, planned).order[1] == 1;
  }

  /** Under the plan that is built for them, some class is forwarded less than its path sums. */
  lemma UsersBehindUsersLoseFlow(planned: Plan)
    requires IsPlanFor(TWO_USERS, planned)
    requires FreeIds(TWO_USERS, ForwardArcs(TWO_USERS), Members(planned.reached)) <= planned.executionOrder
    ensures Prepared(TWO_USERS, planned)
    ensures !AlwaysPathSums(TWO_USERS, TopologyOf(TWO_USERS, planned))
  {
    TwoUsersGraph();
    TwoUsersAcyclic();
    IndexedTopologyIsValid(TWO_USERS, planned);
    TwoUsersEnter();
    TwoEntriesFirst(TWO_USERS, planned);
    TwoUsersLate(planned);
    LateLosesFlow(TWO_USERS, planned, TopologyOf(TWO_USERS, planned), 0, 1, 1, 0);
  }
}

/**
 The admission bound that a scenario is accepted under governs the engine: without
 retries and with forwarded factors of at most one, no node ever forwards more of a
 class than the demand of the class times the amplification the analysis computed for
 the node, whatever order the engine visits the nodes in.
 */
module AdmissionBound {
  import opened Numbers
  import opened Wrappers
  import opened Architecture
  import opened Collections
  import opened Graph
  import opened Paths
  import opened TopologyBounds
  import opened ExecutionPlan
  import opened EdgeTransfer
  import opened TrafficFlow
  import opened TrafficLaws

  // --------------------------------------------------- the plan by position

  /** The plan turned into positions, as its last step does. */
  ghost function IndexedTopology(architecture: Architecture, order: seq<string>): (t: Topology)
    requires EdgesResolve(architecture) && forall i :: 0 <= i < |order| ==> IndexOf(architecture.nodes, order[i]).Some?
    ensures t.nodes == architecture.nodes && |t.ends| == |architecture.edges| && |t.order| == |order|
  {
    var nodes, edges := architecture.nodes, architecture.edges;
    Topology(
      nodes,
      seq(|edges|, e requires 0 <= e < |edges| =>
          Ends(IndexOf(nodes, edges[e].source).value, IndexOf(nodes, edges[e].target).value)),
      seq(|nodes|, u requires 0 <= u < |nodes| => AllOut(ArcsById(edges), nodes[u].id)),
      seq(|order|, i requires 0 <= i < |order| => IndexOf(nodes, order[i]).value))
  }

  lemma {:induction false} AllOutDistinct<K>(arcs: seq<Arc<K>>, u: K)
    ensures NoDuplicates(AllOut(arcs, u))
    ensures forall k :: 0 <= k < |AllOut(arcs, u)| ==> AllOut(arcs, u)[k] < |arcs| && arcs[AllOut(arcs, u)[k]].src == u
  {
    if arcs != [] {
      AllOutDistinct(arcs[..|arcs| - 1], u);
    }
  }

  lemma PlannedIsNode(architecture: Architecture, plan: Plan, i: nat)
    requires ValidGraph(architecture) && IsPlanFor(architecture, plan) && i < |plan.executionOrder|
    ensures IndexOf(architecture.nodes, plan.executionOrder[i]).Some?
    ensures Reachable(IndexArcs(architecture), SourceSet(architecture),
                      IndexOf(architecture.nodes, plan.executionOrder[i]).value)
  {
    var id := plan.executionOrder[i];
    assert id in Members(plan.executionOrder) && id in plan.reached;
    ReachedIsNode(architecture, id);
    var k: nat :| k < |architecture.nodes| && architecture.nodes[k].id == id;
    IndexOfUnique(architecture.nodes, k);
    ReachAgrees(architecture, k);
  }

  lemma IndexedEnds(architecture: Architecture, order: seq<string>, e: nat)
    requires EdgesResolve(architecture) && e < |architecture.edges|
    requires forall i :: 0 <= i < |order| ==> IndexOf(architecture.nodes, order[i]).Some?
    ensures var t := IndexedTopology(architecture, order);
            && t.ends[e].source < |t.nodes| && t.ends[e].target < |t.nodes|
            && architecture.nodes[t.ends[e].source].id == architecture.edges[e].source
            && architecture.nodes[t.ends[e].target].id == architecture.edges[e].target
  {
  }

  lemma IndexedOutgoing(architecture: Architecture, order: seq<string>, u: nat)
    requires ValidGraph(architecture) && EdgesResolve(architecture) && u < |architecture.nodes|
    requires forall i :: 0 <= i < |order| ==> IndexOf(architecture.nodes, order[i]).Some?
    ensures var t := IndexedTopology(architecture, order);
            && u < |t.outgoing| && NoDuplicates(t.outgoing[u])
            && forall k :: 0 <= k < |t.outgoing[u]| ==>
                             t.outgoing[u][k] < |t.ends| && t.ends[t.outgoing[u][k]].source == u
  {
    var t := IndexedTopology(architecture, order);
    var out := AllOut(ArcsById(architecture.edges), architecture.nodes[u].id);
    AllOutDistinct(ArcsById(architecture.edges), architecture.nodes[u].id);
    IndexOfUnique(architecture.nodes, u);
    assert t.outgoing[u] == out;
  }

  /** The order by position: each node once, and only nodes that are reached. */
  lemma IndexedOrder(architecture: Architecture, plan: Plan)
    requires ValidGraph(architecture) && EdgesResolve(architecture) && IsPlanFor(architecture, plan)
    ensures forall i :: 0 <= i < |plan.executionOrder| ==> IndexOf(architecture.nodes, plan.executionOrder[i]).Some?
    ensures var order := IndexedTopology(architecture, plan.executionOrder).order;
            && NoDuplicates(order)
            && (forall i :: 0 <= i < |order| ==> architecture.nodes[order[i]].id == plan.executionOrder[i])
            && forall i :: 0 <= i < |order| ==>
                             && order[i] < |architecture.nodes|
                             && Reachable(IndexArcs(architecture), SourceSet(architecture), order[i])
  {
    forall i | 0 <= i < |plan.executionOrder|
      ensures IndexOf(architecture.nodes, plan.executionOrder[i]).Some?
      ensures Reachable(IndexArcs(architecture), SourceSet(architecture),
                        IndexOf(architecture.nodes, plan.executionOrder[i]).value)
    {
      PlannedIsNode(architecture, plan, i);
    }
  }

  /** Its outgoing edges are those the plan lists. */
  lemma IndexedOutgoingIsPlanned(architecture: Architecture, plan: Plan)
    requires EdgesResolve(architecture) && IsPlanFor(architecture, plan)
    requires forall i :: 0 <= i < |plan.executionOrder| ==> IndexOf(architecture.nodes, plan.executionOrder[i]).Some?
    ensures IndexedTopology(architecture, plan.executionOrder).outgoing == plan.outgoingByIndex
  {
    var t := IndexedTopology(architecture, plan.executionOrder);
    forall u | 0 <= u < |architecture.nodes|
      ensures t.outgoing[u] == plan.outgoingByIndex[u]
    {
    }
  }

  /** What the engine gets from a plan is well formed and names reachable nodes only. */
  lemma IndexedTopologyIsValid(architecture: Architecture, plan: Plan)
    requires ValidGraph(architecture) && EdgesResolve(architecture) && IsPlanFor(architecture, plan)
    ensures forall i :: 0 <= i < |plan.executionOrder| ==> IndexOf(architecture.nodes, plan.executionOrder[i]).Some?
    ensures var t := IndexedTopology(architecture, plan.executionOrder);
            && ValidTopology(t)
            && forall i :: 0 <= i < |t.order| ==>
                 Reachable(IndexArcs(architecture), SourceSet(architecture), t.order[i])
  {
    IndexedOrder(architecture, plan);
    forall e | 0 <= e < |architecture.edges|
      ensures EndsExist(IndexedTopology(architecture, plan.executionOrder), e)
    {
      IndexedEnds(architecture, plan.executionOrder, e);
    }
    forall u | 0 <= u < |architecture.nodes|
      ensures LeavesItsNode(IndexedTopology(architecture, plan.executionOrder), u)
    {
      IndexedOutgoing(architecture, plan.executionOrder, u);
    }
    ValidByParts(IndexedTopology(architecture, plan.executionOrder));
  }

  predicate EndsExist(t: Topology, e: nat) {
    e < |t.ends| && t.ends[e].source < |t.nodes| && t.ends[e].target < |t.nodes|
  }

  ghost predicate LeavesItsNode(t: Topology, u: nat) {
    && u < |t.outgoing| && NoDuplicates(t.outgoing[u])
    && forall k :: 0 <= k < |t.outgoing[u]| ==> t.outgoing[u][k] < |t.ends| && t.ends[t.outgoing[u][k]].source == u
  }

  lemma ValidByParts(t: Topology)
    requires |t.outgoing| == |t.nodes| && (forall e :: 0 <= e < |t.ends| ==> EndsExist(t, e))
    requires forall u :: 0 <= u < |t.nodes| ==> LeavesItsNode(t, u)
    requires NoDuplicates(t.order) && AllBelow(t.order, |t.nodes|)
    ensures ValidTopology(t)
  {
    forall e | 0 <= e < |t.ends|
      ensures t.ends[e].source < |t.nodes| && t.ends[e].target < |t.nodes|
    {
      assert EndsExist(t, e);
    }
    forall u | 0 <= u < |t.outgoing|
      ensures NoDuplicates(t.outgoing[u])
      ensures forall k :: 0 <= k < |t.outgoing[u]| ==>
                            t.outgoing[u][k] < |t.ends| && t.ends[t.outgoing[u][k]].source == u
    {
      assert LeavesItsNode(t, u);
    }
  }

  // ------------------------------------------- flow over some of the edges

  /** What the edges in `taken` alone bring into v. */
  ghost function InFlowOver(arcs: seq<Arc<nat>>, carry: Carry, taken: set<nat>, m: nat, from: set<nat>, a: seq<real>,
                            v: nat): real
    requires m <= |arcs|
  {
    if m == 0 then 0.0
    else InFlowOver(arcs, carry, taken, m - 1, from, a, v)
         + (if m - 1 in taken then Sent(arcs, carry, m - 1, from, a, v) else 0.0)
  }

  ghost predicate SendsNothingNegative(arcs: seq<Arc<nat>>, carry: Carry, from: set<nat>, a: seq<real>) {
    forall e: nat, v: nat :: e < |arcs| ==> Sent(arcs, carry, e, from, a, v) >= 0.0
  }

  lemma {:induction false} InFlowOverAtMost(arcs: seq<Arc<nat>>, carry: Carry, taken: set<nat>, m: nat, from: set<nat>,
                                            a: seq<real>, v: nat)
    requires m <= |arcs| && SendsNothingNegative(arcs, carry, from, a)
    ensures InFlowOver(arcs, carry, taken, m, from, a, v) <= InFlow(arcs, carry, m, from, a, v)
  {
    if m > 0 {
      InFlowOverAtMost(arcs, carry, taken, m - 1, from, a, v);
    }
  }

  lemma {:induction false} InFlowOverAdd(arcs: seq<Arc<nat>>, carry: Carry, taken: set<nat>, e: nat, m: nat,
                                         from: set<nat>, a: seq<real>, v: nat)
    requires m <= |arcs| && e < |arcs| && e !in taken
    ensures InFlowOver(arcs, carry, taken + {e}, m, from, a, v)
            == InFlowOver(arcs, carry, taken, m, from, a, v) + (if e < m then Sent(arcs, carry, e, from, a, v) else 0.0)
  {
    if m > 0 {
      InFlowOverAdd(arcs, carry, taken, e, m - 1, from, a, v);
    }
  }

  lemma {:induction false} InFlowOverNothing(arcs: seq<Arc<nat>>, carry: Carry, m: nat, from: set<nat>, a: seq<real>,
                                             v: nat)
    requires m <= |arcs|
    ensures InFlowOver(arcs, carry, {}, m, from, a, v) == 0.0
  {
    if m > 0 {
      InFlowOverNothing(arcs, carry, m - 1, from, a, v);
    }
  }

  // ------------------------------------------------------------ the bound

  /** The setting of the bound: an analysed graph, and a class that enters it at the default entries. */
  datatype Setting = Setting(architecture: Architecture, t: Topology, scheduled: set<nat>, amplification: seq<real>,
                             plan: ClassPlan, now: Second)

  ghost predicate DefaultEntries(architecture: Architecture, plan: ClassPlan) {
    && (forall i :: 0 <= i < |plan.entries| ==>
        plan.entries[i].node in SourceSet(architecture) && UnitInterval(plan.entries[i].weight))
    && forall i, j :: 0 <= i < j < |plan.entries| ==> plan.entries[i].node != plan.entries[j].node
  }

  /** Every edge of the class carries at most its authored share: no authored route overrides it. */
  ghost predicate AuthoredShares(architecture: Architecture, plan: ClassPlan) {
    |plan.models| == |architecture.edges| && forall e :: 0 <= e < |plan.models| ==>
        plan.models[e].trafficShare <= Share(architecture.edges[e])
  }

  ghost predicate PassesOnAtMostAll(t: Topology, plan: ClassPlan, now: Second)
    requires ValidTopology(t) && Fits(t, plan) && FitsSecond(t, now)
  {
    forall e :: 0 <= e < |t.ends| ==> ForwardedFactor(plan.models[e], HitRate(t, plan, now.hitRates, e)) <= 1.0
  }

  ghost predicate InSetting(s: Setting) {
    && ValidTopology(s.t) && ValidClass(s.t, s.plan) && ValidSecond(s.t, s.now)
    && EdgesMatch(s.architecture, s.t)
    && |s.amplification| == |s.t.nodes|
    && FlowsTo(IndexArcs(s.architecture), SourceSet(s.architecture), s.scheduled, s.amplification)
    && DefaultEntries(s.architecture, s.plan) && AuthoredShares(s.architecture, s.plan)
    && PassesOnAtMostAll(s.t, s.plan, s.now)
  }

  ghost predicate EdgesMatch(architecture: Architecture, t: Topology) {
    && |t.ends| == |architecture.edges|
    && forall e :: 0 <= e < |t.ends| ==>
                     IndexOf(architecture.nodes, architecture.edges[e].source) == Some(t.ends[e].source)
                     && IndexOf(architecture.nodes, architecture.edges[e].target) == Some(t.ends[e].target)
  }

  ghost function Demand(s: Setting): real {
    Portion(s.now.requestedRps, s.plan.share)
  }

  /** Amplification of v as far as the edges in `taken` bring it. */
  ghost function SoFar(s: Setting, taken: set<nat>, v: nat): real {
    var arcs := IndexArcs(s.architecture);
    Base(SourceSet(s.architecture), v) + InFlowOver(arcs, ByShare(arcs), taken, |arcs|, s.scheduled, s.amplification, v)
  }

  ghost predicate WithinSoFar(s: Setting, taken: set<nat>, flow: ClassFlow) {
    && |flow.forward| == |s.amplification|
    && forall v :: 0 <= v < |flow.forward| ==> flow.forward[v] <= Portion(Demand(s), SoFar(s, taken, v))
  }

  lemma ArcOf(s: Setting, e: nat)
    requires InSetting(s) && e < |s.t.ends| && s.plan.models[e].trafficShare > 0.0
    ensures EnabledAt(IndexArcs(s.architecture), e)
    ensures IndexArcs(s.architecture)[e] == Arc(s.t.ends[e].source, s.t.ends[e].target, Share(s.architecture.edges[e]))
  {
    assert IndexArcs(s.architecture)[e] == IndexArc(s.architecture.nodes, s.architecture.edges[e]);
  }

  lemma NothingNegativeSent(s: Setting)
    requires InSetting(s)
    ensures SendsNothingNegative(IndexArcs(s.architecture), ByShare(IndexArcs(s.architecture)), s.scheduled,
                                 s.amplification)
  {
    var arcs := IndexArcs(s.architecture);
    forall e: nat, v: nat | e < |arcs|
      ensures Sent(arcs, ByShare(arcs), e, s.scheduled, s.amplification, v) >= 0.0
    {
      if Enabled(arcs[e]) && arcs[e].src < |s.amplification| {
        SharePositive(s.amplification[arcs[e].src], arcs, e);
      }
    }
  }

  lemma SharePositive(amount: real, arcs: seq<Arc<nat>>, e: nat)
    requires amount >= 0.0 && EnabledAt(arcs, e)
    ensures ByShare(arcs)(amount, e) >= 0.0
    ensures ByShare(arcs)(amount, e) == Portion(amount, arcs[e].share)
  {
  }

  lemma DemandSign(s: Setting)
    requires InSetting(s)
    ensures Demand(s) >= 0.0
  {
    PortionSign(s.now.requestedRps, s.plan.share);
  }

  /** Part of the way, a node stands at no more than its whole amplification. */
  lemma SoFarAtMost(s: Setting, taken: set<nat>, v: nat)
    requires InSetting(s) && v < |s.amplification|
    ensures SoFar(s, taken, v) <= s.amplification[v]
  {
    var arcs := IndexArcs(s.architecture);
    NothingNegativeSent(s);
    InFlowOverAtMost(arcs, ByShare(arcs), taken, |arcs|, s.scheduled, s.amplification, v);
    assert Balanced(arcs, ByShare(arcs), SourceSet(s.architecture), s.scheduled, s.amplification, v);
  }

  lemma EntryWithinDemand(s: Setting, i: nat)
    requires InSetting(s) && i < |s.plan.entries|
    ensures Portion(SourceDemand(s.plan, s.now, s.plan.entries[i]), s.now.forwarding[s.plan.entries[i].node])
            <= Portion(Demand(s), 1.0)
  {
    var entry := s.plan.entries[i];
    DemandSign(s);
    PortionShrinks(Demand(s), entry.weight);
    PortionShrinks(SourceDemand(s.plan, s.now, entry), s.now.forwarding[entry.node]);
  }

  ghost predicate HasEntry(plan: ClassPlan, m: nat, v: nat)
    requires m <= |plan.entries|
  {
    exists i :: 0 <= i < m && plan.entries[i].node == v
  }

  ghost predicate EntriesAtMost(t: Topology, plan: ClassPlan, now: Second, top: real)
    requires Fits(t, plan) && FitsSecond(t, now)
  {
    forall i :: 0 <= i < |plan.entries| ==>
                  Portion(SourceDemand(plan, now, plan.entries[i]), now.forwarding[plan.entries[i].node]) <= top
  }

  lemma EnterForward(t: Topology, plan: ClassPlan, now: Second, flow: ClassFlow, entry: Entry, v: nat)
    requires FitsSecond(t, now) && FitsFlow(t, flow) && entry.node < |t.nodes| && v < |t.nodes|
    ensures Enter(t, plan, now, flow, entry).forward[v]
            == flow.forward[v] + (if v == entry.node then Portion(SourceDemand(plan, now, entry), now.forwarding[v])
                                  else 0.0)
  {
  }

  /** Entries put demand on each of their nodes once, and on no other node. */
  lemma {:induction false} EnteredAtMost(t: Topology, plan: ClassPlan, now: Second, m: nat, v: nat, top: real)
    requires Fits(t, plan) && FitsSecond(t, now) && m <= |plan.entries| && v < |t.nodes|
    requires EntriesAtMost(t, plan, now, top)
    requires forall i, j :: 0 <= i < j < |plan.entries| ==> plan.entries[i].node != plan.entries[j].node
    ensures HasEntry(plan, m, v) ==> Entered(t, plan, now, m).forward[v] <= top
    ensures !HasEntry(plan, m, v) ==> Entered(t, plan, now, m).forward[v] == 0.0
  {
    if m > 0 {
      var entry := plan.entries[m - 1];
      EnteredAtMost(t, plan, now, m - 1, v, top);
      EnterForward(t, plan, now, Entered(t, plan, now, m - 1), entry, v);
      assert v == entry.node ==> HasEntry(plan, m, v) && !HasEntry(plan, m - 1, v);
      assert v != entry.node ==> (HasEntry(plan, m, v) <==> HasEntry(plan, m - 1, v));
    }
  }

  lemma StartsWithin(s: Setting)
    requires InSetting(s)
    ensures WithinSoFar(s, {}, Entered(s.t, s.plan, s.now, |s.plan.entries|))
  {
    var arcs, m := IndexArcs(s.architecture), |s.plan.entries|;
    DemandSign(s);
    forall i | 0 <= i < m
      ensures Portion(SourceDemand(s.plan, s.now, s.plan.entries[i]), s.now.forwarding[s.plan.entries[i].node])
              <= Portion(Demand(s), 1.0)
    {
      EntryWithinDemand(s, i);
    }
    forall v | 0 <= v < |s.t.nodes|
      ensures Entered(s.t, s.plan, s.now, m).forward[v] <= Portion(Demand(s), SoFar(s, {}, v))
    {
      EnteredAtMost(s.t, s.plan, s.now, m, v, Portion(Demand(s), 1.0));
      InFlowOverNothing(arcs, ByShare(arcs), |arcs|, s.scheduled, s.amplification, v);
      PortionSign(Demand(s), SoFar(s, {}, v));
    }
  }

  /** What one edge passes on is at most what its arc carries of the amplified demand. */
  lemma EdgePassesOnAtMost(s: Setting, r: Retries, flow: ClassFlow, taken: set<nat>, e: nat)
    requires InSetting(s) && FitsRetries(s.t, r) && FitsFlow(s.t, flow) && WithinSoFar(s, taken, flow)
    requires e < |s.t.ends| && r.total[e] == 0.0 && Passes(s.t, s.plan, flow, e)
    ensures EnabledAt(IndexArcs(s.architecture), e)
    ensures TransferAt(s.t, s.plan, r, s.now, flow, e).onward.flow
            <= Portion(Demand(s), ByShare(IndexArcs(s.architecture))(s.amplification[s.t.ends[e].source], e))
  {
    var arcs, u, model := IndexArcs(s.architecture), s.t.ends[e].source, s.plan.models[e];
    var share := Share(s.architecture.edges[e]);
    ArcOf(s, e);
    DemandSign(s);
    ForwardsAtMostAttempted(model, HitRate(s.t, s.plan, s.now.hitRates, e), flow.forward[u], flow.synchronousForward[u],
                            r.total[e], r.synchronous[e], s.now.forwarding[s.t.ends[e].target]);
    SoFarAtMost(s, taken, u);
    PortionOfLess(Demand(s), SoFar(s, taken, u), s.amplification[u]);
    PortionOfLess(flow.forward[u], model.trafficShare, share);
    PortionMonotone(flow.forward[u], Portion(Demand(s), s.amplification[u]), share);
    PortionTwice(Demand(s), s.amplification[u], share);
    SharePositive(s.amplification[u], arcs, e);
  }

  lemma PortionTwice(amount: real, rate: real, share: real)
    ensures Portion(Portion(amount, rate), share) == Portion(amount, Portion(rate, share))
  {
  }

  lemma SoFarAdd(s: Setting, taken: set<nat>, e: nat, v: nat)
    requires InSetting(s) && e < |s.t.ends| && e !in taken && s.t.ends[e].source in s.scheduled
             && s.plan.models[e].trafficShare > 0.0
    ensures SoFar(s, taken + {e}, v)
            == SoFar(s, taken, v)
               + (if v == s.t.ends[e].target then
                    ByShare(IndexArcs(s.architecture))(s.amplification[s.t.ends[e].source], e)
                  else 0.0)
  {
    var arcs := IndexArcs(s.architecture);
    ArcOf(s, e);
    InFlowOverAdd(arcs, ByShare(arcs), taken, e, |arcs|, s.scheduled, s.amplification, v);
  }

  lemma SoFarGrows(s: Setting, taken: set<nat>, e: nat, v: nat)
    requires InSetting(s) && e < |s.t.ends| && e !in taken
    ensures SoFar(s, taken, v) <= SoFar(s, taken + {e}, v)
  {
    var arcs := IndexArcs(s.architecture);
    NothingNegativeSent(s);
    InFlowOverAdd(arcs, ByShare(arcs), taken, e, |arcs|, s.scheduled, s.amplification, v);
  }

  lemma ReceiveForward(t: Topology, flow: ClassFlow, model: EdgeModel, e: nat, x: Transfer, retry: real, v: nat)
    requires ValidTopology(t) && FitsFlow(t, flow) && e < |t.ends| && v < |t.nodes|
    ensures Receive(t, flow, model, e, x, retry).forward[v]
            == flow.forward[v] + (if v == t.ends[e].target then x.onward.flow else 0.0)
  {
  }

  lemma ReceivedAtMost(s: Setting, before: real, taken: set<nat>, e: nat, passed: real, v: nat)
    requires InSetting(s) && v < |s.t.nodes| && before <= Portion(Demand(s), SoFar(s, taken, v))
    requires e < |s.t.ends| && e !in taken && s.t.ends[e].source in s.scheduled && s.plan.models[e].trafficShare > 0.0
    requires passed <= Portion(Demand(s), ByShare(IndexArcs(s.architecture))(s.amplification[s.t.ends[e].source], e))
    ensures before + (if v == s.t.ends[e].target then passed else 0.0) <= Portion(Demand(s), SoFar(s, taken + {e}, v))
  {
    var carried := ByShare(IndexArcs(s.architecture))(s.amplification[s.t.ends[e].source], e);
    SoFarAdd(s, taken, e, v);
    if v == s.t.ends[e].target {
      PortionSum(Demand(s), SoFar(s, taken + {e}, v), SoFar(s, taken, v), carried);
    }
  }

  lemma PortionSum(amount: real, whole: real, x: real, y: real)
    requires whole == x + y
    ensures Portion(amount, whole) == Portion(amount, x) + Portion(amount, y)
  {
    PortionAdds(amount, x, y);
  }

  lemma ReceiveStaysWithin(s: Setting, flow: ClassFlow, taken: set<nat>, e: nat, x: Transfer, retry: real)
    requires InSetting(s) && FitsFlow(s.t, flow) && WithinSoFar(s, taken, flow)
    requires e < |s.t.ends| && e !in taken && s.t.ends[e].source in s.scheduled && s.plan.models[e].trafficShare > 0.0
    requires x.onward.flow <= Portion(Demand(s),
                                      ByShare(IndexArcs(s.architecture))(s.amplification[s.t.ends[e].source], e))
    ensures WithinSoFar(s, taken + {e}, Receive(s.t, flow, s.plan.models[e], e, x, retry))
  {
    var next := Receive(s.t, flow, s.plan.models[e], e, x, retry);
    forall v | 0 <= v < |next.forward|
      ensures next.forward[v] <= Portion(Demand(s), SoFar(s, taken + {e}, v))
    {
      ReceiveForward(s.t, flow, s.plan.models[e], e, x, retry, v);
      ReceivedAtMost(s, flow.forward[v], taken, e, x.onward.flow, v);
    }
  }

  lemma SkippingStaysWithin(s: Setting, flow: ClassFlow, taken: set<nat>, e: nat)
    requires InSetting(s) && FitsFlow(s.t, flow) && WithinSoFar(s, taken, flow)
    requires e < |s.t.ends| && e !in taken
    ensures WithinSoFar(s, taken + {e}, flow)
  {
    DemandSign(s);
    forall v | 0 <= v < |s.t.nodes|
      ensures flow.forward[v] <= Portion(Demand(s), SoFar(s, taken + {e}, v))
    {
      SoFarGrows(s, taken, e, v);
      PortionOfLess(Demand(s), SoFar(s, taken, v), SoFar(s, taken + {e}, v));
    }
  }

  lemma VisitStaysWithin(s: Setting, r: Retries, flow: ClassFlow, taken: set<nat>, e: nat)
    requires InSetting(s) && FitsRetries(s.t, r) && FitsFlow(s.t, flow) && WithinSoFar(s, taken, flow)
    requires e < |s.t.ends| && r.total[e] == 0.0 && e !in taken && s.t.ends[e].source in s.scheduled
    ensures WithinSoFar(s, taken + {e}, Visit(s.t, s.plan, r, s.now, flow, e))
  {
    if Passes(s.t, s.plan, flow, e) {
      EdgePassesOnAtMost(s, r, flow, taken, e);
      ReceiveStaysWithin(s, flow, taken, e, TransferAt(s.t, s.plan, r, s.now, flow, e), r.total[e]);
    } else {
      SkippingStaysWithin(s, flow, taken, e);
    }
  }

  ghost predicate RouteInSetting(s: Setting, r: Retries, route: seq<nat>) {
    && FitsRetries(s.t, r) && AllBelow(route, |s.t.ends|) && NoDuplicates(route)
    && forall k :: 0 <= k < |route| ==> r.total[route[k]] == 0.0 && s.t.ends[route[k]].source in s.scheduled
  }

  lemma RouteStep(s: Setting, r: Retries, route: seq<nat>)
    requires RouteInSetting(s, r, route) && route != []
    ensures RouteInSetting(s, r, route[..|route| - 1])
    ensures Members(route) == Members(route[..|route| - 1]) + {route[|route| - 1]}
    ensures route[|route| - 1] !in Members(route[..|route| - 1])
  {
  }

  /** The bound holds edge by edge along any route that takes no edge twice. */
  lemma {:induction false} AlongStaysWithin(s: Setting, r: Retries, route: seq<nat>)
    requires InSetting(s) && RouteInSetting(s, r, route)
    ensures WithinSoFar(s, Members(route), FlowAlong(s.t, s.plan, r, s.now, route))
  {
    if route == [] {
      StartsWithin(s);
      assert Members(route) == {};
    } else {
      var before, e := route[..|route| - 1], route[|route| - 1];
      RouteStep(s, r, route);
      AlongStaysWithin(s, r, before);
      VisitStaysWithin(s, r, FlowAlong(s.t, s.plan, r, s.now, before), Members(before), e);
    }
  }

  /** The route of a plan takes every edge once, out of nodes that the analysis scheduled. */
  lemma PlannedRouteInSetting(s: Setting, r: Retries)
    requires InSetting(s) && FitsRetries(s.t, r) && (forall e :: 0 <= e < |r.total| ==> r.total[e] == 0.0)
    requires forall i :: 0 <= i < |s.t.order| ==> s.t.order[i] in s.scheduled
    ensures RouteInSetting(s, r, Route(s.t))
  {
    RouteDistinct(s.t, |s.t.order|);
    forall k | 0 <= k < |Route(s.t)|
      ensures s.t.ends[Route(s.t)[k]].source in s.scheduled
    {
      var i := RouteSource(s.t, |s.t.order|, k);
    }
  }

  lemma BoundInSetting(s: Setting, r: Retries, v: nat)
    requires InSetting(s) && RouteInSetting(s, r, Route(s.t)) && v < |s.t.nodes|
    ensures FlowOf(s.t, s.plan, r, s.now).forward[v] <= Portion(Demand(s), s.amplification[v])
  {
    AlongStaysWithin(s, r, Route(s.t));
    SoFarAtMost(s, Members(Route(s.t)), v);
    DemandSign(s);
    PortionOfLess(Demand(s), SoFar(s, Members(Route(s.t)), v), s.amplification[v]);
  }

  lemma PlannedIsScheduled(architecture: Architecture, order: seq<nat>, amplification: seq<real>, planned: Plan)
    requires ValidGraph(architecture) && Acyclic(IndexArcs(architecture), SourceSet(architecture))
    requires IsAnalysis(architecture, order, amplification) && IsPlanFor(architecture, planned)
    requires forall i :: 0 <= i < |planned.executionOrder| ==>
               IndexOf(architecture.nodes, planned.executionOrder[i]).Some?
    ensures var t := IndexedTopology(architecture, planned.executionOrder);
            forall i :: 0 <= i < |t.order| ==> t.order[i] in Members(order)
  {
    IndexedTopologyIsValid(architecture, planned);
    NothingLeftIffAcyclic(IndexArcs(architecture), SourceSet(architecture));
  }

  /**
   No node forwards more of the class than its demand times the amplification of the node.
   The analysis and the plan may order the nodes differently: the plan's order enters
   only through the edges it visits, each once.
   */
  lemma AmplificationBoundsForward(architecture: Architecture, order: seq<nat>, amplification: seq<real>, planned: Plan,
                                   plan: ClassPlan, r: Retries, now: Second, v: nat)
    requires ValidGraph(architecture) && Acyclic(IndexArcs(architecture), SourceSet(architecture))
    requires IsAnalysis(architecture, order, amplification) && IsPlanFor(architecture, planned)
    requires forall i :: 0 <= i < |planned.executionOrder| ==>
               IndexOf(architecture.nodes, planned.executionOrder[i]).Some?
    requires var t := IndexedTopology(architecture, planned.executionOrder);
             && ValidTopology(t) && ValidClass(t, plan) && ValidSecond(t, now) && FitsRetries(t, r)
             && PassesOnAtMostAll(t, plan, now)
             && forall e :: 0 <= e < |r.total| ==> r.total[e] == 0.0
    requires DefaultEntries(architecture, plan) && AuthoredShares(architecture, plan)
    requires v < |architecture.nodes|
    ensures FlowOf(IndexedTopology(architecture, planned.executionOrder), plan, r, now).forward[v]
            <= Portion(Portion(now.requestedRps, plan.share), amplification[v])
  {
    var t := IndexedTopology(architecture, planned.executionOrder);
    var s := Setting(architecture, t, Members(order), amplification, plan, now);
    assert InSetting(s);
    PlannedIsScheduled(architecture, order, amplification, planned);
    PlannedRouteInSetting(s, r);
    BoundInSetting(s, r, v);
  }

  // ---------------------------------------------------- models of a class

  /** The edge models of a class: profile, cache coverage of every node, and which edges its route allows. */
  function ClassModels(architecture: Architecture, t: Topology, p: Profile, coverage: seq<real>, enabled: seq<bool>,
                       fixedRoute: bool): (models: seq<EdgeModel>)
    requires t.nodes == architecture.nodes && |coverage| == |t.nodes| && |enabled| == |t.ends| == |architecture.edges|
    requires forall e :: 0 <= e < |t.ends| ==> t.ends[e].source < |t.nodes| && t.ends[e].target < |t.nodes|
    ensures |models| == |t.ends|
  {
    seq(|t.ends|, e requires 0 <= e < |t.ends| =>
      ModelOf(t.nodes[t.ends[e].source], t.nodes[t.ends[e].target], architecture.edges[e], p,
              coverage[t.ends[e].source], enabled[e], fixedRoute))
  }

  /** The class asks every database at most once per request. */
  ghost predicate AsksOnce(t: Topology, p: Profile)
    requires ValidTopology(t)
  {
    forall e :: 0 <= e < |t.ends| ==> !Multiplies(t.nodes[t.ends[e].source].kind, t.nodes[t.ends[e].target].kind, p)
  }

  /**
   A class without an authored route that asks every database at most once meets what the bound
   asks of its models.
   */
  lemma SingleQueryModelsFit(architecture: Architecture, t: Topology, p: Profile, coverage: seq<real>,
                             enabled: seq<bool>, plan: ClassPlan, now: Second)
    requires ValidTopology(t) && t.nodes == architecture.nodes && |coverage| == |t.nodes|
             && |enabled| == |t.ends| == |architecture.edges|
    requires ValidProfile(p) && AsksOnce(t, p) && (forall e :: 0 <= e < |t.ends| ==> ValidRates(architecture.edges[e]))
    requires forall v :: 0 <= v < |t.nodes| ==> UnitInterval(coverage[v]) && MaxRetries(t.nodes[v]) >= 0
    requires Fits(t, plan) && plan.models == ClassModels(architecture, t, p, coverage, enabled, false)
    requires ValidSecond(t, now) && plan.share >= 0.0 && forall i :: 0 <= i < |plan.entries| ==>
               plan.entries[i].weight >= 0.0
    ensures ValidClass(t, plan) && AuthoredShares(architecture, plan) && PassesOnAtMostAll(t, plan, now)
  {
    forall e | 0 <= e < |t.ends|
      ensures ValidModel(plan.models[e]) && plan.models[e].trafficShare <= Share(architecture.edges[e])
    {
      var source, target := t.nodes[t.ends[e].source], t.nodes[t.ends[e].target];
      ModelIsValid(source, target, architecture.edges[e], p, coverage[t.ends[e].source], enabled[e], false);
    }
    forall e | 0 <= e < |t.ends|
      ensures ForwardedFactor(plan.models[e], HitRate(t, plan, now.hitRates, e)) <= 1.0
    {
      var source, target := t.nodes[t.ends[e].source], t.nodes[t.ends[e].target];
      HitRateInRange(t, plan, now, e);
      OnlyQueriesMultiply(source, target, architecture.edges[e], p, coverage[t.ends[e].source], enabled[e], false,
                          HitRate(t, plan, now.hitRates, e));
    }
  }
}

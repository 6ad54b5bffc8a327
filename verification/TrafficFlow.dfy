/**
 `executeRequestClasses` and the retry update behind it. In every second each request
 class pushes its demand from its entry nodes along the execution order of the plan;
 what an edge attempted and the errors of its target decide what the class retries on
 that edge in the next second.
 */
module TrafficFlow {
  import opened Numbers
  import opened Wrappers
  import opened Architecture
  import opened Collections
  import opened EdgeTransfer

  datatype Ends = Ends(source: nat, target: nat)

  /** The plan as the engine reads it: everything by position. */
  datatype Topology = Topology(nodes: seq<Node>, ends: seq<Ends>, outgoing: seq<seq<nat>>, order: seq<nat>)

  datatype Entry = Entry(node: nat, weight: real)

  datatype ClassPlan = ClassPlan(share: real, entries: seq<Entry>, terminal: Option<string>, models: seq<EdgeModel>)

  /** What a class retries on each edge, in all and as part of synchronous calls. */
  datatype Retries = Retries(total: seq<real>, synchronous: seq<real>)

  datatype Second = Second(requestedRps: real, forwarding: seq<real>, hitRates: seq<real>)

  datatype NodeFlow = NodeFlow(demand: real, synchronous: real)

  datatype EdgeFlow = EdgeFlow(
    attempted: real, synchronous: real, throughput: real, lost: real, transportLost: real, targetUnavailable: real,
    retry: real, cacheHits: real, cacheMisses: real, asyncQueue: real)

  datatype ClassFlow = ClassFlow(forward: seq<real>, synchronousForward: seq<real>, nodes: seq<NodeFlow>,
                                 edges: seq<EdgeFlow>)

  const NO_NODE_FLOW := NodeFlow(0.0, 0.0)
  const NO_EDGE_FLOW := EdgeFlow(0.0, 0.0, 0.0, 0.0, 0.0, 0.0, 0.0, 0.0, 0.0, 0.0)

  predicate AllBelow(xs: seq<nat>, n: nat) {
    forall k :: 0 <= k < |xs| ==> xs[k] < n
  }

  ghost predicate ValidTopology(t: Topology) {
    && |t.outgoing| == |t.nodes|
    && (forall e :: 0 <= e < |t.ends| ==> t.ends[e].source < |t.nodes| && t.ends[e].target < |t.nodes|)
    && (forall u :: 0 <= u < |t.outgoing| ==> NoDuplicates(t.outgoing[u]))
    && (forall u, k :: 0 <= u < |t.outgoing| && 0 <= k < |t.outgoing[u]| ==>
                         t.outgoing[u][k] < |t.ends| && t.ends[t.outgoing[u][k]].source == u)
    && NoDuplicates(t.order) && AllBelow(t.order, |t.nodes|)
  }

  ghost predicate Fits(t: Topology, plan: ClassPlan) {
    |plan.models| == |t.ends| && forall i :: 0 <= i < |plan.entries| ==> plan.entries[i].node < |t.nodes|
  }

  ghost predicate FitsRetries(t: Topology, r: Retries) {
    |r.total| == |r.synchronous| == |t.ends|
  }

  ghost predicate FitsSecond(t: Topology, now: Second) {
    |now.forwarding| == |now.hitRates| == |t.nodes|
  }

  ghost predicate FitsFlow(t: Topology, flow: ClassFlow) {
    |flow.forward| == |flow.synchronousForward| == |flow.nodes| == |t.nodes| && |flow.edges| == |t.ends|
  }

  // -------------------------------------------------------------- hit rates

  function CoveredShare(t: Topology, plan: ClassPlan, out: seq<nat>): real
    requires |plan.models| == |t.ends| && AllBelow(out, |t.ends|)
  {
    if out == [] then 0.0
    else
      var e := out[|out| - 1];
      CoveredShare(t, plan, out[..|out| - 1]) + CacheShare(plan.models[e])
  }

  /** Share of a source's traffic that an edge brings to a cache. */
  function CacheShare(model: EdgeModel): real {
    if model.cacheTarget && model.trafficShare > 0.0 then Portion(model.trafficShare, model.survivalRate) else 0.0
  }

  function CoveredHits(t: Topology, plan: ClassPlan, out: seq<nat>, hitRates: seq<real>): real
    requires ValidTopology(t) && |plan.models| == |t.ends| && |hitRates| == |t.nodes|
    requires AllBelow(out, |t.ends|)
  {
    if out == [] then 0.0
    else
      var e := out[|out| - 1];
      CoveredHits(t, plan, out[..|out| - 1], hitRates) + Portion(CacheShare(plan.models[e]), hitRates[t.ends[e].target])
  }

  /**
   The hit rate that applies to an edge: of the cache it enters, of the caches beside it, or of
   the cache it leaves.
   */
  function HitRate(t: Topology, plan: ClassPlan, hitRates: seq<real>, e: nat): real
    requires ValidTopology(t) && |plan.models| == |t.ends| && |hitRates| == |t.nodes| && e < |t.ends|
  {
    var model, source := plan.models[e], t.ends[e].source;
    if model.cacheTarget then hitRates[t.ends[e].target]
    else if model.localCacheCoefficient > 0.0 || model.forwardCacheCoefficient > 0.0 then
      var covered := CoveredShare(t, plan, t.outgoing[source]);
      if covered > 0.0 then Clamp(CoveredHits(t, plan, t.outgoing[source], hitRates) / covered, 0.0, 1.0) else 0.0
    else hitRates[source]
  }

  method CacheHitRateForEdge(t: Topology, plan: ClassPlan, hitRates: seq<real>, e: nat) returns (rate: real)
    requires ValidTopology(t) && |plan.models| == |t.ends| && |hitRates| == |t.nodes| && e < |t.ends|
    ensures rate == HitRate(t, plan, hitRates, e)
  {
    var model, source := plan.models[e], t.ends[e].source;
    if model.cacheTarget {
      return hitRates[t.ends[e].target];
    }
    if model.localCacheCoefficient > 0.0 || model.forwardCacheCoefficient > 0.0 {
      var out := t.outgoing[source];
      var covered, weighted := 0.0, 0.0;
      for k := 0 to |out|
        invariant covered == CoveredShare(t, plan, out[..k])
        invariant weighted == CoveredHits(t, plan, out[..k], hitRates)
      {
        assert out[..k + 1][..k] == out[..k];
        var candidate := plan.models[out[k]];
        if candidate.cacheTarget && candidate.trafficShare > 0.0 {
          var share := Portion(candidate.trafficShare, candidate.survivalRate);
          covered := covered + share;
          weighted := weighted + Portion(share, hitRates[t.ends[out[k]].target]);
        }
      }
      assert out[..|out|] == out;
      return if covered > 0.0 then Clamp(weighted / covered, 0.0, 1.0) else 0.0;
    }
    return hitRates[source];
  }

  ghost predicate AllValid(models: seq<EdgeModel>) {
    forall e :: 0 <= e < |models| ==> ValidModel(models[e])
  }

  lemma {:induction false} CoveredBetween(t: Topology, plan: ClassPlan, out: seq<nat>, hitRates: seq<real>, low: real,
                                          high: real)
    requires ValidTopology(t) && |plan.models| == |t.ends| && |hitRates| == |t.nodes|
    requires AllBelow(out, |t.ends|) && AllValid(plan.models)
    requires forall k :: 0 <= k < |out| && plan.models[out[k]].cacheTarget ==>
               low <= hitRates[t.ends[out[k]].target] <= high
    ensures CoveredShare(t, plan, out) >= 0.0
    ensures Portion(low, CoveredShare(t, plan, out)) <= CoveredHits(t, plan, out, hitRates)
            <= Portion(high, CoveredShare(t, plan, out))
  {
    if out != [] {
      var e, before := out[|out| - 1], out[..|out| - 1];
      CoveredBetween(t, plan, before, hitRates, low, high);
      var share := CacheShare(plan.models[e]);
      if share != 0.0 {
        PortionSign(plan.models[e].trafficShare, plan.models[e].survivalRate);
        PortionOfLess(share, low, hitRates[t.ends[e].target]);
        PortionOfLess(share, hitRates[t.ends[e].target], high);
      }
      PortionAdds(low, CoveredShare(t, plan, before), share);
      PortionAdds(high, CoveredShare(t, plan, before), share);
    }
  }

  lemma QuotientBetween(x: real, y: real, low: real, high: real)
    requires y > 0.0 && Portion(low, y) <= x <= Portion(high, y)
    ensures low <= x / y <= high
  {
    var q := x / y;
    assert q * y == x;
    assert (low - q) * y <= 0.0 && (q - high) * y <= 0.0;
  }

  /** Beside caches the rate is a weighted average of theirs: cutting it off at 0 and 1 never applies. */
  lemma HitRateIsAverage(t: Topology, plan: ClassPlan, hitRates: seq<real>, e: nat, low: real, high: real)
    requires ValidTopology(t) && |plan.models| == |t.ends| && |hitRates| == |t.nodes| && e < |t.ends|
    requires AllValid(plan.models) && 0.0 <= low && high <= 1.0
    requires CoveredShare(t, plan, t.outgoing[t.ends[e].source]) > 0.0
    requires var out := t.outgoing[t.ends[e].source];
             forall k :: 0 <= k < |out| && plan.models[out[k]].cacheTarget ==>
                 low <= hitRates[t.ends[out[k]].target] <= high
    requires !plan.models[e].cacheTarget
             && (plan.models[e].localCacheCoefficient > 0.0 || plan.models[e].forwardCacheCoefficient > 0.0)
    ensures low <= HitRate(t, plan, hitRates, e) <= high
    ensures HitRate(t, plan, hitRates, e)
            == CoveredHits(t, plan, t.outgoing[t.ends[e].source], hitRates)
               / CoveredShare(t, plan, t.outgoing[t.ends[e].source])
  {
    var out := t.outgoing[t.ends[e].source];
    CoveredBetween(t, plan, out, hitRates, low, high);
    QuotientBetween(CoveredHits(t, plan, out, hitRates), CoveredShare(t, plan, out), low, high);
  }

  // ----------------------------------------------------- one class, one second

  function SourceDemand(plan: ClassPlan, now: Second, entry: Entry): real {
    Portion(Portion(now.requestedRps, plan.share), entry.weight)
  }

  function Enter(t: Topology, plan: ClassPlan, now: Second, flow: ClassFlow, entry: Entry): (r: ClassFlow)
    requires FitsSecond(t, now) && FitsFlow(t, flow) && entry.node < |t.nodes|
    ensures FitsFlow(t, r)
  {
    var demand := SourceDemand(plan, now, entry);
    var v, passed := entry.node, Portion(demand, now.forwarding[entry.node]);
    flow.(forward := flow.forward[v := flow.forward[v] + passed],
          synchronousForward := flow.synchronousForward[v := flow.synchronousForward[v] + passed],
          nodes := flow.nodes[v := PlusNode(flow.nodes[v], NodeFlow(demand, demand))])
  }

  function StillFlow(t: Topology): (r: ClassFlow)
    ensures FitsFlow(t, r)
  {
    ClassFlow(seq(|t.nodes|, _ => 0.0), seq(|t.nodes|, _ => 0.0), seq(|t.nodes|, _ => NO_NODE_FLOW),
              seq(|t.ends|, _ => NO_EDGE_FLOW))
  }

  /** The class after its first m entries. */
  function Entered(t: Topology, plan: ClassPlan, now: Second, m: nat): (r: ClassFlow)
    requires FitsSecond(t, now) && Fits(t, plan) && m <= |plan.entries|
    ensures FitsFlow(t, r)
  {
    if m == 0 then StillFlow(t) else Enter(t, plan, now, Entered(t, plan, now, m - 1), plan.entries[m - 1])
  }

  predicate Passes(t: Topology, plan: ClassPlan, flow: ClassFlow, e: nat)
    requires FitsFlow(t, flow) && |plan.models| == |t.ends| && e < |t.ends| && t.ends[e].source < |t.nodes|
  {
    var u := t.ends[e].source;
    flow.forward[u] > 0.0 && plan.terminal != Some(t.nodes[u].id) && plan.models[e].trafficShare > 0.0
  }

  function TransferAt(t: Topology, plan: ClassPlan, r: Retries, now: Second, flow: ClassFlow, e: nat): Transfer
    requires ValidTopology(t) && Fits(t, plan) && FitsRetries(t, r) && FitsSecond(t, now) && FitsFlow(t, flow)
             && e < |t.ends|
  {
    var u, v := t.ends[e].source, t.ends[e].target;
    TransferOver(plan.models[e], HitRate(t, plan, now.hitRates, e), flow.forward[u], flow.synchronousForward[u],
                 r.total[e], r.synchronous[e], now.forwarding[v])
  }

  function EdgeFlowOf(model: EdgeModel, x: Transfer, retry: real): EdgeFlow {
    var over := x.transport;
    EdgeFlow(over.attempted, over.synchronous, over.throughput, over.transportLost + over.targetUnavailable,
             over.transportLost, over.targetUnavailable, retry, x.cacheHits, x.cacheMisses,
             if model.asyncQueueTarget then x.work.accepted else 0.0)
  }

  function Receive(t: Topology, flow: ClassFlow, model: EdgeModel, e: nat, x: Transfer, retry: real): (next: ClassFlow)
    requires ValidTopology(t) && FitsFlow(t, flow) && e < |t.ends|
    ensures FitsFlow(t, next)
  {
    var v := t.ends[e].target;
    ClassFlow(flow.forward[v := flow.forward[v] + x.onward.flow],
              flow.synchronousForward[v := flow.synchronousForward[v] + x.onward.synchronous],
              flow.nodes[v := PlusNode(flow.nodes[v], NodeFlow(x.work.accepted, x.work.synchronous))],
              flow.edges[e := EdgeFlowOf(model, x, retry)])
  }

  function Visit(t: Topology, plan: ClassPlan, r: Retries, now: Second, flow: ClassFlow, e: nat): (next: ClassFlow)
    requires ValidTopology(t) && Fits(t, plan) && FitsRetries(t, r) && FitsSecond(t, now) && FitsFlow(t, flow)
             && e < |t.ends|
    ensures FitsFlow(t, next)
  {
    if Passes(t, plan, flow, e) then
        Receive(t, flow, plan.models[e], e, TransferAt(t, plan, r, now, flow, e), r.total[e])
    else flow
  }

  /** The class after its entries and the edges of `route`, in that order. */
  function FlowAlong(t: Topology, plan: ClassPlan, r: Retries, now: Second, route: seq<nat>): (flow: ClassFlow)
    requires ValidTopology(t) && Fits(t, plan) && FitsRetries(t, r) && FitsSecond(t, now)
    requires AllBelow(route, |t.ends|)
    ensures FitsFlow(t, flow)
  {
    if route == [] then Entered(t, plan, now, |plan.entries|)
    else
      var last := |route| - 1;
      Visit(t, plan, r, now, FlowAlong(t, plan, r, now, route[..last]), route[last])
  }

  /** The edges in the order the engine visits them: node by node along the plan, edges as authored. */
  function RouteOver(t: Topology, m: nat): (route: seq<nat>)
    requires ValidTopology(t) && m <= |t.order|
    ensures AllBelow(route, |t.ends|)
  {
    if m == 0 then [] else RouteOver(t, m - 1) + t.outgoing[t.order[m - 1]]
  }

  function Route(t: Topology): (route: seq<nat>)
    requires ValidTopology(t)
    ensures AllBelow(route, |t.ends|)
  {
    RouteOver(t, |t.order|)
  }

  lemma {:induction false} RouteSource(t: Topology, m: nat, k: nat) returns (i: nat)
    requires ValidTopology(t) && m <= |t.order| && k < |RouteOver(t, m)|
    ensures i < m && t.ends[RouteOver(t, m)[k]].source == t.order[i]
  {
    var before, out := RouteOver(t, m - 1), t.outgoing[t.order[m - 1]];
    assert RouteOver(t, m) == before + out;
    if k < |before| {
      i := RouteSource(t, m - 1, k);
    } else {
      i := m - 1;
      assert t.ends[out[k - |before|]].source == t.order[i];
    }
  }

  lemma {:induction false} RouteDistinct(t: Topology, m: nat)
    requires ValidTopology(t) && m <= |t.order|
    ensures NoDuplicates(RouteOver(t, m))
  {
    if m > 0 {
      RouteDistinct(t, m - 1);
      var before, out := RouteOver(t, m - 1), t.outgoing[t.order[m - 1]];
      forall i, j | 0 <= i < j < |before + out|
        ensures (before + out)[i] != (before + out)[j]
      {
        if i < |before| <= j {
          var k := RouteSource(t, m - 1, i);
        }
      }
    }
  }

  // -------------------------------------------------------------- the totals

  function PlusNode(x: NodeFlow, y: NodeFlow): NodeFlow {
    NodeFlow(x.demand + y.demand, x.synchronous + y.synchronous)
  }

  function PlusEdge(x: EdgeFlow, y: EdgeFlow): EdgeFlow {
    EdgeFlow(x.attempted + y.attempted, x.synchronous + y.synchronous, x.throughput + y.throughput, x.lost + y.lost,
             x.transportLost + y.transportLost, x.targetUnavailable + y.targetUnavailable, x.retry + y.retry,
             x.cacheHits + y.cacheHits, x.cacheMisses + y.cacheMisses, x.asyncQueue + y.asyncQueue)
  }

  ghost predicate FitFlows(t: Topology, flows: seq<ClassFlow>) {
    forall c :: 0 <= c < |flows| ==> FitsFlow(t, flows[c])
  }

  ghost function NodeSum(t: Topology, flows: seq<ClassFlow>, m: nat, v: nat): NodeFlow
    requires FitFlows(t, flows) && m <= |flows| && v < |t.nodes|
  {
    if m == 0 then NO_NODE_FLOW else PlusNode(NodeSum(t, flows, m - 1, v), flows[m - 1].nodes[v])
  }

  ghost function EdgeSum(t: Topology, flows: seq<ClassFlow>, m: nat, e: nat): EdgeFlow
    requires FitFlows(t, flows) && m <= |flows| && e < |t.ends|
  {
    if m == 0 then NO_EDGE_FLOW else PlusEdge(EdgeSum(t, flows, m - 1, e), flows[m - 1].edges[e])
  }

  /** The aggregate of every node and edge is the sum over the classes. */
  ghost predicate TotalsHold(t: Topology, flows: seq<ClassFlow>, nodeTotals: seq<NodeFlow>, edgeTotals: seq<EdgeFlow>) {
    && FitFlows(t, flows) && |nodeTotals| == |t.nodes| && |edgeTotals| == |t.ends|
    && (forall v :: 0 <= v < |t.nodes| ==> nodeTotals[v] == NodeSum(t, flows, |flows|, v))
    && (forall e :: 0 <= e < |t.ends| ==> edgeTotals[e] == EdgeSum(t, flows, |flows|, e))
  }

  lemma {:induction false} NodeSumUpdate(t: Topology, flows: seq<ClassFlow>, c: nat, next: ClassFlow, m: nat, v: nat,
                                         delta: NodeFlow)
    requires FitFlows(t, flows) && c < |flows| && FitsFlow(t, next) && m <= |flows| && v < |t.nodes|
    requires next.nodes[v] == PlusNode(flows[c].nodes[v], delta)
    ensures NodeSum(t, flows[c := next], m, v)
            == if c < m then PlusNode(NodeSum(t, flows, m, v), delta) else NodeSum(t, flows, m, v)
  {
    if m > 0 {
      NodeSumUpdate(t, flows, c, next, m - 1, v, delta);
    }
  }

  lemma {:induction false} EdgeSumUpdate(t: Topology, flows: seq<ClassFlow>, c: nat, next: ClassFlow, m: nat, e: nat,
                                         delta: EdgeFlow)
    requires FitFlows(t, flows) && c < |flows| && FitsFlow(t, next) && m <= |flows| && e < |t.ends|
    requires next.edges[e] == PlusEdge(flows[c].edges[e], delta)
    ensures EdgeSum(t, flows[c := next], m, e)
            == if c < m then PlusEdge(EdgeSum(t, flows, m, e), delta) else EdgeSum(t, flows, m, e)
  {
    if m > 0 {
      EdgeSumUpdate(t, flows, c, next, m - 1, e, delta);
    }
  }

  /** Replacing one class keeps the totals when node v and edge e take the difference and the rest stays. */
  lemma TotalsUpdate(t: Topology, flows: seq<ClassFlow>, nodeTotals: seq<NodeFlow>, edgeTotals: seq<EdgeFlow>,
                     c: nat, next: ClassFlow, v: nat, atNode: NodeFlow, e: Option<nat>, atEdge: EdgeFlow)
    requires TotalsHold(t, flows, nodeTotals, edgeTotals) && c < |flows| && FitsFlow(t, next) && v < |t.nodes|
    requires next.nodes == flows[c].nodes[v := PlusNode(flows[c].nodes[v], atNode)]
    requires match e
             case None => next.edges == flows[c].edges
             case Some(k) => k < |t.ends| && flows[c].edges[k] == NO_EDGE_FLOW
                             && next.edges == flows[c].edges[k := atEdge]
    ensures TotalsHold(t, flows[c := next], nodeTotals[v := PlusNode(nodeTotals[v], atNode)],
                       match e case None => edgeTotals case Some(k) => edgeTotals[k := PlusEdge(edgeTotals[k], atEdge)])
  {
    forall w | 0 <= w < |t.nodes|
      ensures NodeSum(t, flows[c := next], |flows|, w)
              == PlusNode(nodeTotals[w], if w == v then atNode else NO_NODE_FLOW)
    {
      NodeSumUpdate(t, flows, c, next, |flows|, w, if w == v then atNode else NO_NODE_FLOW);
    }
    forall k | 0 <= k < |t.ends|
      ensures EdgeSum(t, flows[c := next], |flows|, k)
              == PlusEdge(edgeTotals[k], if e == Some(k) then atEdge else NO_EDGE_FLOW)
    {
      EdgeSumUpdate(t, flows, c, next, |flows|, k, if e == Some(k) then atEdge else NO_EDGE_FLOW);
    }
  }
}

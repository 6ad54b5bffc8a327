/**
 What every second of traffic keeps: attempted flow is accounted for on every edge and
 in every class, synchronous flow is part of the whole, caches split what they accept,
 and the retries left for the next second are what that second needs.
 */
module TrafficLaws {
  import opened Numbers
  import opened Wrappers
  import opened Architecture
  import opened EdgeTransfer
  import opened TrafficFlow

  const MAX_BRANCH_RETRY_PRESSURE: real := 2.8

  ghost predicate ValidClass(t: Topology, plan: ClassPlan) {
    && Fits(t, plan) && AllValid(plan.models) && plan.share >= 0.0
    && forall i :: 0 <= i < |plan.entries| ==> plan.entries[i].weight >= 0.0
  }

  ghost predicate ValidSecond(t: Topology, now: Second) {
    && FitsSecond(t, now) && now.requestedRps >= 0.0
    && forall v :: 0 <= v < |t.nodes| ==> UnitInterval(now.forwarding[v]) && UnitInterval(now.hitRates[v])
  }

  ghost predicate ValidRetries(t: Topology, r: Retries) {
    FitsRetries(t, r) && forall e :: 0 <= e < |t.ends| ==> 0.0 <= r.synchronous[e] <= r.total[e]
  }

  ghost predicate EdgeConserves(f: EdgeFlow) {
    && f.attempted == f.throughput + f.transportLost + f.targetUnavailable
       && f.lost == f.transportLost + f.targetUnavailable
    && f.throughput >= 0.0 && f.transportLost >= 0.0 && f.targetUnavailable >= 0.0
    && 0.0 <= f.synchronous <= f.attempted
    && f.cacheHits >= 0.0 && f.cacheMisses >= 0.0
  }

  ghost predicate EdgeAccounts(model: EdgeModel, f: EdgeFlow) {
    && EdgeConserves(f)
    && f.cacheHits + f.cacheMisses == (if model.cacheTarget then f.throughput else 0.0)
  }

  ghost predicate FlowConserves(t: Topology, plan: ClassPlan, flow: ClassFlow) {
    && FitsFlow(t, flow) && |plan.models| == |t.ends|
    && (forall v :: 0 <= v < |t.nodes| ==> 0.0 <= flow.synchronousForward[v] <= flow.forward[v])
    && (forall v :: 0 <= v < |t.nodes| ==> flow.nodes[v].demand >= 0.0 && flow.nodes[v].synchronous >= 0.0)
    && (forall e :: 0 <= e < |t.ends| ==> EdgeAccounts(plan.models[e], flow.edges[e]))
  }

  lemma SourceDemandSign(t: Topology, plan: ClassPlan, now: Second, i: nat)
    requires ValidClass(t, plan) && ValidSecond(t, now) && i < |plan.entries|
    ensures SourceDemand(plan, now, plan.entries[i]) >= 0.0
  {
    PortionSign(now.requestedRps, plan.share);
    PortionSign(Portion(now.requestedRps, plan.share), plan.entries[i].weight);
  }

  lemma EnterConserves(t: Topology, plan: ClassPlan, now: Second, flow: ClassFlow, entry: Entry)
    requires FitsSecond(t, now) && FlowConserves(t, plan, flow) && entry.node < |t.nodes|
    requires SourceDemand(plan, now, entry) >= 0.0
    requires Portion(SourceDemand(plan, now, entry), now.forwarding[entry.node]) >= 0.0
    ensures FlowConserves(t, plan, Enter(t, plan, now, flow, entry))
  {
  }

  lemma StillConserves(t: Topology, plan: ClassPlan)
    requires |plan.models| == |t.ends|
    ensures FlowConserves(t, plan, StillFlow(t))
  {
    forall e | 0 <= e < |t.ends|
      ensures EdgeAccounts(plan.models[e], StillFlow(t).edges[e])
    {
      assert StillFlow(t).edges[e] == NO_EDGE_FLOW;
    }
  }

  lemma EntrySigns(t: Topology, plan: ClassPlan, now: Second, i: nat)
    requires ValidClass(t, plan) && ValidSecond(t, now) && i < |plan.entries|
    ensures SourceDemand(plan, now, plan.entries[i]) >= 0.0
    ensures Portion(SourceDemand(plan, now, plan.entries[i]), now.forwarding[plan.entries[i].node]) >= 0.0
  {
    SourceDemandSign(t, plan, now, i);
    PortionSign(SourceDemand(plan, now, plan.entries[i]), now.forwarding[plan.entries[i].node]);
  }

  lemma {:induction false} EnteredConserves(t: Topology, plan: ClassPlan, now: Second, m: nat)
    requires ValidClass(t, plan) && ValidSecond(t, now) && m <= |plan.entries|
    ensures FlowConserves(t, plan, Entered(t, plan, now, m))
  {
    if m == 0 {
      StillConserves(t, plan);
    } else {
      EnteredConserves(t, plan, now, m - 1);
      EntrySigns(t, plan, now, m - 1);
      EnterConserves(t, plan, now, Entered(t, plan, now, m - 1), plan.entries[m - 1]);
    }
  }

  lemma HitRateInRange(t: Topology, plan: ClassPlan, now: Second, e: nat)
    requires ValidTopology(t) && ValidClass(t, plan) && ValidSecond(t, now) && e < |t.ends|
    ensures UnitInterval(HitRate(t, plan, now.hitRates, e))
  {
  }

  lemma TransferAccounts(t: Topology, plan: ClassPlan, r: Retries, now: Second, flow: ClassFlow, e: nat)
    requires ValidTopology(t) && ValidClass(t, plan) && ValidSecond(t, now) && ValidRetries(t, r) && e < |t.ends|
    requires FlowConserves(t, plan, flow)
    ensures Conserves(TransferAt(t, plan, r, now, flow, e))
    ensures EdgeAccounts(plan.models[e], EdgeFlowOf(plan.models[e], TransferAt(t, plan, r, now, flow, e), r.total[e]))
  {
    var model, u, v := plan.models[e], t.ends[e].source, t.ends[e].target;
    var hitRate := HitRate(t, plan, now.hitRates, e);
    HitRateInRange(t, plan, now, e);
    TransferConserves(model, hitRate, flow.forward[u], flow.synchronousForward[u], r.total[e], r.synchronous[e],
                      now.forwarding[v]);
    if model.cacheTarget {
      CacheSplits(model, hitRate, flow.forward[u], flow.synchronousForward[u], r.total[e], r.synchronous[e],
                  now.forwarding[v]);
      CacheThroughput(model, hitRate, flow.forward[u], flow.synchronousForward[u], r.total[e], r.synchronous[e],
                      now.forwarding[v]);
    }
  }

  lemma ReceiveConserves(t: Topology, plan: ClassPlan, flow: ClassFlow, e: nat, x: Transfer, retry: real)
    requires ValidTopology(t) && FlowConserves(t, plan, flow) && e < |t.ends|
    requires Conserves(x) && EdgeAccounts(plan.models[e], EdgeFlowOf(plan.models[e], x, retry))
    ensures FlowConserves(t, plan, Receive(t, flow, plan.models[e], e, x, retry))
  {
  }

  /** Whatever the edges visited so far, the flow of the class is accounted for. */
  lemma {:induction false} FlowAlongConserves(t: Topology, plan: ClassPlan, r: Retries, now: Second, route: seq<nat>)
    requires ValidTopology(t) && ValidClass(t, plan) && ValidSecond(t, now) && ValidRetries(t, r)
             && AllBelow(route, |t.ends|)
    ensures FlowConserves(t, plan, FlowAlong(t, plan, r, now, route))
  {
    if route == [] {
      EnteredConserves(t, plan, now, |plan.entries|);
    } else {
      var before, e := route[..|route| - 1], route[|route| - 1];
      FlowAlongConserves(t, plan, r, now, before);
      var flow := FlowAlong(t, plan, r, now, before);
      TransferAccounts(t, plan, r, now, flow, e);
      if Passes(t, plan, flow, e) {
        ReceiveConserves(t, plan, flow, e, TransferAt(t, plan, r, now, flow, e), r.total[e]);
      }
    }
  }

  lemma {:induction false} EnteredTouchesNoEdge(t: Topology, plan: ClassPlan, now: Second, m: nat, e: nat)
    requires FitsSecond(t, now) && Fits(t, plan) && m <= |plan.entries| && e < |t.ends|
    ensures Entered(t, plan, now, m).edges[e] == NO_EDGE_FLOW
  {
    if m > 0 {
      EnteredTouchesNoEdge(t, plan, now, m - 1, e);
    }
  }

  /** An edge that was not visited carries nothing. */
  lemma {:induction false} UnvisitedEdge(t: Topology, plan: ClassPlan, r: Retries, now: Second, route: seq<nat>, e: nat)
    requires ValidTopology(t) && Fits(t, plan) && FitsRetries(t, r) && FitsSecond(t, now) && AllBelow(route, |t.ends|)
    requires e < |t.ends| && e !in route
    ensures FlowAlong(t, plan, r, now, route).edges[e] == NO_EDGE_FLOW
  {
    if route == [] {
      EnteredTouchesNoEdge(t, plan, now, |plan.entries|, e);
    } else {
      UnvisitedEdge(t, plan, r, now, route[..|route| - 1], e);
    }
  }

  lemma PlusConserves(x: EdgeFlow, y: EdgeFlow)
    requires EdgeConserves(x) && EdgeConserves(y)
    ensures EdgeConserves(PlusEdge(x, y))
  {
  }

  /** The aggregate of an edge conserves because every class does. */
  lemma {:induction false} EdgeSumConserves(t: Topology, flows: seq<ClassFlow>, m: nat, e: nat)
    requires FitFlows(t, flows) && m <= |flows| && e < |t.ends|
    requires forall c :: 0 <= c < |flows| ==> EdgeConserves(flows[c].edges[e])
    ensures EdgeConserves(EdgeSum(t, flows, m, e))
  {
    if m > 0 {
      EdgeSumConserves(t, flows, m - 1, e);
      PlusConserves(EdgeSum(t, flows, m - 1, e), flows[m - 1].edges[e]);
    }
  }

  /** Every model of the class knows whether its edge enters a cache. */
  ghost predicate KnowsCaches(t: Topology, plan: ClassPlan)
    requires ValidTopology(t) && Fits(t, plan)
  {
    forall e :: 0 <= e < |t.ends| ==> (plan.models[e].cacheTarget <==> IntoCache(t, e))
  }

  predicate IntoCache(t: Topology, e: nat)
    requires e < |t.ends| && t.ends[e].target < |t.nodes|
  {
    t.nodes[t.ends[e].target].kind.Cache?
  }

  /** At a cache hits plus misses are what gets through; elsewhere there are none. */
  ghost predicate CacheAccounts(into: bool, f: EdgeFlow) {
    f.cacheHits + f.cacheMisses == (if into then f.throughput else 0.0)
  }

  /** So is the aggregate of an edge: all classes know it as an edge into a cache, or none does. */
  lemma {:induction false} EdgeSumSplits(t: Topology, flows: seq<ClassFlow>, m: nat, e: nat, into: bool)
    requires FitFlows(t, flows) && m <= |flows| && e < |t.ends|
    requires forall c :: 0 <= c < |flows| ==> CacheAccounts(into, flows[c].edges[e])
    ensures CacheAccounts(into, EdgeSum(t, flows, m, e))
  {
    if m > 0 {
      EdgeSumSplits(t, flows, m - 1, e, into);
    }
  }

  // ------------------------------------------------------------------ retries

  /** What decides the retries of one edge besides its flow: the errors of its target, if it was measured. */
  datatype Feedback = Feedback(errorRate: Option<real>, maxRetries: int)

  datatype Retry = Retry(total: real, synchronous: real)

  function UnconstrainedRetry(model: EdgeModel, edge: EdgeFlow, errorRate: real, prior: real): real {
    Portion(MaxReal(0.0, edge.attempted - prior),
            Clamp(Portion(errorRate / 100.0, model.retryPressureFactor), 0.0, MAX_BRANCH_RETRY_PRESSURE))
  }

  function RetryBudget(plan: ClassPlan, now: Second, maxRetries: int): real {
    Portion(Portion(now.requestedRps, plan.share), maxRetries as real * MAX_TOPOLOGY_FANOUT_AMPLIFICATION)
  }

  function NextRetry(plan: ClassPlan, model: EdgeModel, now: Second, edge: EdgeFlow, feedback: Feedback,
                     prior: real): Retry {
    if feedback.errorRate.None? || edge.attempted <= 0.0 || model.retryPressureFactor <= 0.0 then Retry(0.0, 0.0)
    else
      var next := MinReal(UnconstrainedRetry(model, edge, feedback.errorRate.value, prior),
                          RetryBudget(plan, now, feedback.maxRetries));
      var synchronousShare := Clamp(edge.synchronous / MaxReal(1.0, edge.attempted), 0.0, 1.0);
      Retry(next, if model.asynchronous then 0.0 else Portion(next, synchronousShare))
  }

  lemma NextRetryIsValid(plan: ClassPlan, model: EdgeModel, now: Second, edge: EdgeFlow, feedback: Feedback,
                         prior: real)
    requires plan.share >= 0.0 && now.requestedRps >= 0.0 && feedback.maxRetries >= 0
    ensures var next := NextRetry(plan, model, now, edge, feedback, prior);
            && 0.0 <= next.synchronous <= next.total <= RetryBudget(plan, now, feedback.maxRetries)
            && (model.asynchronous ==> next.synchronous == 0.0)
  {
    PortionSign(now.requestedRps, plan.share);
    PortionSign(Portion(now.requestedRps, plan.share), feedback.maxRetries as real * MAX_TOPOLOGY_FANOUT_AMPLIFICATION);
    if feedback.errorRate.Some? {
      var pressure := Clamp(Portion(feedback.errorRate.value / 100.0, model.retryPressureFactor), 0.0,
                            MAX_BRANCH_RETRY_PRESSURE);
      PortionSign(MaxReal(0.0, edge.attempted - prior), pressure);
      var next := MinReal(UnconstrainedRetry(model, edge, feedback.errorRate.value, prior),
                          RetryBudget(plan, now, feedback.maxRetries));
      PortionShrinks(next, Clamp(edge.synchronous / MaxReal(1.0, edge.attempted), 0.0, 1.0));
    }
  }

  /**
   Edges with a retrying source, as the first class has them; whether the source retries is the
   same for every class.
   */
  predicate Retried(plans: seq<ClassPlan>, e: nat) {
    |plans| > 0 && e < |plans[0].models| && plans[0].models[e].retryPressureFactor > 0.0
  }

  function FeedbackFor(t: Topology, errorRates: seq<Option<real>>, e: nat): Feedback
    requires ValidTopology(t) && |errorRates| == |t.nodes| && e < |t.ends|
  {
    Feedback(errorRates[t.ends[e].target], MaxRetries(t.nodes[t.ends[e].source]))
  }

  function MaxRetries(node: Node): int {
    match node.config.behavior.resilience
    case Some(resilience) => resilience.maxRetries.GetOr(0)
    case None => 0
  }

  function RetryFor(t: Topology, plans: seq<ClassPlan>, plan: ClassPlan, now: Second, flow: ClassFlow,
                    errorRates: seq<Option<real>>, r: Retries, e: nat): Retry
    requires ValidTopology(t) && Fits(t, plan) && FitsFlow(t, flow) && FitsRetries(t, r) && |errorRates| == |t.nodes|
             && e < |t.ends|
  {
    if Retried(plans, e) then
      NextRetry(plan, plan.models[e], now, flow.edges[e], FeedbackFor(t, errorRates, e), r.total[e])
    else Retry(r.total[e], r.synchronous[e])
  }

  function NextRetries(t: Topology, plans: seq<ClassPlan>, plan: ClassPlan, now: Second, flow: ClassFlow,
                       errorRates: seq<Option<real>>, r: Retries): (next: Retries)
    requires ValidTopology(t) && Fits(t, plan) && FitsFlow(t, flow) && FitsRetries(t, r) && |errorRates| == |t.nodes|
    ensures FitsRetries(t, next)
    ensures forall e :: 0 <= e < |t.ends| ==>
              Retry(next.total[e], next.synchronous[e]) == RetryFor(t, plans, plan, now, flow, errorRates, r, e)
  {
    Retries(seq(|t.ends|, e requires 0 <= e < |t.ends| => RetryFor(t, plans, plan, now, flow, errorRates, r, e).total),
            seq(|t.ends|, e requires 0 <= e < |t.ends| =>
                RetryFor(t, plans, plan, now, flow, errorRates, r, e).synchronous))
  }

  // ------------------------------------------------------------- next second

  ghost predicate ValidPlans(t: Topology, plans: seq<ClassPlan>) {
    && ValidTopology(t)
    && (forall c :: 0 <= c < |plans| ==> ValidClass(t, plans[c]) && KnowsCaches(t, plans[c]))
    && (forall v :: 0 <= v < |t.nodes| ==> MaxRetries(t.nodes[v]) >= 0)
  }

  function NoRetries(t: Topology): (r: Retries)
    ensures FitsRetries(t, r)
  {
    Retries(seq(|t.ends|, _ => 0.0), seq(|t.ends|, _ => 0.0))
  }

  function FlowOf(t: Topology, plan: ClassPlan, r: Retries, now: Second): (flow: ClassFlow)
    requires ValidTopology(t) && Fits(t, plan) && FitsRetries(t, r) && FitsSecond(t, now)
    ensures FitsFlow(t, flow)
  {
    FlowAlong(t, plan, r, now, Route(t))
  }

  /** The plans at the start decide which edges are retried, the plan of now how much. */
  lemma NextRetriesValid(t: Topology, start: seq<ClassPlan>, plans: seq<ClassPlan>, c: nat, now: Second,
                         flow: ClassFlow, errorRates: seq<Option<real>>, r: Retries)
    requires ValidPlans(t, plans) && c < |plans| && ValidSecond(t, now) && |errorRates| == |t.nodes|
             && FitsFlow(t, flow) && ValidRetries(t, r)
    ensures ValidRetries(t, NextRetries(t, start, plans[c], now, flow, errorRates, r))
  {
    var next := NextRetries(t, start, plans[c], now, flow, errorRates, r);
    forall e | 0 <= e < |t.ends|
      ensures 0.0 <= next.synchronous[e] <= next.total[e]
    {
      NextRetryIsValid(plans[c], plans[c].models[e], now, flow.edges[e], FeedbackFor(t, errorRates, e), r.total[e]);
      assert Retry(next.total[e], next.synchronous[e]) == RetryFor(t, start, plans[c], now, flow, errorRates, r, e);
    }
  }
}

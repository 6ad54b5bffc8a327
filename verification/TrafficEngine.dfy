/**
 The traffic engine with the state it updates in place: the flows of the classes, the
 aggregates of nodes and edges, and the retries carried from one second to the next.
 Every method is proved against the specification of one class in `TrafficFlow` and
 keeps the aggregates equal to the sums over the classes.
 */
module TrafficEngine {
  import opened Wrappers
  import opened Architecture
  import opened Collections
  import opened EdgeTransfer
  import opened TrafficFlow
  import opened TrafficLaws
  import opened TrafficRuns

  /** `flow` is what the class has done after its entries and the edges of `route`. */
  ghost predicate IsFlow(t: Topology, plan: ClassPlan, r: Retries, now: Second, route: seq<nat>, flow: ClassFlow) {
    && ValidTopology(t) && Fits(t, plan) && FitsRetries(t, r) && FitsSecond(t, now) && AllBelow(route, |t.ends|)
    && flow == FlowAlong(t, plan, r, now, route)
  }

  class Engine {
    const topology: Topology
    /** The plans the run started with, and the edges that are retried. */
    ghost const start: seq<ClassPlan>
    const retried: seq<bool>
    var nodes: seq<Node>
    var plans: seq<ClassPlan>
    var retries: seq<Retries>
    var flows: seq<ClassFlow>
    var nodeTotals: seq<NodeFlow>
    var edgeTotals: seq<EdgeFlow>

    ghost predicate Valid()
      reads this
    {
      && ValidStart(topology, start) && ValidSetup(topology, Setup(nodes, plans)) && |plans| == |start|
      && |retried| == |topology.ends| && (forall e :: 0 <= e < |retried| ==> (retried[e] <==> Retried(start, e)))
      && |retries| == |plans| && forall c :: 0 <= c < |plans| ==> ValidRetries(topology, retries[c])
    }

    /** The classes before c have taken edge e after `route`, the others are still at `route`. */
    ghost predicate Working(now: Second, route: seq<nat>, e: nat, c: nat)
      requires Valid() && ValidSecond(topology, now)
      reads this
    {
      && |flows| == |plans| && TotalsHold(topology, flows, nodeTotals, edgeTotals)
      && (forall k :: 0 <= k < |plans| && k < c ==> IsFlow(topology, plans[k], retries[k], now, route + [e], flows[k]))
      && (forall k :: c <= k < |plans| ==> IsFlow(topology, plans[k], retries[k], now, route, flows[k]))
    }

    /** All classes have come to the end of `route`. */
    ghost predicate Reached(now: Second, route: seq<nat>)
      requires Valid() && ValidSecond(topology, now)
      reads this
    {
      && |flows| == |plans| && TotalsHold(topology, flows, nodeTotals, edgeTotals)
      && (forall k :: 0 <= k < |plans| ==> IsFlow(topology, plans[k], retries[k], now, route, flows[k]))
    }

    constructor (t: Topology, requestPlans: seq<ClassPlan>)
      requires ValidStart(t, requestPlans)
      ensures Valid() && topology == t && start == requestPlans
      ensures Setup(nodes, plans) == SetupAfter(t, start, [])
      ensures forall c :: 0 <= c < |plans| ==> retries[c] == RetriesAfter(t, start, [], c)
    {
      topology, start, plans, nodes := t, requestPlans, requestPlans, t.nodes;
      retried := seq(|t.ends|, e requires 0 <= e < |t.ends| => Retried(requestPlans, e));
      retries := seq(|requestPlans|, _ => NoRetries(t));
      flows := seq(|requestPlans|, _ => StillFlow(t));
      nodeTotals := seq(|t.nodes|, _ => NO_NODE_FLOW);
      edgeTotals := seq(|t.ends|, _ => NO_EDGE_FLOW);
    }

    // ------------------------------------------------------ interventions

    /** The edges below e out of node v have the new retry pressure, in every class. */
    ghost predicate RefreshedBelow(v: nat, factor: real, e: nat, before: seq<ClassPlan>)
      requires AllFit(topology, before)
      reads this
    {
      |plans| == |before| && forall c :: 0 <= c < |plans| ==>
          plans[c] == RefreshedPlan(topology, before[c], v, factor, e)
    }

    method RefreshEdge(e: nat, v: nat, factor: real, ghost before: seq<ClassPlan>)
      requires AllFit(topology, before) && e < |topology.ends| && topology.ends[e].source == v
      requires RefreshedBelow(v, factor, e, before)
      modifies `plans
      ensures RefreshedBelow(v, factor, e + 1, before)
    {
      for c := 0 to |plans|
        invariant |plans| == |before|
        invariant forall k :: 0 <= k < |plans| ==>
                    plans[k] == RefreshedPlan(topology, before[k], v, factor, if k < c then e + 1 else e)
      {
        var models := plans[c].models[e := plans[c].models[e].(retryPressureFactor := factor)];
        plans := plans[c := plans[c].(models := models)];
        assert plans[c].models == Refreshed(topology, before[c].models, v, factor, e + 1);
      }
    }

    /** The retry pressure of a node goes into the models of all edges out of it. */
    method RefreshRetryPolicyForNode(v: nat, factor: real)
      requires AllFit(topology, plans)
      modifies `plans
      ensures |plans| == |old(plans)|
      ensures forall c :: 0 <= c < |plans| ==>
                plans[c] == RefreshedPlan(topology, old(plans)[c], v, factor, |topology.ends|)
    {
      ghost var before := plans;
      assert forall c :: 0 <= c < |plans| ==> Refreshed(topology, before[c].models, v, factor, 0) == before[c].models;
      for e := 0 to |topology.ends|
        invariant RefreshedBelow(v, factor, e, before)
      {
        if topology.ends[e].source == v {
          RefreshEdge(e, v, factor, before);
        } else {
          assert forall c :: 0 <= c < |plans| ==>
                               Refreshed(topology, before[c].models, v, factor, e + 1)
                                   == Refreshed(topology, before[c].models, v, factor, e);
        }
      }
    }

    method ApplyIntervention(policy: Policy)
      requires Valid() && policy.node < |topology.nodes|
      modifies `nodes, `plans
      ensures Valid() && Setup(nodes, plans) == AfterPolicy(topology, old(Setup(nodes, plans)), policy)
    {
      ghost var before := Setup(nodes, plans);
      PolicyKeepsSetup(topology, before, policy);
      var node := Adjusted(nodes[policy.node], policy);
      nodes := nodes[policy.node := node];
      RefreshRetryPolicyForNode(policy.node, RetryPressureFactor(node));
      assert plans == AfterPolicy(topology, before, policy).plans;
    }

    method ApplyInterventions(policies: seq<Policy>)
      requires Valid() && NodesExist(topology, policies)
      modifies `nodes, `plans
      ensures Valid() && Setup(nodes, plans) == AfterPolicies(topology, old(Setup(nodes, plans)), policies)
    {
      ghost var before := Setup(nodes, plans);
      for k := 0 to |policies|
        invariant Valid() && Setup(nodes, plans) == AfterPolicies(topology, before, policies[..k])
      {
        ApplyIntervention(policies[k]);
        assert policies[..k + 1][..k] == policies[..k];
      }
      assert policies[..|policies|] == policies;
    }

    // --------------------------------------------------------------- flow

    /** Zero flows and aggregates at the start of a second. */
    method Reset()
      requires Valid()
      modifies `flows, `nodeTotals, `edgeTotals
      ensures |flows| == |plans| && forall c :: 0 <= c < |plans| ==> flows[c] == StillFlow(topology)
      ensures TotalsHold(topology, flows, nodeTotals, edgeTotals)
    {
      flows := seq(|plans|, _ => StillFlow(topology));
      nodeTotals := seq(|topology.nodes|, _ => NO_NODE_FLOW);
      edgeTotals := seq(|topology.ends|, _ => NO_EDGE_FLOW);
      forall v | 0 <= v < |topology.nodes|
        ensures NodeSum(topology, flows, |flows|, v) == NO_NODE_FLOW
      {
        StillNodeSum(topology, flows, |flows|, v);
      }
      forall e | 0 <= e < |topology.ends|
        ensures EdgeSum(topology, flows, |flows|, e) == NO_EDGE_FLOW
      {
        StillEdgeSum(topology, flows, |flows|, e);
      }
    }

    method EnterAt(c: nat, i: nat, now: Second)
      requires Valid() && c < |plans| && i < |plans[c].entries| && ValidSecond(topology, now)
      requires |flows| == |plans| && TotalsHold(topology, flows, nodeTotals, edgeTotals)
      requires flows[c] == Entered(topology, plans[c], now, i)
      modifies `flows, `nodeTotals, `edgeTotals
      ensures flows == old(flows)[c := Entered(topology, plans[c], now, i + 1)]
      ensures TotalsHold(topology, flows, nodeTotals, edgeTotals)
    {
      var plan := plans[c];
      var entry := plan.entries[i];
      var demand := SourceDemand(plan, now, entry);
      var next := Enter(topology, plan, now, flows[c], entry);
      TotalsUpdate(topology, flows, nodeTotals, edgeTotals, c, next, entry.node, NodeFlow(demand, demand), None,
                   NO_EDGE_FLOW);
      nodeTotals := nodeTotals[entry.node := PlusNode(nodeTotals[entry.node], NodeFlow(demand, demand))];
      flows := flows[c := next];
    }

    method EnterClass(c: nat, now: Second)
      requires Valid() && c < |plans| && ValidSecond(topology, now)
      requires |flows| == |plans| && TotalsHold(topology, flows, nodeTotals, edgeTotals)
               && flows[c] == StillFlow(topology)
      modifies `flows, `nodeTotals, `edgeTotals
      ensures |flows| == |plans| && flows == old(flows)[c := flows[c]]
      ensures IsFlow(topology, plans[c], retries[c], now, [], flows[c])
      ensures TotalsHold(topology, flows, nodeTotals, edgeTotals)
    {
      for i := 0 to |plans[c].entries|
        invariant flows == old(flows)[c := Entered(topology, plans[c], now, i)]
        invariant TotalsHold(topology, flows, nodeTotals, edgeTotals)
      {
        EnterAt(c, i, now);
      }
    }

    method EnterClasses(now: Second)
      requires Valid() && ValidSecond(topology, now)
      modifies `flows, `nodeTotals, `edgeTotals
      ensures Reached(now, [])
    {
      Reset();
      for c := 0 to |plans|
        invariant |flows| == |plans| && TotalsHold(topology, flows, nodeTotals, edgeTotals)
        invariant forall k :: 0 <= k < c ==> IsFlow(topology, plans[k], retries[k], now, [], flows[k])
        invariant forall k :: c <= k < |plans| ==> flows[k] == StillFlow(topology)
      {
        EnterClass(c, now);
      }
    }

    /** One class on one edge that it has not taken before. */
    method TakeEdge(c: nat, e: nat, now: Second)
      requires Valid() && c < |plans| && ValidSecond(topology, now) && e < |topology.ends|
      requires |flows| == |plans| && TotalsHold(topology, flows, nodeTotals, edgeTotals)
               && flows[c].edges[e] == NO_EDGE_FLOW
      modifies `flows, `nodeTotals, `edgeTotals
      ensures FitsFlow(topology, old(flows[c]))
      ensures flows == old(flows)[c := Visit(topology, plans[c], retries[c], now, old(flows[c]), e)]
      ensures TotalsHold(topology, flows, nodeTotals, edgeTotals)
    {
      var plan, r, flow := plans[c], retries[c], flows[c];
      if Passes(topology, plan, flow, e) {
        var hitRate := CacheHitRateForEdge(topology, plan, now.hitRates, e);
        var ends := topology.ends[e];
        var x := TransferOver(plan.models[e], hitRate, flow.forward[ends.source], flow.synchronousForward[ends.source],
                              r.total[e], r.synchronous[e], now.forwarding[ends.target]);
        Book(c, e, x, r.total[e]);
      }
    }

    /** Adds a transfer to the class and to the aggregates. */
    method Book(c: nat, e: nat, x: Transfer, retry: real)
      requires Valid() && c < |plans| && e < |topology.ends|
      requires |flows| == |plans| && TotalsHold(topology, flows, nodeTotals, edgeTotals)
               && flows[c].edges[e] == NO_EDGE_FLOW
      modifies `flows, `nodeTotals, `edgeTotals
      ensures FitsFlow(topology, old(flows[c]))
      ensures flows == old(flows)[c := Receive(topology, old(flows[c]), plans[c].models[e], e, x, retry)]
      ensures TotalsHold(topology, flows, nodeTotals, edgeTotals)
    {
      var target := topology.ends[e].target;
      var next := Receive(topology, flows[c], plans[c].models[e], e, x, retry);
      var atNode, atEdge := NodeFlow(x.work.accepted, x.work.synchronous), EdgeFlowOf(plans[c].models[e], x, retry);
      TotalsUpdate(topology, flows, nodeTotals, edgeTotals, c, next, target, atNode, Some(e), atEdge);
      nodeTotals := nodeTotals[target := PlusNode(nodeTotals[target], atNode)];
      edgeTotals := edgeTotals[e := PlusEdge(edgeTotals[e], atEdge)];
      flows := flows[c := next];
    }

    method VisitClass(c: nat, e: nat, now: Second, ghost route: seq<nat>)
      requires Valid() && c < |plans| && ValidSecond(topology, now) && e < |topology.ends|
      requires Working(now, route, e, c) && e !in route
      modifies `flows, `nodeTotals, `edgeTotals
      ensures Working(now, route, e, c + 1)
    {
      assert IsFlow(topology, plans[c], retries[c], now, route, flows[c]);
      UnvisitedEdge(topology, plans[c], retries[c], now, route, e);
      TakeEdge(c, e, now);
      assert (route + [e])[..|route|] == route;
    }

    method VisitEdge(e: nat, now: Second, ghost route: seq<nat>)
      requires Valid() && ValidSecond(topology, now) && e < |topology.ends|
      requires Reached(now, route) && e !in route
      modifies `flows, `nodeTotals, `edgeTotals
      ensures Reached(now, route + [e])
    {
      for c := 0 to |plans|
        invariant Working(now, route, e, c)
      {
        VisitClass(c, e, now, route);
      }
    }

    method VisitNode(i: nat, now: Second)
      requires Valid() && ValidSecond(topology, now) && i < |topology.order|
      requires Reached(now, RouteOver(topology, i))
      modifies `flows, `nodeTotals, `edgeTotals
      ensures Reached(now, RouteOver(topology, i + 1))
    {
      var out := topology.outgoing[topology.order[i]];
      ghost var before := RouteOver(topology, i);
      RouteDistinct(topology, i + 1);
      assert before + out[..0] == before;
      for k := 0 to |out|
        invariant Reached(now, before + out[..k])
      {
        NotBefore(before, out, k);
        VisitEdge(out[k], now, before + out[..k]);
        assert before + out[..k] + [out[k]] == before + out[..k + 1];
      }
      assert out[..|out|] == out;
    }

    method VisitNodes(now: Second)
      requires Valid() && ValidSecond(topology, now) && Reached(now, [])
      modifies `flows, `nodeTotals, `edgeTotals
      ensures Reached(now, RouteOver(topology, |topology.order|))
    {
      for i := 0 to |topology.order|
        invariant Reached(now, RouteOver(topology, i))
      {
        VisitNode(i, now);
      }
    }

    /** The flows of all classes after every edge of the route, and the aggregates as their sums. */
    method ExecuteRequestClasses(now: Second)
      requires Valid() && ValidSecond(topology, now)
      modifies `flows, `nodeTotals, `edgeTotals
      ensures |flows| == |plans| && TotalsHold(topology, flows, nodeTotals, edgeTotals)
      ensures forall c :: 0 <= c < |plans| ==> flows[c] == FlowOf(topology, plans[c], retries[c], now)
      ensures forall c :: 0 <= c < |plans| ==> FlowConserves(topology, plans[c], flows[c])
      ensures forall e :: 0 <= e < |topology.ends| ==>
                            EdgeConserves(edgeTotals[e]) && CacheAccounts(IntoCache(topology, e), edgeTotals[e])
    {
      EnterClasses(now);
      VisitNodes(now);
      ClassesConserve(topology, plans, retries, now, flows);
      TotalsConserve(topology, flows, nodeTotals, edgeTotals);
      TotalsSplit(topology, plans, flows, nodeTotals, edgeTotals);
    }

    /** The retries of the next second, edge by edge and class by class. */
    method UpdateRetries(now: Second, errorRates: seq<Option<real>>)
      requires Valid() && ValidSecond(topology, now) && |errorRates| == |topology.nodes|
      requires |flows| == |plans| && FitFlows(topology, flows)
      modifies `retries
      ensures Valid()
      ensures forall c :: 0 <= c < |plans| ==>
                            retries[c] == NextRetries(topology, start, plans[c], now, flows[c], errorRates,
                                                      old(retries[c]))
    {
      var before := retries;
      for e := 0 to |topology.ends|
        invariant |retries| == |plans|
        invariant forall c :: 0 <= c < |plans| ==> UpdatedBelow(c, e, now, errorRates, before[c])
      {
        if retried[e] {
          UpdateEdge(e, now, errorRates, before);
        }
      }
      forall c | 0 <= c < |plans|
        ensures retries[c] == NextRetries(topology, start, plans[c], now, flows[c], errorRates, before[c])
        ensures ValidRetries(topology, retries[c])
      {
        assert UpdatedBelow(c, |topology.ends|, now, errorRates, before[c]);
        NextRetriesValid(topology, start, plans, c, now, flows[c], errorRates, before[c]);
      }
    }

    /** The first m edges of class c hold the next retries, the others those of before. */
    ghost predicate UpdatedBelow(c: nat, m: nat, now: Second, errorRates: seq<Option<real>>, r: Retries)
      requires ValidPlans(topology, plans) && |retries| == |flows| == |plans| && c < |plans|
               && FitFlows(topology, flows)
      requires FitsSecond(topology, now) && |errorRates| == |topology.nodes| && FitsRetries(topology, r)
      reads this
    {
      var next := NextRetries(topology, start, plans[c], now, flows[c], errorRates, r);
      && FitsRetries(topology, retries[c])
      && forall e :: 0 <= e < |topology.ends| ==>
                       && retries[c].total[e] == (if e < m then next.total[e] else r.total[e])
                       && retries[c].synchronous[e] == (if e < m then next.synchronous[e] else r.synchronous[e])
    }

    method UpdateEdge(e: nat, now: Second, errorRates: seq<Option<real>>, ghost before: seq<Retries>)
      requires ValidPlans(topology, plans) && ValidSecond(topology, now) && |errorRates| == |topology.nodes|
      requires |retries| == |flows| == |plans| == |before| && FitFlows(topology, flows)
      requires forall c :: 0 <= c < |plans| ==> FitsRetries(topology, before[c])
      requires e < |topology.ends| && Retried(start, e)
      requires forall c :: 0 <= c < |plans| ==> UpdatedBelow(c, e, now, errorRates, before[c])
      modifies `retries
      ensures |retries| == |plans|
      ensures forall c :: 0 <= c < |plans| ==> UpdatedBelow(c, e + 1, now, errorRates, before[c])
    {
      for c := 0 to |plans|
        invariant |retries| == |plans|
        invariant forall k :: 0 <= k < |plans| ==>
                    UpdatedBelow(k, if k < c then e + 1 else e, now, errorRates, before[k])
      {
        assert UpdatedBelow(c, e, now, errorRates, before[c]);
        var r := retries[c];
        var next := NextRetry(plans[c], plans[c].models[e], now, flows[c].edges[e],
                              FeedbackFor(topology, errorRates, e), r.total[e]);
        retries := retries[c := Retries(r.total[e := next.total], r.synchronous[e := next.synchronous])];
        assert UpdatedBelow(c, e + 1, now, errorRates, before[c]);
      }
    }

    /** One whole second: the engine is then where the run of the specification is. */
    method RunSecond(input: Input, ghost past: seq<Input>)
      requires Valid() && ValidInput(topology, input) && ValidInputs(topology, past)
      requires Setup(nodes, plans) == SetupAfter(topology, start, past)
      requires forall c :: 0 <= c < |plans| ==> retries[c] == RetriesAfter(topology, start, past, c)
      modifies this
      ensures Valid() && ValidInputs(topology, past + [input])
      ensures Setup(nodes, plans) == SetupAfter(topology, start, past + [input])
      ensures |flows| == |plans| && TotalsHold(topology, flows, nodeTotals, edgeTotals)
      ensures forall c :: 0 <= c < |plans| ==> flows[c] == FlowOf(topology, plans[c], old(retries)[c], input.now)
      ensures forall c :: 0 <= c < |plans| ==> retries[c] == RetriesAfter(topology, start, past + [input], c)
    {
      assert (past + [input])[..|past|] == past;
      ApplyInterventions(input.policies);
      ExecuteRequestClasses(input.now);
      UpdateRetries(input.now, input.errorRates);
    }
  }

  lemma ClassesConserve(t: Topology, plans: seq<ClassPlan>, retries: seq<Retries>, now: Second, flows: seq<ClassFlow>)
    requires ValidPlans(t, plans) && ValidSecond(t, now) && |flows| == |retries| == |plans|
    requires FitFlows(t, flows) && forall c :: 0 <= c < |plans| ==> ValidRetries(t, retries[c])
    requires forall c :: 0 <= c < |plans| ==> IsFlow(t, plans[c], retries[c], now, Route(t), flows[c])
    ensures forall c :: 0 <= c < |plans| ==>
              ValidRetries(t, retries[c]) && flows[c] == FlowOf(t, plans[c], retries[c], now)
    ensures forall c :: 0 <= c < |plans| ==> FlowConserves(t, plans[c], flows[c])
    ensures forall c, e :: 0 <= c < |plans| && 0 <= e < |flows[c].edges| ==> EdgeConserves(flows[c].edges[e])
  {
    forall c | 0 <= c < |plans|
      ensures ValidRetries(t, retries[c]) && flows[c] == FlowOf(t, plans[c], retries[c], now)
              && FlowConserves(t, plans[c], flows[c])
    {
      assert IsFlow(t, plans[c], retries[c], now, Route(t), flows[c]);
      FlowAlongConserves(t, plans[c], retries[c], now, Route(t));
    }
  }

  lemma TotalsSplit(t: Topology, plans: seq<ClassPlan>, flows: seq<ClassFlow>, nodeTotals: seq<NodeFlow>,
                    edgeTotals: seq<EdgeFlow>)
    requires ValidPlans(t, plans) && |flows| == |plans| && FitFlows(t, flows)
    requires TotalsHold(t, flows, nodeTotals, edgeTotals)
    requires forall c :: 0 <= c < |plans| ==> FlowConserves(t, plans[c], flows[c])
    ensures forall e :: 0 <= e < |t.ends| ==> CacheAccounts(IntoCache(t, e), edgeTotals[e])
  {
    forall e | 0 <= e < |t.ends|
      ensures CacheAccounts(IntoCache(t, e), edgeTotals[e])
    {
      forall c | 0 <= c < |flows|
        ensures CacheAccounts(IntoCache(t, e), flows[c].edges[e])
      {
        assert KnowsCaches(t, plans[c]) && EdgeAccounts(plans[c].models[e], flows[c].edges[e]);
      }
      EdgeSumSplits(t, flows, |flows|, e, IntoCache(t, e));
    }
  }

  lemma TotalsConserve(t: Topology, flows: seq<ClassFlow>, nodeTotals: seq<NodeFlow>, edgeTotals: seq<EdgeFlow>)
    requires TotalsHold(t, flows, nodeTotals, edgeTotals) && FitFlows(t, flows)
    requires forall c, e :: 0 <= c < |flows| && 0 <= e < |flows[c].edges| ==> EdgeConserves(flows[c].edges[e])
    ensures forall e :: 0 <= e < |t.ends| ==> EdgeConserves(edgeTotals[e])
  {
    forall e | 0 <= e < |t.ends|
      ensures EdgeConserves(edgeTotals[e])
    {
      EdgeSumConserves(t, flows, |flows|, e);
    }
  }

  lemma {:induction false} StillNodeSum(t: Topology, flows: seq<ClassFlow>, m: nat, v: nat)
    requires FitFlows(t, flows) && m <= |flows| && v < |t.nodes|
    requires forall c :: 0 <= c < |flows| ==> flows[c] == StillFlow(t)
    ensures NodeSum(t, flows, m, v) == NO_NODE_FLOW
  {
    if m > 0 {
      StillNodeSum(t, flows, m - 1, v);
    }
  }

  lemma {:induction false} StillEdgeSum(t: Topology, flows: seq<ClassFlow>, m: nat, e: nat)
    requires FitFlows(t, flows) && m <= |flows| && e < |t.ends|
    requires forall c :: 0 <= c < |flows| ==> flows[c] == StillFlow(t)
    ensures EdgeSum(t, flows, m, e) == NO_EDGE_FLOW
  {
    if m > 0 {
      StillEdgeSum(t, flows, m - 1, e);
    }
  }

  lemma NotBefore(before: seq<nat>, out: seq<nat>, k: nat)
    requires NoDuplicates(before + out) && k < |out|
    ensures out[k] !in before + out[..k]
  {
    assert (before + out)[|before| + k] == out[k];
    forall j | 0 <= j < |before| + k
      ensures (before + out[..k])[j] != out[k]
    {
      assert (before + out[..k])[j] == (before + out)[j];
    }
  }
}

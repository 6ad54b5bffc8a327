/**
 Traffic over whole runs. In every second interventions may change the retry policy of
 nodes, which changes the retry pressure in the edge models of every class; then the
 classes push their flow, and what went wrong decides the retries of the next second.
 */
module TrafficRuns {
  import opened Wrappers
  import opened Architecture
  import opened EdgeTransfer
  import opened TrafficFlow
  import opened TrafficLaws

  // ---------------------------------------------------------------- policies

  /** An intervention that changes how a node retries. */
  datatype Policy = CircuitBreaker(node: nat, on: bool) | LoadShedding(node: nat, threshold: real)

  const NO_RESILIENCE := Resilience(None, None, None, None, None, None)

  function Adjusted(node: Node, policy: Policy): Node {
    var current := node.config.behavior.resilience.GetOr(NO_RESILIENCE);
    var next :=
      match policy
      case CircuitBreaker(_, on) => current.(circuitBreaker := Some(on))
      case LoadShedding(_, threshold) => current.(loadSheddingThreshold := Some(threshold));
    node.(config := node.config.(behavior := node.config.behavior.(resilience := Some(next))))
  }

  /** The nodes and class plans in force. */
  datatype Setup = Setup(nodes: seq<Node>, plans: seq<ClassPlan>)

  /** Models whose edges below m out of node v have the given retry pressure. */
  function Refreshed(t: Topology, models: seq<EdgeModel>, v: nat, factor: real, m: nat): (r: seq<EdgeModel>)
    requires |models| == |t.ends|
    ensures |r| == |models|
  {
    seq(|models|, e requires 0 <= e < |models| =>
      if e < m && t.ends[e].source == v then models[e].(retryPressureFactor := factor) else models[e])
  }

  function RefreshedPlan(t: Topology, plan: ClassPlan, v: nat, factor: real, m: nat): ClassPlan
    requires |plan.models| == |t.ends|
  {
    plan.(models := Refreshed(t, plan.models, v, factor, m))
  }

  ghost predicate AllFit(t: Topology, plans: seq<ClassPlan>) {
    forall c :: 0 <= c < |plans| ==> Fits(t, plans[c])
  }

  function AfterPolicy(t: Topology, s: Setup, policy: Policy): (next: Setup)
    requires AllFit(t, s.plans) && policy.node < |s.nodes| == |t.nodes|
    ensures |next.nodes| == |s.nodes| && |next.plans| == |s.plans| && AllFit(t, next.plans)
  {
    var node := Adjusted(s.nodes[policy.node], policy);
    Setup(s.nodes[policy.node := node],
          seq(|s.plans|, c requires 0 <= c < |s.plans| =>
              RefreshedPlan(t, s.plans[c], policy.node, RetryPressureFactor(node), |t.ends|)))
  }

  predicate NodesExist(t: Topology, policies: seq<Policy>) {
    forall k :: 0 <= k < |policies| ==> policies[k].node < |t.nodes|
  }

  function AfterPolicies(t: Topology, s: Setup, policies: seq<Policy>): (next: Setup)
    requires AllFit(t, s.plans) && |s.nodes| == |t.nodes| && NodesExist(t, policies)
    ensures |next.nodes| == |s.nodes| && |next.plans| == |s.plans| && AllFit(t, next.plans)
  {
    if policies == [] then s
    else AfterPolicy(t, AfterPolicies(t, s, policies[..|policies| - 1]), policies[|policies| - 1])
  }

  /** Every edge model has the retry pressure of its source as the source is now. */
  ghost predicate FollowsNodes(t: Topology, nodes: seq<Node>, plan: ClassPlan)
    requires ValidTopology(t) && Fits(t, plan) && |nodes| == |t.nodes|
  {
    forall e :: 0 <= e < |t.ends| ==> plan.models[e].retryPressureFactor == RetryPressureFactor(nodes[t.ends[e].source])
  }

  ghost predicate ValidSetup(t: Topology, s: Setup) {
    && ValidPlans(t, s.plans) && |s.nodes| == |t.nodes|
    && (forall v :: 0 <= v < |t.nodes| ==> MaxRetries(s.nodes[v]) == MaxRetries(t.nodes[v]))
    && forall c :: 0 <= c < |s.plans| ==> FollowsNodes(t, s.nodes, s.plans[c])
  }

  lemma AdjustedKeepsRetries(node: Node, policy: Policy)
    requires MaxRetries(node) >= 0
    ensures MaxRetries(Adjusted(node, policy)) == MaxRetries(node)
    ensures RetryPressureFactor(Adjusted(node, policy)) >= 0.0
    ensures RetryPressureFactor(Adjusted(node, policy)) > 0.0 <==> MaxRetries(node) > 0
  {
    RetryPressureSign(Adjusted(node, policy));
  }

  lemma RefreshedIsValid(t: Topology, nodes: seq<Node>, plan: ClassPlan, v: nat, node: Node)
    requires ValidTopology(t) && ValidClass(t, plan) && KnowsCaches(t, plan)
    requires |nodes| == |t.nodes| && v < |nodes| && FollowsNodes(t, nodes, plan)
    requires RetryPressureFactor(node) >= 0.0
    ensures var next := RefreshedPlan(t, plan, v, RetryPressureFactor(node), |t.ends|);
            ValidClass(t, next) && KnowsCaches(t, next) && FollowsNodes(t, nodes[v := node], next)
  {
    var next := RefreshedPlan(t, plan, v, RetryPressureFactor(node), |t.ends|);
    forall e | 0 <= e < |t.ends|
      ensures ValidModel(next.models[e])
    {
      assert ValidModel(plan.models[e]);
    }
  }

  lemma PolicyKeepsSetup(t: Topology, s: Setup, policy: Policy)
    requires ValidSetup(t, s) && policy.node < |t.nodes|
    ensures ValidSetup(t, AfterPolicy(t, s, policy))
  {
    var node := Adjusted(s.nodes[policy.node], policy);
    var next := AfterPolicy(t, s, policy);
    AdjustedKeepsRetries(s.nodes[policy.node], policy);
    forall c | 0 <= c < |s.plans|
      ensures ValidClass(t, next.plans[c]) && KnowsCaches(t, next.plans[c])
              && FollowsNodes(t, next.nodes, next.plans[c])
    {
      RefreshedIsValid(t, s.nodes, s.plans[c], policy.node, node);
    }
  }

  lemma {:induction false} PoliciesKeepSetup(t: Topology, s: Setup, policies: seq<Policy>)
    requires ValidSetup(t, s) && NodesExist(t, policies)
    ensures ValidSetup(t, AfterPolicies(t, s, policies))
  {
    if policies != [] {
      PoliciesKeepSetup(t, s, policies[..|policies| - 1]);
      PolicyKeepsSetup(t, AfterPolicies(t, s, policies[..|policies| - 1]), policies[|policies| - 1]);
    }
  }

  /**
   Whether an edge is retried at all never changes: it depends on how often its source retries,
   which no intervention touches.
   */
  lemma RetriedByMaxRetries(t: Topology, s: Setup, e: nat)
    requires ValidSetup(t, s) && e < |t.ends|
    ensures Retried(s.plans, e) <==> |s.plans| > 0 && MaxRetries(t.nodes[t.ends[e].source]) > 0
  {
    if |s.plans| > 0 {
      assert FollowsNodes(t, s.nodes, s.plans[0]);
      RetryPressureSign(s.nodes[t.ends[e].source]);
    }
  }

  // --------------------------------------------------------------------- runs

  /**
   One second as the rest of the simulator presents it: interventions, the load, and afterwards
   the measured errors.
   */
  datatype Input = Input(policies: seq<Policy>, now: Second, errorRates: seq<Option<real>>)

  ghost predicate ValidInput(t: Topology, input: Input) {
    NodesExist(t, input.policies) && ValidSecond(t, input.now) && |input.errorRates| == |t.nodes|
  }

  ghost predicate ValidInputs(t: Topology, inputs: seq<Input>) {
    forall k :: 0 <= k < |inputs| ==> ValidInput(t, inputs[k])
  }

  ghost predicate ValidStart(t: Topology, plans: seq<ClassPlan>) {
    ValidSetup(t, Setup(t.nodes, plans))
  }

  /** What is in force after the interventions of the given seconds. */
  ghost function SetupAfter(t: Topology, plans: seq<ClassPlan>, inputs: seq<Input>): (s: Setup)
    requires ValidStart(t, plans) && ValidInputs(t, inputs)
    ensures ValidSetup(t, s) && |s.plans| == |plans|
  {
    if inputs == [] then Setup(t.nodes, plans)
    else
      var before, input := SetupAfter(t, plans, inputs[..|inputs| - 1]), inputs[|inputs| - 1];
      assert ValidInput(t, input);
      PoliciesKeepSetup(t, before, input.policies);
      AfterPolicies(t, before, input.policies)
  }

  /** The retries of class c pending after the given seconds, from a start without any. */
  ghost function RetriesAfter(t: Topology, plans: seq<ClassPlan>, inputs: seq<Input>, c: nat): (r: Retries)
    requires ValidStart(t, plans) && ValidInputs(t, inputs) && c < |plans|
    ensures FitsRetries(t, r)
  {
    if inputs == [] then NoRetries(t)
    else
      var input, before := inputs[|inputs| - 1], RetriesAfter(t, plans, inputs[..|inputs| - 1], c);
      assert ValidInput(t, input);
      var plan := SetupAfter(t, plans, inputs).plans[c];
      NextRetries(t, plans, plan, input.now, FlowOf(t, plan, before, input.now), input.errorRates, before)
  }

  /** In every second of every run the edges retried are those retried at the start. */
  lemma RetriedNeverChanges(t: Topology, plans: seq<ClassPlan>, inputs: seq<Input>, e: nat)
    requires ValidStart(t, plans) && ValidInputs(t, inputs) && e < |t.ends|
    ensures Retried(SetupAfter(t, plans, inputs).plans, e) <==> Retried(plans, e)
  {
    RetriedByMaxRetries(t, SetupAfter(t, plans, inputs), e);
    RetriedByMaxRetries(t, Setup(t.nodes, plans), e);
  }

  lemma {:induction false} RetriesStayValid(t: Topology, plans: seq<ClassPlan>, inputs: seq<Input>, c: nat)
    requires ValidStart(t, plans) && ValidInputs(t, inputs) && c < |plans|
    ensures ValidRetries(t, RetriesAfter(t, plans, inputs, c))
  {
    if inputs != [] {
      var before, input := inputs[..|inputs| - 1], inputs[|inputs| - 1];
      RetriesStayValid(t, plans, before, c);
      var r, current := RetriesAfter(t, plans, before, c), SetupAfter(t, plans, inputs).plans;
      NextRetriesValid(t, plans, current, c, input.now, FlowOf(t, current[c], r, input.now), input.errorRates, r);
    }
  }

  /** In every second of every run the flow of every class is accounted for on every edge. */
  lemma EverySecondConserves(t: Topology, plans: seq<ClassPlan>, inputs: seq<Input>, k: nat, c: nat)
    requires ValidStart(t, plans) && ValidInputs(t, inputs) && c < |plans| && k < |inputs|
    ensures var plan := SetupAfter(t, plans, inputs[..k + 1]).plans[c];
            FlowConserves(t, plan, FlowOf(t, plan, RetriesAfter(t, plans, inputs[..k], c), inputs[k].now))
  {
    assert ValidInput(t, inputs[k]);
    RetriesStayValid(t, plans, inputs[..k], c);
    FlowAlongConserves(t, SetupAfter(t, plans, inputs[..k + 1]).plans[c], RetriesAfter(t, plans, inputs[..k], c),
                       inputs[k].now, Route(t));
  }
}

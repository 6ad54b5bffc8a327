/**
 What a node forwards of a class, as a sum over paths: the engine visits every node once
 and multiplies as it goes; the meaning is the total, over every path from an entry of
 the class, of what the path leaves of the demand. Both agree as long as no node receives
 flow after it was visited and has somewhere to send it.
 */
module FlowPaths {
  import opened Numbers
  import opened Wrappers
  import opened Collections
  import opened Graph
  import opened Paths
  import opened EdgeTransfer
  import opened TrafficFlow
  import opened TrafficLaws
  import Bound = AdmissionBound

  // ------------------------------------------------------- the flow as arcs

  /** The class sends something over edge e and something of it gets through. */
  predicate Open(t: Topology, plan: ClassPlan, e: nat)
    requires ValidTopology(t) && Fits(t, plan) && e < |t.ends|
  {
    && plan.models[e].trafficShare > 0.0 && plan.models[e].survivalRate > 0.0
    && plan.terminal != Some(t.nodes[t.ends[e].source].id)
  }

  /** First the edges of the topology, then an arc into each entry from a node of its own, the workload. */
  ghost function FlowArcAt(t: Topology, plan: ClassPlan, k: nat): Arc<nat>
    requires ValidTopology(t) && Fits(t, plan) && k < |t.ends| + |plan.entries|
  {
    if k < |t.ends| then
      Arc(t.ends[k].source, t.ends[k].target, if Open(t, plan, k) then plan.models[k].trafficShare else 0.0)
    else Arc(|t.nodes|, plan.entries[k - |t.ends|].node, 1.0)
  }

  ghost function FlowArcs(t: Topology, plan: ClassPlan): (arcs: seq<Arc<nat>>)
    requires ValidTopology(t) && Fits(t, plan)
    ensures |arcs| == |t.ends| + |plan.entries|
    ensures forall k :: 0 <= k < |arcs| ==> arcs[k] == FlowArcAt(t, plan, k)
  {
    seq(|t.ends| + |plan.entries|, k requires 0 <= k < |t.ends| + |plan.entries| => FlowArcAt(t, plan, k))
  }

  /** What edge e makes of an amount: its share, the factor passed on, the transport and the target. */
  function PassedOn(t: Topology, plan: ClassPlan, now: Second, e: nat, amount: real): real
    requires ValidTopology(t) && Fits(t, plan) && FitsSecond(t, now) && e < |t.ends|
  {
    var model := plan.models[e];
    var factor := ForwardedFactor(model, HitRate(t, plan, now.hitRates, e));
    Delivered(model, Portion(Portion(amount, model.trafficShare), factor), now.forwarding[t.ends[e].target])
  }

  function EntersWith(t: Topology, plan: ClassPlan, now: Second, i: nat): real
    requires Fits(t, plan) && FitsSecond(t, now) && i < |plan.entries|
  {
    Portion(SourceDemand(plan, now, plan.entries[i]), now.forwarding[plan.entries[i].node])
  }

  ghost function FlowCarry(t: Topology, plan: ClassPlan, now: Second): Carry
    requires ValidTopology(t) && Fits(t, plan) && FitsSecond(t, now)
  {
    (amount: real, k: nat) =>
      if k < |t.ends| then PassedOn(t, plan, now, k, amount)
      else if k < |t.ends| + |plan.entries| then Portion(amount, EntersWith(t, plan, now, k - |t.ends|))
      else 0.0
  }

  lemma PortionSplits(x: real, y: real, z: real, rate: real)
    requires z == x + y
    ensures Portion(z, rate) == Portion(x, rate) + Portion(y, rate)
  {
    assert (x + y) * rate == x * rate + y * rate;
  }

  lemma NothingIsPassedOn(t: Topology, plan: ClassPlan, now: Second, e: nat)
    requires ValidTopology(t) && Fits(t, plan) && FitsSecond(t, now) && e < |t.ends|
    ensures PassedOn(t, plan, now, e, 0.0) == 0.0
  {
    var model := plan.models[e];
    var factor := ForwardedFactor(model, HitRate(t, plan, now.hitRates, e));
    PortionOfZero(model.trafficShare);
    PortionOfZero(factor);
    PortionOfZero(model.survivalRate);
    PortionOfZero(now.forwarding[t.ends[e].target]);
  }

  lemma PortionOfZero(rate: real)
    ensures Portion(0.0, rate) == 0.0 && Portion(rate, 0.0) == 0.0
  {
  }

  lemma PassedOnAdds(t: Topology, plan: ClassPlan, now: Second, e: nat, x: real, y: real, z: real)
    requires ValidTopology(t) && Fits(t, plan) && FitsSecond(t, now) && e < |t.ends| && z == x + y
    ensures PassedOn(t, plan, now, e, z) == PassedOn(t, plan, now, e, x) + PassedOn(t, plan, now, e, y)
  {
    var model := plan.models[e];
    var share, survival, target := model.trafficShare, model.survivalRate, now.forwarding[t.ends[e].target];
    var factor := ForwardedFactor(model, HitRate(t, plan, now.hitRates, e));
    PortionSplits(x, y, z, share);
    PortionSplits(Portion(x, share), Portion(y, share), Portion(z, share), factor);
    var a, b, c := Portion(Portion(x, share), factor), Portion(Portion(y, share), factor),
        Portion(Portion(z, share), factor);
    PortionSplits(a, b, c, survival);
    PortionSplits(Portion(a, survival), Portion(b, survival), Portion(c, survival), target);
  }

  lemma FlowIsAdditive(t: Topology, plan: ClassPlan, now: Second)
    requires ValidTopology(t) && Fits(t, plan) && FitsSecond(t, now)
    ensures Additive(FlowCarry(t, plan, now))
  {
    var carry := FlowCarry(t, plan, now);
    forall k: nat
      ensures carry(0.0, k) == 0.0
    {
      if k < |t.ends| {
        NothingIsPassedOn(t, plan, now, k);
      } else if k < |t.ends| + |plan.entries| {
        PortionOfZero(EntersWith(t, plan, now, k - |t.ends|));
      }
    }
    forall x, y, z, k: nat | z == x + y
      ensures carry(z, k) == carry(x, k) + carry(y, k)
    {
      if k < |t.ends| {
        PassedOnAdds(t, plan, now, k, x, y, z);
      } else if k < |t.ends| + |plan.entries| {
        PortionSplits(x, y, z, EntersWith(t, plan, now, k - |t.ends|));
      }
    }
  }

  // ------------------------------------------------------- the route in order

  /** Sources along the route appear in the order of the plan. */
  lemma {:induction false} RouteInOrder(t: Topology, m: nat, k: nat, l: nat) returns (i: nat, j: nat)
    requires ValidTopology(t) && m <= |t.order| && k <= l < |RouteOver(t, m)|
    ensures i <= j < m && t.ends[RouteOver(t, m)[k]].source == t.order[i]
            && t.ends[RouteOver(t, m)[l]].source == t.order[j]
  {
    var before, out := RouteOver(t, m - 1), t.outgoing[t.order[m - 1]];
    assert RouteOver(t, m) == before + out;
    if l < |before| {
      i, j := RouteInOrder(t, m - 1, k, l);
    } else {
      j := m - 1;
      assert t.ends[out[l - |before|]].source == t.order[j];
      i := RouteSource(t, m, k);
    }
  }

  /** The outgoing lists hold every edge. */
  ghost predicate HoldsAllEdges(t: Topology)
    requires ValidTopology(t)
  {
    forall e :: 0 <= e < |t.ends| ==> e in t.outgoing[t.ends[e].source]
  }

  lemma {:induction false} RouteHolds(t: Topology, m: nat, i: nat, e: nat)
    requires ValidTopology(t) && m <= |t.order| && i < m && e in t.outgoing[t.order[i]]
    ensures e in RouteOver(t, m)
  {
    assert RouteOver(t, m) == RouteOver(t, m - 1) + t.outgoing[t.order[m - 1]];
    if i < m - 1 {
      RouteHolds(t, m - 1, i, e);
    }
  }

  /** Edge e brings flow to the source of edge f, but not before that source was visited. */
  ghost predicate Late(t: Topology, usable: set<nat>, e: nat, f: nat, i: nat, j: nat)
    requires ValidTopology(t)
  {
    && e < |t.ends| && f < |t.ends| && e in usable && f in usable && t.ends[e].target == t.ends[f].source
    && j <= i < |t.order| && t.order[i] == t.ends[e].source && t.order[j] == t.ends[f].source
  }

  ghost predicate NothingLate(t: Topology, usable: set<nat>)
    requires ValidTopology(t)
  {
    forall e, f, i, j :: !Late(t, usable, e, f, i, j)
  }

  /** The class uses usable edges only, and from the entries on they stay within the order. */
  ghost predicate UsesOnly(t: Topology, plan: ClassPlan, usable: set<nat>)
    requires ValidTopology(t) && Fits(t, plan)
  {
    && (forall e :: 0 <= e < |t.ends| && Open(t, plan, e) ==> e in usable)
    && (forall i :: 0 <= i < |plan.entries| ==> plan.entries[i].node in t.order)
  }

  ghost predicate StaysOrdered(t: Topology, usable: set<nat>)
    requires ValidTopology(t)
  {
    forall e :: 0 <= e < |t.ends| && e in usable && t.ends[e].source in t.order ==> t.ends[e].target in t.order
  }

  /** A class in a second without pending retries. */
  ghost predicate Unhurried(t: Topology, plan: ClassPlan, r: Retries, now: Second) {
    && ValidTopology(t) && ValidClass(t, plan) && ValidSecond(t, now) && ValidRetries(t, r)
    && forall e :: 0 <= e < |r.total| ==> r.total[e] == 0.0
  }

  // ---------------------------------------------------------- along the route

  lemma VisitForward(t: Topology, plan: ClassPlan, r: Retries, now: Second, flow: ClassFlow, e: nat, v: nat)
    requires Unhurried(t, plan, r, now) && FitsFlow(t, flow) && e < |t.ends| && v < |t.nodes|
    requires flow.forward[t.ends[e].source] >= 0.0
    ensures Visit(t, plan, r, now, flow, e).forward[v] == flow.forward[v]
            + (if Open(t, plan, e) && v == t.ends[e].target then
                 PassedOn(t, plan, now, e, flow.forward[t.ends[e].source])
               else 0.0)
  {
    var amount := flow.forward[t.ends[e].source];
    NothingIsPassedOn(t, plan, now, e);
    if Passes(t, plan, flow, e) {
      var x := TransferAt(t, plan, r, now, flow, e);
      Bound.ReceiveForward(t, flow, plan.models[e], e, x, r.total[e], v);
      assert x.onward.flow == PassedOn(t, plan, now, e, amount) by {
        assert Attempted(plan.models[e], amount, r.total[e]) == Portion(amount, plan.models[e].trafficShare);
      }
      if !Open(t, plan, e) {
        NothingSurvives(t, plan, now, e, amount);
      }
    }
  }

  lemma NothingSurvives(t: Topology, plan: ClassPlan, now: Second, e: nat, amount: real)
    requires ValidTopology(t) && Fits(t, plan) && FitsSecond(t, now) && e < |t.ends|
             && plan.models[e].survivalRate == 0.0
    ensures PassedOn(t, plan, now, e, amount) == 0.0
  {
    var factor := ForwardedFactor(plan.models[e], HitRate(t, plan, now.hitRates, e));
    PortionOfZero(Portion(Portion(amount, plan.models[e].trafficShare), factor));
    PortionOfZero(now.forwarding[t.ends[e].target]);
  }

  lemma AlongIsNonNegative(t: Topology, plan: ClassPlan, r: Retries, now: Second, route: seq<nat>, v: nat)
    requires Unhurried(t, plan, r, now) && AllBelow(route, |t.ends|) && v < |t.nodes|
    ensures FlowAlong(t, plan, r, now, route).forward[v] >= 0.0
  {
    FlowAlongConserves(t, plan, r, now, route);
  }

  lemma AlongStep(t: Topology, plan: ClassPlan, r: Retries, now: Second, route: seq<nat>, k: nat, v: nat)
    requires Unhurried(t, plan, r, now) && AllBelow(route, |t.ends|) && k < |route| && v < |t.nodes|
    ensures var u := t.ends[route[k]].source;
            FlowAlong(t, plan, r, now, route[..k + 1]).forward[v] == FlowAlong(t, plan, r, now, route[..k]).forward[v]
            + (if Open(t, plan, route[k]) && v == t.ends[route[k]].target then
                 PassedOn(t, plan, now, route[k], FlowAlong(t, plan, r, now, route[..k]).forward[u])
               else 0.0)
  {
    assert route[..k + 1][..k] == route[..k];
    AlongIsNonNegative(t, plan, r, now, route[..k], t.ends[route[k]].source);
    VisitForward(t, plan, r, now, FlowAlong(t, plan, r, now, route[..k]), route[k], v);
  }

  /** No edge from here on along the route brings anything to u. */
  ghost predicate Complete(t: Topology, plan: ClassPlan, route: seq<nat>, k: nat, u: nat)
    requires ValidTopology(t) && Fits(t, plan) && AllBelow(route, |t.ends|)
  {
    forall l :: k <= l < |route| ==> !(Open(t, plan, route[l]) && t.ends[route[l]].target == u)
  }

  lemma {:induction false} CompleteStays(t: Topology, plan: ClassPlan, r: Retries, now: Second, route: seq<nat>, k: nat,
                                         u: nat)
    requires Unhurried(t, plan, r, now) && AllBelow(route, |t.ends|) && k <= |route| && u < |t.nodes|
    requires Complete(t, plan, route, k, u)
    ensures FlowAlong(t, plan, r, now, route).forward[u] == FlowAlong(t, plan, r, now, route[..k]).forward[u]
    decreases |route| - k
  {
    if k == |route| {
      assert route[..k] == route;
    } else {
      AlongStep(t, plan, r, now, route, k, u);
      CompleteStays(t, plan, r, now, route, k + 1, u);
    }
  }

  /** Where nothing is late, a node that sends has received everything. */
  lemma SenderIsComplete(t: Topology, plan: ClassPlan, usable: set<nat>, k: nat)
    requires ValidTopology(t) && Fits(t, plan) && UsesOnly(t, plan, usable) && NothingLate(t, usable)
    requires k < |Route(t)| && Open(t, plan, Route(t)[k])
    ensures Complete(t, plan, Route(t), k, t.ends[Route(t)[k]].source)
  {
    var route := Route(t);
    forall l | k <= l < |route| && Open(t, plan, route[l]) && t.ends[route[l]].target == t.ends[route[k]].source
      ensures false
    {
      var j, i := RouteInOrder(t, |t.order|, k, l);
      assert Late(t, usable, route[l], route[k], i, j);
    }
  }

  // ------------------------------------------------------------ the recurrence

  ghost function Senders(t: Topology): set<nat> {
    Members(t.order) + {|t.nodes|}
  }

  /** What every node forwards in the end, and one unit at the workload. */
  ghost function Finally(t: Topology, plan: ClassPlan, r: Retries, now: Second): (a: seq<real>)
    requires Unhurried(t, plan, r, now)
    ensures |a| == |t.nodes| + 1
  {
    FlowOf(t, plan, r, now).forward + [1.0]
  }

  ghost function Arrived(t: Topology, plan: ClassPlan, r: Retries, now: Second, taken: set<nat>, v: nat): real
    requires Unhurried(t, plan, r, now)
  {
    Bound.InFlowOver(FlowArcs(t, plan), FlowCarry(t, plan, now), taken, |t.ends|, Senders(t), Finally(t, plan, r, now),
                     v)
  }

  lemma EdgeSends(t: Topology, plan: ClassPlan, r: Retries, now: Second, e: nat, v: nat)
    requires Unhurried(t, plan, r, now) && e < |t.ends| && t.ends[e].source in t.order
    ensures Sent(FlowArcs(t, plan), FlowCarry(t, plan, now), e, Senders(t), Finally(t, plan, r, now), v)
            == if Open(t, plan, e) && v == t.ends[e].target then
                 PassedOn(t, plan, now, e, Finally(t, plan, r, now)[t.ends[e].source])
               else 0.0
  {
    assert FlowArcs(t, plan)[e] == FlowArcAt(t, plan, e);
  }

  /** A step of the route brings what its edge would bring in the end. */
  lemma StepIsFinal(t: Topology, plan: ClassPlan, r: Retries, now: Second, usable: set<nat>, k: nat, v: nat)
    requires Unhurried(t, plan, r, now) && UsesOnly(t, plan, usable) && NothingLate(t, usable)
    requires k < |Route(t)| && v < |t.nodes|
    ensures var e := Route(t)[k];
            FlowAlong(t, plan, r, now, Route(t)[..k + 1]).forward[v]
                == FlowAlong(t, plan, r, now, Route(t)[..k]).forward[v]
            + (if Open(t, plan, e) && v == t.ends[e].target then
                 PassedOn(t, plan, now, e, Finally(t, plan, r, now)[t.ends[e].source])
               else 0.0)
  {
    var route, e := Route(t), Route(t)[k];
    AlongStep(t, plan, r, now, route, k, v);
    if Open(t, plan, e) {
      SenderIsComplete(t, plan, usable, k);
      CompleteStays(t, plan, r, now, route, k, t.ends[e].source);
    }
  }

  lemma StepArrives(t: Topology, plan: ClassPlan, r: Retries, now: Second, usable: set<nat>, k: nat, v: nat)
    requires Unhurried(t, plan, r, now) && UsesOnly(t, plan, usable) && NothingLate(t, usable)
    requires k < |Route(t)| && v < |t.nodes|
    ensures FlowAlong(t, plan, r, now, Route(t)[..k + 1]).forward[v]
            - FlowAlong(t, plan, r, now, Route(t)[..k]).forward[v]
            == Arrived(t, plan, r, now, Members(Route(t)[..k + 1]), v)
              - Arrived(t, plan, r, now, Members(Route(t)[..k]), v)
  {
    StepIsFinal(t, plan, r, now, usable, k, v);
    TakeNext(t, plan, r, now, k, v);
  }

  lemma NothingArrived(t: Topology, plan: ClassPlan, r: Retries, now: Second, v: nat)
    requires Unhurried(t, plan, r, now) && v < |t.nodes|
    ensures Arrived(t, plan, r, now, {}, v) == 0.0
  {
    Bound.InFlowOverNothing(FlowArcs(t, plan), FlowCarry(t, plan, now), |t.ends|, Senders(t), Finally(t, plan, r, now),
                            v);
  }

  lemma StartsEntered(t: Topology, plan: ClassPlan, r: Retries, now: Second, v: nat)
    requires Unhurried(t, plan, r, now) && v < |t.nodes|
    ensures FlowAlong(t, plan, r, now, Route(t)[..0]).forward[v] - Arrived(t, plan, r, now, Members(Route(t)[..0]), v)
            == Entered(t, plan, now, |plan.entries|).forward[v]
  {
    assert Route(t)[..0] == [] && Members(Route(t)[..0]) == {};
    NothingArrived(t, plan, r, now, v);
  }

  /** Along the route every node stands at its entries and what the edges taken bring, measured by the final values. */
  lemma {:induction false} AlongIsArrived(t: Topology, plan: ClassPlan, r: Retries, now: Second, usable: set<nat>,
                                          k: nat, v: nat)
    requires Unhurried(t, plan, r, now) && UsesOnly(t, plan, usable) && NothingLate(t, usable)
    requires k <= |Route(t)| && v < |t.nodes|
    ensures FlowAlong(t, plan, r, now, Route(t)[..k]).forward[v] - Arrived(t, plan, r, now, Members(Route(t)[..k]), v)
            == Entered(t, plan, now, |plan.entries|).forward[v]
  {
    if k == 0 {
      StartsEntered(t, plan, r, now, v);
    } else {
      AlongIsArrived(t, plan, r, now, usable, k - 1, v);
      StepArrives(t, plan, r, now, usable, k - 1, v);
    }
  }

  lemma TakeNext(t: Topology, plan: ClassPlan, r: Retries, now: Second, k: nat, v: nat)
    requires Unhurried(t, plan, r, now) && k < |Route(t)| && v < |t.nodes|
    ensures var e := Route(t)[k];
            Arrived(t, plan, r, now, Members(Route(t)[..k + 1]), v)
                == Arrived(t, plan, r, now, Members(Route(t)[..k]), v)
            + (if Open(t, plan, e) && v == t.ends[e].target then
                 PassedOn(t, plan, now, e, Finally(t, plan, r, now)[t.ends[e].source])
               else 0.0)
  {
    var route, e := Route(t), Route(t)[k];
    RouteDistinct(t, |t.order|);
    var i := RouteSource(t, |t.order|, k);
    assert Members(route[..k + 1]) == Members(route[..k]) + {e};
    Bound.InFlowOverAdd(FlowArcs(t, plan), FlowCarry(t, plan, now), Members(route[..k]), e, |t.ends|, Senders(t),
                        Finally(t, plan, r, now), v);
    EdgeSends(t, plan, r, now, e, v);
  }

  lemma {:induction false} AllTaken(arcs: seq<Arc<nat>>, carry: Carry, taken: set<nat>, m: nat, from: set<nat>,
                                    a: seq<real>, v: nat)
    requires m <= |arcs| && forall e :: 0 <= e < m && arcs[e].src in from ==> e in taken
    ensures Bound.InFlowOver(arcs, carry, taken, m, from, a, v) == InFlow(arcs, carry, m, from, a, v)
  {
    if m > 0 {
      AllTaken(arcs, carry, taken, m - 1, from, a, v);
    }
  }

  /** What the first m arcs bring in the end. */
  ghost function Inflow(t: Topology, plan: ClassPlan, r: Retries, now: Second, m: nat, v: nat): real
    requires Unhurried(t, plan, r, now) && m <= |t.ends| + |plan.entries|
  {
    InFlow(FlowArcs(t, plan), FlowCarry(t, plan, now), m, Senders(t), Finally(t, plan, r, now), v)
  }

  /** Arc base + i brings what lies between g(i) and g(i + 1). */
  ghost predicate Brings(arcs: seq<Arc<nat>>, carry: Carry, from: set<nat>, a: seq<real>, v: nat, base: nat,
                         g: nat -> real, i: nat) {
    base + i < |arcs| && Sent(arcs, carry, base + i, from, a, v) == g(i + 1) - g(i)
  }

  lemma {:induction false} InFlowBrought(arcs: seq<Arc<nat>>, carry: Carry, from: set<nat>, a: seq<real>, v: nat,
                                         base: nat, g: nat -> real, m: nat)
    requires base + m <= |arcs| && forall i: nat :: i < m ==> Brings(arcs, carry, from, a, v, base, g, i)
    ensures InFlow(arcs, carry, base + m, from, a, v) - g(m) == InFlow(arcs, carry, base, from, a, v) - g(0)
  {
    if m > 0 {
      InFlowBrought(arcs, carry, from, a, v, base, g, m - 1);
      assert Brings(arcs, carry, from, a, v, base, g, m - 1);
    }
  }

  ghost function EnteredAt(t: Topology, plan: ClassPlan, now: Second, v: nat): nat -> real
    requires Fits(t, plan) && FitsSecond(t, now) && v < |t.nodes|
  {
    (i: nat) => if i <= |plan.entries| then Entered(t, plan, now, i).forward[v] else 0.0
  }

  lemma EntryBrings(t: Topology, plan: ClassPlan, r: Retries, now: Second, v: nat, g: nat -> real, i: nat)
    requires Unhurried(t, plan, r, now) && i < |plan.entries| && v < |t.nodes|
    requires g(i + 1) - g(i) == if v == plan.entries[i].node then EntersWith(t, plan, now, i) else 0.0
    ensures Brings(FlowArcs(t, plan), FlowCarry(t, plan, now), Senders(t), Finally(t, plan, r, now), v, |t.ends|, g, i)
  {
    EntrySends(t, plan, r, now, i, v);
  }

  lemma EnteredOneMore(t: Topology, plan: ClassPlan, now: Second, v: nat, i: nat)
    requires Fits(t, plan) && FitsSecond(t, now) && i < |plan.entries| && v < |t.nodes|
    ensures Entered(t, plan, now, i + 1).forward[v] == Entered(t, plan, now, i).forward[v]
            + (if v == plan.entries[i].node then EntersWith(t, plan, now, i) else 0.0)
  {
    var before, entry := Entered(t, plan, now, i), plan.entries[i];
    Bound.EnterForward(t, plan, now, before, entry, v);
    assert Entered(t, plan, now, i + 1) == Enter(t, plan, now, before, entry);
  }

  ghost predicate IsEnteredAt(t: Topology, plan: ClassPlan, now: Second, v: nat, g: nat -> real, i: nat)
    requires Fits(t, plan) && FitsSecond(t, now) && v < |t.nodes| && i <= |plan.entries|
  {
    g(i) == Entered(t, plan, now, i).forward[v]
  }

  lemma EntryEnters(t: Topology, plan: ClassPlan, now: Second, v: nat, g: nat -> real, i: nat)
    requires Fits(t, plan) && FitsSecond(t, now) && i < |plan.entries| && v < |t.nodes|
    requires IsEnteredAt(t, plan, now, v, g, i) && IsEnteredAt(t, plan, now, v, g, i + 1)
    ensures g(i + 1) - g(i) == if v == plan.entries[i].node then EntersWith(t, plan, now, i) else 0.0
  {
    EnteredOneMore(t, plan, now, v, i);
  }

  lemma NothingEntered(t: Topology, plan: ClassPlan, now: Second, v: nat)
    requires Fits(t, plan) && FitsSecond(t, now) && v < |t.nodes|
    ensures EnteredAt(t, plan, now, v)(0) == 0.0
  {
  }

  lemma EntriesBring(t: Topology, plan: ClassPlan, r: Retries, now: Second, v: nat)
    requires Unhurried(t, plan, r, now) && v < |t.nodes|
    ensures forall i: nat :: i < |plan.entries| ==>
                               Brings(FlowArcs(t, plan), FlowCarry(t, plan, now), Senders(t), Finally(t, plan, r, now),
                                      v, |t.ends|, EnteredAt(t, plan, now, v), i)
  {
    forall i: nat | i < |plan.entries|
      ensures Brings(FlowArcs(t, plan), FlowCarry(t, plan, now), Senders(t), Finally(t, plan, r, now), v, |t.ends|,
                     EnteredAt(t, plan, now, v), i)
    {
      assert IsEnteredAt(t, plan, now, v, EnteredAt(t, plan, now, v), i + 1);
      EntryEnters(t, plan, now, v, EnteredAt(t, plan, now, v), i);
      EntryBrings(t, plan, r, now, v, EnteredAt(t, plan, now, v), i);
    }
  }

  /** The arcs into the entries bring what the class enters with, given as g. */
  lemma EntriesArrive(t: Topology, plan: ClassPlan, r: Retries, now: Second, v: nat, g: nat -> real)
    requires Unhurried(t, plan, r, now) && v < |t.nodes| && g(0) == 0.0
    requires forall i: nat :: i < |plan.entries| ==>
                                Brings(FlowArcs(t, plan), FlowCarry(t, plan, now), Senders(t), Finally(t, plan, r, now),
                                       v, |t.ends|, g, i)
    ensures Inflow(t, plan, r, now, |t.ends| + |plan.entries|, v)
            == Inflow(t, plan, r, now, |t.ends|, v) + g(|plan.entries|)
  {
    InFlowBrought(FlowArcs(t, plan), FlowCarry(t, plan, now), Senders(t), Finally(t, plan, r, now), v, |t.ends|,
                  g, |plan.entries|);
  }

  lemma EntrySends(t: Topology, plan: ClassPlan, r: Retries, now: Second, i: nat, v: nat)
    requires Unhurried(t, plan, r, now) && i < |plan.entries| && v < |t.nodes|
    ensures Sent(FlowArcs(t, plan), FlowCarry(t, plan, now), |t.ends| + i, Senders(t), Finally(t, plan, r, now), v)
            == if v == plan.entries[i].node then EntersWith(t, plan, now, i) else 0.0
  {
    assert FlowArcs(t, plan)[|t.ends| + i] == FlowArcAt(t, plan, |t.ends| + i);
    PortionOfUnit(EntersWith(t, plan, now, i));
  }

  lemma PortionOfUnit(rate: real)
    ensures Portion(1.0, rate) == rate
  {
  }

  lemma RouteTakesAll(t: Topology, e: nat)
    requires ValidTopology(t) && HoldsAllEdges(t) && e < |t.ends| && t.ends[e].source in t.order
    ensures e in Route(t)
  {
    var i :| 0 <= i < |t.order| && t.order[i] == t.ends[e].source;
    RouteHolds(t, |t.order|, i, e);
  }

  lemma EdgesArrive(t: Topology, plan: ClassPlan, r: Retries, now: Second, v: nat)
    requires Unhurried(t, plan, r, now) && HoldsAllEdges(t) && v < |t.nodes|
    ensures Arrived(t, plan, r, now, Members(Route(t)), v) == Inflow(t, plan, r, now, |t.ends|, v)
  {
    var arcs := FlowArcs(t, plan);
    forall e | 0 <= e < |t.ends| && arcs[e].src in Senders(t)
      ensures e in Members(Route(t))
    {
      assert arcs[e] == FlowArcAt(t, plan, e);
      RouteTakesAll(t, e);
    }
    AllTaken(arcs, FlowCarry(t, plan, now), Members(Route(t)), |t.ends|, Senders(t), Finally(t, plan, r, now), v);
  }

  /** In the end every node holds what its predecessors, as they end up, send it. */
  lemma NodeHoldsInflow(t: Topology, plan: ClassPlan, r: Retries, now: Second, usable: set<nat>, v: nat)
    requires Unhurried(t, plan, r, now) && UsesOnly(t, plan, usable) && NothingLate(t, usable) && HoldsAllEdges(t)
    requires v < |t.nodes|
    ensures Finally(t, plan, r, now)[v] == Inflow(t, plan, r, now, |t.ends| + |plan.entries|, v)
  {
    AlongIsArrived(t, plan, r, now, usable, |Route(t)|, v);
    assert Route(t)[..|Route(t)|] == Route(t);
    EdgesArrive(t, plan, r, now, v);
    EntriesBring(t, plan, r, now, v);
    NothingEntered(t, plan, now, v);
    EntriesArrive(t, plan, r, now, v, EnteredAt(t, plan, now, v));
  }

  lemma NodeIsBalanced(t: Topology, plan: ClassPlan, r: Retries, now: Second, usable: set<nat>, v: nat)
    requires Unhurried(t, plan, r, now) && UsesOnly(t, plan, usable) && NothingLate(t, usable) && HoldsAllEdges(t)
    requires v < |t.nodes|
    ensures Balanced(FlowArcs(t, plan), FlowCarry(t, plan, now), {|t.nodes|}, Senders(t), Finally(t, plan, r, now), v)
  {
    NodeHoldsInflow(t, plan, r, now, usable, v);
  }

  lemma NothingReachesTheWorkload(t: Topology, plan: ClassPlan, k: nat)
    requires ValidTopology(t) && Fits(t, plan) && k < |t.ends| + |plan.entries|
    ensures FlowArcs(t, plan)[k].dst < |t.nodes|
  {
    assert FlowArcs(t, plan)[k] == FlowArcAt(t, plan, k);
  }

  lemma WorkloadIsBalanced(t: Topology, plan: ClassPlan, r: Retries, now: Second)
    requires Unhurried(t, plan, r, now)
    ensures Balanced(FlowArcs(t, plan), FlowCarry(t, plan, now), {|t.nodes|}, Senders(t), Finally(t, plan, r, now),
                     |t.nodes|)
  {
    var arcs := FlowArcs(t, plan);
    forall k | EnabledAt(arcs, k) && arcs[k].dst == |t.nodes|
      ensures false
    {
      NothingReachesTheWorkload(t, plan, k);
    }
    InFlowNone(arcs, FlowCarry(t, plan, now), |arcs|, Senders(t), Finally(t, plan, r, now), |t.nodes|);
  }

  // ------------------------------------------------------------ the equality

  ghost function FlowOrder(t: Topology): seq<nat> {
    [|t.nodes|] + t.order
  }

  lemma FlowStaysOrdered(t: Topology, plan: ClassPlan, usable: set<nat>, u: nat)
    requires ValidTopology(t) && Fits(t, plan) && UsesOnly(t, plan, usable) && StaysOrdered(t, usable)
    requires Matters(FlowArcs(t, plan), {|t.nodes|}, FlowOrder(t), u)
    ensures u in FlowOrder(t)
  {
    var arcs, nodes := FlowArcs(t, plan), Members(FlowOrder(t));
    if Reachable(arcs, {|t.nodes|}, u) {
      forall k | EnabledAt(arcs, k) && arcs[k].src in nodes
        ensures arcs[k].dst in nodes
      {
        assert arcs[k] == FlowArcAt(t, plan, k);
        if k < |t.ends| {
          assert FlowOrder(t)[0] == |t.nodes| && t.ends[k].source in t.order;
          assert t.ends[k].target in t.order;
        } else {
          assert plan.entries[k - |t.ends|].node in t.order;
        }
      }
      var path :| PathFrom(arcs, {|t.nodes|}, path, u);
      assert |t.nodes| in nodes by {
        assert FlowOrder(t)[0] == |t.nodes|;
      }
      ClosedKeepsPath(arcs, nodes, |t.nodes|, path, u);
    }
  }

  /** The nodes of the order that send anything. */
  ghost function Sending(t: Topology, plan: ClassPlan): set<nat>
    requires ValidTopology(t) && Fits(t, plan)
  {
    set u | u in FlowOrder(t) && HasArc(FlowArcs(t, plan), u)
  }

  ghost predicate HasArc(arcs: seq<Arc<nat>>, u: nat) {
    exists k :: EnabledAt(arcs, k) && arcs[k].src == u
  }

  lemma FedFirst(t: Topology, plan: ClassPlan, usable: set<nat>, k: nat, i: nat)
    requires ValidTopology(t) && Fits(t, plan) && UsesOnly(t, plan, usable)
    requires StaysOrdered(t, usable) && NothingLate(t, usable)
    requires var arcs, order := FlowArcs(t, plan), FlowOrder(t);
             && EnabledAt(arcs, k) && i < |order| && arcs[k].dst == order[i] && order[i] in Sending(t, plan)
             && Matters(arcs, {|t.nodes|}, order, arcs[k].src)
    ensures FlowArcs(t, plan)[k].src in FlowOrder(t)[..i] && FlowArcs(t, plan)[k].src in Sending(t, plan)
  {
    var arcs, order := FlowArcs(t, plan), FlowOrder(t);
    FlowStaysOrdered(t, plan, usable, arcs[k].src);
    NothingReachesTheWorkload(t, plan, k);
    assert i > 0 && order[i] == t.order[i - 1];
    assert order[..i][0] == |t.nodes|;
    assert arcs[k] == FlowArcAt(t, plan, k);
    if k < |t.ends| {
      var f :| EnabledAt(arcs, f) && arcs[f].src == order[i];
      assert arcs[f] == FlowArcAt(t, plan, f);
      var h :| 0 <= h < |t.order| && t.order[h] == t.ends[k].source;
      assert !Late(t, usable, k, f, h, i - 1);
      assert order[..i][h + 1] == t.ends[k].source;
    }
  }

  lemma FlowSettles(t: Topology, plan: ClassPlan, usable: set<nat>)
    requires ValidTopology(t) && Fits(t, plan) && UsesOnly(t, plan, usable)
    requires StaysOrdered(t, usable) && NothingLate(t, usable)
    ensures Settles(FlowArcs(t, plan), {|t.nodes|}, FlowOrder(t), Sending(t, plan))
  {
    var arcs, order := FlowArcs(t, plan), FlowOrder(t);
    forall k, i | EnabledAt(arcs, k) && 0 <= i < |order| && arcs[k].dst == order[i] && order[i] in Sending(t, plan)
                  && Matters(arcs, {|t.nodes|}, order, arcs[k].src)
      ensures arcs[k].src in order[..i] && arcs[k].src in Sending(t, plan)
    {
      FedFirst(t, plan, usable, k, i);
    }
  }

  lemma NodeIsFedBySenders(t: Topology, plan: ClassPlan, usable: set<nat>, v: nat)
    requires ValidTopology(t) && Fits(t, plan) && UsesOnly(t, plan, usable) && StaysOrdered(t, usable)
    ensures FedBySettled(FlowArcs(t, plan), {|t.nodes|}, FlowOrder(t), Sending(t, plan), v)
  {
    var arcs := FlowArcs(t, plan);
    forall k | EnabledAt(arcs, k) && arcs[k].dst == v && Matters(arcs, {|t.nodes|}, FlowOrder(t), arcs[k].src)
      ensures arcs[k].src in FlowOrder(t) && arcs[k].src in Sending(t, plan)
    {
      FlowStaysOrdered(t, plan, usable, arcs[k].src);
    }
  }

  /** What a node forwards is the sum over all paths from the workload to the node. */
  ghost predicate ForwardsPathSums(t: Topology, plan: ClassPlan, r: Retries, now: Second)
    requires Unhurried(t, plan, r, now)
  {
    forall v :: 0 <= v < |t.nodes| ==>
                  IsPathSum(FlowArcs(t, plan), FlowCarry(t, plan, now), {|t.nodes|}, v,
                            FlowOf(t, plan, r, now).forward[v])
  }

  lemma FlowIsPathSum(t: Topology, plan: ClassPlan, r: Retries, now: Second, usable: set<nat>)
    requires Unhurried(t, plan, r, now) && HoldsAllEdges(t)
    requires UsesOnly(t, plan, usable) && StaysOrdered(t, usable) && NothingLate(t, usable)
    ensures ForwardsPathSums(t, plan, r, now)
  {
    var arcs, carry, a, order := FlowArcs(t, plan), FlowCarry(t, plan, now), Finally(t, plan, r, now), FlowOrder(t);
    FlowIsAdditive(t, plan, now);
    FlowSettles(t, plan, usable);
    assert Members(order) == Senders(t);
    WorkloadIsBalanced(t, plan, r, now);
    forall v | 0 <= v < |t.nodes|
      ensures Balanced(arcs, carry, {|t.nodes|}, Members(order), a, v)
    {
      NodeIsBalanced(t, plan, r, now, usable, v);
    }
    forall v | 0 <= v < |t.nodes|
      ensures IsPathSum(arcs, carry, {|t.nodes|}, v, FlowOf(t, plan, r, now).forward[v])
    {
      NodeIsFedBySenders(t, plan, usable, v);
      SettledPathSum(arcs, carry, {|t.nodes|}, order, Sending(t, plan), a, v);
    }
  }
}

/**
 `validatedTopologyExecutionPlan`: the checks in front of the plan, in their order, and
 what acceptance means. A plan is only ever built for a graph without a reachable
 cycle, so its order is a topological order of everything that is reached.
 */
module PlanValidation {
  import opened Wrappers
  import opened Architecture
  import opened Collections
  import opened Graph
  import opened TopologyBounds
  import opened ExecutionPlan

  datatype TopologyError =
    | ReachableCycle(nodeIds: seq<string>)
    | FanoutAmplification(fanout: real)
    | UnknownEndpoint(edgeId: string)
    | MixedOutgoingTrafficShare(sourceId: string)
    | OutgoingTrafficShare(sourceId: string)
    | NoEntryPath
    | DisconnectedEntry(sourceId: string)

  function ExplicitCount(edges: seq<Edge>, out: seq<nat>): (count: nat)
    requires forall k :: 0 <= k < |out| ==> out[k] < |edges|
    ensures count <= |out|
  {
    if out == [] then 0
    else ExplicitCount(edges, out[..|out| - 1]) + (if edges[out[|out| - 1]].trafficShare.Some? then 1 else 0)
  }

  function TotalShare(edges: seq<Edge>, out: seq<nat>): real
    requires forall k :: 0 <= k < |out| ==> out[k] < |edges|
  {
    if out == [] then 0.0
    else TotalShare(edges, out[..|out| - 1]) + edges[out[|out| - 1]].trafficShare.GetOr(0.0)
  }

  /** Shares leaving one node are all absent, or all authored and adding up to one. */
  predicate ShareRule(edges: seq<Edge>, out: seq<nat>)
    requires forall k :: 0 <= k < |out| ==> out[k] < |edges|
  {
    var explicit := ExplicitCount(edges, out);
    explicit == 0 || (explicit == |out| && -0.000001 <= TotalShare(edges, out) - 1.0 <= 0.000001)
  }

  ghost predicate SharesAddUp(edges: seq<Edge>) {
    forall u :: ShareRule(edges, OutOf(ArcsById(edges), u))
  }

  ghost predicate LeadsSomewhere(architecture: Architecture, entry: string) {
    exists i :: 0 <= i < |architecture.nodes| && !IsEntry(architecture.nodes[i])
                && Connected(ArcsById(architecture.edges), entry, architecture.nodes[i].id)
  }

  ghost predicate FanoutBounded(architecture: Architecture) {
    exists peak :: IsGreatestPathSum(architecture, peak) && peak <= MAX_TOPOLOGY_FANOUT_AMPLIFICATION
  }

  /** What acceptance means, in terms of the graph alone. */
  ghost predicate Accepts(architecture: Architecture) {
    && Acyclic(IndexArcs(architecture), SourceSet(architecture))
    && FanoutBounded(architecture)
    && EdgesResolve(architecture)
    && SharesAddUp(architecture.edges)
    && SourceIndexes(architecture) != []
    && forall i :: 0 <= i < |architecture.nodes| && IsEntry(architecture.nodes[i]) ==>
         LeadsSomewhere(architecture, architecture.nodes[i].id)
  }

  /** The named node authors some of its shares but not all, or all of them and they do not add up to one. */
  ghost predicate IsShareFault(edges: seq<Edge>, error: TopologyError) {
    match error
    case MixedOutgoingTrafficShare(sourceId) =>
      var out := OutOf(ArcsById(edges), sourceId);
      0 < ExplicitCount(edges, out) < |out|
    case OutgoingTrafficShare(sourceId) =>
      var out := OutOf(ArcsById(edges), sourceId);
      0 < ExplicitCount(edges, out) == |out| && !(-0.000001 <= TotalShare(edges, out) - 1.0 <= 0.000001)
    case _ => false
  }

  ghost predicate IsUnresolved(architecture: Architecture, edgeId: string) {
    exists e :: 0 <= e < |architecture.edges| && architecture.edges[e].id == edgeId
                && (IndexOf(architecture.nodes, architecture.edges[e].source).None?
                    || IndexOf(architecture.nodes, architecture.edges[e].target).None?)
  }

  ghost predicate IsDisconnectedEntry(architecture: Architecture, sourceId: string) {
    !LeadsSomewhere(architecture, sourceId)
    && exists i :: 0 <= i < |architecture.nodes| && IsEntry(architecture.nodes[i])
                   && architecture.nodes[i].id == sourceId
  }

  /** Every check before the failing one passes; the failing one does not. */
  ghost predicate IsFirstFailure(architecture: Architecture, error: TopologyError) {
    if error.ReachableCycle? then
      error.nodeIds == CycleNodeIds(architecture) && !Acyclic(IndexArcs(architecture), SourceSet(architecture))
    else
      && Acyclic(IndexArcs(architecture), SourceSet(architecture))
      && if error.FanoutAmplification? then
           IsGreatestPathSum(architecture, error.fanout) && error.fanout > MAX_TOPOLOGY_FANOUT_AMPLIFICATION
         else
           && FanoutBounded(architecture)
           && if error.UnknownEndpoint? then IsUnresolved(architecture, error.edgeId)
              else
                && EdgesResolve(architecture)
                && if error.MixedOutgoingTrafficShare? || error.OutgoingTrafficShare? then
                   IsShareFault(architecture.edges, error)
                   else
                     && SharesAddUp(architecture.edges) && (error.NoEntryPath? <==> SourceIndexes(architecture) == [])
                     && (error.DisconnectedEntry? ==> IsDisconnectedEntry(architecture, error.sourceId))
  }

  lemma GreatestPathSumUnique(architecture: Architecture, p: real, q: real)
    requires IsGreatestPathSum(architecture, p) && IsGreatestPathSum(architecture, q)
    ensures p == q
  {
  }

  method CheckEndpoints(architecture: Architecture) returns (error: Option<TopologyError>)
    ensures error.None? <==> EdgesResolve(architecture)
    ensures error.Some? ==> error.value.UnknownEndpoint? && IsUnresolved(architecture, error.value.edgeId)
  {
    for e := 0 to |architecture.edges|
      invariant forall k :: 0 <= k < e ==>
                              && IndexOf(architecture.nodes, architecture.edges[k].source).Some?
                              && IndexOf(architecture.nodes, architecture.edges[k].target).Some?
    {
      var edge := architecture.edges[e];
      if IndexOf(architecture.nodes, edge.source).None? || IndexOf(architecture.nodes, edge.target).None? {
        return Some(UnknownEndpoint(edge.id));
      }
    }
    return None;
  }

  lemma {:induction false} OutOfNothing(arcs: seq<Arc<string>>, u: string)
    requires forall e :: 0 <= e < |arcs| ==> arcs[e].src != u
    ensures OutOf(arcs, u) == []
  {
    if arcs != [] {
      OutOfNothing(arcs[..|arcs| - 1], u);
    }
  }

  method CheckSource(edges: seq<Edge>, outgoing: map<string, seq<nat>>, sourceId: string)
    returns (error: Option<TopologyError>)
    requires IsOutgoing(ArcsById(edges), outgoing)
    ensures error.None? <==> ShareRule(edges, OutOf(ArcsById(edges), sourceId))
    ensures error.Some? ==> IsShareFault(edges, error.value)
  {
    var arcs := ArcsById(edges);
    var enabled := Usable(arcs, Lookup(outgoing, sourceId, []));
    UsableOut(arcs, sourceId);
    var explicit := ExplicitCount(edges, enabled);
    if explicit != 0 {
      if explicit != |enabled| {
        return Some(MixedOutgoingTrafficShare(sourceId));
      }
      var difference := TotalShare(edges, enabled) - 1.0;
      if difference > 0.000001 || -difference > 0.000001 {
        return Some(OutgoingTrafficShare(sourceId));
      }
    }
    return None;
  }

  lemma SourcesAddUp(edges: seq<Edge>)
    requires forall e :: 0 <= e < |edges| ==> ShareRule(edges, OutOf(ArcsById(edges), edges[e].source))
    ensures SharesAddUp(edges)
  {
    var arcs := ArcsById(edges);
    forall u
      ensures ShareRule(edges, OutOf(arcs, u))
    {
      if e :| 0 <= e < |edges| && edges[e].source == u {
      } else {
        OutOfNothing(arcs, u);
      }
    }
  }

  method CheckShares(edges: seq<Edge>, outgoing: map<string, seq<nat>>) returns (error: Option<TopologyError>)
    requires IsOutgoing(ArcsById(edges), outgoing)
    ensures error.None? <==> SharesAddUp(edges)
    ensures error.Some? ==> IsShareFault(edges, error.value)
  {
    for e := 0 to |edges|
      invariant forall k :: 0 <= k < e ==> ShareRule(edges, OutOf(ArcsById(edges), edges[k].source))
    {
      error := CheckSource(edges, outgoing, edges[e].source);
      if error.Some? {
        return;
      }
    }
    SourcesAddUp(edges);
    return None;
  }

  method EntryLeadsSomewhere(architecture: Architecture, outgoing: map<string, seq<nat>>, entry: Node)
    returns (connected: bool)
    requires ValidGraph(architecture) && IsOutgoing(ArcsById(architecture.edges), outgoing)
             && entry in architecture.nodes
    ensures connected == LeadsSomewhere(architecture, entry.id)
  {
    var arcs := ArcsById(architecture.edges);
    ArcsWithin(architecture);
    var reached := ReachIds(arcs, outgoing, [entry.id], NodeIds(architecture.nodes));
    forall v
      ensures v in reached <==> Connected(arcs, entry.id, v)
    {
      ReachableFromOne(arcs, entry.id, v);
    }
    connected := exists i :: 0 <= i < |architecture.nodes| && architecture.nodes[i].id in reached
                             && !IsEntry(architecture.nodes[i]);
  }

  method CheckEntries(architecture: Architecture, outgoing: map<string, seq<nat>>)
    returns (error: Option<TopologyError>)
    requires ValidGraph(architecture) && IsOutgoing(ArcsById(architecture.edges), outgoing)
    ensures error.None? <==> forall i :: 0 <= i < |architecture.nodes| && IsEntry(architecture.nodes[i]) ==>
                                           LeadsSomewhere(architecture, architecture.nodes[i].id)
    ensures error.Some? ==> error.value.DisconnectedEntry? && IsDisconnectedEntry(architecture, error.value.sourceId)
  {
    for i := 0 to |architecture.nodes|
      invariant forall k :: 0 <= k < i && IsEntry(architecture.nodes[k]) ==>
                  LeadsSomewhere(architecture, architecture.nodes[k].id)
    {
      if IsEntry(architecture.nodes[i]) {
        var connected := EntryLeadsSomewhere(architecture, outgoing, architecture.nodes[i]);
        if !connected {
          return Some(DisconnectedEntry(architecture.nodes[i].id));
        }
      }
    }
    return None;
  }

  method ValidatedTopologyExecutionPlan(architecture: Architecture) returns (r: Result<Plan, TopologyError>)
    requires ValidIds(architecture)
    ensures r.Ok? <==> Accepts(architecture)
    ensures r.Ok? ==> IsPlanFor(architecture, r.value)
    ensures r.Ok? ==> TopologicalOrder(ForwardArcs(architecture), Members(r.value.reached), r.value.executionOrder)
    ensures r.Err? ==> IsFirstFailure(architecture, r.error)
  {
    var bounds := AnalyzeTopologyExecutionBounds(architecture);
    CycleIdsEmptyIffAcyclic(architecture);
    if |bounds.reachableCycleNodeIds| > 0 {
      return Err(ReachableCycle(bounds.reachableCycleNodeIds));
    }
    if bounds.fanoutAmplification > MAX_TOPOLOGY_FANOUT_AMPLIFICATION {
      forall peak | IsGreatestPathSum(architecture, peak)
        ensures peak == bounds.fanoutAmplification
      {
        GreatestPathSumUnique(architecture, peak, bounds.fanoutAmplification);
      }
      return Err(FanoutAmplification(bounds.fanoutAmplification));
    }
    var unknown := CheckEndpoints(architecture);
    if unknown.Some? {
      return Err(unknown.value);
    }
    var outgoing := OutgoingEdges(architecture.edges);
    var unbalanced := CheckShares(architecture.edges, outgoing);
    if unbalanced.Some? {
      return Err(unbalanced.value);
    }
    var plan, scheduled := BuildTopologyExecutionPlan(architecture);
    if |plan.sourceIds| == 0 {
      return Err(NoEntryPath);
    }
    var disconnected := CheckEntries(architecture, outgoing);
    if disconnected.Some? {
      return Err(disconnected.value);
    }
    return Ok(plan);
  }
}

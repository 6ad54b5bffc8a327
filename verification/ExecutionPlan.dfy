/**
 `buildTopologyExecutionPlan`. The plan finds the reachable nodes and their order a
 second time, in another form than the topology analysis: on node ids and maps, and
 ignoring edges that lead into an entry node. Lemmas on the two graphs relate both.
 */
module ExecutionPlan {
  import opened Architecture
  import opened Collections
  import opened Graph
  import opened Numbers
  import opened TopologyBounds

  // ----------------------------------------------------------- the id graph

  function ArcsById(edges: seq<Edge>): (arcs: seq<Arc<string>>)
    ensures |arcs| == |edges|
    ensures forall e :: 0 <= e < |edges| ==> arcs[e] == Arc(edges[e].source, edges[e].target, Share(edges[e]))
  {
    seq(|edges|, e requires 0 <= e < |edges| => Arc(edges[e].source, edges[e].target, Share(edges[e])))
  }

  /** The arcs without those into `stops`: such an arc keeps its place but carries nothing. */
  function WithoutArcsInto(arcs: seq<Arc<string>>, stops: set<string>): (r: seq<Arc<string>>)
    ensures |r| == |arcs|
    ensures forall e :: 0 <= e < |r| ==> r[e] == if arcs[e].dst in stops then arcs[e].(share := 0.0) else arcs[e]
  {
    seq(|arcs|, e requires 0 <= e < |arcs| => if arcs[e].dst in stops then arcs[e].(share := 0.0) else arcs[e])
  }

  /** The arcs a message survives: positive share and loss below one. */
  function LiveArcs(edges: seq<Edge>): (arcs: seq<Arc<string>>)
    ensures |arcs| == |edges|
    ensures forall e :: 0 <= e < |edges| ==>
                          arcs[e] == Arc(edges[e].source, edges[e].target,
                                         if LossRate(edges[e]) < 1.0 then Share(edges[e]) else 0.0)
  {
    seq(|edges|, e requires 0 <= e < |edges| =>
      Arc(edges[e].source, edges[e].target, if LossRate(edges[e]) < 1.0 then Share(edges[e]) else 0.0))
  }

  function NodeIds(nodes: seq<Node>): (ids: set<string>)
    ensures forall i :: 0 <= i < |nodes| ==> nodes[i].id in ids
  {
    set i | 0 <= i < |nodes| :: nodes[i].id
  }

  /** What the architecture schema guarantees of the graph. */
  ghost predicate ValidIds(architecture: Architecture) {
    UniqueNodeIds(architecture) && forall i :: 0 <= i < |architecture.nodes| ==> architecture.nodes[i].id != ""
  }

  ghost predicate ValidGraph(architecture: Architecture) {
    ValidIds(architecture) && EdgesResolve(architecture)
  }

  function Lookup<V>(m: map<string, V>, key: string, default: V): V {
    if key in m then m[key] else default
  }

  /** Positions of all arcs that leave u, usable or not. */
  ghost function AllOut<K>(arcs: seq<Arc<K>>, u: K): (out: seq<nat>)
    ensures forall k :: 0 <= k < |out| ==> out[k] < |arcs| && arcs[out[k]].src == u
  {
    if arcs == [] then []
    else
      var last := |arcs| - 1;
      AllOut(arcs[..last], u) + (if arcs[last].src == u then [last] else [])
  }

  function Usable<K>(arcs: seq<Arc<K>>, out: seq<nat>): (r: seq<nat>)
    ensures forall k :: 0 <= k < |r| ==> EnabledAt(arcs, r[k]) && r[k] in out
  {
    if out == [] then []
    else
      var last := out[|out| - 1];
      Usable(arcs, out[..|out| - 1]) + (if EnabledAt(arcs, last) then [last] else [])
  }

  lemma {:induction false} UsablePrefix<K>(arcs: seq<Arc<K>>, m: nat, out: seq<nat>)
    requires m <= |arcs| && forall k :: 0 <= k < |out| ==> out[k] < m
    ensures Usable(arcs[..m], out) == Usable(arcs, out)
  {
    if out != [] {
      UsablePrefix(arcs, m, out[..|out| - 1]);
    }
  }

  lemma {:induction false} UsableOut<K>(arcs: seq<Arc<K>>, u: K)
    ensures Usable(arcs, AllOut(arcs, u)) == OutOf(arcs, u)
  {
    if arcs != [] {
      var last := |arcs| - 1;
      UsableOut(arcs[..last], u);
      var before := AllOut(arcs[..last], u);
      UsablePrefix(arcs, last, before);
      if arcs[last].src == u {
        assert (before + [last])[..|before|] == before;
      } else {
        assert AllOut(arcs, u) == before;
      }
    }
  }

  lemma {:induction false} AllOutSameSources(arcs: seq<Arc<string>>, other: seq<Arc<string>>, u: string)
    requires |arcs| == |other| && forall e :: 0 <= e < |arcs| ==> arcs[e].src == other[e].src
    ensures AllOut(arcs, u) == AllOut(other, u)
  {
    if arcs != [] {
      AllOutSameSources(arcs[..|arcs| - 1], other[..|arcs| - 1], u);
    }
  }

  ghost predicate IsOutgoing(arcs: seq<Arc<string>>, outgoing: map<string, seq<nat>>) {
    forall u :: Lookup(outgoing, u, []) == AllOut(arcs, u)
  }

  method OutgoingEdges(edges: seq<Edge>) returns (outgoing: map<string, seq<nat>>)
    ensures IsOutgoing(ArcsById(edges), outgoing)
  {
    outgoing := map[];
    ghost var arcs := ArcsById(edges);
    for e := 0 to |edges|
      invariant IsOutgoing(arcs[..e], outgoing)
    {
      assert arcs[..e + 1][..e] == arcs[..e];
      outgoing := outgoing[edges[e].source := Lookup(outgoing, edges[e].source, []) + [e]];
    }
    assert arcs[..|arcs|] == arcs;
  }

  // ----------------------------------------------------------- entry nodes

  /** The first m edges are counted. */
  ghost predicate CountedTo(architecture: Architecture, m: nat, incoming: map<string, nat>)
    requires m <= |architecture.edges|
  {
    forall i :: 0 <= i < |architecture.nodes| ==>
                  Lookup(incoming, architecture.nodes[i].id, 0)
                      == InCount(IndexArcs(architecture)[..m], Below(|architecture.nodes|), i)
  }

  lemma CountedOneMore(architecture: Architecture, e: nat, incoming: map<string, nat>)
    requires ValidGraph(architecture) && e < |architecture.edges| && CountedTo(architecture, e, incoming)
    ensures var edge := architecture.edges[e];
            CountedTo(architecture, e + 1,
                      if Share(edge) > 0.0 then incoming[edge.target := Lookup(incoming, edge.target, 0) + 1]
                      else incoming)
  {
    var arcs, edge := IndexArcs(architecture), architecture.edges[e];
    assert arcs[..e + 1][..e] == arcs[..e];
    assert arcs[e] == IndexArc(architecture.nodes, edge);
  }

  method CountPerTarget(architecture: Architecture) returns (incoming: map<string, nat>)
    requires ValidGraph(architecture)
    ensures forall i :: 0 <= i < |architecture.nodes| ==>
                          Lookup(incoming, architecture.nodes[i].id, 0)
                              == InCount(IndexArcs(architecture), Below(|architecture.nodes|), i)
  {
    var nodes, n := architecture.nodes, |architecture.nodes|;
    ghost var arcs := IndexArcs(architecture);
    incoming := map[];
    for i := 0 to n
      invariant forall id :: id in incoming ==> incoming[id] == 0
    {
      incoming := incoming[nodes[i].id := 0];
    }
    for e := 0 to |architecture.edges|
      invariant CountedTo(architecture, e, incoming)
    {
      var edge := architecture.edges[e];
      CountedOneMore(architecture, e, incoming);
      if Share(edge) > 0.0 {
        incoming := incoming[edge.target := Lookup(incoming, edge.target, 0) + 1];
      }
    }
    assert arcs[..|arcs|] == arcs;
  }

  /** The entry nodes, selected by counting edges per target id. */
  method TopologySources(architecture: Architecture) returns (sourceIds: seq<string>)
    requires ValidGraph(architecture)
    ensures sourceIds == IdsAt(architecture.nodes, SourceIndexes(architecture))
  {
    var nodes, n := architecture.nodes, |architecture.nodes|;
    var counts := CountPerTarget(architecture);
    var explicit := IndexesWhere(n, (i: nat) => i < n && IsEntry(nodes[i]));
    IndexesWhereSame(n, (i: nat) => i < n && IsEntry(nodes[i]), (i: nat) => i < |nodes| && IsEntry(nodes[i]));
    if |explicit| > 0 {
      sourceIds := IdsAt(nodes, explicit);
    } else {
      sourceIds := IdsAt(nodes, IndexesWhere(n, (i: nat) => i < n && Lookup(counts, nodes[i].id, 0) == 0));
      IndexesWhereSame(n, (i: nat) => i < n && Lookup(counts, nodes[i].id, 0) == 0,
                       (i: nat) => InCount(IndexArcs(architecture), Below(|nodes|), i) == 0);
    }
  }

  // ------------------------------------------------------------ reachability

  ghost predicate Within(arcs: seq<Arc<string>>, universe: set<string>) {
    forall e :: EnabledAt(arcs, e) ==> arcs[e].src in universe && arcs[e].dst in universe
  }

  method ReachIds(arcs: seq<Arc<string>>, outgoing: map<string, seq<nat>>, sources: seq<string>,
                  ghost universe: set<string>)
    returns (reached: seq<string>)
    requires IsOutgoing(arcs, outgoing) && Within(arcs, universe) && "" !in universe
    requires forall s :: s in sources ==> s in universe
    ensures NoDuplicates(reached) && AllReachable(arcs, Members(sources), universe, reached)
    ensures forall v :: v in reached <==> Reachable(arcs, Members(sources), v)
  {
    forall s | s in sources
      ensures Reachable(arcs, Members(sources), s)
    {
      SourceReachable(arcs, Members(sources), s);
    }
    ghost var pending;
    reached, pending := Pursue(arcs, outgoing, sources, [], sources, sources, universe);
    WorklistDone(arcs, sources, universe, reached, pending);
  }

  ghost predicate ReadUpTo(pending: seq<string>, m: nat, reached: seq<string>)
    requires m <= |pending|
  {
    forall k :: 0 <= k < m ==> pending[k] in reached
  }

  lemma ReadOneMore(pending: seq<string>, targets: seq<string>, skipped: nat, m: nat, reached: seq<string>)
    requires skipped <= m < |pending| && ReadUpTo(pending, m, reached)
    ensures ReadUpTo(pending + targets, m + 1, reached + [pending[m]])
    ensures (pending + targets)[skipped..] == pending[skipped..] + targets && pending <= pending + targets
  {
  }

  /**
   The worklist loop, started with some nodes already expanded; `all` is the worklist with what
   was expanded before it.
   */
  method Pursue(arcs: seq<Arc<string>>, outgoing: map<string, seq<nat>>, ghost sources: seq<string>, start: seq<string>,
                queue: seq<string>,
                ghost all: seq<string>, ghost universe: set<string>)
    returns (reached: seq<string>, ghost pending: seq<string>)
    requires IsOutgoing(arcs, outgoing) && Within(arcs, universe) && "" !in universe
    requires NoDuplicates(start) && AllReachable(arcs, Members(sources), universe, start)
    requires AllReachable(arcs, Members(sources), universe, all) && Pursued(arcs, start, all)
    requires |queue| <= |all| && all[|all| - |queue|..] == queue && sources <= all
    requires ReadUpTo(all, |all| - |queue|, start)
    ensures NoDuplicates(reached) && AllReachable(arcs, Members(sources), universe, reached)
    ensures sources <= pending && Pursued(arcs, reached, pending)
    ensures ReadUpTo(pending, |pending|, reached)
  {
    reached := start;
    pending := all;
    var worklist := queue;
    var index := 0;
    ghost var skipped := |all| - |queue|;
    DistinctBounded(reached, universe);
    while index < |worklist|
      invariant index <= |worklist| && skipped + |worklist| == |pending| && pending[skipped..] == worklist
      invariant NoDuplicates(reached) && |reached| <= |universe|
      invariant AllReachable(arcs, Members(sources), universe, pending)
                && AllReachable(arcs, Members(sources), universe, reached)
      invariant ReadUpTo(pending, skipped + index, reached)
      invariant sources <= pending && Pursued(arcs, reached, pending)
      decreases |universe| - |reached|, |worklist| - index
    {
      var id := worklist[index];
      assert pending[skipped + index] == id && id in pending;
      if id != "" && id !in reached {
        var targets;
        ghost var before := reached;
        reached, targets := ExpandId(arcs, Lookup(outgoing, id, []), id, reached, pending, Members(sources), universe);
        ReadOneMore(pending, targets, skipped, skipped + index, before);
        worklist := worklist + targets;
        pending := pending + targets;
      }
      index := index + 1;
    }
  }

  method ExpandId(arcs: seq<Arc<string>>, out: seq<nat>, id: string, before: seq<string>, ghost pending: seq<string>,
                  ghost sources: set<string>, ghost universe: set<string>)
    returns (reached: seq<string>, targets: seq<string>)
    requires out == AllOut(arcs, id) && Within(arcs, universe) && id in pending && id !in before
    requires NoDuplicates(before) && Pursued(arcs, before, pending)
    requires AllReachable(arcs, sources, universe, pending) && AllReachable(arcs, sources, universe, before)
    ensures reached == before + [id] && NoDuplicates(reached) && |reached| <= |universe|
    ensures AllReachable(arcs, sources, universe, targets) && AllReachable(arcs, sources, universe, reached)
    ensures Pursued(arcs, reached, pending + targets)
  {
    reached := before + [id];
    DistinctBounded(reached, universe);
    targets := EnabledTargets(arcs, out, id, sources, universe);
    ExpandedPursued(arcs, before, id, pending, targets);
  }

  method EnabledTargets(arcs: seq<Arc<string>>, out: seq<nat>, ghost u: string, ghost sources: set<string>,
                        ghost universe: set<string>)
    returns (targets: seq<string>)
    requires out == AllOut(arcs, u) && Within(arcs, universe) && Reachable(arcs, sources, u)
    ensures AllReachable(arcs, sources, universe, targets)
    ensures forall e :: EnabledAt(arcs, e) && arcs[e].src == u ==> arcs[e].dst in targets
  {
    targets := [];
    for k := 0 to |out|
      invariant AllReachable(arcs, sources, universe, targets)
      invariant forall j :: 0 <= j < k && EnabledAt(arcs, out[j]) ==> arcs[out[j]].dst in targets
    {
      if arcs[out[k]].share > 0.0 {
        assert EnabledAt(arcs, out[k]);
        ArcExtendsReach(arcs, sources, out[k]);
        targets := targets + [arcs[out[k]].dst];
      }
    }
    forall e | EnabledAt(arcs, e) && arcs[e].src == u
      ensures arcs[e].dst in targets
    {
      UsableOut(arcs, u);
      OutOfComplete(arcs, u, e);
      var usable := Usable(arcs, out);
      assert e in usable;
      var k :| 0 <= k < |usable| && usable[k] == e;
      assert e in out;
    }
  }

  lemma ExpandedPursued(arcs: seq<Arc<string>>, before: seq<string>, u: string, pending: seq<string>,
                        targets: seq<string>)
    requires Pursued(arcs, before, pending)
    requires forall e :: EnabledAt(arcs, e) && arcs[e].src == u ==> arcs[e].dst in targets
    ensures Pursued(arcs, before + [u], pending + targets)
  {
  }

  // ---------------------------------------------------------- scheduling

  ghost predicate SettledIds(arcs: seq<Arc<string>>, nodes: set<string>, order: seq<string>, counts: map<string, nat>) {
    forall v :: v in nodes ==> v in counts && counts[v] == InCount(arcs, nodes - Members(order), v)
  }

  ghost predicate CountsAreIds(arcs: seq<Arc<string>>, nodes: set<string>, order: seq<string>, out: seq<nat>,
                               done: seq<nat>, counts: map<string, nat>)
    requires forall j :: 0 <= j < |out| ==> out[j] < |arcs|
    requires forall j :: 0 <= j < |done| ==> done[j] < |arcs|
  {
    forall v :: v in nodes ==>
                  v in counts && counts[v] == InCount(arcs, nodes - Members(order), v)
                      + CountInto(arcs, out, v) - CountInto(arcs, done, v)
  }

  ghost predicate ReadyIsFreeIds(nodes: set<string>, counts: map<string, nat>, ready: seq<string>) {
    forall v :: v in ready <==> v in nodes && v in counts && counts[v] == 0
  }

  /** Counts, per reached node, the edges from reached nodes, leaving out edges into entry nodes. */
  method CountIncoming(edges: seq<Edge>, reached: seq<string>, sources: seq<string>)
    returns (incoming: map<string, nat>)
    ensures SettledIds(WithoutArcsInto(ArcsById(edges), Members(sources)), Members(reached), [], incoming)
  {
    ghost var arcs := WithoutArcsInto(ArcsById(edges), Members(sources));
    incoming := map id | id in reached :: 0;
    forall v | v in reached
      ensures InCount(arcs[..0], Members(reached), v) == 0
    {
    }
    for e := 0 to |edges|
      invariant forall v :: v in reached ==> v in incoming && incoming[v] == InCount(arcs[..e], Members(reached), v)
    {
      var edge := edges[e];
      assert arcs[..e + 1][..e] == arcs[..e];
      if edge.source in reached && edge.target in reached && Share(edge) > 0.0 && edge.target !in sources {
        incoming := incoming[edge.target := incoming[edge.target] + 1];
      }
    }
    assert arcs[..|arcs|] == arcs;
    assert Members(reached) - Members([]) == Members(reached);
  }

  lemma ScheduleNextIds(arcs: seq<Arc<string>>, nodes: set<string>, order: seq<string>, u: string,
                        counts: map<string, nat>)
    requires SettledIds(arcs, nodes, order, counts) && u in nodes && u !in order
    ensures CountsAreIds(arcs, nodes, order + [u], OutOf(arcs, u), [], counts)
  {
    var left := nodes - Members(order + [u]);
    assert left + {u} == nodes - Members(order);
    forall v | v in nodes
      ensures counts[v] == InCount(arcs, left, v) + CountInto(arcs, OutOf(arcs, u), v)
    {
      InCountAdd(arcs, left, u, v);
    }
  }

  lemma {:induction false} UsableWithin<K>(arcs: seq<Arc<K>>, out: seq<nat>, k: nat, v: K)
    requires k <= |out| && forall j :: 0 <= j < |out| ==> out[j] < |arcs|
    ensures CountInto(arcs, Usable(arcs, out[..k]), v) <= CountInto(arcs, Usable(arcs, out), v)
    decreases |out|
  {
    if k < |out| {
      UsableWithin(arcs, out[..|out| - 1], k, v);
      assert out[..|out| - 1][..k] == out[..k];
      var shorter := Usable(arcs, out[..|out| - 1]);
      if EnabledAt(arcs, out[|out| - 1]) {
        assert Usable(arcs, out)[..|shorter|] == shorter;
      } else {
        assert Usable(arcs, out) == shorter;
      }
    } else {
      assert out[..k] == out;
    }
  }

  lemma UsableStep<K(!new)>(arcs: seq<Arc<K>>, out: seq<nat>, k: nat)
    requires k < |out| && forall j :: 0 <= j < |out| ==> out[j] < |arcs|
    ensures !EnabledAt(arcs, out[k]) ==> Usable(arcs, out[..k + 1]) == Usable(arcs, out[..k])
    ensures EnabledAt(arcs, out[k]) ==>
              forall v :: CountInto(arcs, Usable(arcs, out[..k + 1]), v)
                          == CountInto(arcs, Usable(arcs, out[..k]), v) + (if v == arcs[out[k]].dst then 1 else 0)
    ensures forall v :: CountInto(arcs, Usable(arcs, out[..k + 1]), v) <= CountInto(arcs, Usable(arcs, out), v)
  {
    assert out[..k + 1][..k] == out[..k];
    var shorter := Usable(arcs, out[..k]);
    if EnabledAt(arcs, out[k]) {
      assert Usable(arcs, out[..k + 1]) == shorter + [out[k]];
      assert (shorter + [out[k]])[..|shorter|] == shorter;
    } else {
      assert Usable(arcs, out[..k + 1]) == shorter;
    }
    forall v
      ensures CountInto(arcs, Usable(arcs, out[..k + 1]), v) <= CountInto(arcs, Usable(arcs, out), v)
    {
      UsableWithin(arcs, out, k + 1, v);
    }
  }

  ghost predicate Releasing(arcs: seq<Arc<string>>, nodes: set<string>, order: seq<string>, out: seq<nat>,
                            done: seq<nat>,
                            counts: map<string, nat>, ready: seq<string>)
    requires forall j :: 0 <= j < |out| ==> out[j] < |arcs|
    requires forall j :: 0 <= j < |done| ==> done[j] < |arcs|
  {
    && CountsAreIds(arcs, nodes, order, out, done, counts)
    && ReadyIsFreeIds(nodes, counts, ready)
    && TopologicalOrder(arcs, nodes, ready)
    && order <= ready
  }

  method ReleaseOne(ghost arcs: seq<Arc<string>>, ghost nodes: set<string>, ghost order: seq<string>,
                    ghost out: seq<nat>, ghost done: seq<nat>, ghost more: seq<nat>,
                    target: string, counts: map<string, nat>, waiting: seq<string>)
    returns (incoming: map<string, nat>, ready: seq<string>)
    requires forall j :: 0 <= j < |out| ==> out[j] < |arcs|
    requires forall j :: 0 <= j < |done| ==> done[j] < |arcs|
    requires forall j :: 0 <= j < |more| ==> more[j] < |arcs|
    requires Releasing(arcs, nodes, order, out, done, counts, waiting) && target in nodes
    requires forall v :: CountInto(arcs, more, v) == CountInto(arcs, done, v) + (if v == target then 1 else 0)
    requires forall v :: CountInto(arcs, more, v) <= CountInto(arcs, out, v)
    ensures waiting <= ready && Releasing(arcs, nodes, order, out, more, incoming, ready)
  {
    ready := waiting;
    assert counts[target] > 0;
    var remaining := if counts[target] - 1 > 0 then counts[target] - 1 else 0;
    incoming := counts[target := remaining];
    if remaining == 0 {
      FreeNodeExtendsOrder(arcs, nodes, order, ready, target);
      ready := ready + [target];
    }
  }

  lemma EdgeAsArc(edges: seq<Edge>, arcs: seq<Arc<string>>, sources: set<string>, e: nat)
    requires arcs == WithoutArcsInto(ArcsById(edges), sources) && e < |edges|
    ensures EnabledAt(arcs, e) <==> Share(edges[e]) > 0.0 && edges[e].target !in sources
    ensures arcs[e].dst == edges[e].target
  {
  }

  /** Edge k out of a scheduled node; disabled edges and edges into entry nodes are skipped. */
  method ReleaseEdge(edges: seq<Edge>, ghost arcs: seq<Arc<string>>, out: seq<nat>, k: nat, reached: seq<string>,
                     sources: seq<string>,
                     ghost order: seq<string>, counts: map<string, nat>, waiting: seq<string>)
    returns (incoming: map<string, nat>, ready: seq<string>)
    requires arcs == WithoutArcsInto(ArcsById(edges), Members(sources))
    requires k < |out| && forall j :: 0 <= j < |out| ==> out[j] < |arcs|
    requires EnabledAt(arcs, out[k]) ==> arcs[out[k]].dst in reached
    requires Releasing(arcs, Members(reached), order, Usable(arcs, out), Usable(arcs, out[..k]), counts, waiting)
    ensures waiting <= ready
    ensures Releasing(arcs, Members(reached), order, Usable(arcs, out), Usable(arcs, out[..k + 1]), incoming, ready)
  {
    var edge := edges[out[k]];
    incoming, ready := counts, waiting;
    UsableStep(arcs, out, k);
    EdgeAsArc(edges, arcs, Members(sources), out[k]);
    if Share(edge) > 0.0 && edge.target in reached && edge.target !in sources {
      incoming, ready := ReleaseOne(arcs, Members(reached), order, Usable(arcs, out), Usable(arcs, out[..k]),
                                    Usable(arcs, out[..k + 1]),
                                    edge.target, incoming, ready);
    }
  }

  /** Gives up the forward edges of one scheduled node. */
  method ReleaseIds(edges: seq<Edge>, ghost arcs: seq<Arc<string>>, out: seq<nat>, ghost u: string,
                    reached: seq<string>, sources: seq<string>,
                    ghost order: seq<string>, counts: map<string, nat>, waiting: seq<string>)
    returns (incoming: map<string, nat>, ready: seq<string>)
    requires arcs == WithoutArcsInto(ArcsById(edges), Members(sources)) && out == AllOut(arcs, u)
    requires Closed(arcs, Members(reached)) && u in reached
    requires Releasing(arcs, Members(reached), order, OutOf(arcs, u), [], counts, waiting)
    ensures waiting <= ready && Releasing(arcs, Members(reached), order, OutOf(arcs, u), OutOf(arcs, u), incoming,
                                          ready)
  {
    incoming := counts;
    ready := waiting;
    UsableOut(arcs, u);
    for k := 0 to |out|
      invariant waiting <= ready
      invariant Releasing(arcs, Members(reached), order, OutOf(arcs, u), Usable(arcs, out[..k]), incoming, ready)
    {
      incoming, ready := ReleaseEdge(edges, arcs, out, k, reached, sources, order, incoming, ready);
    }
    assert out[..|out|] == out;
  }

  lemma SettledStartIds(arcs: seq<Arc<string>>, nodes: set<string>, counts: map<string, nat>, ready: seq<string>)
    requires SettledIds(arcs, nodes, [], counts) && ReadyIsFreeIds(nodes, counts, ready) && NoDuplicates(ready)
    ensures TopologicalOrder(arcs, nodes, ready)
  {
    assert nodes - Members([]) == nodes;
    forall i | 0 <= i < |ready|
      ensures !FedFrom(arcs, nodes, ready[i])
    {
      assert ready[i] in ready;
      InCountWitness(arcs, nodes, ready[i]);
    }
  }

  lemma ScheduleBlockedIds(arcs: seq<Arc<string>>, nodes: set<string>, order: seq<string>, counts: map<string, nat>)
    requires SettledIds(arcs, nodes, order, counts) && ReadyIsFreeIds(nodes, counts, order)
    ensures Blocked(arcs, set v | v in nodes && v !in order)
  {
    var left := set v | v in nodes && v !in order;
    assert left == nodes - Members(order);
    forall v | v in left
      ensures FedFrom(arcs, left, v)
    {
      InCountWitness(arcs, left, v);
    }
  }

  lemma IdsAtDistinct(architecture: Architecture, indexes: seq<nat>)
    requires UniqueNodeIds(architecture) && NoDuplicates(indexes) && forall i :: i in indexes ==>
               i < |architecture.nodes|
    ensures NoDuplicates(IdsAt(architecture.nodes, indexes))
  {
    var ids := IdsAt(architecture.nodes, indexes);
    forall i, j | 0 <= i < j < |ids|
      ensures ids[i] != ids[j]
    {
      assert indexes[i] in indexes && indexes[j] in indexes && indexes[i] != indexes[j];
    }
  }

  /** The ids of the nodes that satisfy p, in authored order. */
  lemma IdAtIndex(architecture: Architecture, indexes: seq<nat>, i: nat)
    requires UniqueNodeIds(architecture) && i < |architecture.nodes|
    requires forall k :: 0 <= k < |indexes| ==> indexes[k] < |architecture.nodes|
    ensures architecture.nodes[i].id in IdsAt(architecture.nodes, indexes) <==> i in indexes
  {
    var nodes, ids := architecture.nodes, IdsAt(architecture.nodes, indexes);
    if i in indexes {
      var k :| 0 <= k < |indexes| && indexes[k] == i;
      assert ids[k] == nodes[i].id;
    }
    if nodes[i].id in ids {
      var k :| 0 <= k < |ids| && ids[k] == nodes[i].id;
      assert indexes[k] in indexes && indexes[k] == i;
    }
  }

  lemma IdsWhere(architecture: Architecture, p: nat -> bool, ids: seq<string>)
    requires UniqueNodeIds(architecture)
    requires ids == IdsAt(architecture.nodes, IndexesWhere(|architecture.nodes|, p))
    ensures NoDuplicates(ids)
    ensures forall i: nat :: i < |architecture.nodes| ==> (architecture.nodes[i].id in ids <==> p(i))
    ensures forall v :: v in ids ==> v in NodeIds(architecture.nodes)
  {
    var nodes, indexes := architecture.nodes, IndexesWhere(|architecture.nodes|, p);
    IdsAtDistinct(architecture, indexes);
    forall i: nat | i < |nodes|
      ensures nodes[i].id in ids <==> p(i)
    {
      IdAtIndex(architecture, indexes, i);
    }
    forall v | v in ids
      ensures v in NodeIds(nodes)
    {
      var k :| 0 <= k < |ids| && ids[k] == v;
      assert indexes[k] in indexes;
    }
  }

  /** The reached nodes that no usable arc from a reached node enters, as authored. */
  ghost function FreeIds(architecture: Architecture, arcs: seq<Arc<string>>, reached: set<string>): seq<string> {
    var nodes := architecture.nodes;
    IdsAt(nodes, IndexesWhere(|nodes|, (i: nat) =>
      i < |nodes| && nodes[i].id in reached && InCount(arcs, reached, nodes[i].id) == 0))
  }

  lemma {:induction false} SameIndexes(n: nat, p: nat -> bool, q: nat -> bool)
    requires forall i: nat :: i < n ==> p(i) == q(i)
    ensures IndexesWhere(n, p) == IndexesWhere(n, q)
  {
    if n > 0 {
      SameIndexes(n - 1, p, q);
    }
  }

  /** At the start the counts of reached nodes are those of the graph. */
  lemma ReadyAreFree(architecture: Architecture, arcs: seq<Arc<string>>, reached: seq<string>, counts: map<string, nat>)
    requires SettledIds(arcs, Members(reached), [], counts)
    ensures var nodes := architecture.nodes;
            IdsAt(nodes, IndexesWhere(|nodes|, (i: nat) =>
              i < |nodes| && nodes[i].id in reached && Lookup(counts, nodes[i].id, 0) == 0))
            == FreeIds(architecture, arcs, Members(reached))
  {
    var nodes := architecture.nodes;
    assert Members(reached) - Members([]) == Members(reached);
    SameIndexes(|nodes|,
                (i: nat) => i < |nodes| && nodes[i].id in reached && Lookup(counts, nodes[i].id, 0) == 0,
                (i: nat) => i < |nodes| && nodes[i].id in Members(reached)
                    && InCount(arcs, Members(reached), nodes[i].id) == 0);
  }

  method InitialReady(architecture: Architecture, reached: seq<string>, sources: seq<string>)
    returns (incoming: map<string, nat>, ready: seq<string>)
    requires UniqueNodeIds(architecture) && (forall v :: v in reached ==> v in NodeIds(architecture.nodes))
    ensures SettledIds(WithoutArcsInto(ArcsById(architecture.edges), Members(sources)), Members(reached), [], incoming)
    ensures ReadyIsFreeIds(Members(reached), incoming, ready) && NoDuplicates(ready)
    ensures ready == FreeIds(architecture, WithoutArcsInto(ArcsById(architecture.edges), Members(sources)),
                             Members(reached))
  {
    var nodes, n := architecture.nodes, |architecture.nodes|;
    incoming := CountIncoming(architecture.edges, reached, sources);
    var counts := incoming;
    ready := IdsAt(nodes, IndexesWhere(n, (i: nat) =>
                                       i < n && nodes[i].id in reached && Lookup(counts, nodes[i].id, 0) == 0));
    IdsWhere(architecture, (i: nat) => i < n && nodes[i].id in reached && Lookup(counts, nodes[i].id, 0) == 0, ready);
    ReadyAreFree(architecture, WithoutArcsInto(ArcsById(architecture.edges), Members(sources)), reached, counts);
    forall v
      ensures v in ready <==> v in Members(reached) && v in counts && counts[v] == 0
    {
      if v in NodeIds(nodes) {
        var i :| 0 <= i < n && nodes[i].id == v;
      }
    }
  }

  lemma ReleasedIsSettled(arcs: seq<Arc<string>>, nodes: set<string>, order: seq<string>, out: seq<nat>,
                          counts: map<string, nat>)
    requires forall j :: 0 <= j < |out| ==> out[j] < |arcs|
    requires CountsAreIds(arcs, nodes, order, out, out, counts)
    ensures SettledIds(arcs, nodes, order, counts)
  {
  }

  method ScheduleOne(edges: seq<Edge>, ghost arcs: seq<Arc<string>>, out: seq<nat>, ghost id: string,
                     reached: seq<string>, sources: seq<string>,
                     ghost before: seq<string>, counts: map<string, nat>, waiting: seq<string>)
    returns (incoming: map<string, nat>, ready: seq<string>)
    requires arcs == WithoutArcsInto(ArcsById(edges), Members(sources)) && out == AllOut(arcs, id)
    requires Closed(arcs, Members(reached)) && id in reached && id !in before && before + [id] <= waiting
    requires SettledIds(arcs, Members(reached), before, counts)
    requires ReadyIsFreeIds(Members(reached), counts, waiting) && TopologicalOrder(arcs, Members(reached), waiting)
    ensures waiting <= ready && |ready| <= |Members(reached)|
    ensures SettledIds(arcs, Members(reached), before + [id], incoming)
    ensures ReadyIsFreeIds(Members(reached), incoming, ready) && TopologicalOrder(arcs, Members(reached), ready)
  {
    ScheduleNextIds(arcs, Members(reached), before, id, counts);
    incoming, ready := ReleaseIds(edges, arcs, out, id, reached, sources, before + [id], counts, waiting);
    ReleasedIsSettled(arcs, Members(reached), before + [id], OutOf(arcs, id), incoming);
    DistinctBounded(ready, Members(reached));
  }

  lemma NextIsNew(arcs: seq<Arc<string>>, nodes: set<string>, ready: seq<string>, k: nat)
    requires TopologicalOrder(arcs, nodes, ready) && k < |ready|
    ensures ready[k] in nodes && ready[k] !in ready[..k] && ready[..k] + [ready[k]] == ready[..k + 1]
  {
    assert ready[k] in ready;
  }

  method ScheduleIds(architecture: Architecture, ghost arcs: seq<Arc<string>>, outgoing: map<string, seq<nat>>,
                     reached: seq<string>, sources: seq<string>)
    returns (order: seq<string>)
    requires UniqueNodeIds(architecture) && (forall v :: v in reached ==> v in NodeIds(architecture.nodes) && v != "")
    requires arcs == WithoutArcsInto(ArcsById(architecture.edges), Members(sources)) && IsOutgoing(arcs, outgoing)
    requires Closed(arcs, Members(reached))
    ensures TopologicalOrder(arcs, Members(reached), order)
    ensures Blocked(arcs, set v | v in Members(reached) && v !in order)
    ensures FreeIds(architecture, arcs, Members(reached)) <= order
  {
    var incoming, ready := InitialReady(architecture, reached, sources);
    ghost var nodes := Members(reached);
    ghost var free := ready;
    SettledStartIds(arcs, nodes, incoming, ready);
    order := [];
    var index := 0;
    DistinctBounded(ready, nodes);
    while index < |ready|
      invariant free <= ready
      invariant index <= |ready| <= |nodes| && order == ready[..index]
      invariant SettledIds(arcs, nodes, order, incoming)
      invariant ReadyIsFreeIds(nodes, incoming, ready) && TopologicalOrder(arcs, nodes, ready)
      decreases |nodes| - index
    {
      var id := ready[index];
      NextIsNew(arcs, nodes, ready, index);
      if id != "" && id !in order {
        ghost var before := order;
        order := order + [id];
        incoming, ready := ScheduleOne(architecture.edges, arcs, Lookup(outgoing, id, []), id, reached, sources, before,
                                       incoming, ready);
      }
      index := index + 1;
    }
    assert order == ready;
    ScheduleBlockedIds(arcs, nodes, order, incoming);
  }

  // ------------------------------------------------ the two graphs compared

  lemma ArcsAgree(architecture: Architecture, e: nat)
    requires ValidGraph(architecture) && e < |architecture.edges|
    ensures EnabledAt(ArcsById(architecture.edges), e) <==> EnabledAt(IndexArcs(architecture), e)
    ensures EnabledAt(IndexArcs(architecture), e) ==>
              var arc := IndexArcs(architecture)[e];
              && arc.src < |architecture.nodes| && arc.dst < |architecture.nodes|
              && ArcsById(architecture.edges)[e].src == architecture.nodes[arc.src].id
              && ArcsById(architecture.edges)[e].dst == architecture.nodes[arc.dst].id
  {
    assert IndexArcs(architecture)[e] == IndexArc(architecture.nodes, architecture.edges[e]);
  }

  lemma ArcsWithin(architecture: Architecture)
    requires ValidGraph(architecture)
    ensures Within(ArcsById(architecture.edges), NodeIds(architecture.nodes))
    ensures "" !in NodeIds(architecture.nodes)
  {
    forall e | EnabledAt(ArcsById(architecture.edges), e)
      ensures ArcsById(architecture.edges)[e].src in NodeIds(architecture.nodes)
      ensures ArcsById(architecture.edges)[e].dst in NodeIds(architecture.nodes)
    {
      ArcsAgree(architecture, e);
    }
  }

  /** Both graphs have the same paths: a path is a list of edges in either. */
  lemma {:induction false} PathsAgree(architecture: Architecture, i: nat, path: seq<nat>, j: nat)
    requires ValidGraph(architecture) && i < |architecture.nodes| && j < |architecture.nodes|
    ensures IsPath(IndexArcs(architecture), i, path, j)
            <==> IsPath(ArcsById(architecture.edges), architecture.nodes[i].id, path, architecture.nodes[j].id)
    decreases |path|
  {
    if path != [] {
      var last := path[|path| - 1];
      if last < |architecture.edges| {
        ArcsAgree(architecture, last);
        if EnabledAt(IndexArcs(architecture), last) {
          PathsAgree(architecture, i, path[..|path| - 1], IndexArcs(architecture)[last].src);
        }
      }
    }
  }

  lemma SourcesAgree(architecture: Architecture, i: nat)
    requires ValidGraph(architecture) && i < |architecture.nodes|
    ensures i in SourceSet(architecture)
            <==> architecture.nodes[i].id in Members(IdsAt(architecture.nodes, SourceIndexes(architecture)))
  {
    var indexes := SourceIndexes(architecture);
    var ids := IdsAt(architecture.nodes, indexes);
    if i in indexes {
      var k :| 0 <= k < |indexes| && indexes[k] == i;
      assert ids[k] == architecture.nodes[i].id;
    }
    if architecture.nodes[i].id in ids {
      var k :| 0 <= k < |ids| && ids[k] == architecture.nodes[i].id;
      assert indexes[k] in indexes && indexes[k] == i;
    }
  }

  lemma SourceIdIsNode(architecture: Architecture, s: string)
    requires s in IdsAt(architecture.nodes, SourceIndexes(architecture))
    ensures exists i: nat :: i < |architecture.nodes| && architecture.nodes[i].id == s
  {
    var indexes := SourceIndexes(architecture);
    var k :| 0 <= k < |indexes| && IdsAt(architecture.nodes, indexes)[k] == s;
    assert indexes[k] in indexes;
  }

  /** The two reachability passes agree on every node. */
  lemma ReachAgrees(architecture: Architecture, i: nat)
    requires ValidGraph(architecture) && i < |architecture.nodes|
    ensures Reachable(IndexArcs(architecture), SourceSet(architecture), i)
            <==> Reachable(ArcsById(architecture.edges),
                           Members(IdsAt(architecture.nodes, SourceIndexes(architecture))), architecture.nodes[i].id)
  {
    var arcs, byId := IndexArcs(architecture), ArcsById(architecture.edges);
    var sources, ids := SourceSet(architecture), Members(IdsAt(architecture.nodes, SourceIndexes(architecture)));
    if Reachable(arcs, sources, i) {
      var path :| PathFrom(arcs, sources, path, i);
      var s :| s in sources && IsPath(arcs, s, path, i);
      SourcesAgree(architecture, s);
      PathsAgree(architecture, s, path, i);
      assert PathFrom(byId, ids, path, architecture.nodes[i].id);
    }
    if Reachable(byId, ids, architecture.nodes[i].id) {
      var path :| PathFrom(byId, ids, path, architecture.nodes[i].id);
      var s :| s in ids && IsPath(byId, s, path, architecture.nodes[i].id);
      SourceIdIsNode(architecture, s);
      var k: nat :| k < |architecture.nodes| && architecture.nodes[k].id == s;
      SourcesAgree(architecture, k);
      PathsAgree(architecture, k, path, i);
      assert PathFrom(arcs, sources, path, i);
    }
  }

  /** Dropping the arcs into the sources changes nothing about what they reach. */
  lemma {:induction false} ForwardReaches(arcs: seq<Arc<string>>, sources: set<string>, s: string, path: seq<nat>,
                                          v: string)
    requires s in sources && IsPath(arcs, s, path, v)
    ensures Reachable(WithoutArcsInto(arcs, sources), sources, v)
    decreases |path|
  {
    var forward := WithoutArcsInto(arcs, sources);
    if v in sources {
      SourceReachable(forward, sources, v);
    } else {
      var last := path[|path| - 1];
      ForwardReaches(arcs, sources, s, path[..|path| - 1], arcs[last].src);
      assert EnabledAt(forward, last);
      ArcExtendsReach(forward, sources, last);
    }
  }

  lemma {:induction false} ForwardPathIsPath(arcs: seq<Arc<string>>, stops: set<string>, a: string, path: seq<nat>,
                                             b: string)
    requires IsPath(WithoutArcsInto(arcs, stops), a, path, b)
    ensures IsPath(arcs, a, path, b)
    decreases |path|
  {
    if path != [] {
      var last := path[|path| - 1];
      assert EnabledAt(WithoutArcsInto(arcs, stops), last);
      ForwardPathIsPath(arcs, stops, a, path[..|path| - 1], arcs[last].src);
    }
  }

  lemma ForwardReachSame(arcs: seq<Arc<string>>, sources: set<string>, v: string)
    ensures Reachable(arcs, sources, v) <==> Reachable(WithoutArcsInto(arcs, sources), sources, v)
  {
    var forward := WithoutArcsInto(arcs, sources);
    if Reachable(arcs, sources, v) {
      var path :| PathFrom(arcs, sources, path, v);
      var s :| s in sources && IsPath(arcs, s, path, v);
      ForwardReaches(arcs, sources, s, path, v);
    }
    if Reachable(forward, sources, v) {
      var path :| PathFrom(forward, sources, path, v);
      var s :| s in sources && IsPath(forward, s, path, v);
      ForwardPathIsPath(arcs, sources, s, path, v);
      assert PathFrom(arcs, sources, path, v);
    }
  }

  ghost function EntryIds(architecture: Architecture): set<string> {
    Members(IdsAt(architecture.nodes, SourceIndexes(architecture)))
  }

  ghost function ForwardArcs(architecture: Architecture): seq<Arc<string>> {
    WithoutArcsInto(ArcsById(architecture.edges), EntryIds(architecture))
  }

  /** A cycle the plan would meet is a cycle the analysis reports. */
  lemma ForwardAcyclic(architecture: Architecture)
    requires ValidGraph(architecture) && Acyclic(IndexArcs(architecture), SourceSet(architecture))
    ensures Acyclic(ForwardArcs(architecture), EntryIds(architecture))
  {
    var byId, ids := ArcsById(architecture.edges), EntryIds(architecture);
    forall c | Reachable(ForwardArcs(architecture), ids, c)
      ensures !OnCycle(ForwardArcs(architecture), c)
    {
      ForwardReachSame(byId, ids, c);
      ReachedIsNode(architecture, c);
      var i: nat :| i < |architecture.nodes| && architecture.nodes[i].id == c;
      ReachAgrees(architecture, i);
      if OnCycle(ForwardArcs(architecture), c) {
        var cycle :| cycle != [] && IsPath(ForwardArcs(architecture), c, cycle, c);
        ForwardPathIsPath(byId, ids, c, cycle, c);
        PathsAgree(architecture, i, cycle, i);
        assert OnCycle(IndexArcs(architecture), i);
      }
    }
  }

  lemma ReachedIsNode(architecture: Architecture, v: string)
    requires ValidGraph(architecture) && Reachable(ArcsById(architecture.edges), EntryIds(architecture), v)
    ensures exists i: nat :: i < |architecture.nodes| && architecture.nodes[i].id == v
  {
    var byId := ArcsById(architecture.edges);
    ArcsWithin(architecture);
    var path :| PathFrom(byId, EntryIds(architecture), path, v);
    var s :| s in EntryIds(architecture) && IsPath(byId, s, path, v);
    SourceIdIsNode(architecture, s);
    ClosedKeepsPath(byId, NodeIds(architecture.nodes), s, path, v);
  }

  // ------------------------------------------------------------- the plan

  datatype Plan = Plan(
    sourceIds: seq<string>, reached: seq<string>, executionOrder: seq<string>,
    downstreamWorkers: map<string, seq<string>>, cacheCoverage: seq<real>, outgoingByIndex: seq<seq<nat>>)

  /** Ids of the workers, in authored order, that messages leaving `origin` can arrive at. */
  ghost function WorkersBehind(architecture: Architecture, origin: string): seq<string> {
    IdsAt(architecture.nodes,
          IndexesWhere(|architecture.nodes|,
                       (i: nat) => i < |architecture.nodes| && architecture.nodes[i].kind.Worker?
                                   && Connected(LiveArcs(architecture.edges), origin, architecture.nodes[i].id)))
  }

  predicate IsBuffer(node: Node) {
    node.kind.Queue? || node.kind.Stream?
  }

  lemma OutgoingSame(arcs: seq<Arc<string>>, other: seq<Arc<string>>, outgoing: map<string, seq<nat>>)
    requires IsOutgoing(arcs, outgoing)
    requires |arcs| == |other| && forall e :: 0 <= e < |arcs| ==> arcs[e].src == other[e].src
    ensures IsOutgoing(other, outgoing)
  {
    forall u
      ensures Lookup(outgoing, u, []) == AllOut(other, u)
    {
      AllOutSameSources(arcs, other, u);
    }
  }

  lemma LiveWithin(architecture: Architecture)
    requires ValidGraph(architecture)
    ensures Within(LiveArcs(architecture.edges), NodeIds(architecture.nodes)) && "" !in NodeIds(architecture.nodes)
  {
    ArcsWithin(architecture);
    var live := LiveArcs(architecture.edges);
    forall e | EnabledAt(live, e)
      ensures live[e].src in NodeIds(architecture.nodes) && live[e].dst in NodeIds(architecture.nodes)
    {
      assert EnabledAt(ArcsById(architecture.edges), e);
    }
  }

  /** The nodes a message can arrive at, starting from the targets of the live edges of `origin`. */
  method VisitFrom(live: seq<Arc<string>>, outgoing: map<string, seq<nat>>, origin: string, ghost universe: set<string>)
    returns (visited: seq<string>)
    requires IsOutgoing(live, outgoing) && Within(live, universe) && "" !in universe && origin in universe
    ensures forall v :: v in visited <==> Connected(live, origin, v)
  {
    ghost var start := [origin];
    assert origin in Members(start);
    SourceReachable(live, Members(start), origin);
    var queue := EnabledTargets(live, Lookup(outgoing, origin, []), origin, Members(start), universe);
    ghost var pending;
    visited, pending := Pursue(live, outgoing, start, [origin], queue, start + queue, universe);
    WorklistDone(live, start, universe, visited, pending);
    forall v
      ensures v in visited <==> Connected(live, origin, v)
    {
      ReachableFromOne(live, origin, v);
    }
  }

  method WorkersDownstream(architecture: Architecture, outgoing: map<string, seq<nat>>, origin: Node)
    returns (workers: seq<string>)
    requires ValidGraph(architecture) && IsOutgoing(ArcsById(architecture.edges), outgoing)
    requires origin in architecture.nodes
    ensures workers == WorkersBehind(architecture, origin.id)
  {
    var nodes, n := architecture.nodes, |architecture.nodes|;
    var live := LiveArcs(architecture.edges);
    LiveWithin(architecture);
    OutgoingSame(ArcsById(architecture.edges), live, outgoing);
    var visited := VisitFrom(live, outgoing, origin.id, NodeIds(nodes));
    workers := IdsAt(nodes, IndexesWhere(n, (i: nat) => i < n && nodes[i].kind.Worker? && nodes[i].id in visited));
    IndexesWhereSame(n, (i: nat) => i < n && nodes[i].kind.Worker? && nodes[i].id in visited,
                     (i: nat) => i < |nodes| && nodes[i].kind.Worker?
                         && Connected(LiveArcs(architecture.edges), origin.id, nodes[i].id));
  }

  lemma ReachableFromOne(arcs: seq<Arc<string>>, s: string, v: string)
    ensures Reachable(arcs, Members([s]), v) <==> Connected(arcs, s, v)
  {
    if Reachable(arcs, Members([s]), v) {
      var path :| PathFrom(arcs, Members([s]), path, v);
      assert IsPath(arcs, s, path, v);
    }
    if Connected(arcs, s, v) {
      var path :| IsPath(arcs, s, path, v);
      assert s in Members([s]) && PathFrom(arcs, Members([s]), path, v);
    }
  }

  /** Appends, in authored order, the reached nodes that the schedule left out. */
  method AppendCyclicRemainder(architecture: Architecture, reached: seq<string>, scheduled: seq<string>)
    returns (order: seq<string>)
    requires UniqueNodeIds(architecture) && (forall v :: v in reached ==> v in NodeIds(architecture.nodes))
    requires NoDuplicates(scheduled) && forall v :: v in scheduled ==> v in reached
    ensures scheduled <= order && NoDuplicates(order) && Members(order) == Members(reached)
    ensures (forall v :: v in reached ==> v in scheduled) ==> order == scheduled
  {
    var nodes := architecture.nodes;
    order := scheduled;
    for i := 0 to |nodes|
      invariant scheduled <= order && NoDuplicates(order)
      invariant forall v :: v in order
                            <==> v in scheduled || (v in reached && exists k :: 0 <= k < i && nodes[k].id == v)
      invariant (forall v :: v in reached ==> v in scheduled) ==> order == scheduled
    {
      if nodes[i].id in reached && nodes[i].id !in scheduled {
        order := order + [nodes[i].id];
      }
    }
  }

  ghost predicate IsPlanFor(architecture: Architecture, plan: Plan) {
    && plan.sourceIds == IdsAt(architecture.nodes, SourceIndexes(architecture))
    && NoDuplicates(plan.reached)
    && (forall v :: v in plan.reached <==> Reachable(ArcsById(architecture.edges), EntryIds(architecture), v))
    && NoDuplicates(plan.executionOrder) && Members(plan.executionOrder) == Members(plan.reached)
    && (forall origin :: origin in architecture.nodes && IsBuffer(origin) ==>
                           origin.id in plan.downstreamWorkers
                               && plan.downstreamWorkers[origin.id] == WorkersBehind(architecture, origin.id))
    && |plan.cacheCoverage| == |plan.outgoingByIndex| == |architecture.nodes|
    && forall i :: 0 <= i < |architecture.nodes| ==>
                     && plan.outgoingByIndex[i] == AllOut(ArcsById(architecture.edges), architecture.nodes[i].id)
                     && plan.cacheCoverage[i] == Clamp(CacheShares(architecture, plan.outgoingByIndex[i]), 0.0, 1.0)
  }

  // ---------------------------------------------------------- cache branches

  /** The share of a node's traffic that an edge brings to a cache that is waited for. */
  function CacheShare(architecture: Architecture, edge: Edge): real {
    var target := IndexOf(architecture.nodes, edge.target);
    if edge.asynchronous || target.None? || !architecture.nodes[target.value].kind.Cache? then 0.0
    else Portion(Share(edge), 1.0 - LossRate(edge))
  }

  function CacheShares(architecture: Architecture, out: seq<nat>): real
    requires forall k :: 0 <= k < |out| ==> out[k] < |architecture.edges|
  {
    if out == [] then 0.0
    else CacheShares(architecture, out[..|out| - 1]) + CacheShare(architecture, architecture.edges[out[|out| - 1]])
  }

  /** With shares and loss rates in range, cutting the coverage off at zero never applies. */
  lemma {:induction false} CacheSharesSign(architecture: Architecture, out: seq<nat>)
    requires forall k :: 0 <= k < |out| ==> out[k] < |architecture.edges|
    requires forall e :: 0 <= e < |architecture.edges| ==>
               UnitInterval(Share(architecture.edges[e])) && UnitInterval(LossRate(architecture.edges[e]))
    ensures CacheShares(architecture, out) >= 0.0
  {
    if out != [] {
      var edge := architecture.edges[out[|out| - 1]];
      CacheSharesSign(architecture, out[..|out| - 1]);
      PortionSign(Share(edge), 1.0 - LossRate(edge));
    }
  }

  method CacheBranchCoverage(architecture: Architecture, out: seq<nat>) returns (coverage: real)
    requires forall k :: 0 <= k < |out| ==> out[k] < |architecture.edges|
    ensures coverage == Clamp(CacheShares(architecture, out), 0.0, 1.0) && UnitInterval(coverage)
  {
    var sum := 0.0;
    for k := 0 to |out|
      invariant sum == CacheShares(architecture, out[..k])
    {
      assert out[..k + 1][..k] == out[..k];
      sum := sum + CacheShare(architecture, architecture.edges[out[k]]);
    }
    assert out[..|out|] == out;
    coverage := Clamp(sum, 0.0, 1.0);
  }

  /** Coverage and outgoing edges of every node, by position. */
  /** The outgoing edges of node i, and how much of them leads to caches. */
  ghost predicate IsIndexed(architecture: Architecture, coverage: seq<real>, outgoingByIndex: seq<seq<nat>>, i: nat)
    requires i < |coverage| == |outgoingByIndex| <= |architecture.nodes|
  {
    && outgoingByIndex[i] == AllOut(ArcsById(architecture.edges), architecture.nodes[i].id)
    && coverage[i] == Clamp(CacheShares(architecture, outgoingByIndex[i]), 0.0, 1.0)
  }

  method ByIndex(architecture: Architecture, outgoing: map<string, seq<nat>>)
    returns (coverage: seq<real>, outgoingByIndex: seq<seq<nat>>)
    requires IsOutgoing(ArcsById(architecture.edges), outgoing)
    ensures |coverage| == |outgoingByIndex| == |architecture.nodes|
    ensures forall i :: 0 <= i < |architecture.nodes| ==>
                          && outgoingByIndex[i] == AllOut(ArcsById(architecture.edges), architecture.nodes[i].id)
                          && coverage[i] == Clamp(CacheShares(architecture, outgoingByIndex[i]), 0.0, 1.0)
  {
    coverage, outgoingByIndex := [], [];
    for i := 0 to |architecture.nodes|
      invariant |coverage| == |outgoingByIndex| == i
      invariant forall j :: 0 <= j < i ==> IsIndexed(architecture, coverage, outgoingByIndex, j)
    {
      var out := Lookup(outgoing, architecture.nodes[i].id, []);
      var covered := CacheBranchCoverage(architecture, out);
      IndexedOneMore(architecture, coverage, outgoingByIndex, covered, out);
      coverage, outgoingByIndex := coverage + [covered], outgoingByIndex + [out];
    }
    forall i | 0 <= i < |architecture.nodes|
      ensures outgoingByIndex[i] == AllOut(ArcsById(architecture.edges), architecture.nodes[i].id)
      ensures coverage[i] == Clamp(CacheShares(architecture, outgoingByIndex[i]), 0.0, 1.0)
    {
      assert IsIndexed(architecture, coverage, outgoingByIndex, i);
    }
  }

  lemma IndexedOneMore(architecture: Architecture, coverage: seq<real>, outgoingByIndex: seq<seq<nat>>, covered: real,
                       out: seq<nat>)
    requires |coverage| == |outgoingByIndex| < |architecture.nodes|
    requires forall j :: 0 <= j < |coverage| ==> IsIndexed(architecture, coverage, outgoingByIndex, j)
    requires out == AllOut(ArcsById(architecture.edges), architecture.nodes[|coverage|].id)
    requires covered == Clamp(CacheShares(architecture, out), 0.0, 1.0)
    ensures forall j :: 0 <= j <= |coverage| ==>
                          IsIndexed(architecture, coverage + [covered], outgoingByIndex + [out], j)
  {
    forall j | 0 <= j <= |coverage|
      ensures IsIndexed(architecture, coverage + [covered], outgoingByIndex + [out], j)
    {
      assert j < |coverage| ==> IsIndexed(architecture, coverage, outgoingByIndex, j);
    }
  }

  method ReachFromEntries(architecture: Architecture, outgoing: map<string, seq<nat>>, sources: seq<string>)
    returns (reached: seq<string>)
    requires ValidGraph(architecture) && IsOutgoing(ArcsById(architecture.edges), outgoing)
    requires sources == IdsAt(architecture.nodes, SourceIndexes(architecture))
    ensures NoDuplicates(reached) && forall v :: v in reached ==> v in NodeIds(architecture.nodes) && v != ""
    ensures forall v :: v in reached <==> Reachable(ArcsById(architecture.edges), EntryIds(architecture), v)
    ensures IsReachedForward(architecture, Members(reached))
  {
    ArcsWithin(architecture);
    forall s | s in sources
      ensures s in NodeIds(architecture.nodes)
    {
      SourceIdIsNode(architecture, s);
    }
    reached := ReachIds(ArcsById(architecture.edges), outgoing, sources, NodeIds(architecture.nodes));
    forall v
      ensures v in Members(reached) <==> Reachable(ForwardArcs(architecture), EntryIds(architecture), v)
    {
      ForwardReachSame(ArcsById(architecture.edges), EntryIds(architecture), v);
    }
  }

  ghost predicate IsReachedForward(architecture: Architecture, nodes: set<string>) {
    forall v :: v in nodes <==> Reachable(ForwardArcs(architecture), EntryIds(architecture), v)
  }

  /** A topological order of the reached nodes that no cycle leads to, edges into entry nodes aside. */
  ghost predicate IsForwardSchedule(architecture: Architecture, reached: seq<string>, scheduled: seq<string>) {
    && TopologicalOrder(ForwardArcs(architecture), Members(reached), scheduled)
    && forall v :: v in reached && v !in scheduled
                   <==> DownstreamOfCycle(ForwardArcs(architecture), EntryIds(architecture), v)
  }

  method ScheduleForward(architecture: Architecture, outgoing: map<string, seq<nat>>, reached: seq<string>,
                         sources: seq<string>)
    returns (scheduled: seq<string>)
    requires ValidGraph(architecture) && IsOutgoing(ArcsById(architecture.edges), outgoing)
    requires sources == IdsAt(architecture.nodes, SourceIndexes(architecture))
    requires forall v :: v in reached ==> v in NodeIds(architecture.nodes) && v != ""
    requires IsReachedForward(architecture, Members(reached))
    ensures IsForwardSchedule(architecture, reached, scheduled)
    ensures FreeIds(architecture, ForwardArcs(architecture), Members(reached)) <= scheduled
  {
    ghost var forward := ForwardArcs(architecture);
    ReachableIsClosed(forward, EntryIds(architecture), Members(reached));
    OutgoingSame(ArcsById(architecture.edges), forward, outgoing);
    scheduled := ScheduleIds(architecture, forward, outgoing, reached, sources);
    LeftOutIsCyclic(forward, EntryIds(architecture), Members(reached), scheduled);
  }

  method DownstreamWorkers(architecture: Architecture, outgoing: map<string, seq<nat>>)
    returns (workers: map<string, seq<string>>)
    requires ValidGraph(architecture) && IsOutgoing(ArcsById(architecture.edges), outgoing)
    ensures forall origin :: origin in architecture.nodes && IsBuffer(origin) ==>
                               origin.id in workers && workers[origin.id] == WorkersBehind(architecture, origin.id)
  {
    workers := map[];
    for i := 0 to |architecture.nodes|
      invariant forall k :: 0 <= k < i && IsBuffer(architecture.nodes[k]) ==>
                              && architecture.nodes[k].id in workers
                              && workers[architecture.nodes[k].id]
                                 == WorkersBehind(architecture, architecture.nodes[k].id)
    {
      if IsBuffer(architecture.nodes[i]) {
        var behind := WorkersDownstream(architecture, outgoing, architecture.nodes[i]);
        workers := workers[architecture.nodes[i].id := behind];
      }
    }
  }

  method BuildTopologyExecutionPlan(architecture: Architecture) returns (plan: Plan, ghost scheduled: seq<string>)
    requires ValidGraph(architecture)
    ensures IsPlanFor(architecture, plan)
    ensures scheduled <= plan.executionOrder && IsForwardSchedule(architecture, plan.reached, scheduled)
    ensures FreeIds(architecture, ForwardArcs(architecture), Members(plan.reached)) <= scheduled
    ensures Acyclic(IndexArcs(architecture), SourceSet(architecture)) ==> plan.executionOrder == scheduled
  {
    var outgoing := OutgoingEdges(architecture.edges);
    var sources := TopologySources(architecture);
    var reached := ReachFromEntries(architecture, outgoing, sources);
    var kahn := ScheduleForward(architecture, outgoing, reached, sources);
    scheduled := kahn;
    var order := AppendCyclicRemainder(architecture, reached, kahn);
    var workers := DownstreamWorkers(architecture, outgoing);
    var coverage, outgoingByIndex := ByIndex(architecture, outgoing);
    plan := Plan(sources, reached, order, workers, coverage, outgoingByIndex);
    if Acyclic(IndexArcs(architecture), SourceSet(architecture)) {
      NothingRemains(architecture, reached, kahn);
    }
  }

  lemma NothingRemains(architecture: Architecture, reached: seq<string>, scheduled: seq<string>)
    requires ValidGraph(architecture) && IsForwardSchedule(architecture, reached, scheduled)
    requires Acyclic(IndexArcs(architecture), SourceSet(architecture))
    ensures forall v :: v in reached ==> v in scheduled
  {
    ForwardAcyclic(architecture);
    NothingLeftIffAcyclic(ForwardArcs(architecture), EntryIds(architecture));
  }
}

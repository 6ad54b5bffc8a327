/**
 `analyzeTopologyExecutionBounds`: one pass that finds the nodes traffic can reach,
 schedules them so that every node comes after its predecessors, names the nodes a
 cycle keeps from being scheduled, and computes how much traffic one unit of entry
 traffic puts on each node.
 */
module TopologyBounds {
  import opened Architecture
  import opened Collections
  import opened Graph
  import opened Paths

  datatype TopologyExecutionBounds = TopologyExecutionBounds(fanoutAmplification: real,
                                                             reachableCycleNodeIds: seq<string>)

  // ------------------------------------------------------- the index graph

  /** The arc of an edge between node positions; an edge with an unknown end or without traffic is unusable. */
  function IndexArc(nodes: seq<Node>, edge: Edge): (arc: Arc<nat>)
    ensures Enabled(arc) ==> arc.src < |nodes| && arc.dst < |nodes|
  {
    var source, target := IndexOf(nodes, edge.source), IndexOf(nodes, edge.target);
    if source.Some? && target.Some? && Share(edge) > 0.0 then Arc(source.value, target.value, Share(edge))
    else Arc(0, 0, 0.0)
  }

  function IndexArcs(architecture: Architecture): (arcs: seq<Arc<nat>>)
    ensures |arcs| == |architecture.edges|
    ensures forall e :: 0 <= e < |arcs| ==> arcs[e] == IndexArc(architecture.nodes, architecture.edges[e])
  {
    seq(|architecture.edges|, e requires 0 <= e < |architecture.edges| =>
        IndexArc(architecture.nodes, architecture.edges[e]))
  }

  ghost predicate InRange(arcs: seq<Arc<nat>>, n: nat) {
    forall e :: EnabledAt(arcs, e) ==> arcs[e].src < n && arcs[e].dst < n
  }

  /** Positions below n that satisfy p, in increasing order. */
  function IndexesWhere(n: nat, p: nat -> bool): (r: seq<nat>)
    ensures forall i: nat :: i in r <==> i < n && p(i)
    ensures forall i, j :: 0 <= i < j < |r| ==> r[i] < r[j]
  {
    if n == 0 then []
    else
      var below := IndexesWhere(n - 1, p);
      assert forall i :: 0 <= i < |below| ==> below[i] in below;
      below + (if p(n - 1) then [n - 1] else [])
  }

  /** The authored entry nodes, or without any the nodes that no usable edge enters. */
  ghost function SourceIndexes(architecture: Architecture): (r: seq<nat>)
    ensures forall i :: i in r ==> i < |architecture.nodes|
    ensures NoDuplicates(r)
  {
    var nodes, arcs := architecture.nodes, IndexArcs(architecture);
    var explicit := IndexesWhere(|nodes|, (i: nat) => i < |nodes| && IsEntry(nodes[i]));
    if explicit != [] then explicit
    else IndexesWhere(|nodes|, (i: nat) => InCount(arcs, Below(|nodes|), i) == 0)
  }

  ghost function SourceSet(architecture: Architecture): set<nat> {
    Members(SourceIndexes(architecture))
  }

  ghost predicate IsAdjacency(arcs: seq<Arc<nat>>, outgoing: seq<seq<nat>>) {
    forall u :: 0 <= u < |outgoing| ==> outgoing[u] == OutOf(arcs, u)
  }

  // ------------------------------------------------------------- the steps

  lemma AdjacencyStep(arcs: seq<Arc<nat>>, e: nat, outgoing: seq<seq<nat>>)
    requires e < |arcs| && IsAdjacency(arcs[..e], outgoing) && (Enabled(arcs[e]) ==> arcs[e].src < |outgoing|)
    ensures IsAdjacency(arcs[..e + 1], if Enabled(arcs[e]) then outgoing[arcs[e].src := outgoing[arcs[e].src] + [e]]
                        else outgoing)
  {
    forall u | 0 <= u < |outgoing|
      ensures OutOf(arcs[..e + 1], u)
              == if Enabled(arcs[e]) && arcs[e].src == u then OutOf(arcs[..e], u) + [e] else OutOf(arcs[..e], u)
    {
      OutOfStep(arcs, e + 1, u);
    }
  }

  ghost predicate CountsAll(arcs: seq<Arc<nat>>, n: nat, counts: seq<nat>) {
    |counts| == n && forall v :: 0 <= v < n ==> counts[v] == InCount(arcs, Below(n), v)
  }

  lemma CountsAllStep(arcs: seq<Arc<nat>>, e: nat, n: nat, counts: seq<nat>)
    requires e < |arcs| && CountsAll(arcs[..e], n, counts) && (Enabled(arcs[e]) ==> arcs[e].src < n && arcs[e].dst < n)
    ensures CountsAll(arcs[..e + 1], n, if Enabled(arcs[e]) then counts[arcs[e].dst := counts[arcs[e].dst] + 1]
                      else counts)
  {
    forall v | 0 <= v < n
      ensures InCount(arcs[..e + 1], Below(n), v)
              == InCount(arcs[..e], Below(n), v)
                + (if Enabled(arcs[e]) && arcs[e].src in Below(n) && arcs[e].dst == v then 1 else 0)
    {
      InCountStep(arcs, e + 1, Below(n), v);
    }
  }

  method CountOneMore(counts: array<nat>, v: nat)
    requires v < counts.Length
    modifies counts
    ensures counts[..] == old(counts[..])[v := old(counts[v]) + 1]
  {
    counts[v] := counts[v] + 1;
  }

  method AddEdge(nodes: seq<Node>, edge: Edge, e: nat, ghost arcs: seq<Arc<nat>>, before: seq<seq<nat>>,
                 positiveIncoming: array<nat>)
    returns (outgoing: seq<seq<nat>>)
    requires e < |arcs| && arcs[e] == IndexArc(nodes, edge) && |before| == |nodes|
    requires IsAdjacency(arcs[..e], before) && CountsAll(arcs[..e], |nodes|, positiveIncoming[..])
    modifies positiveIncoming
    ensures |outgoing| == |nodes| && IsAdjacency(arcs[..e + 1], outgoing)
    ensures CountsAll(arcs[..e + 1], |nodes|, positiveIncoming[..])
  {
    outgoing := before;
    var arc := IndexArc(nodes, edge);
    AdjacencyStep(arcs, e, before);
    ghost var counts := positiveIncoming[..];
    CountsAllStep(arcs, e, |nodes|, counts);
    if Enabled(arc) {
      outgoing := outgoing[arc.src := outgoing[arc.src] + [e]];
      CountOneMore(positiveIncoming, arc.dst);
    }
  }

  method BuildAdjacency(architecture: Architecture) returns (outgoing: seq<seq<nat>>, positiveIncoming: array<nat>)
    ensures |outgoing| == |architecture.nodes| && IsAdjacency(IndexArcs(architecture), outgoing)
    ensures fresh(positiveIncoming)
    ensures CountsAll(IndexArcs(architecture), |architecture.nodes|, positiveIncoming[..])
  {
    var n := |architecture.nodes|;
    ghost var arcs := IndexArcs(architecture);
    outgoing := seq(n, _ => []);
    positiveIncoming := new nat[n](_ => 0);
    for e := 0 to |architecture.edges|
      invariant |outgoing| == n && IsAdjacency(arcs[..e], outgoing)
      invariant CountsAll(arcs[..e], n, positiveIncoming[..])
    {
      outgoing := AddEdge(architecture.nodes, architecture.edges[e], e, arcs, outgoing, positiveIncoming);
    }
    assert arcs[..|arcs|] == arcs;
  }

  lemma DistinctAtMost(xs: seq<nat>, n: nat)
    requires NoDuplicates(xs) && forall x :: x in xs ==> x < n
    ensures |xs| <= n
  {
    DistinctBounded(xs, Below(n));
  }

  /** The worklist pass: `pending` grows while it is read, a node is expanded the first time it is read. */
  method Reach(ghost n: nat, arcs: seq<Arc<nat>>, outgoing: seq<seq<nat>>, sources: seq<nat>)
    returns (reached: seq<nat>)
    requires InRange(arcs, n) && |outgoing| == n && IsAdjacency(arcs, outgoing)
    requires forall s :: s in sources ==> s < n
    ensures NoDuplicates(reached) && AllReachable(arcs, Members(sources), Below(n), reached)
    ensures forall v :: v in reached <==> Reachable(arcs, Members(sources), v)
  {
    reached := [];
    var pending: seq<nat> := sources;
    var index := 0;
    forall s | s in pending
      ensures Reachable(arcs, Members(sources), s)
    {
      SourceReachable(arcs, Members(sources), s);
    }
    while index < |pending|
      invariant index <= |pending| && NoDuplicates(reached) && |reached| <= n
      invariant AllReachable(arcs, Members(sources), Below(n), pending)
                && AllReachable(arcs, Members(sources), Below(n), reached)
      invariant forall k :: 0 <= k < index ==> pending[k] in reached
      invariant sources <= pending && Pursued(arcs, reached, pending)
      decreases n - |reached|, |pending| - index
    {
      var u := pending[index];
      assert u in pending;
      if u !in reached {
        reached, pending := Expand(n, arcs, outgoing[u], u, pending, Members(sources), reached);
      }
      index := index + 1;
    }
    WorklistDone(arcs, sources, Below(n), reached, pending);
  }

  method Expand(ghost n: nat, arcs: seq<Arc<nat>>, out: seq<nat>, u: nat, pending: seq<nat>, ghost sources: set<nat>,
                before: seq<nat>)
    returns (reached: seq<nat>, pushed: seq<nat>)
    requires out == OutOf(arcs, u) && InRange(arcs, n) && u in pending && u !in before
    requires NoDuplicates(before) && Pursued(arcs, before, pending)
    requires AllReachable(arcs, sources, Below(n), pending) && AllReachable(arcs, sources, Below(n), before)
    ensures reached == before + [u] && NoDuplicates(reached) && |reached| <= n
    ensures pending <= pushed && Pursued(arcs, reached, pushed)
    ensures AllReachable(arcs, sources, Below(n), pushed) && AllReachable(arcs, sources, Below(n), reached)
  {
    reached := before + [u];
    DistinctAtMost(reached, n);
    assert reached[..|reached| - 1] == before;
    pushed := PushTargets(n, arcs, out, u, pending, sources, reached);
  }

  method PushTargets(ghost n: nat, arcs: seq<Arc<nat>>, out: seq<nat>, ghost u: nat, pending: seq<nat>,
                     ghost sources: set<nat>, ghost reached: seq<nat>)
    returns (pushed: seq<nat>)
    requires out == OutOf(arcs, u) && InRange(arcs, n) && Reachable(arcs, sources, u)
    requires AllReachable(arcs, sources, Below(n), pending)
    requires reached != [] && reached[|reached| - 1] == u && Pursued(arcs, reached[..|reached| - 1], pending)
    ensures pending <= pushed && Pursued(arcs, reached, pushed)
    ensures AllReachable(arcs, sources, Below(n), pushed)
  {
    pushed := pending;
    for k := 0 to |out|
      invariant pending <= pushed
      invariant AllReachable(arcs, sources, Below(n), pushed)
      invariant forall j :: 0 <= j < k ==> arcs[out[j]].dst in pushed
    {
      ArcExtendsReach(arcs, sources, out[k]);
      pushed := pushed + [arcs[out[k]].dst];
    }
    forall e | EnabledAt(arcs, e) && arcs[e].src in reached
      ensures arcs[e].dst in pushed
    {
      if arcs[e].src == u {
        OutOfComplete(arcs, u, e);
        assert e in out;
      } else {
        assert arcs[e].src in reached[..|reached| - 1];
      }
    }
  }

  /** Counts, for every node, the usable edges that come from reached nodes. */
  method CountWithinReachable(n: nat, arcs: seq<Arc<nat>>, outgoing: seq<seq<nat>>, reached: seq<nat>)
    returns (incoming: array<nat>)
    requires InRange(arcs, n) && |outgoing| == n && IsAdjacency(arcs, outgoing)
    requires NoDuplicates(reached) && (forall v :: v in reached ==> v < n) && Closed(arcs, Members(reached))
    ensures fresh(incoming) && incoming.Length == n
    ensures forall v :: 0 <= v < n ==> incoming[v] == InCount(arcs, Members(reached), v)
  {
    incoming := new nat[n](_ => 0);
    assert Members(reached[..0]) == {};
    forall v | 0 <= v < n
      ensures InCount(arcs, {}, v) == 0
    {
      InCountEmpty(arcs, v);
    }
    for i := 0 to |reached|
      invariant forall v :: 0 <= v < n ==> incoming[v] == InCount(arcs, Members(reached[..i]), v)
    {
      var u := reached[i];
      assert u in reached;
      var out := outgoing[u];
      for k := 0 to |out|
        invariant forall v :: 0 <= v < n ==>
                    incoming[v] == InCount(arcs, Members(reached[..i]), v) + CountInto(arcs, out[..k], v)
      {
        var target := arcs[out[k]].dst;
        assert out[..k + 1][..k] == out[..k];
        if target in reached {
          incoming[target] := incoming[target] + 1;
        }
      }
      assert out[..|out|] == out;
      assert Members(reached[..i + 1]) == Members(reached[..i]) + {u};
      forall v | 0 <= v < n
        ensures incoming[v] == InCount(arcs, Members(reached[..i + 1]), v)
      {
        assert u !in Members(reached[..i]);
        InCountAdd(arcs, Members(reached[..i]), u, v);
      }
    }
    assert reached[..|reached|] == reached;
  }

  // ---------------------------------------------------------- scheduling

  /** The counts a schedule works with, k edges into releasing the targets of its newest node. */
  ghost predicate CountsAre(arcs: seq<Arc<nat>>, nodes: set<nat>, order: seq<nat>, out: seq<nat>, k: nat,
                            counts: seq<nat>)
    requires k <= |out| && forall j :: 0 <= j < |out| ==> out[j] < |arcs|
  {
    forall v :: 0 <= v < |counts| ==>
                  counts[v] == InCount(arcs, nodes - Members(order), v)
                      + CountInto(arcs, out, v) - CountInto(arcs, out[..k], v)
  }

  ghost predicate ReadyIsFree(nodes: set<nat>, counts: seq<nat>, ready: seq<nat>) {
    && (forall v :: v in ready ==> v < |counts|)
    && forall v :: 0 <= v < |counts| ==> (v in ready <==> v in nodes && counts[v] == 0)
  }

  ghost predicate Releasing(arcs: seq<Arc<nat>>, nodes: set<nat>, order: seq<nat>, out: seq<nat>, k: nat,
                            counts: seq<nat>, ready: seq<nat>)
    requires k <= |out| && forall j :: 0 <= j < |out| ==> out[j] < |arcs|
  {
    CountsAre(arcs, nodes, order, out, k, counts) && ReadyIsFree(nodes, counts, ready)
        && TopologicalOrder(arcs, nodes, ready) && order <= ready
  }

  method ReleaseOne(ghost arcs: seq<Arc<nat>>, ghost nodes: set<nat>, ghost order: seq<nat>, ghost out: seq<nat>,
                    ghost k: nat, target: nat, incoming: array<nat>, waiting: seq<nat>)
    returns (ready: seq<nat>)
    requires k < |out| && forall j :: 0 <= j < |out| ==> out[j] < |arcs|
    requires Releasing(arcs, nodes, order, out, k, incoming[..], waiting)
    requires arcs[out[k]].dst == target && target < incoming.Length && target in nodes
    modifies incoming
    ensures waiting <= ready && Releasing(arcs, nodes, order, out, k + 1, incoming[..], ready)
  {
    assert out[..k + 1][..k] == out[..k];
    forall v | 0 <= v < incoming.Length
      ensures CountInto(arcs, out[..k + 1], v) <= CountInto(arcs, out, v)
    {
      CountIntoPrefixAtMost(arcs, out, k + 1, v);
    }
    ghost var before := incoming[..];
    assert before[target] > 0;
    ready := waiting;
    incoming[target] := if incoming[target] - 1 > 0 then incoming[target] - 1 else 0;
    if incoming[target] == 0 {
      FreeNodeExtendsOrder(arcs, nodes, order, ready, target);
      ready := ready + [target];
    }
  }

  /** Gives up the edges of one scheduled node; targets left without an open edge become ready. */
  method ReleaseTargets(arcs: seq<Arc<nat>>, out: seq<nat>, ghost u: nat, reached: seq<nat>, ghost order: seq<nat>,
                        incoming: array<nat>, waiting: seq<nat>)
    returns (ready: seq<nat>)
    requires out == OutOf(arcs, u) && InRange(arcs, incoming.Length)
    requires Closed(arcs, Members(reached)) && u in reached
    requires Releasing(arcs, Members(reached), order, out, 0, incoming[..], waiting)
    modifies incoming
    ensures waiting <= ready && Releasing(arcs, Members(reached), order, out, |out|, incoming[..], ready)
  {
    ready := waiting;
    for k := 0 to |out|
      invariant waiting <= ready && Releasing(arcs, Members(reached), order, out, k, incoming[..], ready)
    {
      assert EnabledAt(arcs, out[k]);
      var target := arcs[out[k]].dst;
      if target in reached {
        ready := ReleaseOne(arcs, Members(reached), order, out, k, target, incoming, ready);
      }
    }
  }
  ghost predicate Settled(arcs: seq<Arc<nat>>, nodes: set<nat>, order: seq<nat>, counts: seq<nat>) {
    forall v :: 0 <= v < |counts| ==> counts[v] == InCount(arcs, nodes - Members(order), v)
  }

  lemma SettledStart(arcs: seq<Arc<nat>>, nodes: set<nat>, counts: seq<nat>, ready: seq<nat>)
    requires Settled(arcs, nodes, [], counts) && ReadyIsFree(nodes, counts, ready) && NoDuplicates(ready)
    ensures TopologicalOrder(arcs, nodes, ready)
  {
    assert nodes - Members([]) == nodes;
    forall i | 0 <= i < |ready|
      ensures !FedFrom(arcs, nodes, ready[i])
    {
      assert ready[i] in ready;
      InCountWitness(arcs, nodes, ready[i]);
    }
  }

  lemma ScheduleNext(arcs: seq<Arc<nat>>, nodes: set<nat>, order: seq<nat>, u: nat, counts: seq<nat>)
    requires Settled(arcs, nodes, order, counts) && u in nodes && u !in order
    ensures CountsAre(arcs, nodes, order + [u], OutOf(arcs, u), 0, counts)
  {
    var out := OutOf(arcs, u);
    var left := nodes - Members(order + [u]);
    assert left + {u} == nodes - Members(order);
    forall v | 0 <= v < |counts|
      ensures counts[v] == InCount(arcs, left, v) + CountInto(arcs, out, v) - CountInto(arcs, out[..0], v)
    {
      InCountAdd(arcs, left, u, v);
    }
  }

  lemma ScheduleBlocked(arcs: seq<Arc<nat>>, nodes: set<nat>, order: seq<nat>, counts: seq<nat>)
    requires Settled(arcs, nodes, order, counts) && ReadyIsFree(nodes, counts, order)
    requires forall v :: v in nodes ==> v < |counts|
    ensures Blocked(arcs, set v | v in nodes && v !in order)
  {
    var left := set v | v in nodes && v !in order;
    assert left == nodes - Members(order);
    forall v | v in left
      ensures FedFrom(arcs, left, v)
    {
      InCountWitness(arcs, left, v);
    }
  }

  /** One node leaves the ready list: it is scheduled and its edges are given up. */
  method ScheduleOne(arcs: seq<Arc<nat>>, out: seq<nat>, u: nat, reached: seq<nat>, ghost before: seq<nat>,
                     incoming: array<nat>, waiting: seq<nat>)
    returns (ready: seq<nat>)
    requires out == OutOf(arcs, u) && InRange(arcs, incoming.Length)
    requires Closed(arcs, Members(reached)) && u in reached && u !in before && before + [u] <= waiting
    requires Settled(arcs, Members(reached), before, incoming[..])
    requires ReadyIsFree(Members(reached), incoming[..], waiting) && TopologicalOrder(arcs, Members(reached), waiting)
    modifies incoming
    ensures waiting <= ready
    ensures Settled(arcs, Members(reached), before + [u], incoming[..])
    ensures ReadyIsFree(Members(reached), incoming[..], ready) && TopologicalOrder(arcs, Members(reached), ready)
  {
    ScheduleNext(arcs, Members(reached), before, u, incoming[..]);
    ready := ReleaseTargets(arcs, out, u, reached, before + [u], incoming, waiting);
    assert out[..|out|] == out;
  }

  /** The ready-list schedule. Every node that enters `ready` is scheduled, and it enters once. */
  method Schedule(n: nat, arcs: seq<Arc<nat>>, outgoing: seq<seq<nat>>, reached: seq<nat>, incoming: array<nat>)
    returns (order: seq<nat>, ready: seq<nat>)
    requires InRange(arcs, n) && |outgoing| == n && IsAdjacency(arcs, outgoing) && incoming.Length == n
    requires (forall v :: v in reached ==> v < n) && Closed(arcs, Members(reached))
    requires forall v :: 0 <= v < n ==> incoming[v] == InCount(arcs, Members(reached), v)
    modifies incoming
    ensures order == ready && TopologicalOrder(arcs, Members(reached), order)
    ensures Blocked(arcs, set v | v in Members(reached) && v !in order)
    ensures forall v :: 0 <= v < n ==> incoming[v] == InCount(arcs, Members(reached) - Members(order), v)
  {
    var counts := incoming[..];
    ready := IndexesWhere(n, (i: nat) => i < |counts| && i in reached && counts[i] == 0);
    order := [];
    assert Members(reached) - Members(order) == Members(reached);
    SettledStart(arcs, Members(reached), counts, ready);
    DistinctAtMost(ready, n);
    var index := 0;
    while index < |ready|
      invariant index <= |ready| && order == ready[..index]
      invariant Settled(arcs, Members(reached), order, incoming[..])
      invariant ReadyIsFree(Members(reached), incoming[..], ready) && TopologicalOrder(arcs, Members(reached), ready)
      invariant |ready| <= n
      decreases n - index
    {
      var u := ready[index];
      assert u in ready;
      if u !in order {
        ready := ScheduleOne(arcs, outgoing[u], u, reached, order, incoming, ready);
        order := order + [u];
        DistinctAtMost(ready, n);
      }
      index := index + 1;
    }
    assert order == ready;
    ScheduleBlocked(arcs, Members(reached), order, incoming[..]);
  }

  // ------------------------------------------------------- amplification

  ghost predicate FlowsTo(arcs: seq<Arc<nat>>, sources: set<nat>, done: set<nat>, a: seq<real>) {
    forall v :: 0 <= v < |a| ==> a[v] >= 0.0 && Balanced(arcs, ByShare(arcs), sources, done, a, v)
  }

  ghost predicate IsPeak(a: seq<real>, peak: real) {
    && (forall v :: 0 <= v < |a| ==> a[v] <= peak)
    && (|a| > 0 ==> exists v :: 0 <= v < |a| && a[v] == peak)
  }

  ghost predicate HasSent(arcs: seq<Arc<nat>>, out: seq<nat>, u: nat, before: seq<real>, a: seq<real>)
    requires forall k :: 0 <= k < |out| ==> out[k] < |arcs|
  {
    && u < |before| == |a|
    && forall v :: 0 <= v < |a| ==> a[v] >= 0.0 && a[v] == before[v] + OutFlow(arcs, ByShare(arcs), out, before[u], v)
  }

  lemma HasSentStep(arcs: seq<Arc<nat>>, out: seq<nat>, e: nat, u: nat, before: seq<real>, a: seq<real>, sent: real)
    requires forall k :: 0 <= k < |out| ==> out[k] < |arcs|
    requires e < |arcs| && HasSent(arcs, out, u, before, a) && arcs[e].dst < |a|
    requires sent == ByShare(arcs)(before[u], e) && sent >= 0.0
    ensures HasSent(arcs, out + [e], u, before, a[arcs[e].dst := a[arcs[e].dst] + sent])
  {
    var b := a[arcs[e].dst := a[arcs[e].dst] + sent];
    forall v | 0 <= v < |a|
      ensures b[v] >= 0.0 && b[v] == before[v] + OutFlow(arcs, ByShare(arcs), out + [e], before[u], v)
    {
      OutFlowStep(arcs, ByShare(arcs), out, e, before[u], v);
    }
  }

  lemma SentShare(arcs: seq<Arc<nat>>, e: nat, amount: real)
    requires EnabledAt(arcs, e) && amount >= 0.0
    ensures ByShare(arcs)(amount, e) == amount * arcs[e].share >= 0.0
  {
  }

  /** Sends what node u holds along its edges and keeps the running maximum. */
  method SendOn(arcs: seq<Arc<nat>>, out: seq<nat>, u: nat, amplification: array<real>, fanout: real)
    returns (peak: real)
    requires out == OutOf(arcs, u) && InRange(arcs, amplification.Length) && u < amplification.Length
    requires forall v :: 0 <= v < amplification.Length ==> amplification[v] >= 0.0
    requires IsPeak(amplification[..], fanout)
    modifies amplification
    ensures HasSent(arcs, out, u, old(amplification[..]), amplification[..])
    ensures IsPeak(amplification[..], peak)
  {
    var sourceAmplification := amplification[u];
    ghost var start := amplification[..];
    peak := if fanout < sourceAmplification then sourceAmplification else fanout;
    for k := 0 to |out|
      invariant HasSent(arcs, out[..k], u, start, amplification[..])
      invariant IsPeak(amplification[..], peak)
    {
      assert EnabledAt(arcs, out[k]);
      assert out[..k + 1] == out[..k] + [out[k]];
      peak := SendOver(arcs, out[..k], out[k], u, start, amplification, sourceAmplification, peak);
    }
    assert out[..|out|] == out;
  }

  method SendOver(arcs: seq<Arc<nat>>, ghost out: seq<nat>, e: nat, ghost u: nat, ghost start: seq<real>,
                  amplification: array<real>, sourceAmplification: real, fanout: real)
    returns (peak: real)
    requires (forall k :: 0 <= k < |out| ==> out[k] < |arcs|) && EnabledAt(arcs, e)
             && arcs[e].dst < amplification.Length
    requires HasSent(arcs, out, u, start, amplification[..]) && IsPeak(amplification[..], fanout)
    requires sourceAmplification == start[u] >= 0.0
    modifies amplification
    ensures HasSent(arcs, out + [e], u, start, amplification[..]) && IsPeak(amplification[..], peak)
  {
    ghost var before := amplification[..];
    var sent := sourceAmplification * arcs[e].share;
    SentShare(arcs, e, sourceAmplification);
    HasSentStep(arcs, out, e, u, start, before, sent);
    peak := AddTo(amplification, arcs[e].dst, sent, fanout);
    assert amplification[..] == before[arcs[e].dst := before[arcs[e].dst] + sent];
  }

  method AddTo(amplification: array<real>, target: nat, sent: real, fanout: real) returns (peak: real)
    requires target < amplification.Length && sent >= 0.0 && IsPeak(amplification[..], fanout)
    modifies amplification
    ensures amplification[..] == old(amplification[..])[target := old(amplification[target]) + sent]
    ensures IsPeak(amplification[..], peak)
  {
    PeakAfter(amplification[..], fanout, target, amplification[target] + sent);
    amplification[target] := amplification[target] + sent;
    peak := if fanout < amplification[target] then amplification[target] else fanout;
  }

  lemma PeakAfter(a: seq<real>, peak: real, target: nat, next: real)
    requires IsPeak(a, peak) && target < |a| && next >= a[target]
    ensures IsPeak(a[target := next], if peak < next then next else peak)
  {
    var b := a[target := next];
    var v :| 0 <= v < |a| && a[v] == peak;
    if peak < next {
      assert b[target] == next;
    } else {
      assert b[v] == peak;
    }
  }

  lemma TargetsComeLater(arcs: seq<Arc<nat>>, nodes: set<nat>, order: seq<nat>, i: nat, e: nat)
    requires TopologicalOrder(arcs, nodes, order) && i < |order|
    requires EnabledAt(arcs, e) && arcs[e].src == order[i]
    ensures arcs[e].dst !in order[..i + 1]
  {
    assert order[i] in order;
    if arcs[e].dst in order {
      var j :| 0 <= j < |order| && order[j] == arcs[e].dst;
      assert order[i] in order[..j];
      var k :| 0 <= k < j && order[k] == order[i];
      assert i < j;
    }
  }

  lemma SentOnBalances(arcs: seq<Arc<nat>>, sources: set<nat>, done: set<nat>, u: nat, before: seq<real>, a: seq<real>)
    requires FlowsTo(arcs, sources, done, before) && HasSent(arcs, OutOf(arcs, u), u, before, a) && u !in done
    requires forall k :: 0 <= k < |OutOf(arcs, u)| ==> arcs[OutOf(arcs, u)[k]].dst !in done + {u}
    ensures FlowsTo(arcs, sources, done + {u}, a)
  {
    forall v | v in done + {u} && v < |a|
      ensures a[v] == before[v]
    {
      OutFlowNone(arcs, ByShare(arcs), OutOf(arcs, u), before[u], v);
    }
    forall v | 0 <= v < |a|
      ensures Balanced(arcs, ByShare(arcs), sources, done + {u}, a, v)
    {
      assert Balanced(arcs, ByShare(arcs), sources, done, before, v);
      InFlowAdd(arcs, ByShare(arcs), done, u, before, v);
      InFlowSame(arcs, ByShare(arcs), |arcs|, done + {u}, before, a, v);
    }
  }

  method InitialAmplification(n: nat, sources: seq<nat>, ghost arcs: seq<Arc<nat>>)
    returns (amplification: array<real>, fanout: real)
    requires forall s :: s in sources ==> s < n
    ensures fresh(amplification) && amplification.Length == n
    ensures FlowsTo(arcs, Members(sources), {}, amplification[..])
    ensures IsPeak(amplification[..], fanout) && (n == 0 ==> fanout == 0.0)
  {
    amplification := new real[n](_ => 0.0);
    for k := 0 to |sources|
      invariant forall v :: 0 <= v < n ==> amplification[v] == Base(Members(sources[..k]), v)
    {
      assert sources[k] in sources;
      amplification[sources[k]] := 1.0;
    }
    assert sources[..|sources|] == sources;
    fanout := if |sources| > 0 then 1.0 else 0.0;
    assert |sources| > 0 ==> sources[0] in sources && amplification[..][sources[0]] == 1.0;
    assert n > 0 ==> amplification[..][0] <= fanout;
    forall v | 0 <= v < n
      ensures InFlow(arcs, ByShare(arcs), |arcs|, {}, amplification[..], v) == 0.0
    {
      InFlowNone(arcs, ByShare(arcs), |arcs|, {}, amplification[..], v);
    }
  }

  method Amplify(n: nat, arcs: seq<Arc<nat>>, outgoing: seq<seq<nat>>, sources: seq<nat>, ghost nodes: set<nat>,
                 order: seq<nat>)
    returns (amplification: array<real>, fanout: real)
    requires InRange(arcs, n) && |outgoing| == n && IsAdjacency(arcs, outgoing)
    requires (forall s :: s in sources ==> s < n) && (forall v :: v in nodes ==> v < n)
    requires TopologicalOrder(arcs, nodes, order)
    ensures fresh(amplification) && amplification.Length == n
    ensures FlowsTo(arcs, Members(sources), Members(order), amplification[..])
    ensures IsPeak(amplification[..], fanout) && (n == 0 ==> fanout == 0.0)
  {
    amplification, fanout := InitialAmplification(n, sources, arcs);
    assert Members(order[..0]) == {};
    for i := 0 to |order|
      invariant FlowsTo(arcs, Members(sources), Members(order[..i]), amplification[..])
      invariant IsPeak(amplification[..], fanout) && (n == 0 ==> fanout == 0.0)
    {
      var u := order[i];
      assert u in order;
      ghost var before := amplification[..];
      assert Members(order[..i + 1]) == Members(order[..i]) + {u};
      forall k | 0 <= k < |outgoing[u]|
        ensures arcs[outgoing[u][k]].dst !in Members(order[..i]) + {u}
      {
        TargetsComeLater(arcs, nodes, order, i, outgoing[u][k]);
      }
      fanout := SendOn(arcs, outgoing[u], u, amplification, fanout);
      SentOnBalances(arcs, Members(sources), Members(order[..i]), u, before, amplification[..]);
    }
    assert order[..|order|] == order;
  }

  // ------------------------------------------------------- the whole pass

  function IdsAt(nodes: seq<Node>, indexes: seq<nat>): (ids: seq<string>)
    requires forall i :: i in indexes ==> i < |nodes|
    ensures |ids| == |indexes| && forall k :: 0 <= k < |ids| ==> indexes[k] in indexes && ids[k] == nodes[indexes[k]].id
  {
    seq(|indexes|, k requires 0 <= k < |indexes| => assert indexes[k] in indexes; nodes[indexes[k]].id)
  }

  /** Ids, in authored order, of the reachable nodes that lie on a reachable cycle or downstream of one. */
  ghost function CycleNodeIds(architecture: Architecture): seq<string> {
    IdsAt(architecture.nodes,
          IndexesWhere(|architecture.nodes|,
                       (i: nat) => DownstreamOfCycle(IndexArcs(architecture), SourceSet(architecture), i)))
  }

  /** `peak` is the greatest, over all nodes, of the total weight of the paths into the node. */
  ghost predicate IsGreatestPathSum(architecture: Architecture, peak: real) {
    var n, arcs, sources := |architecture.nodes|, IndexArcs(architecture), SourceSet(architecture);
    && (forall v: nat, total :: v < n && IsPathSum(arcs, ByShare(arcs), sources, v, total) ==> total <= peak)
    && (if n == 0 then peak == 0.0 else exists v: nat :: v < n && IsPathSum(arcs, ByShare(arcs), sources, v, peak))
  }

  /** What one analysis leaves behind: an order, and for every node in it the amplification. */
  ghost predicate IsAnalysis(architecture: Architecture, order: seq<nat>, amplification: seq<real>) {
    var arcs, sources := IndexArcs(architecture), SourceSet(architecture);
    && |amplification| == |architecture.nodes|
    && FlowsTo(arcs, sources, Members(order), amplification)
    && (forall v :: v in order <==> Reachable(arcs, sources, v) && !DownstreamOfCycle(arcs, sources, v))
    && exists nodes :: IsReachableSet(arcs, sources, nodes) && TopologicalOrder(arcs, nodes, order)
  }

  ghost predicate IsReachableSet(arcs: seq<Arc<nat>>, sources: set<nat>, nodes: set<nat>) {
    forall v :: v in nodes <==> Reachable(arcs, sources, v)
  }

  lemma {:induction false} IndexesWhereSame(n: nat, p: nat -> bool, q: nat -> bool)
    requires forall i: nat :: i < n ==> p(i) == q(i)
    ensures IndexesWhere(n, p) == IndexesWhere(n, q)
  {
    if n > 0 {
      IndexesWhereSame(n - 1, p, q);
    }
  }

  lemma IndexArcsInRange(architecture: Architecture)
    ensures InRange(IndexArcs(architecture), |architecture.nodes|)
  {
  }

  lemma ReachableInRange(architecture: Architecture, v: nat)
    requires Reachable(IndexArcs(architecture), SourceSet(architecture), v)
    ensures v < |architecture.nodes|
  {
    var arcs, n := IndexArcs(architecture), |architecture.nodes|;
    var path :| PathFrom(arcs, SourceSet(architecture), path, v);
    var s :| s in SourceSet(architecture) && IsPath(arcs, s, path, v);
    ClosedKeepsPath(arcs, Below(n), s, path, v);
  }

  method Sources(architecture: Architecture, positiveIncoming: array<nat>) returns (sources: seq<nat>)
    requires CountsAll(IndexArcs(architecture), |architecture.nodes|, positiveIncoming[..])
    ensures sources == SourceIndexes(architecture)
  {
    var nodes, counts := architecture.nodes, positiveIncoming[..];
    var explicit := IndexesWhere(|nodes|, (i: nat) => i < |nodes| && IsEntry(nodes[i]));
    if |explicit| > 0 {
      sources := explicit;
    } else {
      sources := IndexesWhere(|nodes|, (i: nat) => i < |counts| && counts[i] == 0);
      IndexesWhereSame(|nodes|, (i: nat) => i < |counts| && counts[i] == 0,
                       (i: nat) => InCount(IndexArcs(architecture), Below(|nodes|), i) == 0);
    }
  }

  method Analyze(architecture: Architecture)
    returns (bounds: TopologyExecutionBounds, order: seq<nat>, amplification: seq<real>)
    ensures bounds.reachableCycleNodeIds == CycleNodeIds(architecture)
    ensures IsAnalysis(architecture, order, amplification)
    ensures IsPeak(amplification, bounds.fanoutAmplification)
    ensures |architecture.nodes| == 0 ==> bounds.fanoutAmplification == 0.0
  {
    var nodes, n := architecture.nodes, |architecture.nodes|;
    var arcs := IndexArcs(architecture);
    IndexArcsInRange(architecture);
    var outgoing, positiveIncoming := BuildAdjacency(architecture);
    var sources := Sources(architecture, positiveIncoming);
    var reached := Reach(n, arcs, outgoing, sources);
    ghost var reachable := Members(reached);
    assert IsReachableSet(arcs, Members(sources), reachable);
    ReachableIsClosed(arcs, Members(sources), reachable);
    var incoming := CountWithinReachable(n, arcs, outgoing, reached);
    var ready;
    order, ready := Schedule(n, arcs, outgoing, reached, incoming);
    LeftOutIsCyclic(arcs, Members(sources), reachable, order);
    var scheduled := order;
    var left := IndexesWhere(n, (i: nat) => i in reached && i !in scheduled);
    IndexesWhereSame(n, (i: nat) => i in reached && i !in scheduled,
                     (i: nat) => DownstreamOfCycle(arcs, Members(sources), i));
    var flow, fanout := Amplify(n, arcs, outgoing, sources, reachable, order);
    amplification := flow[..];
    bounds := TopologyExecutionBounds(fanout, IdsAt(nodes, left));
  }

  /**
   A node that no reachable cycle leads to holds the total weight of all usable paths into it;
   if it is not reachable there are none, and it holds nothing.
   */
  lemma AmplificationIsPathSum(architecture: Architecture, order: seq<nat>, amplification: seq<real>, v: nat)
    requires IsAnalysis(architecture, order, amplification) && v < |architecture.nodes|
    requires !DownstreamOfCycle(IndexArcs(architecture), SourceSet(architecture), v)
    ensures IsPathSum(IndexArcs(architecture), ByShare(IndexArcs(architecture)), SourceSet(architecture), v,
                      amplification[v])
  {
    var arcs, sources := IndexArcs(architecture), SourceSet(architecture);
    var nodes :| IsReachableSet(arcs, sources, nodes) && TopologicalOrder(arcs, nodes, order);
    forall x | x in order
      ensures Balanced(arcs, ByShare(arcs), sources, Members(order), amplification, x)
    {
      ReachableInRange(architecture, x);
    }
    SharesAreAdditive(arcs);
    if Reachable(arcs, sources, v) {
      ScheduledPathSum(arcs, ByShare(arcs), sources, nodes, order, amplification, v);
    } else {
      UnreachablePathSum(arcs, ByShare(arcs), sources, v);
      forall e | EnabledAt(arcs, e) && arcs[e].dst == v
        ensures arcs[e].src !in Members(order)
      {
        if Reachable(arcs, sources, arcs[e].src) {
          ArcExtendsReach(arcs, sources, e);
        }
      }
      InFlowNone(arcs, ByShare(arcs), |arcs|, Members(order), amplification, v);
      if v in sources {
        SourceReachable(arcs, sources, v);
      }
      assert Balanced(arcs, ByShare(arcs), sources, Members(order), amplification, v);
    }
  }

  lemma FanoutIsGreatest(architecture: Architecture, order: seq<nat>, amplification: seq<real>, fanout: real)
    requires IsAnalysis(architecture, order, amplification) && IsPeak(amplification, fanout)
    requires |architecture.nodes| == 0 ==> fanout == 0.0
    requires Acyclic(IndexArcs(architecture), SourceSet(architecture))
    ensures IsGreatestPathSum(architecture, fanout)
  {
    var n, arcs, sources := |architecture.nodes|, IndexArcs(architecture), SourceSet(architecture);
    NothingLeftIffAcyclic(arcs, sources);
    forall v: nat | v < n
      ensures IsPathSum(arcs, ByShare(arcs), sources, v, amplification[v])
    {
      AmplificationIsPathSum(architecture, order, amplification, v);
    }
    forall v: nat, total | v < n && IsPathSum(arcs, ByShare(arcs), sources, v, total)
      ensures total <= fanout
    {
      PathSumUnique(arcs, ByShare(arcs), sources, v, total, amplification[v]);
    }
  }

  lemma DownstreamInRange(architecture: Architecture, v: nat)
    requires DownstreamOfCycle(IndexArcs(architecture), SourceSet(architecture), v)
    ensures v < |architecture.nodes|
  {
    var arcs, sources := IndexArcs(architecture), SourceSet(architecture);
    var c :| Reachable(arcs, sources, c) && OnCycle(arcs, c) && Connected(arcs, c, v);
    ReachableInRange(architecture, c);
    var path :| IsPath(arcs, c, path, v);
    ClosedKeepsPath(arcs, Below(|architecture.nodes|), c, path, v);
  }

  lemma CycleIdsEmptyIffAcyclic(architecture: Architecture)
    ensures CycleNodeIds(architecture) == [] <==> Acyclic(IndexArcs(architecture), SourceSet(architecture))
  {
    var n, arcs, sources := |architecture.nodes|, IndexArcs(architecture), SourceSet(architecture);
    NothingLeftIffAcyclic(arcs, sources);
    var left := IndexesWhere(n, (i: nat) => DownstreamOfCycle(arcs, sources, i));
    assert left != [] ==> left[0] in left;
    forall v | DownstreamOfCycle(arcs, sources, v)
      ensures v in left
    {
      DownstreamInRange(architecture, v);
    }
  }

  /** The exported analysis, in terms of paths and cycles only. */
  method AnalyzeTopologyExecutionBounds(architecture: Architecture) returns (bounds: TopologyExecutionBounds)
    ensures bounds.reachableCycleNodeIds == CycleNodeIds(architecture)
    ensures bounds.reachableCycleNodeIds == [] ==> IsGreatestPathSum(architecture, bounds.fanoutAmplification)
  {
    var order, amplification;
    bounds, order, amplification := Analyze(architecture);
    CycleIdsEmptyIffAcyclic(architecture);
    if bounds.reachableCycleNodeIds == [] {
      FanoutIsGreatest(architecture, order, amplification, bounds.fanoutAmplification);
    }
  }
}

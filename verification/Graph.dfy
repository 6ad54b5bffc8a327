/**
 Directed multigraphs as lists of arcs. A path is the list of the arc positions it
 takes, so parallel arcs give different paths. An arc is usable when its traffic
 share is positive. The module holds what both topology algorithms of the simulator
 are measured against: reachability, incoming counts, and the theory of a
 ready-list (Kahn) schedule, including which nodes such a schedule cannot reach.
 */
module Graph {
  import opened Collections

  datatype Arc<K> = Arc(src: K, dst: K, share: real)

  predicate Enabled<K>(arc: Arc<K>) {
    arc.share > 0.0
  }

  predicate EnabledAt<K>(arcs: seq<Arc<K>>, e: int) {
    0 <= e < |arcs| && Enabled(arcs[e])
  }

  ghost predicate IsPath<K>(arcs: seq<Arc<K>>, from: K, path: seq<nat>, to: K)
    decreases |path|
  {
    if path == [] then
      from == to
    else
      var last := path[|path| - 1];
      && EnabledAt(arcs, last)
      && arcs[last].dst == to
      && IsPath(arcs, from, path[..|path| - 1], arcs[last].src)
  }

  ghost predicate PathFrom<K(!new)>(arcs: seq<Arc<K>>, sources: set<K>, path: seq<nat>, to: K) {
    exists s :: s in sources && IsPath(arcs, s, path, to)
  }

  ghost predicate Reachable<K(!new)>(arcs: seq<Arc<K>>, sources: set<K>, v: K) {
    exists path :: PathFrom(arcs, sources, path, v)
  }

  ghost predicate OnCycle<K(!new)>(arcs: seq<Arc<K>>, c: K) {
    exists cycle :: cycle != [] && IsPath(arcs, c, cycle, c)
  }

  ghost predicate Connected<K(!new)>(arcs: seq<Arc<K>>, from: K, to: K) {
    exists path :: IsPath(arcs, from, path, to)
  }

  ghost predicate DownstreamOfCycle<K(!new)>(arcs: seq<Arc<K>>, sources: set<K>, v: K) {
    exists c :: Reachable(arcs, sources, c) && OnCycle(arcs, c) && Connected(arcs, c, v)
  }

  ghost predicate Acyclic<K(!new)>(arcs: seq<Arc<K>>, sources: set<K>) {
    forall c :: Reachable(arcs, sources, c) ==> !OnCycle(arcs, c)
  }

  /** Every usable arc that leaves the set ends in it. */
  ghost predicate Closed<K(!new)>(arcs: seq<Arc<K>>, nodes: set<K>) {
    forall e :: EnabledAt(arcs, e) && arcs[e].src in nodes ==> arcs[e].dst in nodes
  }

  /** A duplicate-free list in which every usable arc from `nodes` into a listed node starts earlier in the list. */
  ghost predicate TopologicalOrder<K(!new)>(arcs: seq<Arc<K>>, nodes: set<K>, order: seq<K>) {
    && NoDuplicates(order)
    && (forall v :: v in order ==> v in nodes)
    && (forall e, i :: EnabledAt(arcs, e) && arcs[e].src in nodes && 0 <= i < |order| && arcs[e].dst == order[i]
                       ==> arcs[e].src in order[..i])
  }

  /** Every node left out has a usable arc from another node left out. */
  ghost predicate Blocked<K(!new)>(arcs: seq<Arc<K>>, left: set<K>) {
    forall v :: v in left ==> FedFrom(arcs, left, v)
  }

  ghost predicate FedFrom<K>(arcs: seq<Arc<K>>, from: set<K>, v: K) {
    exists e :: EnabledAt(arcs, e) && arcs[e].dst == v && arcs[e].src in from
  }

  // ---------------------------------------------------------------- paths

  lemma {:induction false} PathConcat<K>(arcs: seq<Arc<K>>, a: K, p: seq<nat>, b: K, q: seq<nat>, c: K)
    requires IsPath(arcs, a, p, b) && IsPath(arcs, b, q, c)
    ensures IsPath(arcs, a, p + q, c)
    decreases |q|
  {
    if q == [] {
      assert p + q == p;
    } else {
      var last := q[|q| - 1];
      PathConcat(arcs, a, p, b, q[..|q| - 1], arcs[last].src);
      assert (p + q)[..|p + q| - 1] == p + q[..|q| - 1];
    }
  }

  lemma ArcPath<K>(arcs: seq<Arc<K>>, e: nat)
    requires EnabledAt(arcs, e)
    ensures IsPath(arcs, arcs[e].src, [e], arcs[e].dst)
  {
    assert [e][..0] == [];
  }

  /** A closed set keeps every path that starts in it. */
  lemma {:induction false} ClosedKeepsPath<K(!new)>(arcs: seq<Arc<K>>, nodes: set<K>, from: K, path: seq<nat>, to: K)
    requires Closed(arcs, nodes) && from in nodes && IsPath(arcs, from, path, to)
    ensures to in nodes
    decreases |path|
  {
    if path != [] {
      var last := path[|path| - 1];
      ClosedKeepsPath(arcs, nodes, from, path[..|path| - 1], arcs[last].src);
    }
  }

  /** A set that holds the sources, is closed, and holds only reachable nodes is the reachable set. */
  lemma ClosedIsReachable<K(!new)>(arcs: seq<Arc<K>>, sources: set<K>, nodes: set<K>)
    requires sources <= nodes && Closed(arcs, nodes)
    requires forall v :: v in nodes ==> Reachable(arcs, sources, v)
    ensures forall v :: v in nodes <==> Reachable(arcs, sources, v)
  {
    forall v | Reachable(arcs, sources, v)
      ensures v in nodes
    {
      var path :| PathFrom(arcs, sources, path, v);
      var s :| s in sources && IsPath(arcs, s, path, v);
      ClosedKeepsPath(arcs, nodes, s, path, v);
    }
  }

  lemma SourceReachable<K(!new)>(arcs: seq<Arc<K>>, sources: set<K>, s: K)
    requires s in sources
    ensures Reachable(arcs, sources, s)
  {
    assert IsPath(arcs, s, [], s);
    assert PathFrom(arcs, sources, [], s);
  }

  lemma ArcExtendsReach<K(!new)>(arcs: seq<Arc<K>>, sources: set<K>, e: nat)
    requires EnabledAt(arcs, e) && Reachable(arcs, sources, arcs[e].src)
    ensures Reachable(arcs, sources, arcs[e].dst)
  {
    var path :| PathFrom(arcs, sources, path, arcs[e].src);
    var s :| s in sources && IsPath(arcs, s, path, arcs[e].src);
    ArcPath(arcs, e);
    PathConcat(arcs, s, path, arcs[e].src, [e], arcs[e].dst);
    assert PathFrom(arcs, sources, path + [e], arcs[e].dst);
  }

  lemma ReachableIsClosed<K(!new)>(arcs: seq<Arc<K>>, sources: set<K>, nodes: set<K>)
    requires forall v :: v in nodes <==> Reachable(arcs, sources, v)
    ensures Closed(arcs, nodes) && sources <= nodes
  {
    forall e | EnabledAt(arcs, e) && arcs[e].src in nodes
      ensures arcs[e].dst in nodes
    {
      ArcExtendsReach(arcs, sources, e);
    }
    forall s | s in sources
      ensures s in nodes
    {
      SourceReachable(arcs, sources, s);
    }
  }

  // ---------------------------------------------------------------- counts

  /** How many usable arcs run from `from` into v; parallel arcs count separately. */
  ghost function InCount<K>(arcs: seq<Arc<K>>, from: set<K>, v: K): nat {
    if arcs == [] then 0
    else
      var last := arcs[|arcs| - 1];
      InCount(arcs[..|arcs| - 1], from, v) + (if Enabled(last) && last.src in from && last.dst == v then 1 else 0)
  }

  /** Positions of the usable arcs that leave u, in the order the arcs were authored. */
  ghost function OutOf<K>(arcs: seq<Arc<K>>, u: K): (out: seq<nat>)
    ensures forall k :: 0 <= k < |out| ==> EnabledAt(arcs, out[k]) && arcs[out[k]].src == u
  {
    if arcs == [] then []
    else
      var last := |arcs| - 1;
      OutOf(arcs[..last], u) + (if Enabled(arcs[last]) && arcs[last].src == u then [last] else [])
  }

  ghost function CountInto<K>(arcs: seq<Arc<K>>, out: seq<nat>, v: K): nat
    requires forall k :: 0 <= k < |out| ==> out[k] < |arcs|
  {
    if out == [] then 0
    else CountInto(arcs, out[..|out| - 1], v) + (if arcs[out[|out| - 1]].dst == v then 1 else 0)
  }

  lemma OutOfStep<K>(arcs: seq<Arc<K>>, m: nat, u: K)
    requires 0 < m <= |arcs|
    ensures OutOf(arcs[..m], u)
            == if Enabled(arcs[m - 1]) && arcs[m - 1].src == u then OutOf(arcs[..m - 1], u) + [m - 1]
               else OutOf(arcs[..m - 1], u)
  {
    assert arcs[..m][..m - 1] == arcs[..m - 1];
  }

  lemma InCountStep<K>(arcs: seq<Arc<K>>, m: nat, from: set<K>, v: K)
    requires 0 < m <= |arcs|
    ensures InCount(arcs[..m], from, v)
            == InCount(arcs[..m - 1], from, v)
               + (if Enabled(arcs[m - 1]) && arcs[m - 1].src in from && arcs[m - 1].dst == v then 1 else 0)
  {
    assert arcs[..m][..m - 1] == arcs[..m - 1];
  }

  lemma {:induction false} OutOfComplete<K>(arcs: seq<Arc<K>>, u: K, e: nat)
    requires EnabledAt(arcs, e) && arcs[e].src == u
    ensures e in OutOf(arcs, u)
  {
    var last := |arcs| - 1;
    if e != last {
      OutOfComplete(arcs[..last], u, e);
    }
  }

  lemma {:induction false} CountIntoPrefix<K>(arcs: seq<Arc<K>>, out: seq<nat>, m: nat, v: K)
    requires m <= |arcs| && forall k :: 0 <= k < |out| ==> out[k] < m
    ensures CountInto(arcs[..m], out, v) == CountInto(arcs, out, v)
  {
    if out != [] {
      CountIntoPrefix(arcs, out[..|out| - 1], m, v);
    }
  }

  /** How many usable arcs run from u to v. */
  ghost function CountBetween<K>(arcs: seq<Arc<K>>, u: K, v: K): nat {
    if arcs == [] then 0
    else
      var last := arcs[|arcs| - 1];
      CountBetween(arcs[..|arcs| - 1], u, v) + (if Enabled(last) && last.src == u && last.dst == v then 1 else 0)
  }

  lemma {:induction false} InCountSplit<K>(arcs: seq<Arc<K>>, from: set<K>, u: K, v: K)
    requires u !in from
    ensures InCount(arcs, from + {u}, v) == InCount(arcs, from, v) + CountBetween(arcs, u, v)
  {
    if arcs != [] {
      InCountSplit(arcs[..|arcs| - 1], from, u, v);
    }
  }

  lemma CountIntoStep<K>(arcs: seq<Arc<K>>, out: seq<nat>, e: nat, v: K)
    requires e < |arcs| && forall k :: 0 <= k < |out| ==> out[k] < |arcs|
    ensures CountInto(arcs, out + [e], v) == CountInto(arcs, out, v) + (if arcs[e].dst == v then 1 else 0)
  {
    assert (out + [e])[..|out|] == out;
  }

  lemma {:induction false} CountIntoOut<K>(arcs: seq<Arc<K>>, u: K, v: K)
    ensures CountInto(arcs, OutOf(arcs, u), v) == CountBetween(arcs, u, v)
  {
    if arcs != [] {
      var last := |arcs| - 1;
      var before := OutOf(arcs[..last], u);
      CountIntoOut(arcs[..last], u, v);
      CountIntoPrefix(arcs, before, last, v);
      if Enabled(arcs[last]) && arcs[last].src == u {
        CountIntoStep(arcs, before, last, v);
      } else {
        assert OutOf(arcs, u) == before;
      }
    }
  }

  /** Taking one node into the counted set adds exactly its outgoing arcs. */
  lemma InCountAdd<K>(arcs: seq<Arc<K>>, from: set<K>, u: K, v: K)
    requires u !in from
    ensures InCount(arcs, from + {u}, v) == InCount(arcs, from, v) + CountInto(arcs, OutOf(arcs, u), v)
  {
    InCountSplit(arcs, from, u, v);
    CountIntoOut(arcs, u, v);
  }

  lemma {:induction false} InCountEmpty<K>(arcs: seq<Arc<K>>, v: K)
    ensures InCount(arcs, {}, v) == 0
  {
    if arcs != [] {
      InCountEmpty(arcs[..|arcs| - 1], v);
    }
  }

  lemma {:induction false} InCountWitness<K>(arcs: seq<Arc<K>>, from: set<K>, v: K)
    ensures InCount(arcs, from, v) <= |arcs|
    ensures InCount(arcs, from, v) > 0 <==> FedFrom(arcs, from, v)
  {
    if arcs != [] {
      var last := |arcs| - 1;
      var rest := arcs[..last];
      InCountWitness(rest, from, v);
      if FedFrom(rest, from, v) {
        var e :| EnabledAt(rest, e) && rest[e].dst == v && rest[e].src in from;
        assert EnabledAt(arcs, e) && arcs[e] == rest[e];
      }
      if FedFrom(arcs, from, v) {
        var e :| EnabledAt(arcs, e) && arcs[e].dst == v && arcs[e].src in from;
        assert e < last ==> EnabledAt(rest, e) && arcs[e] == rest[e];
      }
      if Enabled(arcs[last]) && arcs[last].src in from && arcs[last].dst == v {
        assert EnabledAt(arcs, last);
      }
    }
  }

  // ------------------------------------------------- theory of schedules

  /** All that lies on a path into the i-th scheduled node was scheduled before it. */
  lemma {:induction false} PathIntoSchedule<K(!new)>(arcs: seq<Arc<K>>, nodes: set<K>, order: seq<K>, from: K,
                                                    path: seq<nat>, i: nat)
    requires Closed(arcs, nodes) && TopologicalOrder(arcs, nodes, order)
    requires from in nodes && i < |order| && IsPath(arcs, from, path, order[i])
    ensures path == [] ==> from == order[i]
    ensures path != [] ==> from in order[..i]
    decreases |path|
  {
    if path != [] {
      var last := path[|path| - 1];
      var rest := path[..|path| - 1];
      var u := arcs[last].src;
      ClosedKeepsPath(arcs, nodes, from, rest, u);
      assert u in order[..i];
      var j :| 0 <= j < i && order[j] == u;
      PathIntoSchedule(arcs, nodes, order, from, rest, j);
      if rest != [] {
        assert from in order[..j];
        assert order[..j] == order[..i][..j];
      }
    }
  }

  lemma CycleNotScheduled<K(!new)>(arcs: seq<Arc<K>>, nodes: set<K>, order: seq<K>, c: K, v: K)
    requires Closed(arcs, nodes) && TopologicalOrder(arcs, nodes, order)
    requires c in nodes && OnCycle(arcs, c) && Connected(arcs, c, v)
    ensures v !in order
  {
    if v in order {
      var i :| 0 <= i < |order| && order[i] == v;
      var path :| IsPath(arcs, c, path, v);
      PathIntoSchedule(arcs, nodes, order, c, path, i);
      var j :| 0 <= j < |order| && order[j] == c;
      var cycle :| cycle != [] && IsPath(arcs, c, cycle, c);
      PathIntoSchedule(arcs, nodes, order, c, cycle, j);
      assert false;
    }
  }

  lemma ConnectedTransitive<K(!new)>(arcs: seq<Arc<K>>, a: K, b: K, c: K)
    requires Connected(arcs, a, b) && Connected(arcs, b, c)
    ensures Connected(arcs, a, c)
  {
    var p :| IsPath(arcs, a, p, b);
    var q :| IsPath(arcs, b, q, c);
    PathConcat(arcs, a, p, b, q, c);
  }

  lemma ArcConnects<K(!new)>(arcs: seq<Arc<K>>, e: nat)
    requires EnabledAt(arcs, e)
    ensures Connected(arcs, arcs[e].src, arcs[e].dst)
    ensures Connected(arcs, arcs[e].dst, arcs[e].src) ==> OnCycle(arcs, arcs[e].dst)
  {
    var u, w := arcs[e].src, arcs[e].dst;
    ArcPath(arcs, e);
    if Connected(arcs, w, u) {
      var path :| IsPath(arcs, w, path, u);
      PathConcat(arcs, w, path, u, [e], w);
      assert path + [e] != [];
    }
  }

  ghost predicate LeadsToAll<K(!new)>(arcs: seq<Arc<K>>, head: K, seen: set<K>) {
    forall z :: z in seen ==> Connected(arcs, head, z)
  }

  lemma LeadsToMore<K(!new)>(arcs: seq<Arc<K>>, y: K, head: K, seen: set<K>)
    requires Connected(arcs, y, head) && LeadsToAll(arcs, head, seen)
    ensures LeadsToAll(arcs, y, seen + {y})
  {
    forall z | z in seen + {y}
      ensures Connected(arcs, y, z)
    {
      if z == y {
        assert IsPath(arcs, y, [], y);
      } else {
        ConnectedTransitive(arcs, y, head, z);
      }
    }
  }

  /** Walking backwards inside a finite blocked set runs into a cycle that leads to the start. */
  lemma {:induction false} BlockedHasCycle<K(!new)>(arcs: seq<Arc<K>>, left: set<K>, seen: set<K>, head: K, v: K)
    returns (c: K)
    requires Blocked(arcs, left) && seen <= left && head in seen && v in seen
    requires LeadsToAll(arcs, head, seen)
    ensures c in left && OnCycle(arcs, c) && Connected(arcs, c, v)
    decreases left - seen
  {
    assert FedFrom(arcs, left, head);
    var e :| EnabledAt(arcs, e) && arcs[e].dst == head && arcs[e].src in left;
    var y := arcs[e].src;
    ArcConnects(arcs, e);
    if y in seen {
      c := head;
    } else {
      LeadsToMore(arcs, y, head, seen);
      assert left - (seen + {y}) < left - seen by {
        assert y in left - seen;
      }
      c := BlockedHasCycle(arcs, left, seen + {y}, y, v);
    }
  }

  lemma BlockedIsDownstream<K(!new)>(arcs: seq<Arc<K>>, sources: set<K>, left: set<K>, v: K)
    requires Blocked(arcs, left) && v in left
    requires forall x :: x in left ==> Reachable(arcs, sources, x)
    ensures DownstreamOfCycle(arcs, sources, v)
  {
    assert IsPath(arcs, v, [], v);
    var c := BlockedHasCycle(arcs, left, {v}, v, v);
  }

  lemma DownstreamIsLeftOut<K(!new)>(arcs: seq<Arc<K>>, sources: set<K>, nodes: set<K>, order: seq<K>, v: K)
    requires Closed(arcs, nodes) && forall x :: Reachable(arcs, sources, x) ==> x in nodes
    requires TopologicalOrder(arcs, nodes, order)
    requires DownstreamOfCycle(arcs, sources, v)
    ensures v in nodes && v !in order
  {
    var c :| Reachable(arcs, sources, c) && OnCycle(arcs, c) && Connected(arcs, c, v);
    CycleNotScheduled(arcs, nodes, order, c, v);
    var path :| IsPath(arcs, c, path, v);
    ClosedKeepsPath(arcs, nodes, c, path, v);
  }

  /** A maximal schedule leaves out exactly the reachable nodes that some reachable cycle leads to. */
  lemma LeftOutIsCyclic<K(!new)>(arcs: seq<Arc<K>>, sources: set<K>, nodes: set<K>, order: seq<K>)
    requires forall v :: v in nodes <==> Reachable(arcs, sources, v)
    requires TopologicalOrder(arcs, nodes, order)
    requires Blocked(arcs, set v | v in nodes && v !in order)
    ensures forall v :: v in nodes && v !in order <==> DownstreamOfCycle(arcs, sources, v)
  {
    ReachableIsClosed(arcs, sources, nodes);
    var left := set v | v in nodes && v !in order;
    forall v
      ensures v in nodes && v !in order <==> DownstreamOfCycle(arcs, sources, v)
    {
      if v in left {
        BlockedIsDownstream(arcs, sources, left, v);
      } else if DownstreamOfCycle(arcs, sources, v) {
        DownstreamIsLeftOut(arcs, sources, nodes, order, v);
      }
    }
  }

  lemma NothingLeftIffAcyclic<K(!new)>(arcs: seq<Arc<K>>, sources: set<K>)
    ensures Acyclic(arcs, sources) <==> forall v :: !DownstreamOfCycle(arcs, sources, v)
  {
    forall c | Reachable(arcs, sources, c) && OnCycle(arcs, c)
      ensures DownstreamOfCycle(arcs, sources, c)
    {
      assert IsPath(arcs, c, [], c);
    }
  }

  lemma {:induction false} CountIntoPrefixAtMost<K>(arcs: seq<Arc<K>>, out: seq<nat>, k: nat, v: K)
    requires k <= |out| && forall j :: 0 <= j < |out| ==> out[j] < |arcs|
    ensures CountInto(arcs, out[..k], v) <= CountInto(arcs, out, v)
    decreases |out|
  {
    if k < |out| {
      CountIntoPrefixAtMost(arcs, out[..|out| - 1], k, v);
      assert out[..|out| - 1][..k] == out[..k];
    } else {
      assert out[..k] == out;
    }
  }

  /** A node whose count is used up has all of its reached predecessors scheduled. */
  lemma FreeNodeExtendsOrder<K(!new)>(arcs: seq<Arc<K>>, nodes: set<K>, order: seq<K>, ready: seq<K>, v: K)
    requires TopologicalOrder(arcs, nodes, ready) && order <= ready
    requires v in nodes && v !in ready && InCount(arcs, nodes - Members(order), v) == 0
    ensures TopologicalOrder(arcs, nodes, ready + [v])
  {
    var longer := ready + [v];
    forall e, i | EnabledAt(arcs, e) && arcs[e].src in nodes && 0 <= i < |longer| && arcs[e].dst == longer[i]
      ensures arcs[e].src in longer[..i]
    {
      if i == |ready| {
        InCountWitness(arcs, nodes - Members(order), v);
        assert arcs[e].src in order;
        assert longer[..i] == ready;
      } else {
        assert longer[..i] == ready[..i];
      }
    }
  }

  // ------------------------------------------------------------ worklists

  /** Every usable arc out of an expanded node has its target in the worklist. */
  ghost predicate Pursued<K(!new)>(arcs: seq<Arc<K>>, reached: seq<K>, pending: seq<K>) {
    forall e :: EnabledAt(arcs, e) && arcs[e].src in reached ==> arcs[e].dst in pending
  }

  ghost predicate AllReachable<K(!new)>(arcs: seq<Arc<K>>, sources: set<K>, universe: set<K>, xs: seq<K>) {
    forall v :: v in xs ==> v in universe && Reachable(arcs, sources, v)
  }

  /** When the whole worklist has been read, what was reached is exactly what is reachable. */
  lemma WorklistDone<K(!new)>(arcs: seq<Arc<K>>, sources: seq<K>, universe: set<K>, reached: seq<K>, pending: seq<K>)
    requires sources <= pending && Pursued(arcs, reached, pending)
             && AllReachable(arcs, Members(sources), universe, reached)
    requires forall k :: 0 <= k < |pending| ==> pending[k] in reached
    ensures forall v :: v in reached <==> Reachable(arcs, Members(sources), v)
  {
    forall s | s in sources
      ensures s in Members(reached)
    {
      var k :| 0 <= k < |sources| && sources[k] == s;
      assert pending[k] == s;
    }
    forall e | EnabledAt(arcs, e) && arcs[e].src in Members(reached)
      ensures arcs[e].dst in Members(reached)
    {
      assert arcs[e].dst in pending;
    }
    forall v | v in Members(reached)
      ensures Reachable(arcs, Members(sources), v)
    {
      assert v in reached;
    }
    ClosedIsReachable(arcs, Members(sources), Members(reached));
    forall v
      ensures v in reached <==> Reachable(arcs, Members(sources), v)
    {
      assert v in reached <==> v in Members(reached);
    }
  }
}

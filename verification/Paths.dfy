/**
 Sums over paths. `PathsTo` lists the paths into a node up to a length, each once;
 `IsPathSum` is the meaning the traffic amplification of a node is compared with: the
 total, over every usable path from a source, of what the path leaves of one unit.
 What an arc makes of an amount is a parameter; `ByShare`, multiplication by the share
 of the arc, is the instance the simulator uses.
 */
module Paths {
  import opened Collections
  import opened Graph

  /** What an arc, given by its position, makes of an amount sent over it. */
  type Carry = (real, nat) -> real

  ghost function ByShare(arcs: seq<Arc<nat>>): Carry {
    (amount: real, e: nat) => if e < |arcs| then amount * arcs[e].share else 0.0
  }

  ghost predicate Additive(carry: Carry) {
    && (forall e :: carry(0.0, e) == 0.0)
    && forall x, y, z, e :: z == x + y ==> carry(z, e) == carry(x, e) + carry(y, e)
  }

  lemma SharesAreAdditive(arcs: seq<Arc<nat>>)
    ensures Additive(ByShare(arcs))
  {
    var carry := ByShare(arcs);
    forall x, y, z, e: nat | z == x + y
      ensures carry(z, e) == carry(x, e) + carry(y, e)
    {
      if e < |arcs| {
        assert (x + y) * arcs[e].share == x * arcs[e].share + y * arcs[e].share;
      }
    }
  }

  /** What the whole path leaves of one unit: with ByShare, the product of its shares. */
  ghost function Weight(carry: Carry, path: seq<nat>): real {
    if path == [] then 1.0 else carry(Weight(carry, path[..|path| - 1]), path[|path| - 1])
  }

  ghost function TotalWeight(carry: Carry, paths: seq<seq<nat>>): real {
    if paths == [] then 0.0
    else TotalWeight(carry, paths[..|paths| - 1]) + Weight(carry, paths[|paths| - 1])
  }

  ghost predicate ListsPaths(arcs: seq<Arc<nat>>, sources: set<nat>, v: nat, paths: seq<seq<nat>>) {
    && NoDuplicates(paths)
    && forall path :: path in paths <==> PathFrom(arcs, sources, path, v)
  }

  /** `total` is the weight of all paths from the sources to v, every path counted exactly once. */
  ghost predicate IsPathSum(arcs: seq<Arc<nat>>, carry: Carry, sources: set<nat>, v: nat, total: real) {
    exists paths :: ListsPaths(arcs, sources, v, paths) && TotalWeight(carry, paths) == total
  }

  ghost function Base(sources: set<nat>, v: nat): real {
    if v in sources then 1.0 else 0.0
  }

  /** What the nodes in `from` send into v over the first m arcs, when node u holds a[u]. */
  ghost function InFlow(arcs: seq<Arc<nat>>, carry: Carry, m: nat, from: set<nat>, a: seq<real>, v: nat): real
    requires m <= |arcs|
  {
    if m == 0 then 0.0 else InFlow(arcs, carry, m - 1, from, a, v) + Sent(arcs, carry, m - 1, from, a, v)
  }

  ghost function Sent(arcs: seq<Arc<nat>>, carry: Carry, e: nat, from: set<nat>, a: seq<real>, v: nat): real
    requires e < |arcs|
  {
    if Enabled(arcs[e]) && arcs[e].src in from && arcs[e].src < |a| && arcs[e].dst == v then carry(a[arcs[e].src], e)
        else 0.0
  }

  // ------------------------------------------------------- listing paths

  ghost function Extend(paths: seq<seq<nat>>, e: nat): (r: seq<seq<nat>>)
    ensures |r| == |paths| && forall i :: 0 <= i < |r| ==> r[i] == paths[i] + [e]
  {
    seq(|paths|, i requires 0 <= i < |paths| => paths[i] + [e])
  }

  ghost function PathsTo(arcs: seq<Arc<nat>>, sources: set<nat>, fuel: nat, v: nat): seq<seq<nat>>
    decreases fuel, |arcs| + 1
  {
    (if v in sources then [[]] else []) + (if fuel == 0 then [] else PathsOver(arcs, sources, fuel, |arcs|, v))
  }

  /** The paths into v of length at most fuel whose last arc is one of the first m. */
  ghost function PathsOver(arcs: seq<Arc<nat>>, sources: set<nat>, fuel: nat, m: nat, v: nat): seq<seq<nat>>
    requires fuel > 0 && m <= |arcs|
    decreases fuel, m
  {
    if m == 0 then []
    else
      PathsOver(arcs, sources, fuel, m - 1, v) + LastStep(arcs, sources, fuel, m, v)
  }

  ghost predicate EndsBelow(path: seq<nat>, m: nat) {
    path != [] && path[|path| - 1] < m
  }

  lemma {:induction false} PathsToComplete(arcs: seq<Arc<nat>>, sources: set<nat>, fuel: nat, v: nat, path: seq<nat>)
    ensures path in PathsTo(arcs, sources, fuel, v) <==> |path| <= fuel && PathFrom(arcs, sources, path, v)
    decreases fuel, |arcs| + 1
  {
    assert v in sources ==> IsPath(arcs, v, [], v);
    assert path == [] && PathFrom(arcs, sources, path, v) ==> v in sources;
    if fuel > 0 {
      PathsOverComplete(arcs, sources, fuel, |arcs|, v, path);
      assert path != [] && PathFrom(arcs, sources, path, v) ==> EndsBelow(path, |arcs|);
    }
  }

  lemma {:induction false} PathsOverComplete(arcs: seq<Arc<nat>>, sources: set<nat>, fuel: nat, m: nat, v: nat,
                                             path: seq<nat>)
    requires fuel > 0 && m <= |arcs|
    ensures path in PathsOver(arcs, sources, fuel, m, v)
            <==> |path| <= fuel && EndsBelow(path, m) && PathFrom(arcs, sources, path, v)
    decreases fuel, m
  {
    if m > 0 {
      PathsOverComplete(arcs, sources, fuel, m - 1, v, path);
      LastStepComplete(arcs, sources, fuel, m, v, path);
    }
  }

  ghost function LastStep(arcs: seq<Arc<nat>>, sources: set<nat>, fuel: nat, m: nat, v: nat): seq<seq<nat>>
    requires fuel > 0 && 0 < m <= |arcs|
    decreases fuel, m, 0
  {
    if Enabled(arcs[m - 1]) && arcs[m - 1].dst == v then
      Extend(PathsTo(arcs, sources, fuel - 1, arcs[m - 1].src), m - 1)
    else []
  }

  lemma LastStepComplete(arcs: seq<Arc<nat>>, sources: set<nat>, fuel: nat, m: nat, v: nat, path: seq<nat>)
    requires fuel > 0 && 0 < m <= |arcs|
    ensures path in LastStep(arcs, sources, fuel, m, v)
            <==> |path| <= fuel && path != [] && path[|path| - 1] == m - 1 && PathFrom(arcs, sources, path, v)
    decreases fuel, m, 0
  {
    var u := arcs[m - 1].src;
    if path != [] && path[|path| - 1] == m - 1 {
      LastArc(arcs, sources, path, v);
      PathsToComplete(arcs, sources, fuel - 1, u, path[..|path| - 1]);
    }
    if Enabled(arcs[m - 1]) && arcs[m - 1].dst == v {
      ExtendMember(PathsTo(arcs, sources, fuel - 1, u), m - 1, path);
    }
  }

  lemma ExtendMember(paths: seq<seq<nat>>, e: nat, path: seq<nat>)
    ensures path in Extend(paths, e) <==> path != [] && path[|path| - 1] == e && path[..|path| - 1] in paths
  {
    var r := Extend(paths, e);
    if path in r {
      var i :| 0 <= i < |r| && r[i] == path;
      assert path[..|path| - 1] == paths[i];
    }
    if path != [] && path[|path| - 1] == e && path[..|path| - 1] in paths {
      var i :| 0 <= i < |paths| && paths[i] == path[..|path| - 1];
      assert r[i] == path;
    }
  }

  lemma LastArc(arcs: seq<Arc<nat>>, sources: set<nat>, path: seq<nat>, v: nat)
    requires path != [] && path[|path| - 1] < |arcs|
    ensures var last := arcs[path[|path| - 1]];
            PathFrom(arcs, sources, path, v)
            <==> Enabled(last) && last.dst == v && PathFrom(arcs, sources, path[..|path| - 1], last.src)
  {
    var last := arcs[path[|path| - 1]];
    var rest := path[..|path| - 1];
    if PathFrom(arcs, sources, path, v) {
      var s :| s in sources && IsPath(arcs, s, path, v);
      assert IsPath(arcs, s, rest, last.src);
    }
    if Enabled(last) && last.dst == v && PathFrom(arcs, sources, rest, last.src) {
      var s :| s in sources && IsPath(arcs, s, rest, last.src);
      assert IsPath(arcs, s, path, v);
    }
  }

  lemma {:induction false} PathsToDistinct(arcs: seq<Arc<nat>>, sources: set<nat>, fuel: nat, v: nat)
    ensures NoDuplicates(PathsTo(arcs, sources, fuel, v))
    decreases fuel, |arcs| + 1
  {
    if fuel > 0 {
      var over := PathsOver(arcs, sources, fuel, |arcs|, v);
      PathsOverDistinct(arcs, sources, fuel, |arcs|, v);
      forall i | 0 <= i < |over|
        ensures over[i] != []
      {
        assert over[i] in over;
        PathsOverComplete(arcs, sources, fuel, |arcs|, v, over[i]);
      }
    }
  }

  lemma {:induction false} PathsOverDistinct(arcs: seq<Arc<nat>>, sources: set<nat>, fuel: nat, m: nat, v: nat)
    requires fuel > 0 && m <= |arcs|
    ensures NoDuplicates(PathsOver(arcs, sources, fuel, m, v))
    decreases fuel, m, 1
  {
    if m > 0 {
      PathsOverDistinct(arcs, sources, fuel, m - 1, v);
      LastStepDistinct(arcs, sources, fuel, m, v);
      var before := PathsOver(arcs, sources, fuel, m - 1, v);
      EndsApart(arcs, sources, fuel, m, v, before);
      ConcatDistinct(before, LastStep(arcs, sources, fuel, m, v), m - 1);
    }
  }

  lemma {:induction false} LastStepDistinct(arcs: seq<Arc<nat>>, sources: set<nat>, fuel: nat, m: nat, v: nat)
    requires fuel > 0 && 0 < m <= |arcs|
    ensures NoDuplicates(LastStep(arcs, sources, fuel, m, v))
    decreases fuel, m, 0
  {
    if Enabled(arcs[m - 1]) && arcs[m - 1].dst == v {
      PathsToDistinct(arcs, sources, fuel - 1, arcs[m - 1].src);
      ExtendDistinct(PathsTo(arcs, sources, fuel - 1, arcs[m - 1].src), m - 1);
    }
  }

  /** The paths whose last arc is arc m - 1 are none of those listed before. */
  lemma EndsApart(arcs: seq<Arc<nat>>, sources: set<nat>, fuel: nat, m: nat, v: nat, before: seq<seq<nat>>)
    requires fuel > 0 && 0 < m <= |arcs| && before == PathsOver(arcs, sources, fuel, m - 1, v)
    ensures forall path :: path in before ==> EndsBelow(path, m - 1)
    ensures forall path :: path in LastStep(arcs, sources, fuel, m, v) ==> path != [] && path[|path| - 1] == m - 1
  {
    forall path | path in before
      ensures EndsBelow(path, m - 1)
    {
      PathsOverComplete(arcs, sources, fuel, m - 1, v, path);
    }
    forall path | path in LastStep(arcs, sources, fuel, m, v)
      ensures path != [] && path[|path| - 1] == m - 1
    {
      LastStepComplete(arcs, sources, fuel, m, v, path);
    }
  }

  lemma ExtendDistinct(paths: seq<seq<nat>>, e: nat)
    requires NoDuplicates(paths)
    ensures NoDuplicates(Extend(paths, e))
  {
    var r := Extend(paths, e);
    forall i, j | 0 <= i < j < |r|
      ensures r[i] != r[j]
    {
      assert r[i][..|r[i]| - 1] == paths[i] && r[j][..|r[j]| - 1] == paths[j];
    }
  }

  lemma ConcatDistinct(before: seq<seq<nat>>, after: seq<seq<nat>>, e: nat)
    requires NoDuplicates(before) && NoDuplicates(after)
    requires forall path :: path in before ==> EndsBelow(path, e)
    requires forall path :: path in after ==> path != [] && path[|path| - 1] == e
    ensures NoDuplicates(before + after)
  {
    var all := before + after;
    forall i, j | 0 <= i < j < |all|
      ensures all[i] != all[j]
    {
      if i < |before| <= j {
        assert all[i] in before && all[j] in after;
      }
    }
  }

  // --------------------------------------------------------- path weights

  lemma {:induction false} TotalWeightConcat(carry: Carry, p: seq<seq<nat>>, q: seq<seq<nat>>)
    ensures TotalWeight(carry, p + q) == TotalWeight(carry, p) + TotalWeight(carry, q)
  {
    if q == [] {
      assert p + q == p;
    } else {
      TotalWeightConcat(carry, p, q[..|q| - 1]);
      assert (p + q)[..|p + q| - 1] == p + q[..|q| - 1];
    }
  }

  lemma TotalWeightSingle(carry: Carry, path: seq<nat>)
    ensures TotalWeight(carry, [path]) == Weight(carry, path)
  {
    var one: seq<seq<nat>> := [path];
    assert one[..0] == [];
  }

  lemma {:induction false} TotalWeightExtend(carry: Carry, paths: seq<seq<nat>>, e: nat)
    requires Additive(carry)
    ensures TotalWeight(carry, Extend(paths, e)) == carry(TotalWeight(carry, paths), e)
  {
    if paths != [] {
      var n := |paths| - 1;
      TotalWeightExtend(carry, paths[..n], e);
      assert Extend(paths, e)[..n] == Extend(paths[..n], e);
      var longer := paths[n] + [e];
      assert longer[..|longer| - 1] == paths[n];
    }
  }

  lemma LastStepWeight(arcs: seq<Arc<nat>>, carry: Carry, sources: set<nat>, fuel: nat, m: nat, v: nat, from: set<nat>,
                       a: seq<real>)
    requires Additive(carry) && fuel > 0 && 0 < m <= |arcs|
    requires Enabled(arcs[m - 1]) && arcs[m - 1].dst == v ==>
               Weighs(arcs, carry, sources, fuel - 1, from, a, arcs[m - 1].src)
    ensures TotalWeight(carry, LastStep(arcs, sources, fuel, m, v)) == Sent(arcs, carry, m - 1, from, a, v)
  {
    if Enabled(arcs[m - 1]) && arcs[m - 1].dst == v {
      TotalWeightExtend(carry, PathsTo(arcs, sources, fuel - 1, arcs[m - 1].src), m - 1);
    }
  }

  /** Node u, with everything that reaches it listed, weighs what the recurrence holds for it. */
  ghost predicate Weighs(arcs: seq<Arc<nat>>, carry: Carry, sources: set<nat>, fuel: nat, from: set<nat>, a: seq<real>,
                         u: nat) {
    TotalWeight(carry, PathsTo(arcs, sources, fuel, u)) == if u in from && u < |a| then a[u] else 0.0
  }

  /** The listed paths over the first m arcs weigh what one step of the traffic recurrence adds. */
  lemma {:induction false} PathsOverWeight(arcs: seq<Arc<nat>>, carry: Carry, sources: set<nat>, fuel: nat, m: nat,
                                           v: nat, from: set<nat>, a: seq<real>)
    requires Additive(carry) && fuel > 0 && m <= |arcs|
    requires forall e :: EnabledAt(arcs, e) && arcs[e].dst == v ==>
               Weighs(arcs, carry, sources, fuel - 1, from, a, arcs[e].src)
    ensures TotalWeight(carry, PathsOver(arcs, sources, fuel, m, v)) == InFlow(arcs, carry, m, from, a, v)
    decreases m
  {
    if m > 0 {
      PathsOverWeight(arcs, carry, sources, fuel, m - 1, v, from, a);
      TotalWeightConcat(carry, PathsOver(arcs, sources, fuel, m - 1, v), LastStep(arcs, sources, fuel, m, v));
      assert Enabled(arcs[m - 1]) ==> EnabledAt(arcs, m - 1);
      LastStepWeight(arcs, carry, sources, fuel, m, v, from, a);
    }
  }

  lemma PathsToWeight(arcs: seq<Arc<nat>>, carry: Carry, sources: set<nat>, fuel: nat, v: nat, from: set<nat>,
                      a: seq<real>)
    requires Additive(carry)
    requires fuel > 0 || forall e :: EnabledAt(arcs, e) && arcs[e].dst == v ==> arcs[e].src !in from
    requires fuel > 0 ==> forall e :: EnabledAt(arcs, e) && arcs[e].dst == v ==>
                                        Weighs(arcs, carry, sources, fuel - 1, from, a, arcs[e].src)
    ensures TotalWeight(carry, PathsTo(arcs, sources, fuel, v))
            == Base(sources, v) + InFlow(arcs, carry, |arcs|, from, a, v)
  {
    var here: seq<seq<nat>> := if v in sources then [[]] else [];
    assert TotalWeight(carry, here) == Base(sources, v) by {
      if v in sources {
        TotalWeightSingle(carry, []);
      }
    }
    if fuel > 0 {
      PathsOverWeight(arcs, carry, sources, fuel, |arcs|, v, from, a);
      TotalWeightConcat(carry, here, PathsOver(arcs, sources, fuel, |arcs|, v));
    } else {
      InFlowNone(arcs, carry, |arcs|, from, a, v);
      assert PathsTo(arcs, sources, fuel, v) == here;
    }
  }

  lemma {:induction false} InFlowNone(arcs: seq<Arc<nat>>, carry: Carry, m: nat, from: set<nat>, a: seq<real>, v: nat)
    requires m <= |arcs|
    requires forall e :: EnabledAt(arcs, e) && arcs[e].dst == v ==> arcs[e].src !in from
    ensures InFlow(arcs, carry, m, from, a, v) == 0.0
  {
    if m > 0 {
      InFlowNone(arcs, carry, m - 1, from, a, v);
      assert Enabled(arcs[m - 1]) ==> EnabledAt(arcs, m - 1);
    }
  }

  lemma UnreachableHasNoPaths(arcs: seq<Arc<nat>>, sources: set<nat>, fuel: nat, v: nat)
    requires !Reachable(arcs, sources, v)
    ensures PathsTo(arcs, sources, fuel, v) == []
  {
    var paths := PathsTo(arcs, sources, fuel, v);
    if paths != [] {
      var path := paths[0];
      assert path in paths;
      PathsToComplete(arcs, sources, fuel, v, path);
      assert false;
    }
  }

  // ------------------------------------------- the recurrence and its sum

  ghost predicate Matters(arcs: seq<Arc<nat>>, sources: set<nat>, order: seq<nat>, u: nat) {
    u in order || Reachable(arcs, sources, u)
  }

  /**
   Every usable arc into a listed node of `settled`, from a node that is listed or reached,
   starts earlier in the list and at another such node.
   */
  ghost predicate Settles(arcs: seq<Arc<nat>>, sources: set<nat>, order: seq<nat>, settled: set<nat>) {
    && NoDuplicates(order)
    && forall e, i :: EnabledAt(arcs, e) && 0 <= i < |order| && arcs[e].dst == order[i] && order[i] in settled
                      && Matters(arcs, sources, order, arcs[e].src)
                      ==> arcs[e].src in order[..i] && arcs[e].src in settled
  }

  lemma StepIsReached(arcs: seq<Arc<nat>>, sources: set<nat>, from: nat, path: seq<nat>, to: nat)
    requires from in sources && path != [] && IsPath(arcs, from, path, to)
    ensures Reachable(arcs, sources, arcs[path[|path| - 1]].src)
  {
    assert PathFrom(arcs, sources, path[..|path| - 1], arcs[path[|path| - 1]].src);
  }

  /** A settling list bounds the length of every path into its i-th node by i. */
  lemma {:induction false} PathLengthBound(arcs: seq<Arc<nat>>, sources: set<nat>, order: seq<nat>, settled: set<nat>,
                                           from: nat, path: seq<nat>, i: nat)
    requires Settles(arcs, sources, order, settled) && i < |order| && order[i] in settled
    requires from in sources && IsPath(arcs, from, path, order[i])
    ensures |path| <= i
    decreases |path|
  {
    if path != [] {
      var last := path[|path| - 1];
      StepIsReached(arcs, sources, from, path, order[i]);
      var j :| 0 <= j < i && order[j] == arcs[last].src;
      PathLengthBound(arcs, sources, order, settled, from, path[..|path| - 1], j);
    }
  }

  ghost predicate Balanced(arcs: seq<Arc<nat>>, carry: Carry, sources: set<nat>, scheduled: set<nat>, a: seq<real>,
                           v: nat) {
    v < |a| && a[v] == Base(sources, v) + InFlow(arcs, carry, |arcs|, scheduled, a, v)
  }

  /** A node that does not matter has no paths into it and counts for nothing. */
  lemma OtherWeighsNothing(arcs: seq<Arc<nat>>, carry: Carry, sources: set<nat>, order: seq<nat>, a: seq<real>,
                           u: nat, fuel: nat)
    requires !Matters(arcs, sources, order, u)
    ensures Weighs(arcs, carry, sources, fuel, Members(order), a, u)
  {
    UnreachableHasNoPaths(arcs, sources, fuel, u);
  }

  /** Values that satisfy the recurrence along a settling list are the weights of the listed paths. */
  lemma {:induction false} BalancedWeight(arcs: seq<Arc<nat>>, carry: Carry, sources: set<nat>, order: seq<nat>,
                                          settled: set<nat>, a: seq<real>, i: nat, fuel: nat)
    requires Additive(carry) && Settles(arcs, sources, order, settled)
    requires i < |order| && order[i] in settled && i <= fuel
    requires forall x :: x in order ==> Balanced(arcs, carry, sources, Members(order), a, x)
    ensures order[i] < |a| && TotalWeight(carry, PathsTo(arcs, sources, fuel, order[i])) == a[order[i]]
    decreases i, 1
  {
    var v := order[i];
    assert v in order && Balanced(arcs, carry, sources, Members(order), a, v);
    forall e | EnabledAt(arcs, e) && arcs[e].dst == v
      ensures arcs[e].src in Members(order) ==> i > 0
      ensures fuel > 0 ==> Weighs(arcs, carry, sources, fuel - 1, Members(order), a, arcs[e].src)
    {
      if fuel > 0 {
        FeederWeighs(arcs, carry, sources, order, settled, a, i, fuel, e);
      }
    }
    PathsToWeight(arcs, carry, sources, fuel, v, Members(order), a);
  }

  lemma {:induction false} FeederWeighs(arcs: seq<Arc<nat>>, carry: Carry, sources: set<nat>, order: seq<nat>,
                                        settled: set<nat>, a: seq<real>, i: nat, fuel: nat, e: nat)
    requires Additive(carry) && Settles(arcs, sources, order, settled)
    requires i < |order| && order[i] in settled && i <= fuel && fuel > 0
    requires forall x :: x in order ==> Balanced(arcs, carry, sources, Members(order), a, x)
    requires EnabledAt(arcs, e) && arcs[e].dst == order[i]
    ensures Weighs(arcs, carry, sources, fuel - 1, Members(order), a, arcs[e].src)
    decreases i, 0
  {
    var u := arcs[e].src;
    if Matters(arcs, sources, order, u) {
      var j :| 0 <= j < i && order[j] == u;
      BalancedWeight(arcs, carry, sources, order, settled, a, j, fuel - 1);
    } else {
      OtherWeighsNothing(arcs, carry, sources, order, a, u, fuel - 1);
    }
  }

  /** Node v is fed by settled nodes of the list only, as far as feeding it matters. */
  ghost predicate FedBySettled(arcs: seq<Arc<nat>>, sources: set<nat>, order: seq<nat>, settled: set<nat>, v: nat) {
    forall e :: EnabledAt(arcs, e) && arcs[e].dst == v && Matters(arcs, sources, order, arcs[e].src) ==>
                  arcs[e].src in order && arcs[e].src in settled
  }

  lemma FedPathLength(arcs: seq<Arc<nat>>, sources: set<nat>, order: seq<nat>, settled: set<nat>, v: nat,
                      path: seq<nat>)
    requires Settles(arcs, sources, order, settled) && FedBySettled(arcs, sources, order, settled, v)
    requires PathFrom(arcs, sources, path, v)
    ensures |path| <= |order|
  {
    var s :| s in sources && IsPath(arcs, s, path, v);
    if path != [] {
      var last := path[|path| - 1];
      StepIsReached(arcs, sources, s, path, v);
      var j :| 0 <= j < |order| && order[j] == arcs[last].src;
      PathLengthBound(arcs, sources, order, settled, s, path[..|path| - 1], j);
    }
  }

  /** Long enough lists hold every path into such a node. */
  lemma PathsToLists(arcs: seq<Arc<nat>>, sources: set<nat>, order: seq<nat>, settled: set<nat>, v: nat, fuel: nat)
    requires Settles(arcs, sources, order, settled) && FedBySettled(arcs, sources, order, settled, v) && fuel >= |order|
    ensures ListsPaths(arcs, sources, v, PathsTo(arcs, sources, fuel, v))
  {
    PathsToDistinct(arcs, sources, fuel, v);
    forall path
      ensures path in PathsTo(arcs, sources, fuel, v) <==> PathFrom(arcs, sources, path, v)
    {
      PathsToComplete(arcs, sources, fuel, v, path);
      if PathFrom(arcs, sources, path, v) {
        FedPathLength(arcs, sources, order, settled, v, path);
      }
    }
  }

  /** Values that satisfy the recurrence are path sums wherever only settled nodes feed a node. */
  lemma SettledPathSum(arcs: seq<Arc<nat>>, carry: Carry, sources: set<nat>, order: seq<nat>, settled: set<nat>,
                       a: seq<real>, v: nat)
    requires Additive(carry) && Settles(arcs, sources, order, settled)
    requires forall x :: x in order ==> Balanced(arcs, carry, sources, Members(order), a, x)
    requires Balanced(arcs, carry, sources, Members(order), a, v) && FedBySettled(arcs, sources, order, settled, v)
    ensures v < |a| && IsPathSum(arcs, carry, sources, v, a[v])
  {
    var fuel := |order| + 1;
    forall e | EnabledAt(arcs, e) && arcs[e].dst == v
      ensures Weighs(arcs, carry, sources, fuel - 1, Members(order), a, arcs[e].src)
    {
      if Matters(arcs, sources, order, arcs[e].src) {
        var j :| 0 <= j < |order| && order[j] == arcs[e].src;
        BalancedWeight(arcs, carry, sources, order, settled, a, j, fuel - 1);
      } else {
        UnreachableHasNoPaths(arcs, sources, fuel - 1, arcs[e].src);
      }
    }
    PathsToWeight(arcs, carry, sources, fuel, v, Members(order), a);
    PathsToLists(arcs, sources, order, settled, v, fuel);
  }

  /** Along a schedule of what is reachable, values that satisfy the recurrence are the path sums. */
  lemma ScheduledPathSum(arcs: seq<Arc<nat>>, carry: Carry, sources: set<nat>, nodes: set<nat>, order: seq<nat>,
                         a: seq<real>, v: nat)
    requires Additive(carry)
    requires forall v :: v in nodes <==> Reachable(arcs, sources, v)
    requires TopologicalOrder(arcs, nodes, order) && v in order
    requires forall x :: x in order ==> Balanced(arcs, carry, sources, Members(order), a, x)
    ensures v < |a| && IsPathSum(arcs, carry, sources, v, a[v])
  {
    ScheduleSettles(arcs, sources, nodes, order);
    assert FedBySettled(arcs, sources, order, Members(order), v) by {
      var i :| 0 <= i < |order| && order[i] == v;
    }
    SettledPathSum(arcs, carry, sources, order, Members(order), a, v);
  }

  lemma ScheduleSettles(arcs: seq<Arc<nat>>, sources: set<nat>, nodes: set<nat>, order: seq<nat>)
    requires forall v :: v in nodes <==> Reachable(arcs, sources, v)
    requires TopologicalOrder(arcs, nodes, order)
    ensures Settles(arcs, sources, order, Members(order))
  {
    forall e, i | EnabledAt(arcs, e) && 0 <= i < |order| && arcs[e].dst == order[i]
        && Matters(arcs, sources, order, arcs[e].src)
      ensures arcs[e].src in order[..i] && arcs[e].src in Members(order)
    {
      assert arcs[e].src in nodes;
    }
  }

  lemma UnreachablePathSum(arcs: seq<Arc<nat>>, carry: Carry, sources: set<nat>, v: nat)
    requires !Reachable(arcs, sources, v)
    ensures IsPathSum(arcs, carry, sources, v, 0.0)
  {
    assert ListsPaths(arcs, sources, v, []) && TotalWeight(carry, []) == 0.0;
  }

  /** The sum does not depend on the order in which the paths are listed. */
  lemma PathSumUnique(arcs: seq<Arc<nat>>, carry: Carry, sources: set<nat>, v: nat, s: real, t: real)
    requires IsPathSum(arcs, carry, sources, v, s) && IsPathSum(arcs, carry, sources, v, t)
    ensures s == t
  {
    var p :| ListsPaths(arcs, sources, v, p) && TotalWeight(carry, p) == s;
    var q :| ListsPaths(arcs, sources, v, q) && TotalWeight(carry, q) == t;
    SameMembersSameWeight(carry, p, q);
  }

  lemma TotalWeightRemove(carry: Carry, q: seq<seq<nat>>, k: nat)
    requires k < |q|
    ensures TotalWeight(carry, q) == TotalWeight(carry, q[..k] + q[k + 1..]) + Weight(carry, q[k])
  {
    var before, after := q[..k], q[k + 1..];
    var tail := [q[k]] + after;
    assert q == before + tail;
    TotalWeightConcat(carry, before, tail);
    TotalWeightConcat(carry, [q[k]], after);
    TotalWeightConcat(carry, before, after);
    TotalWeightSingle(carry, q[k]);
  }

  lemma {:induction false} SameMembersSameWeight(carry: Carry, p: seq<seq<nat>>, q: seq<seq<nat>>)
    requires NoDuplicates(p) && NoDuplicates(q)
    requires forall path :: path in p <==> path in q
    ensures TotalWeight(carry, p) == TotalWeight(carry, q)
    decreases |p|
  {
    assert q != [] ==> q[0] in q;
    if p == [] {
      assert q == [];
    } else {
      var n := |p| - 1;
      assert p[n] in q;
      var k :| 0 <= k < |q| && q[k] == p[n];
      TotalWeightRemove(carry, q, k);
      var rest := q[..k] + q[k + 1..];
      SameRest(p, q, k, p[..n], rest);
      SameMembersSameWeight(carry, p[..n], rest);
    }
  }

  lemma SameRest(p: seq<seq<nat>>, q: seq<seq<nat>>, k: nat, shorter: seq<seq<nat>>, rest: seq<seq<nat>>)
    requires NoDuplicates(p) && NoDuplicates(q) && p != [] && k < |q| && q[k] == p[|p| - 1]
    requires forall path :: path in p <==> path in q
    requires shorter == p[..|p| - 1] && rest == q[..k] + q[k + 1..]
    ensures NoDuplicates(shorter) && NoDuplicates(rest)
    ensures forall path :: path in shorter <==> path in rest
  {
    forall path
      ensures path in shorter <==> path in rest
    {
      if path in shorter {
        assert path in p && path in q;
        var j :| 0 <= j < |q| && q[j] == path;
        assert j != k;
        assert rest[if j < k then j else j - 1] == path;
      }
      if path in rest {
        var j :| 0 <= j < |rest| && rest[j] == path;
        assert q[if j < k then j else j + 1] == path;
        assert path in q && path in p;
        var i :| 0 <= i < |p| && p[i] == path;
        assert shorter[i] == path;
      }
    }
  }

  // ---------------------------------------------------- weights with a sign

  ghost predicate KeepsSign(carry: Carry) {
    forall x, e :: x >= 0.0 ==> carry(x, e) >= 0.0
  }

  lemma {:induction false} WeightSign(carry: Carry, path: seq<nat>)
    requires KeepsSign(carry)
    ensures Weight(carry, path) >= 0.0
  {
    if path != [] {
      WeightSign(carry, path[..|path| - 1]);
    }
  }

  lemma {:induction false} TotalWeightSign(carry: Carry, paths: seq<seq<nat>>)
    requires KeepsSign(carry)
    ensures TotalWeight(carry, paths) >= 0.0
  {
    if paths != [] {
      TotalWeightSign(carry, paths[..|paths| - 1]);
      WeightSign(carry, paths[|paths| - 1]);
    }
  }

  /** The sum is at least what any one path contributes. */
  lemma PathSumAtLeast(arcs: seq<Arc<nat>>, carry: Carry, sources: set<nat>, v: nat, total: real, path: seq<nat>)
    requires KeepsSign(carry) && IsPathSum(arcs, carry, sources, v, total) && PathFrom(arcs, sources, path, v)
    ensures total >= Weight(carry, path)
  {
    var paths :| ListsPaths(arcs, sources, v, paths) && TotalWeight(carry, paths) == total;
    var k :| 0 <= k < |paths| && paths[k] == path;
    TotalWeightRemove(carry, paths, k);
    TotalWeightSign(carry, paths[..k] + paths[k + 1..]);
  }

  // ------------------------------------------- one more sender at a time

  lemma {:induction false} InFlowSame(arcs: seq<Arc<nat>>, carry: Carry, m: nat, from: set<nat>, a: seq<real>,
                                      b: seq<real>, v: nat)
    requires m <= |arcs| && |a| == |b|
    requires forall u :: u in from && u < |a| ==> a[u] == b[u]
    ensures InFlow(arcs, carry, m, from, a, v) == InFlow(arcs, carry, m, from, b, v)
  {
    if m > 0 {
      InFlowSame(arcs, carry, m - 1, from, a, b, v);
    }
  }

  /** What arrives at v over the arcs in `out` when each is given `amount`. */
  ghost function OutFlow(arcs: seq<Arc<nat>>, carry: Carry, out: seq<nat>, amount: real, v: nat): real
    requires forall k :: 0 <= k < |out| ==> out[k] < |arcs|
  {
    if out == [] then 0.0
    else
      var last := out[|out| - 1];
      OutFlow(arcs, carry, out[..|out| - 1], amount, v) + (if arcs[last].dst == v then carry(amount, last) else 0.0)
  }

  lemma OutFlowStep(arcs: seq<Arc<nat>>, carry: Carry, out: seq<nat>, e: nat, amount: real, v: nat)
    requires e < |arcs| && forall k :: 0 <= k < |out| ==> out[k] < |arcs|
    ensures OutFlow(arcs, carry, out + [e], amount, v)
            == OutFlow(arcs, carry, out, amount, v) + (if arcs[e].dst == v then carry(amount, e) else 0.0)
  {
    assert (out + [e])[..|out|] == out;
  }

  lemma {:induction false} OutFlowNone(arcs: seq<Arc<nat>>, carry: Carry, out: seq<nat>, amount: real, v: nat)
    requires forall k :: 0 <= k < |out| ==> out[k] < |arcs| && arcs[out[k]].dst != v
    ensures OutFlow(arcs, carry, out, amount, v) == 0.0
  {
    if out != [] {
      OutFlowNone(arcs, carry, out[..|out| - 1], amount, v);
    }
  }

  /** What the first m arcs carry out of u into v when u holds `amount`. */
  ghost function SentFrom(arcs: seq<Arc<nat>>, carry: Carry, m: nat, u: nat, amount: real, v: nat): real
    requires m <= |arcs|
  {
    if m == 0 then 0.0
    else
      SentFrom(arcs, carry, m - 1, u, amount, v)
      + (if Enabled(arcs[m - 1]) && arcs[m - 1].src == u && arcs[m - 1].dst == v then carry(amount, m - 1) else 0.0)
  }

  lemma {:induction false} OutFlowIsSent(arcs: seq<Arc<nat>>, carry: Carry, m: nat, u: nat, amount: real, v: nat)
    requires m <= |arcs|
    ensures OutFlow(arcs, carry, OutOf(arcs[..m], u), amount, v) == SentFrom(arcs, carry, m, u, amount, v)
    decreases m
  {
    if m > 0 {
      OutFlowIsSent(arcs, carry, m - 1, u, amount, v);
      OutOfStep(arcs, m, u);
      if Enabled(arcs[m - 1]) && arcs[m - 1].src == u {
        OutFlowStep(arcs, carry, OutOf(arcs[..m - 1], u), m - 1, amount, v);
      }
    }
  }

  lemma {:induction false} InFlowSplit(arcs: seq<Arc<nat>>, carry: Carry, m: nat, from: set<nat>, u: nat, a: seq<real>,
                                       v: nat)
    requires m <= |arcs| && u !in from && u < |a|
    ensures InFlow(arcs, carry, m, from + {u}, a, v)
            == InFlow(arcs, carry, m, from, a, v) + SentFrom(arcs, carry, m, u, a[u], v)
    decreases m
  {
    if m > 0 {
      InFlowSplit(arcs, carry, m - 1, from, u, a, v);
    }
  }

  /** Taking one more node into the senders adds exactly what leaves that node. */
  lemma InFlowAdd(arcs: seq<Arc<nat>>, carry: Carry, from: set<nat>, u: nat, a: seq<real>, v: nat)
    requires u !in from && u < |a|
    ensures InFlow(arcs, carry, |arcs|, from + {u}, a, v)
            == InFlow(arcs, carry, |arcs|, from, a, v) + OutFlow(arcs, carry, OutOf(arcs, u), a[u], v)
  {
    InFlowSplit(arcs, carry, |arcs|, from, u, a, v);
    OutFlowIsSent(arcs, carry, |arcs|, u, a[u], v);
    assert arcs[..|arcs|] == arcs;
  }
}

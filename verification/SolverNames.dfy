/**
 The ids of candidates: built from strategies and node ids, lower-cased, with every other
 character replaced by a hyphen. Different changes may end up with one id; this module
 says when they do not.
 */
module SolverNames {
  import opened Wrappers
  import opened Architecture
  import opened SolverMutations
  import opened SolverSearch

  function LowerChar(c: char): char {
    if 'A' <= c <= 'Z' then (c as int - 'A' as int + 'a' as int) as char else c
  }

  function SlugChar(c: char): char {
    var lower := LowerChar(c);
    if 'a' <= lower <= 'z' || '0' <= lower <= '9' || lower == '_' || lower == '-' then lower else '-'
  }

  /** Lower-cased, with everything outside a-z, 0-9, _ and - replaced by a hyphen. */
  function Slug(text: string): (slug: string)
    ensures |slug| == |text|
  {
    seq(|text|, k requires 0 <= k < |text| => SlugChar(text[k]))
  }

  function StrategyName(strategy: Strategy): string {
    match strategy
    case HorizontalScale => "horizontal-scale"
    case ElasticScale => "elastic-scale"
    case ResilienceControls => "resilience-controls"
    case DurableReplication => "durable-replication"
    case StoragePartitioning => "storage-partitioning"
    case CacheEfficiency => "cache-efficiency"
    case ConsumerParallelism => "consumer-parallelism"
  }

  function Join(parts: seq<string>, separator: string): string {
    if parts == [] then ""
    else if |parts| == 1 then parts[0]
    else Join(parts[..|parts| - 1], separator) + separator + parts[|parts| - 1]
  }

  function ChangeName(m: Mutation): string {
    StrategyName(StrategyOf(m)) + "-" + Join(NodeIdsOf(m), "-")
  }

  function CandidateId(changes: seq<Mutation>): string {
    Slug(Join(seq(|changes|, k requires 0 <= k < |changes| => ChangeName(changes[k])), "__"))
  }

  // -------------------------------------------------------------- names apart

  function Name(m: Mutation): string {
    Slug(ChangeName(m))
  }

  lemma SlugConcat(x: string, y: string)
    ensures Slug(x + y) == Slug(x) + Slug(y)
  {
  }

  lemma SeparatorSlugs()
    ensures Slug("-") == "-" && Slug("__") == "__"
  {
  }

  lemma SingleId(m: Mutation)
    ensures CandidateId([m]) == Name(m)
  {
    assert seq(|[m]|, k requires 0 <= k < |[m]| => ChangeName([m][k])) == [ChangeName(m)];
  }

  lemma PairId(first: Mutation, second: Mutation)
    ensures CandidateId([first, second]) == Name(first) + "__" + Name(second)
  {
    var changes, x, y := [first, second], ChangeName(first), ChangeName(second);
    assert seq(|changes|, k requires 0 <= k < |changes| => ChangeName(changes[k])) == [x, y];
    assert [x, y][..1] == [x] && Join([x, y], "__") == x + "__" + y;
    SlugConcat(x + "__", y);
    SlugConcat(x, "__");
    SeparatorSlugs();
  }

  /** The names of further nodes behind the first, each with its hyphen. */
  function Tail(ids: seq<string>): string {
    if ids == [] then "" else Tail(ids[..|ids| - 1]) + "-" + ids[|ids| - 1]
  }

  lemma {:induction false} JoinTail(id: string, ids: seq<string>)
    ensures Join([id] + ids, "-") == id + Tail(ids)
    decreases |ids|
  {
    if ids == [] {
      assert [id] + ids == [id];
    } else {
      var before := ids[..|ids| - 1];
      JoinTail(id, before);
      assert ([id] + ids)[..|ids|] == [id] + before;
      assert (id + Tail(before)) + "-" + ids[|ids| - 1] == id + Tail(ids);
    }
  }

  function WorkersOf(m: Mutation): seq<string> {
    if m.Consume? then m.workers else []
  }

  /** Only lower-case letters and hyphens, which a slug keeps. */
  predicate Plain(text: string) {
    forall k :: 0 <= k < |text| ==> 'a' <= text[k] <= 'z' || text[k] == '-'
  }

  lemma PlainStays(text: string)
    requires Plain(text)
    ensures Slug(text) == text && !HasDouble(text)
  {
  }

  lemma StrategyNameIsPlain(strategy: Strategy)
    ensures Plain(StrategyName(strategy))
  {
    match strategy
    case HorizontalScale => assert Plain("horizontal-scale");
    case ElasticScale => assert Plain("elastic-scale");
    case ResilienceControls => assert Plain("resilience-controls");
    case DurableReplication => assert Plain("durable-replication");
    case StoragePartitioning => assert Plain("storage-partitioning");
    case CacheEfficiency => assert Plain("cache-efficiency");
    case ConsumerParallelism => assert Plain("consumer-parallelism");
  }

  lemma NameParts(m: Mutation)
    ensures Name(m) == StrategyName(StrategyOf(m)) + "-" + Slug(m.id) + Slug(Tail(WorkersOf(m)))
  {
    var strategy := StrategyName(StrategyOf(m));
    assert NodeIdsOf(m) == [m.id] + WorkersOf(m);
    JoinTail(m.id, WorkersOf(m));
    SlugConcat(strategy + "-", m.id + Tail(WorkersOf(m)));
    SlugConcat(strategy, "-");
    SlugConcat(m.id, Tail(WorkersOf(m)));
    StrategyNameIsPlain(StrategyOf(m));
    PlainStays(strategy);
    SeparatorSlugs();
  }

  function Initials(strategy: Strategy): string {
    match strategy
    case HorizontalScale => "ho"
    case ElasticScale => "el"
    case ResilienceControls => "re"
    case DurableReplication => "du"
    case StoragePartitioning => "st"
    case CacheEfficiency => "ca"
    case ConsumerParallelism => "co"
  }

  lemma InitialsTell(s: Strategy, t: Strategy)
    ensures |StrategyName(s)| > 2 && StrategyName(s)[..2] == Initials(s)
    ensures Initials(s) == Initials(t) ==> s == t
  {
    assert Initials(s)[0] != Initials(t)[0] || Initials(s)[1] != Initials(t)[1] || s == t;
  }

  lemma StartAndRest(start: string, x: string, y: string)
    requires |start| > 2
    ensures var text := start + "-" + x + y;
            |text| > |start| && text[..2] == start[..2] && text[|start| + 1..] == x + y
  {
  }

  lemma NameStart(m: Mutation)
    ensures var n := |StrategyName(StrategyOf(m))|;
            2 < n < |Name(m)| && Name(m)[..2] == Initials(StrategyOf(m))
                && Name(m)[n + 1..] == Slug(m.id) + Slug(Tail(WorkersOf(m)))
  {
    NameParts(m);
    InitialsTell(StrategyOf(m), StrategyOf(m));
    StartAndRest(StrategyName(StrategyOf(m)), Slug(m.id), Slug(Tail(WorkersOf(m))));
  }

  /** Changes with one name are of one strategy. */
  lemma StrategyOfName(a: Mutation, b: Mutation)
    requires Name(a) == Name(b)
    ensures StrategyOf(a) == StrategyOf(b)
    ensures Slug(a.id) + Slug(Tail(WorkersOf(a))) == Slug(b.id) + Slug(Tail(WorkersOf(b)))
  {
    NameStart(a);
    NameStart(b);
    InitialsTell(StrategyOf(a), StrategyOf(b));
  }

  // ---------------------------------------------------------- the catalog

  /** Nodes that one strategy may change differ in more than what a slug leaves out. */
  ghost predicate DistinctSlugs(architecture: Architecture, options: Options) {
    forall a, b :: Offered(architecture, options, a) && Offered(architecture, options, b)
                   && StrategyOf(a) == StrategyOf(b) && a.id != b.id ==>
                     Slug(a.id) != Slug(b.id)
  }

  lemma OfferedBy(architecture: Architecture, options: Options, m: Mutation) returns (i: nat)
    requires Offered(architecture, options, m)
    ensures i < |architecture.nodes| && architecture.nodes[i].id == m.id
    ensures Offer(StrategyOf(m), architecture.nodes[i], Workers(architecture, options)) == Some(m)
    ensures WorkersOf(m) == if m.Consume? then Workers(architecture, options) else []
  {
    var strategy, k: int :| strategy in options.allowed && 0 <= k < |architecture.nodes|
                            && Offer(strategy, architecture.nodes[k], Workers(architecture, options)) == Some(m);
    OfferNames(strategy, architecture.nodes[k], Workers(architecture, options));
    i := k;
  }

  /** A strategy offers one change per node. */
  lemma OneOfferPerNode(architecture: Architecture, options: Options, a: Mutation, b: Mutation)
    requires UniqueNodeIds(architecture) && Offered(architecture, options, a) && Offered(architecture, options, b)
    requires StrategyOf(a) == StrategyOf(b) && a.id == b.id
    ensures a == b
  {
    var i := OfferedBy(architecture, options, a);
    var j := OfferedBy(architecture, options, b);
    assert i == j;
  }

  lemma SameWorkers(architecture: Architecture, options: Options, a: Mutation, b: Mutation)
    requires Offered(architecture, options, a) && Offered(architecture, options, b) && StrategyOf(a) == StrategyOf(b)
    ensures WorkersOf(a) == WorkersOf(b)
  {
    var i := OfferedBy(architecture, options, a);
    var j := OfferedBy(architecture, options, b);
  }

  lemma SameEnding(x: string, y: string, ending: string)
    requires x + ending == y + ending
    ensures x == y
  {
    assert |x + ending| == |y + ending|;
    assert (x + ending)[..|x|] == x && (y + ending)[..|y|] == y;
  }

  /** Among the changes that may be made, a name says the strategy and the slug of the node, and no more. */
  lemma NameIsStrategyAndSlug(architecture: Architecture, options: Options, a: Mutation, b: Mutation)
    requires Offered(architecture, options, a) && Offered(architecture, options, b)
    ensures Name(a) == Name(b) <==> StrategyOf(a) == StrategyOf(b) && Slug(a.id) == Slug(b.id)
  {
    if StrategyOf(a) == StrategyOf(b) {
      SameWorkers(architecture, options, a, b);
    }
    if Name(a) == Name(b) {
      StrategyOfName(a, b);
      SameEnding(Slug(a.id), Slug(b.id), Slug(Tail(WorkersOf(a))));
    } else {
      NameParts(a);
      NameParts(b);
    }
  }

  lemma NameTells(architecture: Architecture, options: Options, a: Mutation, b: Mutation)
    requires UniqueNodeIds(architecture) && DistinctSlugs(architecture, options)
    requires Offered(architecture, options, a) && Offered(architecture, options, b) && Name(a) == Name(b)
    ensures a == b
  {
    NameIsStrategyAndSlug(architecture, options, a, b);
    OneOfferPerNode(architecture, options, a, b);
  }

  /** With one change per candidate, ids are distinct exactly when slugs are. */
  lemma SingleIdsDistinctIff(architecture: Architecture, options: Options)
    requires UniqueNodeIds(architecture)
    ensures DistinctSlugs(architecture, options) <==>
            forall a, b :: Offered(architecture, options, a) && Offered(architecture, options, b) && a != b ==>
                CandidateId([a]) != CandidateId([b])
  {
    forall a, b | Offered(architecture, options, a) && Offered(architecture, options, b)
      ensures CandidateId([a]) == CandidateId([b]) <==> StrategyOf(a) == StrategyOf(b) && Slug(a.id) == Slug(b.id)
      ensures StrategyOf(a) == StrategyOf(b) && a.id == b.id ==> a == b
    {
      SingleId(a);
      SingleId(b);
      NameIsStrategyAndSlug(architecture, options, a, b);
      if StrategyOf(a) == StrategyOf(b) && a.id == b.id {
        OneOfferPerNode(architecture, options, a, b);
      }
    }
  }

  // -------------------------------------------------------- pairs of changes

  predicate HasDouble(text: string) {
    exists k :: 0 <= k < |text| - 1 && text[k] == '_' && text[k + 1] == '_'
  }

  lemma HyphenSeparates(x: string, y: string)
    requires !HasDouble(x) && !HasDouble(y)
    ensures !HasDouble(x + "-" + y)
  {
    var text := x + "-" + y;
    forall k | 0 <= k < |text| - 1
      ensures text[k] != '_' || text[k + 1] != '_'
    {
      if k > |x| {
        assert text[k] == y[k - |x| - 1] && text[k + 1] == y[k - |x|];
      }
    }
  }

  lemma {:induction false} TailHasNoDouble(x: string, ids: seq<string>)
    requires !HasDouble(x) && forall k :: 0 <= k < |ids| ==> !HasDouble(Slug(ids[k]))
    ensures !HasDouble(x + Slug(Tail(ids)))
    decreases |ids|
  {
    if ids == [] {
      assert x + Slug(Tail(ids)) == x;
    } else {
      var before, last := ids[..|ids| - 1], ids[|ids| - 1];
      TailHasNoDouble(x, before);
      SlugConcat(Tail(before) + "-", last);
      SlugConcat(Tail(before), "-");
      SeparatorSlugs();
      HyphenSeparates(x + Slug(Tail(before)), Slug(last));
      assert x + Slug(Tail(ids)) == x + Slug(Tail(before)) + "-" + Slug(last);
    }
  }

  /** No slug of a node has two underscores in a row. */
  ghost predicate NoDoubles(architecture: Architecture) {
    forall i :: 0 <= i < |architecture.nodes| ==> !HasDouble(Slug(architecture.nodes[i].id))
  }

  lemma NameHasNoDouble(architecture: Architecture, options: Options, m: Mutation)
    requires NoDoubles(architecture) && Offered(architecture, options, m)
    ensures !HasDouble(Name(m)) && |Name(m)| > 0 && Name(m)[0] != '_'
  {
    var i := OfferedBy(architecture, options, m);
    var workers := WorkersOf(m);
    forall k | 0 <= k < |workers|
      ensures !HasDouble(Slug(workers[k]))
    {
      WorkerIsNode(architecture, options, workers[k]);
    }
    NameParts(m);
    StrategyNameIsPlain(StrategyOf(m));
    PlainStays(StrategyName(StrategyOf(m)));
    HyphenSeparates(StrategyName(StrategyOf(m)), Slug(m.id));
    TailHasNoDouble(StrategyName(StrategyOf(m)) + "-" + Slug(m.id), workers);
  }

  lemma SplitIsNotLater(x: string, y: string, u: string, v: string)
    requires x + "__" + y == u + "__" + v && !HasDouble(u) && y != "" && y[0] != '_'
    ensures |u| <= |x|
  {
    var text := x + "__" + y;
    assert text[|x|] == '_' && text[|x| + 1] == '_' && text[|x| + 2] == y[0];
    assert text[..|u|] == u && text[|u|] == '_' && text[|u| + 1] == '_';
  }

  lemma SplitAtDouble(x: string, y: string, u: string, v: string)
    requires x + "__" + y == u + "__" + v && !HasDouble(x) && !HasDouble(u)
    requires y != "" && y[0] != '_' && v != "" && v[0] != '_'
    ensures x == u && y == v
  {
    SplitIsNotLater(x, y, u, v);
    SplitIsNotLater(u, v, x, y);
    assert (x + "__" + y)[..|x|] == x && (u + "__" + v)[..|u|] == u;
    assert (x + "__" + y)[|x| + 2..] == y && (u + "__" + v)[|u| + 2..] == v;
  }

  ghost predicate AllOffered(architecture: Architecture, options: Options, changes: seq<Mutation>) {
    forall k :: 0 <= k < |changes| ==> Offered(architecture, options, changes[k])
  }

  /** Node ids under which candidates of so many changes have ids of their own. */
  ghost predicate ClearIds(architecture: Architecture, options: Options, maximumChanges: nat) {
    DistinctSlugs(architecture, options) && (maximumChanges > 1 ==> NoDoubles(architecture))
  }

  lemma SingleIsNoPair(architecture: Architecture, options: Options, a: Mutation, b: Mutation, c: Mutation)
    requires NoDoubles(architecture) && Offered(architecture, options, a)
    ensures CandidateId([a]) != CandidateId([b, c])
  {
    SingleId(a);
    PairId(b, c);
    NameHasNoDouble(architecture, options, a);
    var pair := Name(b) + "__" + Name(c);
    assert pair[|Name(b)|] == '_' && pair[|Name(b)| + 1] == '_';
  }

  lemma PairIdTells(architecture: Architecture, options: Options, a: Mutation, b: Mutation, c: Mutation, d: Mutation)
    requires UniqueNodeIds(architecture) && DistinctSlugs(architecture, options) && NoDoubles(architecture)
    requires Offered(architecture, options, a) && Offered(architecture, options, b)
    requires Offered(architecture, options, c) && Offered(architecture, options, d)
    requires CandidateId([a, b]) == CandidateId([c, d])
    ensures a == c && b == d
  {
    PairId(a, b);
    PairId(c, d);
    NameHasNoDouble(architecture, options, a);
    NameHasNoDouble(architecture, options, b);
    NameHasNoDouble(architecture, options, c);
    NameHasNoDouble(architecture, options, d);
    SplitAtDouble(Name(a), Name(b), Name(c), Name(d));
    NameTells(architecture, options, a, c);
    NameTells(architecture, options, b, d);
  }

  /** With such node ids the id of a candidate tells which changes made it. */
  lemma IdTellsChanges(architecture: Architecture, options: Options, maximumChanges: nat, s: seq<Mutation>,
                       t: seq<Mutation>)
    requires UniqueNodeIds(architecture) && ClearIds(architecture, options, maximumChanges)
    requires 1 <= |s| <= maximumChanges <= 2 && 1 <= |t| <= maximumChanges
    requires AllOffered(architecture, options, s) && AllOffered(architecture, options, t)
             && CandidateId(s) == CandidateId(t)
    ensures s == t
  {
    Listed(s);
    Listed(t);
    if |s| == 1 && |t| == 1 {
      SingleId(s[0]);
      SingleId(t[0]);
      NameTells(architecture, options, s[0], t[0]);
    } else if |s| == 2 && |t| == 2 {
      PairIdTells(architecture, options, s[0], s[1], t[0], t[1]);
    } else if |s| == 1 {
      SingleIsNoPair(architecture, options, s[0], t[0], t[1]);
    } else {
      SingleIsNoPair(architecture, options, t[0], s[0], s[1]);
    }
  }

  lemma Listed(s: seq<Mutation>)
    ensures |s| == 1 ==> s == [s[0]]
    ensures |s| == 2 ==> s == [s[0], s[1]]
  {
  }

  /** No candidate is called like the baseline. */
  lemma NotTheBaseline(changes: seq<Mutation>)
    requires |changes| == 1 || |changes| == 2
    ensures CandidateId(changes) != "baseline"
  {
    var m := changes[0];
    if |changes| == 1 {
      assert changes == [m];
      SingleId(m);
    } else {
      assert changes == [m, changes[1]];
      PairId(m, changes[1]);
    }
    NameStart(m);
    assert CandidateId(changes)[0] == Name(m)[..2][0] == Initials(StrategyOf(m))[0];
  }

  // -------------------------------------------------------------- collisions

  /** Without the conditions ids do collide: of nodes that differ in case, or in a character a slug does not keep. */
  lemma CandidateIdsCollide()
    ensures CandidateId([Harden("A")]) == CandidateId([Harden("a")])
    ensures CandidateId([Harden("b.1")]) == CandidateId([Harden("b-1")])
  {
    HardenId("A");
    HardenId("a");
    HardenId("b.1");
    HardenId("b-1");
    assert Slug("A") == Slug("a") && Slug("b.1") == Slug("b-1");
  }

  lemma HardenId(id: string)
    ensures CandidateId([Harden(id)]) == StrategyName(ResilienceControls) + "-" + Slug(id)
  {
    SingleId(Harden(id));
    NameParts(Harden(id));
    assert WorkersOf(Harden(id)) == [] && Slug(Tail([])) == "";
  }

  /** And of one change with two, when a node id reads like a pair. */
  lemma NestedIdCollides(id: string, next: int, other: int)
    ensures CandidateId([Elastic(id + "__" + ChangeName(Harden(id)), next)])
            == CandidateId([Elastic(id, other), Harden(id)])
  {
    var harden := ChangeName(Harden(id));
    SingleId(Elastic(id + "__" + harden, next));
    PairId(Elastic(id, other), Harden(id));
    ElasticName(id + "__" + harden, next);
    ElasticName(id, other);
    SlugConcat(id + "__", harden);
    SlugConcat(id, "__");
    SeparatorSlugs();
    Regroup(StrategyName(ElasticScale) + "-", Slug(id), Slug(harden));
  }

  lemma ElasticName(id: string, next: int)
    ensures Name(Elastic(id, next)) == StrategyName(ElasticScale) + "-" + Slug(id)
  {
    NameParts(Elastic(id, next));
    assert WorkersOf(Elastic(id, next)) == [] && Slug(Tail([])) == "";
  }

  lemma Regroup(x: string, y: string, z: string)
    ensures x + (y + "__" + z) == (x + y) + "__" + z
  {
  }
}

/**
 The changes the design solver may make to an architecture. Each is made from a node of
 the baseline and remembers numbers computed from it; applied alone, or on top of one
 change of another strategy, it keeps the architecture valid, leaves every other node
 as it was, and costs no extra work to execute.
 */
module SolverMutations {
  import opened Collections
  import opened Numbers
  import opened Wrappers
  import opened Architecture
  import opened ArchitectureSchema

  datatype Strategy =
    | HorizontalScale | ElasticScale | ResilienceControls | DurableReplication
    | StoragePartitioning | CacheEfficiency | ConsumerParallelism

  datatype Mutation =
    | Scale(id: string, nextInstances: int)
    | Elastic(id: string, nextMaximum: int)
    | Harden(id: string)
    | Replicate(id: string)
    | Partition(id: string, nextPartitions: int)
    | WarmUp(id: string, nextHitRate: real)
    | Consume(id: string, nextPartitions: int, workers: seq<string>)

  function StrategyOf(m: Mutation): Strategy {
    match m
    case Scale(_, _) => HorizontalScale
    case Elastic(_, _) => ElasticScale
    case Harden(_) => ResilienceControls
    case Replicate(_) => DurableReplication
    case Partition(_, _) => StoragePartitioning
    case WarmUp(_, _) => CacheEfficiency
    case Consume(_, _, _) => ConsumerParallelism
  }

  function NodeIdsOf(m: Mutation): seq<string> {
    if m.Consume? then [m.id] + m.workers else [m.id]
  }

  /** One step of horizontal growth: half as many again, rounded up, and at least one more. */
  function Grown(instances: int): int {
    Min(MAX_INSTANCES, Max(instances + 1, (3 * instances + 1) / 2))
  }

  predicate Scalable(kind: Kind) {
    !(kind.Users? || kind.Region? || kind.Dns? || kind.Network?)
  }

  predicate Boundary(kind: Kind) {
    kind.Cdn? || kind.LoadBalancer? || kind.Api? || kind.Worker? || kind.ThirdParty?
  }

  predicate Hardened(node: Node) {
    match node.config.behavior.resilience
    case None => false
    case Some(r) =>
      && r.circuitBreaker == Some(true) && r.bulkhead == Some(true) && r.jitter == Some(true)
      && r.loadSheddingThreshold.Some? && r.loadSheddingThreshold.value <= 0.9
      && r.backoffBaseMs.GetOr(0) >= 120 && r.maxRetries.GetOr(0) <= 2
  }

  predicate Durable(node: Node) {
    && node.config.replicas >= 2 && Replication(node) == Some(QuorumReplication)
    && node.config.behavior.placement.Some? && node.config.behavior.placement.value.zone == Some("multi-az")
  }

  function PartitionsOf(node: Node): Option<int> {
    match node.config.behavior.storage
    case Some(storage) => storage.partitions
    case None => None
  }

  function WorkerIds(nodes: seq<Node>): (ids: seq<string>)
    ensures forall id :: id in ids ==> exists i :: 0 <= i < |nodes| && nodes[i].id == id && nodes[i].kind.Worker?
    ensures forall i :: 0 <= i < |nodes| && nodes[i].kind.Worker? ==> nodes[i].id in ids
  {
    if nodes == [] then []
    else
      WorkerIds(nodes[..|nodes| - 1]) + (if nodes[|nodes| - 1].kind.Worker? then [nodes[|nodes| - 1].id] else [])
  }

  /** The change a strategy offers for one node of the baseline, when it offers one. */
  function Offer(strategy: Strategy, node: Node, workers: seq<string>): Option<Mutation> {
    var config := node.config;
    match strategy
    case HorizontalScale =>
      var next := Grown(config.instances);
      if Scalable(node.kind) && next != config.instances then Some(Scale(node.id, next)) else None
    case ElasticScale =>
      var next := Min(MAX_INSTANCES, Max(config.maxInstances + 1, config.instances * 2));
      if Boundary(node.kind) && !(config.autoscale && next == config.maxInstances) then Some(Elastic(node.id, next))
          else None
    case ResilienceControls =>
      if Boundary(node.kind) && !Hardened(node) then Some(Harden(node.id)) else None
    case DurableReplication =>
      if node.kind.Database? && !Durable(node) then Some(Replicate(node.id)) else None
    case StoragePartitioning =>
      var next := Min(MAX_PARTITIONS, Max(2, PartitionsOf(node).GetOr(1) * 2));
      if (node.kind.Database? || node.kind.ObjectStore?) && PartitionsOf(node) != Some(next) then
          Some(Partition(node.id, next)) else None
    case CacheEfficiency =>
      if (node.kind.Cache? || node.kind.Cdn?) && config.cacheHitRate < 0.98 then
        Some(WarmUp(node.id, MinReal(0.98, config.cacheHitRate + 0.08)))
      else None
    case ConsumerParallelism =>
      var next := Min(MAX_PARTITIONS, Max(2, config.behavior.messagingPartitions.GetOr(1) * 2));
      if (node.kind.Queue? || node.kind.Stream?) && workers != [] then Some(Consume(node.id, next, workers)) else None
  }

  // --------------------------------------------------------------- applying

  function WithInstances(node: Node, instances: int): Node {
    node.(config := node.config.(instances := instances, maxInstances := Max(node.config.maxInstances, instances)))
  }

  function WithBehavior(node: Node, behavior: Behavior): Node {
    node.(config := node.config.(behavior := behavior))
  }

  function ElasticScaling(node: Node): Scaling {
    var current := node.config.behavior.scaling.GetOr(Scaling(None, None, None, None));
    Scaling(Some(current.minInstances.GetOr(node.config.instances)), Some(current.targetUtilization.GetOr(0.68)),
            Some(current.cooldownSeconds.GetOr(15)), Some(current.startupSeconds.GetOr(8)))
  }

  function HardenedResilience(node: Node): Resilience {
    var current := node.config.behavior.resilience.GetOr(Resilience(None, None, None, None, None, None));
    Resilience(Some(Min(current.maxRetries.GetOr(2), 2)), Some(Max(current.backoffBaseMs.GetOr(0), 120)), Some(true),
               Some(true), Some(MinReal(current.loadSheddingThreshold.GetOr(0.9), 0.9)), Some(true))
  }

  function StorageOf(node: Node): Storage {
    node.config.behavior.storage.GetOr(Storage(None, None, None, None, None))
  }

  function PlacementOf(node: Node): Placement {
    node.config.behavior.placement.GetOr(Placement(None, None))
  }

  /** What the change does to the node it was made for. */
  function Changed(m: Mutation, node: Node): Node {
    var behavior := node.config.behavior;
    match m
    case Scale(_, next) => WithInstances(node, next)
    case Elastic(_, next) =>
      node.(config := node.config.(autoscale := true, maxInstances := next,
                                   behavior := behavior.(scaling := Some(ElasticScaling(node)))))
    case Harden(_) => WithBehavior(node, behavior.(resilience := Some(HardenedResilience(node))))
    case Replicate(_) =>
      node.(config := node.config.(replicas := Max(2, node.config.replicas), behavior := behavior.(
        storage := Some(StorageOf(node).(replicationMode := Some(QuorumReplication),
                                         failoverSeconds :=
                                           Some(MinReal(StorageOf(node).failoverSeconds.GetOr(20.0), 20.0)))),
        placement := Some(Placement(Some("multi-az"), Some(PlacementOf(node).failureDomain.GetOr("replica-set")))))))
    case Partition(_, next) =>
      WithBehavior(node, behavior.(storage := Some(StorageOf(node).(
        partitions := Some(next),
        hotPartitionFraction := Some(MaxReal(0.0, StorageOf(node).hotPartitionFraction.GetOr(0.1) * 0.5)),
        lockContention := Some(MaxReal(0.0, StorageOf(node).lockContention.GetOr(0.04) * 0.75))))))
    case WarmUp(_, next) =>
      node.(config := node.config.(cacheHitRate := next, behavior := behavior.(
        cacheCapacityGb := Some(MinReal(1000000.0, MaxReal(1.0, behavior.cacheCapacityGb.GetOr(16.0) * 1.5))))))
    case Consume(_, next, _) => WithBehavior(node, behavior.(messagingPartitions := Some(next)))
  }

  function WorkerGrown(node: Node): Node {
    WithInstances(node, Grown(node.config.instances))
  }

  /** Position of the first node with this id. */
  function Find(nodes: seq<Node>, id: string): (r: Option<nat>)
    ensures r.Some? ==>
              r.value < |nodes| && nodes[r.value].id == id && forall k :: 0 <= k < r.value ==> nodes[k].id != id
    ensures r.None? ==> forall k :: 0 <= k < |nodes| ==> nodes[k].id != id
  {
    if nodes == [] then None
    else
      var before := Find(nodes[..|nodes| - 1], id);
      if before.Some? then before
      else if nodes[|nodes| - 1].id == id then Some(|nodes| - 1) else None
  }

  /** `updateNode`: an error when the architecture has no such node. */
  function UpdateNode(nodes: seq<Node>, id: string, update: Node -> Node): Result<seq<Node>, string> {
    match Find(nodes, id)
    case Some(k) => Ok(nodes[k := update(nodes[k])])
    case None => Err(id)
  }

  function GrowWorkers(nodes: seq<Node>, workers: seq<string>): Result<seq<Node>, string>
    decreases |workers|
  {
    if workers == [] then Ok(nodes)
    else
      match GrowWorkers(nodes, workers[..|workers| - 1])
      case Ok(grown) => UpdateNode(grown, workers[|workers| - 1], WorkerGrown)
      case Err(id) => Err(id)
  }

  function Apply(nodes: seq<Node>, m: Mutation): Result<seq<Node>, string> {
    match UpdateNode(nodes, m.id, (node: Node) => Changed(m, node))
    case Ok(changed) => if m.Consume? then GrowWorkers(changed, m.workers) else Ok(changed)
    case Err(id) => Err(id)
  }

  /** The same, node by node. */
  function ChangeOf(m: Mutation, node: Node): Node {
    if node.id == m.id then Changed(m, node)
    else if m.Consume? && node.id in m.workers then WorkerGrown(node)
    else node
  }

  ghost predicate Mapped(nodes: seq<Node>, next: seq<Node>, change: Node -> Node) {
    |next| == |nodes| && forall i :: 0 <= i < |nodes| ==> next[i] == change(nodes[i])
  }

  ghost predicate SameIds(nodes: seq<Node>, next: seq<Node>) {
    |next| == |nodes| && forall i :: 0 <= i < |nodes| ==> next[i].id == nodes[i].id && next[i].kind == nodes[i].kind
  }

  lemma UpdateNodeIsMap(nodes: seq<Node>, id: string, update: Node -> Node)
    requires DistinctIds(nodes) && Present(nodes, id)
    ensures UpdateNode(nodes, id, update).Ok?
    ensures Mapped(nodes, UpdateNode(nodes, id, update).value,
                   (node: Node) => if node.id == id then update(node) else node)
  {
  }

  ghost predicate Present(nodes: seq<Node>, id: string) {
    exists i :: 0 <= i < |nodes| && nodes[i].id == id
  }

  ghost predicate AllPresent(nodes: seq<Node>, ids: seq<string>) {
    forall k :: 0 <= k < |ids| ==> Present(nodes, ids[k])
  }

  lemma {:induction false} GrowWorkersIsMap(nodes: seq<Node>, workers: seq<string>)
    requires DistinctIds(nodes) && AllPresent(nodes, workers) && NoDuplicates(workers)
    ensures GrowWorkers(nodes, workers).Ok?
    ensures Mapped(nodes, GrowWorkers(nodes, workers).value,
                   (node: Node) => if node.id in workers then WorkerGrown(node) else node)
    decreases |workers|
  {
    if workers != [] {
      var last, before := workers[|workers| - 1], workers[..|workers| - 1];
      assert workers == before + [last];
      GrowWorkersIsMap(nodes, before);
      var grown := GrowWorkers(nodes, before).value;
      assert SameIds(nodes, grown);
      assert Present(nodes, last);
      var i :| 0 <= i < |nodes| && nodes[i].id == last;
      assert grown[i].id == last;
      UpdateNodeIsMap(grown, last, WorkerGrown);
    }
  }

  /** A change that names nodes of the architecture, a node and its workers being different. */
  ghost predicate Applicable(nodes: seq<Node>, m: Mutation) {
    && AllPresent(nodes, NodeIdsOf(m)) && NoDuplicates(NodeIdsOf(m))
  }

  lemma WorkersPresent(nodes: seq<Node>, changed: seq<Node>, m: Mutation)
    requires m.Consume? && Applicable(nodes, m) && SameIds(nodes, changed)
    ensures AllPresent(changed, m.workers) && NoDuplicates(m.workers) && m.id !in m.workers
  {
    assert NodeIdsOf(m)[0] == m.id && NodeIdsOf(m)[1..] == m.workers;
    forall k | 0 <= k < |m.workers|
      ensures m.workers[k] != m.id && Present(changed, m.workers[k])
    {
      assert NodeIdsOf(m)[k + 1] == m.workers[k] && Present(nodes, m.workers[k]);
      var i :| 0 <= i < |nodes| && nodes[i].id == m.workers[k];
      assert changed[i].id == m.workers[k];
    }
    forall i, j | 0 <= i < j < |m.workers|
      ensures m.workers[i] != m.workers[j]
    {
      assert NodeIdsOf(m)[i + 1] == m.workers[i] && NodeIdsOf(m)[j + 1] == m.workers[j];
    }
  }

  lemma ApplyIsMap(nodes: seq<Node>, m: Mutation)
    requires DistinctIds(nodes) && Applicable(nodes, m)
    ensures Apply(nodes, m).Ok? && Mapped(nodes, Apply(nodes, m).value, (node: Node) => ChangeOf(m, node))
  {
    assert NodeIdsOf(m)[0] == m.id && Present(nodes, m.id);
    UpdateNodeIsMap(nodes, m.id, (node: Node) => Changed(m, node));
    var changed := UpdateNode(nodes, m.id, (node: Node) => Changed(m, node)).value;
    assert SameIds(nodes, changed);
    if m.Consume? {
      WorkersPresent(nodes, changed, m);
      GrowWorkersIsMap(changed, m.workers);
    }
  }

  // --------------------------------------------------------------- validity

  lemma GrownBounds(instances: int)
    requires 1 <= instances <= MAX_INSTANCES
    ensures instances <= Grown(instances) <= MAX_INSTANCES
    ensures Grown(instances) <= 2 * instances
  {
  }

  /** Short of the maximum it is the least number that is half as many again and at least one more. */
  lemma GrownIsLeast(instances: int)
    requires 1 <= instances <= MAX_INSTANCES
    ensures var next := Grown(instances);
            && (next == MAX_INSTANCES || (2 * next >= 3 * instances && next > instances))
            && (next - 1 > instances ==> 2 * (next - 1) < 3 * instances)
  {
  }

  /** `now` is what `was` has become: still valid, and grown by at most one step. */
  predicate StillSound(was: Node, now: Node) {
    && ValidNode(now) && now.id == was.id && now.kind == was.kind
    && was.config.instances <= now.config.instances <= Grown(was.config.instances)
    && was.config.maxInstances <= now.config.maxInstances
  }

  lemma ScaleKeepsValid(was: Node, now: Node, workers: seq<string>)
    requires ValidNode(was) && StillSound(was, now) && Offer(HorizontalScale, was, workers).Some?
    ensures ValidNode(Changed(Offer(HorizontalScale, was, workers).value, now))
  {
    GrownBounds(was.config.instances);
  }

  lemma ElasticKeepsValid(was: Node, now: Node, workers: seq<string>)
    requires ValidNode(was) && StillSound(was, now) && Offer(ElasticScale, was, workers).Some?
    ensures ValidNode(Changed(Offer(ElasticScale, was, workers).value, now))
    ensures Changed(Offer(ElasticScale, was, workers).value, now).config.maxInstances >= was.config.maxInstances
  {
    GrownBounds(was.config.instances);
  }

  lemma WorkerGrownKeepsValid(now: Node)
    requires ValidNode(now)
    ensures ValidNode(WorkerGrown(now)) && WorkerGrown(now).config.instances == Grown(now.config.instances)
  {
    GrownBounds(now.config.instances);
  }

  lemma ReplicateKeepsValid(was: Node, now: Node, workers: seq<string>)
    requires ValidNode(was) && ValidNode(now) && now.kind == was.kind && Offer(DurableReplication, was, workers).Some?
    ensures ValidNode(Changed(Offer(DurableReplication, was, workers).value, now))
  {
    assert |"multi-az"| == 8 && |"replica-set"| == 11;
  }

  lemma PartitionKeepsValid(was: Node, now: Node, workers: seq<string>)
    requires ValidNode(was) && ValidNode(now) && now.kind == was.kind && Offer(StoragePartitioning, was, workers).Some?
    ensures ValidNode(Changed(Offer(StoragePartitioning, was, workers).value, now))
  {
  }

  lemma HardenKeepsValid(was: Node, now: Node, workers: seq<string>)
    requires ValidNode(was) && ValidNode(now) && now.kind == was.kind && Offer(ResilienceControls, was, workers).Some?
    ensures ValidNode(Changed(Offer(ResilienceControls, was, workers).value, now))
  {
  }

  lemma WarmUpKeepsValid(was: Node, now: Node, workers: seq<string>)
    requires ValidNode(was) && ValidNode(now) && now.kind == was.kind && Offer(CacheEfficiency, was, workers).Some?
    ensures ValidNode(Changed(Offer(CacheEfficiency, was, workers).value, now))
  {
  }

  lemma ConsumeKeepsValid(was: Node, now: Node, workers: seq<string>)
    requires ValidNode(was) && ValidNode(now) && now.kind == was.kind && Offer(ConsumerParallelism, was, workers).Some?
    ensures ValidNode(Changed(Offer(ConsumerParallelism, was, workers).value, now))
  {
  }

  /** Whatever became of the node by one other change, this change leaves it valid. */
  lemma ChangeKeepsValid(was: Node, now: Node, strategy: Strategy, workers: seq<string>)
    requires ValidNode(was) && StillSound(was, now) && Offer(strategy, was, workers).Some?
    ensures ValidNode(Changed(Offer(strategy, was, workers).value, now))
  {
    match strategy
    case HorizontalScale => ScaleKeepsValid(was, now, workers);
    case ElasticScale => ElasticKeepsValid(was, now, workers);
    case DurableReplication => ReplicateKeepsValid(was, now, workers);
    case StoragePartitioning => PartitionKeepsValid(was, now, workers);
    case ResilienceControls => HardenKeepsValid(was, now, workers);
    case CacheEfficiency => WarmUpKeepsValid(was, now, workers);
    case ConsumerParallelism => ConsumeKeepsValid(was, now, workers);
  }

  /** One change alone leaves a node so that a second change still fits. */
  lemma OneChangeIsSound(was: Node, strategy: Strategy, workers: seq<string>)
    requires ValidNode(was) && Offer(strategy, was, workers).Some?
    ensures StillSound(was, Changed(Offer(strategy, was, workers).value, was))
  {
    GrownBounds(was.config.instances);
    ChangeKeepsValid(was, was, strategy, workers);
  }
}

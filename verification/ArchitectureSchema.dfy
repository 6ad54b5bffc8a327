/**
 What the architecture schema accepts: the ranges of the numeric fields, the refinements
 that relate them, and the shape of the graph; and the work estimate of one execution.
 */
module ArchitectureSchema {
  import opened Wrappers
  import opened Architecture

  const MAX_INSTANCES := 10000
  const MAX_PARTITIONS := 100000

  predicate OwnsState(kind: Kind) {
    kind.Cache? || kind.Database? || kind.ObjectStore? || kind.Queue? || kind.Stream?
  }

  predicate IntWithin(x: Option<int>, low: int, high: int) {
    x.Some? ==> low <= x.value <= high
  }

  predicate RealWithin(x: Option<real>, low: real, high: real) {
    x.Some? ==> low <= x.value <= high
  }

  predicate NameWithin(x: Option<string>) {
    x.Some? ==> 1 <= |x.value| <= 80
  }

  predicate ValidScaling(s: Scaling) {
    && IntWithin(s.minInstances, 1, MAX_INSTANCES) && RealWithin(s.targetUtilization, 0.1, 1.0)
    && IntWithin(s.cooldownSeconds, 0, 86400) && IntWithin(s.startupSeconds, 0, 86400)
  }

  predicate ValidResilience(r: Resilience) {
    IntWithin(r.maxRetries, 0, 12) && IntWithin(r.backoffBaseMs, 0, 60000)
        && RealWithin(r.loadSheddingThreshold, 0.1, 10.0)
  }

  predicate ValidStorage(s: Storage) {
    && IntWithin(s.partitions, 1, MAX_PARTITIONS) && RealWithin(s.hotPartitionFraction, 0.0, 1.0)
    && RealWithin(s.lockContention, 0.0, 1.0) && RealWithin(s.failoverSeconds, 0.0, 86400.0)
  }

  predicate ValidBehavior(b: Behavior) {
    && (b.scaling.Some? ==> ValidScaling(b.scaling.value))
    && (b.resilience.Some? ==> ValidResilience(b.resilience.value))
    && (b.storage.Some? ==> ValidStorage(b.storage.value))
    && IntWithin(b.messagingPartitions, 1, MAX_PARTITIONS)
    && (b.cacheCapacityGb.Some? ==> 0.0 < b.cacheCapacityGb.value <= 1000000.0)
    && (b.placement.Some? ==> NameWithin(b.placement.value.zone) && NameWithin(b.placement.value.failureDomain))
  }

  function MinInstances(node: Node): Option<int> {
    match node.config.behavior.scaling
    case Some(scaling) => scaling.minInstances
    case None => None
  }

  function Replication(node: Node): Option<ReplicationMode> {
    match node.config.behavior.storage
    case Some(storage) => storage.replicationMode
    case None => None
  }

  predicate ValidNode(node: Node) {
    var config := node.config;
    && 1 <= |node.id| <= 80
    && 1 <= config.instances <= config.maxInstances <= MAX_INSTANCES
    && 0.0 <= config.cacheHitRate <= 1.0 && 0 <= config.replicas <= 100
    && ValidBehavior(config.behavior)
    && (MinInstances(node).Some? ==>
        MinInstances(node).value <= config.instances && MinInstances(node).value <= config.maxInstances)
    && (OwnsState(node.kind) && Replication(node).Some? ==>
        (Replication(node).value.NoReplication? <==> config.replicas == 0))
  }

  ghost predicate ValidArchitecture(architecture: Architecture) {
    && 1 <= |architecture.nodes| <= 500 && |architecture.edges| <= 2000
    && UniqueNodeIds(architecture) && EdgesResolve(architecture)
    && (forall i :: 0 <= i < |architecture.nodes| ==> ValidNode(architecture.nodes[i]))
  }

  /** The sizes of a scenario that decide how much one execution costs. */
  datatype Extent = Extent(durationSeconds: nat, requestClasses: nat, incidents: nat, stochasticRules: nat)

  predicate HasCache(nodes: seq<Node>) {
    exists i :: 0 <= i < |nodes| && nodes[i].kind.Cache?
  }

  function Times(x: nat, y: nat): nat {
    x * y
  }

  function WorkUnits(extent: Extent, architecture: Architecture): nat {
    var n, m := |architecture.nodes|, |architecture.edges|;
    var classes := if extent.requestClasses > 1 then extent.requestClasses else 1;
    var passes := if HasCache(architecture.nodes) then 2 else 1;
    Times(extent.durationSeconds + 1,
          n + Times(Times(n + m, classes), passes) + extent.incidents + extent.stochasticRules)
  }
}

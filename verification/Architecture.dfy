/**
 The architecture graph of a scenario as the contracts package defines it: nodes with
 their numeric configuration, edges with traffic share and loss, and the refinements
 the schema adds on top of the field ranges. Fields that no modelled operation reads
 or writes are left out.
 */
module Architecture {
  import opened Wrappers

  datatype Kind =
    | Users | Region | Dns | Cdn | Network | LoadBalancer | Api | Cache | Database
    | Queue | Stream | Worker | ObjectStore | ThirdParty

  datatype ReplicationMode = NoReplication | AsyncReplication | SyncReplication | QuorumReplication

  datatype Scaling = Scaling(
    minInstances: Option<int>, targetUtilization: Option<real>,
    cooldownSeconds: Option<int>, startupSeconds: Option<int>)

  datatype Resilience = Resilience(
    maxRetries: Option<int>, backoffBaseMs: Option<int>, jitter: Option<bool>,
    circuitBreaker: Option<bool>, loadSheddingThreshold: Option<real>, bulkhead: Option<bool>)

  datatype Storage = Storage(
    partitions: Option<int>, hotPartitionFraction: Option<real>, lockContention: Option<real>,
    replicationMode: Option<ReplicationMode>, failoverSeconds: Option<real>)

  datatype Placement = Placement(zone: Option<string>, failureDomain: Option<string>)

  datatype Behavior = Behavior(
    scaling: Option<Scaling>, resilience: Option<Resilience>, storage: Option<Storage>,
    messagingPartitions: Option<int>, cacheCapacityGb: Option<real>, placement: Option<Placement>)

  datatype NodeConfig = NodeConfig(
    instances: int, maxInstances: int, cacheHitRate: real, replicas: int, autoscale: bool,
    behavior: Behavior)

  datatype Node = Node(id: string, kind: Kind, config: NodeConfig)

  datatype Edge = Edge(
    id: string, source: string, target: string,
    trafficShare: Option<real>, packetLossRate: Option<real>, asynchronous: bool)

  datatype Architecture = Architecture(nodes: seq<Node>, edges: seq<Edge>)

  const MAX_TOPOLOGY_FANOUT_AMPLIFICATION: real := 1000000.0

  predicate IsEntry(node: Node) {
    node.kind.Users? || node.kind.Region?
  }

  /** A node of this kind with one instance and nothing configured. */
  function PlainNode(id: string, kind: Kind): Node {
    Node(id, kind, NodeConfig(1, 1, 0.0, 0, false, Behavior(None, None, None, None, None, None)))
  }

  /** An absent share means all of the traffic. */
  function Share(edge: Edge): real {
    edge.trafficShare.GetOr(1.0)
  }

  function LossRate(edge: Edge): real {
    edge.packetLossRate.GetOr(0.0)
  }

  /** Position of the node with this id; of several nodes with one id the last wins, as in a map built in order. */
  function IndexOf(nodes: seq<Node>, id: string): (r: Option<nat>)
    ensures r.Some? ==> r.value < |nodes| && nodes[r.value].id == id
    ensures r.None? ==> forall i :: 0 <= i < |nodes| ==> nodes[i].id != id
  {
    if nodes == [] then None
    else if nodes[|nodes| - 1].id == id then Some(|nodes| - 1)
    else IndexOf(nodes[..|nodes| - 1], id)
  }

  ghost predicate DistinctIds(nodes: seq<Node>) {
    forall i, j :: 0 <= i < j < |nodes| ==> nodes[i].id != nodes[j].id
  }

  ghost predicate UniqueNodeIds(architecture: Architecture) {
    DistinctIds(architecture.nodes)
  }

  ghost predicate EdgesResolve(architecture: Architecture) {
    forall e :: 0 <= e < |architecture.edges| ==>
                  && IndexOf(architecture.nodes, architecture.edges[e].source).Some?
                  && IndexOf(architecture.nodes, architecture.edges[e].target).Some?
  }

  lemma {:induction false} IndexOfUnique(nodes: seq<Node>, i: nat)
    requires i < |nodes| && DistinctIds(nodes)
    ensures IndexOf(nodes, nodes[i].id) == Some(i)
  {
    var last := |nodes| - 1;
    if i < last {
      IndexOfUnique(nodes[..last], i);
    }
  }
}

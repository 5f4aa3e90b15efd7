/**
 Where the shards of a new group go: round robin over the data nodes, starting
 at the log index modulo the number of nodes.
 */
module Placement {
  import opened Basics
  import opened Metadata
  import opened Reassign

  /** At least one replica, and no more replicas than nodes. */
  function Replicas(replicaN: nat, nodeN: nat): (r: nat)
    requires nodeN > 0
    ensures 1 <= r <= nodeN
  {
    if replicaN == 0 then 1 else if replicaN > nodeN then nodeN else replicaN
  }

  /** The node that holds replica `j` of shard `i`. */
  function PlacedNode(nodes: seq<NodeInfo>, start: nat, replicaN: nat, i: nat, j: nat): (id: nat)
    requires nodes != []
  {
    nodes[(start + i * replicaN + j) % |nodes|].id
  }

  function PlacedOwners(nodes: seq<NodeInfo>, start: nat, replicaN: nat, i: nat): (owners: seq<nat>)
    requires nodes != []
    ensures |owners| == replicaN
  {
    seq(replicaN, j requires 0 <= j < replicaN => PlacedNode(nodes, start, replicaN, i, j))
  }

  function PlacedShards(nodes: seq<NodeInfo>, maxShardID: nat, start: nat, shardN: nat, replicaN: nat): (shards: seq<Shard>)
    requires nodes != []
    ensures |shards| == shardN
  {
    seq(shardN, i requires 0 <= i < shardN => Shard(maxShardID + 1 + i, PlacedOwners(nodes, start, replicaN, i)))
  }

  /** generatedShards: numbers the shards, then deals out the nodes in turn. */
  method GeneratedShards(nodes: seq<NodeInfo>, maxShardID: nat, index: nat, shardN: nat, replicaN: nat)
    returns (shards: seq<Shard>, maxShardID': nat)
    requires nodes != []
    ensures maxShardID' == maxShardID + shardN
    ensures shards == PlacedShards(nodes, maxShardID, index % |nodes|, shardN, replicaN)
  {
    ghost var start := index % |nodes|;
    shards, maxShardID' := [], maxShardID;
    while |shards| < shardN
      invariant |shards| <= shardN && maxShardID' == maxShardID + |shards|
      invariant forall i | 0 <= i < |shards| :: shards[i] == Shard(maxShardID + 1 + i, [])
    {
      maxShardID' := maxShardID' + 1;
      shards := shards + [Shard(maxShardID', [])];
    }
    var nodeIndex := index % |nodes|;
    var i := 0;
    while i < shardN
      invariant 0 <= i <= shardN && |shards| == shardN
      invariant nodeIndex == start + i * replicaN
      invariant forall k | 0 <= k < i :: shards[k] == Shard(maxShardID + 1 + k, PlacedOwners(nodes, start, replicaN, k))
      invariant forall k | i <= k < shardN :: shards[k] == Shard(maxShardID + 1 + k, [])
    {
      var owners;
      owners, nodeIndex := DealOut(nodes, nodeIndex, start, replicaN, i);
      shards := shards[i := shards[i].(owners := owners)];
      i := i + 1;
    }
  }

  method DealOut(nodes: seq<NodeInfo>, first: nat, ghost start: nat, replicaN: nat, ghost i: nat)
    returns (owners: seq<nat>, nodeIndex: nat)
    requires nodes != [] && first == start + i * replicaN
    ensures owners == PlacedOwners(nodes, start, replicaN, i)
    ensures nodeIndex == start + (i + 1) * replicaN
  {
    owners, nodeIndex := [], first;
    var j := 0;
    while j < replicaN
      invariant 0 <= j <= replicaN && nodeIndex == first + j
      invariant owners == PlacedOwners(nodes, start, replicaN, i)[..j]
    {
      owners := owners + [nodes[nodeIndex % |nodes|].id];
      nodeIndex := nodeIndex + 1;
      j := j + 1;
    }
  }

  // ---------- Every node at most once ----------

  lemma SameSlot(n: nat, start: nat, a: nat, b: nat)
    requires a < n && b < n && (start + a) % n == (start + b) % n
    ensures a == b
  {
    var qa, qb := (start + a) / n, (start + b) / n;
    Division(start + a, n);
    Division(start + b, n);
    Distribute(n, qa, qb);
    Distribute(n, qb, qa);
    if qa > qb { MulAtLeast(n, qa - qb); }
    if qb > qa { MulAtLeast(n, qb - qa); }
  }

  lemma SlotBound(n: nat, shardN: nat, replicaN: nat, i: nat, j: nat)
    requires shardN * replicaN <= n && i < shardN && j < replicaN
    ensures i * replicaN + j < n
  {
    assert (i + 1) * replicaN <= shardN * replicaN;
  }

  lemma SlotUnique(replicaN: nat, i: nat, j: nat, i': nat, j': nat)
    requires j < replicaN && j' < replicaN && i * replicaN + j == i' * replicaN + j'
    ensures i == i' && j == j'
  {
    assert i < i' ==> i' * replicaN >= (i + 1) * replicaN;
    assert i' < i ==> i * replicaN >= (i' + 1) * replicaN;
  }

  ghost predicate DistinctNodes(nodes: seq<NodeInfo>) {
    forall i, j | 0 <= i < j < |nodes| :: nodes[i].id != nodes[j].id
  }

  /** No node is dealt out twice, for every node count, replication factor and
      starting index. */
  lemma PlacedOnce(nodes: seq<NodeInfo>, start: nat, shardN: nat, replicaN: nat, i: nat, j: nat, i': nat, j': nat)
    requires nodes != [] && DistinctNodes(nodes) && shardN * replicaN <= |nodes|
    requires i < shardN && i' < shardN && j < replicaN && j' < replicaN
    requires PlacedNode(nodes, start, replicaN, i, j) == PlacedNode(nodes, start, replicaN, i', j')
    ensures i == i' && j == j'
  {
    var n := |nodes|;
    SlotBound(n, shardN, replicaN, i, j);
    SlotBound(n, shardN, replicaN, i', j');
    var a, b := i * replicaN + j, i' * replicaN + j';
    assert (start + i * replicaN + j) % n == (start + a) % n;
    assert (start + i' * replicaN + j') % n == (start + b) % n;
    SameSlot(n, start, a, b);
    SlotUnique(replicaN, i, j, i', j');
  }

  /** Every shard has exactly `replicaN` different owners, all of them nodes, and
      no node owns two shards of the group. */
  lemma PlacementSpreads(nodes: seq<NodeInfo>, maxShardID: nat, start: nat, shardN: nat, replicaN: nat)
    requires nodes != [] && DistinctNodes(nodes) && shardN * replicaN <= |nodes|
    ensures var shards := PlacedShards(nodes, maxShardID, start, shardN, replicaN);
            && (forall s <- shards :: |s.owners| == replicaN && Distinct(s.owners) && forall n <- s.owners :: n in NodeIDs(nodes))
            && (forall i, k | 0 <= i < k < |shards| :: forall n <- shards[i].owners :: n !in shards[k].owners)
  {
    var shards := PlacedShards(nodes, maxShardID, start, shardN, replicaN);
    forall i | 0 <= i < shardN
      ensures Distinct(shards[i].owners) && forall n <- shards[i].owners :: n in NodeIDs(nodes)
    {
      PlacedDistinct(nodes, start, shardN, replicaN, i);
    }
    forall i, k, n | 0 <= i < k < shardN && n in shards[i].owners
      ensures n !in shards[k].owners
    {
      PlacedApart(nodes, start, shardN, replicaN, i, k, n);
    }
  }

  lemma PlacedDistinct(nodes: seq<NodeInfo>, start: nat, shardN: nat, replicaN: nat, i: nat)
    requires nodes != [] && DistinctNodes(nodes) && shardN * replicaN <= |nodes| && i < shardN
    ensures Distinct(PlacedOwners(nodes, start, replicaN, i))
    ensures forall n <- PlacedOwners(nodes, start, replicaN, i) :: n in NodeIDs(nodes)
  {
    forall j, j' | 0 <= j < j' < replicaN
      ensures PlacedNode(nodes, start, replicaN, i, j) != PlacedNode(nodes, start, replicaN, i, j')
    {
      if PlacedNode(nodes, start, replicaN, i, j) == PlacedNode(nodes, start, replicaN, i, j') {
        PlacedOnce(nodes, start, shardN, replicaN, i, j, i, j');
      }
    }
    forall j | 0 <= j < replicaN
      ensures PlacedNode(nodes, start, replicaN, i, j) in NodeIDs(nodes)
    {
      assert nodes[(start + i * replicaN + j) % |nodes|] in nodes;
    }
  }

  lemma PlacedApart(nodes: seq<NodeInfo>, start: nat, shardN: nat, replicaN: nat, i: nat, k: nat, n: nat)
    requires nodes != [] && DistinctNodes(nodes) && shardN * replicaN <= |nodes| && i < k < shardN
    requires n in PlacedOwners(nodes, start, replicaN, i)
    ensures n !in PlacedOwners(nodes, start, replicaN, k)
  {
    var j :| 0 <= j < replicaN && PlacedOwners(nodes, start, replicaN, i)[j] == n;
    if j' :| 0 <= j' < replicaN && PlacedOwners(nodes, start, replicaN, k)[j'] == n {
      PlacedOnce(nodes, start, shardN, replicaN, i, j, k, j');
    }
  }

  /** The replication factor of the policy is used as it is, but for zero, which is one
      replica, and more than the nodes, which is a replica on every node. The number of
      shards is the node count divided by it, which leaves room for every replica, is at
      least one, and leaves fewer nodes over than one more shard would need. */
  lemma ShardCount(nodeN: nat, replicaN: nat)
    requires nodeN > 0
    ensures var r := Replicas(replicaN, nodeN);
            && (1 <= replicaN <= nodeN ==> r == replicaN)
            && (replicaN == 0 ==> r == 1)
            && (replicaN > nodeN ==> r == nodeN)
            && nodeN / r >= 1 && (nodeN / r) * r <= nodeN < (nodeN / r + 1) * r
  {
  }

  /** Dealing starts at the log index and goes through the nodes in turn: replica `j` of
      shard `i` is on the node this many places behind the index, cyclically. */
  lemma DealtInTurn(nodes: seq<NodeInfo>, maxShardID: nat, index: nat, shardN: nat, replicaN: nat, i: nat, j: nat)
    requires nodes != [] && i < shardN && j < replicaN
    ensures var shards := PlacedShards(nodes, maxShardID, index % |nodes|, shardN, replicaN);
            && |shards[i].owners| == replicaN
            && shards[i].owners[j] == nodes[(index + i * replicaN + j) % |nodes|].id
  {
    ModAdd(index, i * replicaN + j, |nodes|);
  }
}

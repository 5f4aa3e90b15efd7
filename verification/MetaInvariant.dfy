/**
 What holds of the cluster metadata in every state: node identity, shard
 ownership, shard groups in time, and unique shard and group IDs.
 */
module MetaInvariant {
  import opened Basics
  import opened Metadata
  import opened Reassign
  import opened Placement
  import opened ShardGroups

  // ---------- Identifiers of groups and shards ----------

  datatype Ident = GroupID(n: nat) | ShardID(n: nat) | ArrayID(n: nat)

  ghost function Gather<T>(s: seq<T>, f: T -> multiset<Ident>): (r: multiset<Ident>) {
    if s == [] then multiset{} else f(s[0]) + Gather(s[1..], f)
  }

  lemma {:induction false} GatherConcat<T>(a: seq<T>, b: seq<T>, f: T -> multiset<Ident>)
    ensures Gather(a + b, f) == Gather(a, f) + Gather(b, f)
  {
    if a == [] {
      assert a + b == b;
    } else {
      GatherConcat(a[1..], b, f);
      assert (a + b)[1..] == a[1..] + b;
    }
  }

  lemma {:induction false} GatherSplit<T>(a: seq<T>, x: T, b: seq<T>, f: T -> multiset<Ident>)
    ensures Gather(a + [x] + b, f) == Gather(a, f) + f(x) + Gather(b, f)
  {
    GatherConcat(a + [x], b, f);
    GatherConcat(a, [x], f);
  }

  lemma {:induction false} GatherUpdate<T>(s: seq<T>, i: nat, x: T, f: T -> multiset<Ident>)
    requires i < |s|
    ensures Gather(s[i := x], f) + f(s[i]) == Gather(s, f) + f(x)
  {
    GatherSplit(s[..i], s[i], s[i + 1..], f);
    GatherSplit(s[..i], x, s[i + 1..], f);
    assert s == s[..i] + [s[i]] + s[i + 1..];
    assert s[i := x] == s[..i] + [x] + s[i + 1..];
  }

  lemma GatherUpdateSame<T>(s: seq<T>, i: nat, x: T, f: T -> multiset<Ident>)
    requires i < |s| && f(x) == f(s[i])
    ensures Gather(s[i := x], f) == Gather(s, f)
  {
    GatherUpdate(s, i, x, f);
    Cancel(Gather(s[i := x], f), Gather(s, f), f(x));
  }

  lemma Cancel<T>(a: multiset<T>, b: multiset<T>, c: multiset<T>)
    requires a + c == b + c
    ensures a == b
  {
    forall e
      ensures a[e] == b[e]
    {
      assert (a + c)[e] == (b + c)[e];
    }
  }

  lemma {:induction false} GatherInsert<T>(s: seq<T>, i: nat, x: T, f: T -> multiset<Ident>)
    requires i <= |s|
    ensures Gather(s[..i] + [x] + s[i..], f) == Gather(s, f) + f(x)
  {
    GatherSplit(s[..i], x, s[i..], f);
    GatherConcat(s[..i], s[i..], f);
    assert s == s[..i] + s[i..];
  }

  lemma {:induction false} GatherWithout<T>(s: seq<T>, i: nat, f: T -> multiset<Ident>)
    requires i < |s|
    ensures Gather(Without(s, i), f) + f(s[i]) == Gather(s, f)
  {
    var a, b := s[..i], s[i + 1..];
    GatherSplit(a, s[i], b, f);
    GatherConcat(a, b, f);
    assert s == a + [s[i]] + b;
  }

  lemma {:induction false} GatherSame<T>(s: seq<T>, t: seq<T>, f: T -> multiset<Ident>)
    requires |s| == |t| && forall i | 0 <= i < |s| :: f(s[i]) == f(t[i])
    ensures Gather(s, f) == Gather(t, f)
  {
    if s != [] { GatherSame(s[1..], t[1..], f); }
  }

  lemma {:induction false} GatherAt<T>(s: seq<T>, i: nat, f: T -> multiset<Ident>)
    requires i < |s|
    ensures f(s[i]) <= Gather(s, f)
  {
    GatherSplit(s[..i], s[i], s[i + 1..], f);
    assert s == s[..i] + [s[i]] + s[i + 1..];
  }

  ghost function ShardIdents(s: Shard): (r: multiset<Ident>) {
    multiset{ShardID(s.id)}
  }

  ghost function GroupIdents(g: Group): (r: multiset<Ident>) {
    multiset{GroupID(g.id)} + Gather(g.shards, ShardIdents)
  }

  ghost function SubsIdents(subs: Subs): (r: multiset<Ident>) {
    if subs.NoSubs? then multiset{} else multiset{ArrayID(subs.addr)}
  }

  ghost function PolicyIdents(p: Policy): (r: multiset<Ident>) {
    Gather(p.groups, GroupIdents) + SubsIdents(p.subs)
  }

  ghost function DatabaseIdents(db: Database): (r: multiset<Ident>) {
    Gather(db.policies, PolicyIdents)
  }

  /** Every group ID, shard ID and array address in the metadata, as often as it occurs. */
  ghost function Idents(databases: seq<Database>): (r: multiset<Ident>) {
    Gather(databases, DatabaseIdents)
  }

  /** How far each kind of ID has been given out. */
  datatype Limits = Limits(groups: nat, shards: nat, arrays: nat)

  function LimitsOf(d: Data): (l: Limits) {
    Limits(d.maxGroupID, d.maxShardID, |d.arrays|)
  }

  /** Has been given out. */
  predicate Issued(x: Ident, l: Limits) {
    match x
    case GroupID(n) => 1 <= n <= l.groups
    case ShardID(n) => 1 <= n <= l.shards
    case ArrayID(n) => n < l.arrays
  }

  ghost predicate Unique(ids: multiset<Ident>) {
    forall x :: ids[x] <= 1
  }

  /** Group and shard IDs are unique across all databases and were all given out, and
      no two policies have their subscriptions in the same array. */
  ghost predicate IDsOK(databases: seq<Database>, l: Limits) {
    Unique(Idents(databases)) && forall x <- Idents(databases) :: Issued(x, l)
  }

  lemma SetPolicyIdents(d: Data, i: nat, j: nat, p: Policy)
    requires i < |d.databases| && j < |d.databases[i].policies|
    ensures Idents(SetPolicy(d, i, j, p).databases) + PolicyIdents(d.databases[i].policies[j])
         == Idents(d.databases) + PolicyIdents(p)
  {
    var db := d.databases[i];
    var db' := db.(policies := db.policies[j := p]);
    GatherUpdate(db.policies, j, p, PolicyIdents);
    GatherUpdate(d.databases, i, db', DatabaseIdents);
    CancelTwice(Idents(SetPolicy(d, i, j, p).databases), Idents(d.databases),
                DatabaseIdents(db), DatabaseIdents(db'), PolicyIdents(db.policies[j]), PolicyIdents(p));
  }

  lemma CancelTwice<T>(x': multiset<T>, x: multiset<T>, y: multiset<T>, y': multiset<T>, z: multiset<T>, z': multiset<T>)
    requires x' + y == x + y' && y' + z == y + z'
    ensures x' + z == x + z'
  {
    forall e
      ensures (x' + z)[e] == (x + z')[e]
    {
      assert (x' + y)[e] == (x + y')[e] && (y' + z)[e] == (y + z')[e];
    }
  }

  lemma {:induction false} NumberedShards(shards: seq<Shard>, base: nat)
    requires forall i | 0 <= i < |shards| :: shards[i].id == base + 1 + i
    ensures forall x :: Gather(shards, ShardIdents)[x] <= if x.ShardID? && base < x.n <= base + |shards| then 1 else 0
  {
    if shards != [] { NumberedShards(shards[1..], base + 1); }
  }

  /** Within a group, shard IDs differ. */
  lemma GroupShardsDistinct(databases: seq<Database>, i: nat, j: nat, k: nat)
    requires Unique(Idents(databases))
    requires i < |databases| && j < |databases[i].policies| && k < |databases[i].policies[j].groups|
    ensures DistinctShards(databases[i].policies[j].groups[k].shards)
  {
    var g := databases[i].policies[j].groups[k];
    GatherAt(databases, i, DatabaseIdents);
    GatherAt(databases[i].policies, j, PolicyIdents);
    GatherAt(databases[i].policies[j].groups, k, GroupIdents);
    assert GroupIdents(g) <= PolicyIdents(databases[i].policies[j]) <= DatabaseIdents(databases[i]) <= Idents(databases);
    forall x
      ensures Gather(g.shards, ShardIdents)[x] <= 1
    {
      assert GroupIdents(g)[x] <= Idents(databases)[x];
    }
    UniqueShards(g.shards);
  }

  lemma {:induction false} GatherTwo<T>(s: seq<T>, i: nat, j: nat, f: T -> multiset<Ident>)
    requires i < j < |s|
    ensures f(s[i]) + f(s[j]) <= Gather(s, f)
  {
    if i == 0 {
      GatherAt(s[1..], j - 1, f);
    } else {
      GatherTwo(s[1..], i - 1, j - 1, f);
    }
  }

  lemma UniqueShards(shards: seq<Shard>)
    requires Unique(Gather(shards, ShardIdents))
    ensures DistinctShards(shards)
  {
    forall i, j | 0 <= i < j < |shards|
      ensures shards[i].id != shards[j].id
    {
      GatherTwo(shards, i, j, ShardIdents);
      var x := ShardID(shards[i].id);
      assert (ShardIdents(shards[i]) + ShardIdents(shards[j]))[x] <= Gather(shards, ShardIdents)[x];
    }
  }

  // ---------- Ownership ----------

  /** Owners are different data nodes; a live group has shards, and they have owners. */
  ghost predicate GroupOK(g: Group, ids: set<nat>) {
    && (forall s <- g.shards :: Distinct(s.owners) && forall n <- s.owners :: n in ids)
    && (!g.deleted ==> g.shards != [] && forall s <- g.shards :: s.owners != [])
  }

  ghost predicate PolicyOK(p: Policy, ids: set<nat>) {
    PolicyTimes(p) && forall g <- p.groups :: GroupOK(g, ids)
  }

  ghost predicate DatabaseOK(db: Database, ids: set<nat>) {
    forall p <- db.policies :: PolicyOK(p, ids)
  }

  ghost predicate DatabasesOK(databases: seq<Database>, ids: set<nat>) {
    forall db <- databases :: DatabaseOK(db, ids)
  }

  lemma SetPolicyOK(d: Data, i: nat, j: nat, p: Policy, ids: set<nat>)
    requires i < |d.databases| && j < |d.databases[i].policies|
    requires DatabasesOK(d.databases, ids) && PolicyOK(p, ids)
    ensures DatabasesOK(SetPolicy(d, i, j, p).databases, ids)
  {
    var db' := d.databases[i].(policies := d.databases[i].policies[j := p]);
    assert DatabaseOK(d.databases[i], ids);
    assert DatabaseOK(db', ids);
  }

  lemma MoreNodesOK(databases: seq<Database>, ids: set<nat>, ids': set<nat>)
    requires DatabasesOK(databases, ids) && ids <= ids'
    ensures DatabasesOK(databases, ids')
  {
  }

  // ---------- Nodes ----------

  ghost predicate Sorted(nodes: seq<NodeInfo>) {
    forall i, j | 0 <= i < j < |nodes| :: nodes[i].id <= nodes[j].id
  }

  predicate Listed(n: NodeInfo, metaNodes: seq<NodeInfo>, dataNodes: seq<NodeInfo>) {
    n in metaNodes || n in dataNodes
  }

  ghost predicate SameIdentity(m: NodeInfo, n: NodeInfo) {
    m.id == n.id <==> m.tcpHost == n.tcpHost
  }

  /** IDs lie in 1..maxNodeID and stand for TCP hosts, across both lists; both
      lists are sorted by ID, and no data node is listed twice. */
  ghost predicate NodesOK(metaNodes: seq<NodeInfo>, dataNodes: seq<NodeInfo>, maxNodeID: nat) {
    && (forall n | Listed(n, metaNodes, dataNodes) :: 1 <= n.id <= maxNodeID)
    && (forall m, n | Listed(m, metaNodes, dataNodes) && Listed(n, metaNodes, dataNodes) :: SameIdentity(m, n))
    && Sorted(metaNodes) && Sorted(dataNodes) && DistinctNodes(dataNodes)
  }

  lemma Prepend(n: NodeInfo, rest: seq<NodeInfo>)
    requires Sorted(rest) && forall m <- rest :: n.id <= m.id
    ensures Sorted([n] + rest)
    ensures DistinctNodes(rest) && n.id !in NodeIDs(rest) ==> DistinctNodes([n] + rest)
  {
  }

  lemma Tail(nodes: seq<NodeInfo>)
    requires Sorted(nodes) && nodes != []
    ensures Sorted(nodes[1..]) && forall m <- nodes[1..] :: nodes[0].id <= m.id
    ensures DistinctNodes(nodes) ==> DistinctNodes(nodes[1..]) && nodes[0].id !in NodeIDs(nodes[1..])
  {
  }

  lemma InsertMembers(nodes: seq<NodeInfo>, n: NodeInfo)
    ensures forall m :: m in InsertNode(nodes, n) <==> m in nodes || m == n
    ensures NodeIDs(InsertNode(nodes, n)) == NodeIDs(nodes) + {n.id}
  {
    var r := InsertNode(nodes, n);
    forall m
      ensures m in r <==> m in nodes || m == n
    {
      assert m in multiset(r) <==> m in multiset(nodes) || m == n;
    }
  }

  lemma {:induction false} InsertSorted(nodes: seq<NodeInfo>, n: NodeInfo)
    requires Sorted(nodes)
    ensures Sorted(InsertNode(nodes, n))
    ensures DistinctNodes(nodes) && n.id !in NodeIDs(nodes) ==> DistinctNodes(InsertNode(nodes, n))
  {
    if nodes != [] {
      Tail(nodes);
      if n.id < nodes[0].id {
        Prepend(n, nodes);
      } else {
        InsertSorted(nodes[1..], n);
        InsertMembers(nodes[1..], n);
        Prepend(nodes[0], InsertNode(nodes[1..], n));
      }
    }
  }

  lemma {:induction false} RemoveSorted(nodes: seq<NodeInfo>, id: nat)
    requires Sorted(nodes)
    ensures Sorted(RemoveNode(nodes, id))
    ensures DistinctNodes(nodes) ==> DistinctNodes(RemoveNode(nodes, id))
  {
    if nodes != [] {
      Tail(nodes);
      RemoveSorted(nodes[1..], id);
      Prepend(nodes[0], RemoveNode(nodes[1..], id));
    }
  }

  ghost predicate MetaInv(d: Data) {
    && NodesOK(d.metaNodes, d.dataNodes, d.maxNodeID)
    && DatabasesOK(d.databases, NodeIDs(d.dataNodes))
    && IDsOK(d.databases, LimitsOf(d))
  }
}

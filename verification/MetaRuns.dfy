/**
 Every run of the metadata state machine keeps the invariant and never gives
 out an ID twice.
 */
module MetaRuns {
  import opened Basics
  import opened Metadata
  import opened Placement
  import opened ShardGroups
  import opened MetaInvariant
  import opened MetaMachine

  ghost function AllNodeIDs(metaNodes: seq<NodeInfo>, dataNodes: seq<NodeInfo>): (ids: set<nat>) {
    NodeIDs(metaNodes) + NodeIDs(dataNodes)
  }

  /** Group IDs, shard IDs and array addresses that are new were not given out before. */
  ghost predicate IDsExtend(dbs: seq<Database>, l: Limits, dbs': seq<Database>) {
    forall x <- Idents(dbs') :: x in Idents(dbs) || !Issued(x, l)
  }

  predicate Grown(l: Limits, l': Limits) {
    l.groups <= l'.groups && l.shards <= l'.shards && l.arrays <= l'.arrays
  }

  /** Node IDs that are new were not given out before. */
  ghost predicate NodesExtend(ids: set<nat>, maxNodeID: nat, ids': set<nat>) {
    forall n <- ids' :: n in ids || n > maxNodeID
  }

  /** Whatever `d'` has and `d` has not is numbered beyond what `d` had given out. */
  ghost predicate Extends(d: Data, d': Data) {
    && d.maxNodeID <= d'.maxNodeID && Grown(LimitsOf(d), LimitsOf(d'))
    && IDsExtend(d.databases, LimitsOf(d), d'.databases)
    && NodesExtend(AllNodeIDs(d.metaNodes, d.dataNodes), d.maxNodeID, AllNodeIDs(d'.metaNodes, d'.dataNodes))
  }

  /** Keeps the invariant and reuses no ID. */
  ghost predicate Good(d: Data, d': Data) {
    MetaInv(d') && Extends(d, d')
  }

  // ---------- Databases and policies ----------

  /** Changes that leave nodes and counters alone and add no ID. */
  lemma FewerIDs(d: Data, d': Data)
    requires MetaInv(d) && d' == d.(databases := d'.databases, arrays := d'.arrays) && |d'.arrays| == |d.arrays|
    requires Idents(d'.databases) <= Idents(d.databases)
    requires DatabasesOK(d'.databases, NodeIDs(d.dataNodes))
    ensures Good(d, d')
  {
  }

  lemma FewerIdents(dbs: seq<Database>, l: Limits, dbs': seq<Database>)
    requires IDsOK(dbs, l) && Idents(dbs') <= Idents(dbs)
    ensures IDsOK(dbs', l) && IDsExtend(dbs, l, dbs')
  {
  }

  /** IDs that are added are each new and given out once. */
  ghost predicate Fresh(more: multiset<Ident>, l: Limits, l': Limits) {
    forall x :: more[x] <= if Issued(x, l') && !Issued(x, l) then 1 else 0
  }

  lemma AddFreshIDs(dbs: seq<Database>, l: Limits, dbs': seq<Database>, l': Limits, more: multiset<Ident>)
    requires IDsOK(dbs, l) && Grown(l, l') && Fresh(more, l, l')
    requires Idents(dbs') <= Idents(dbs) + more
    ensures IDsOK(dbs', l') && IDsExtend(dbs, l, dbs')
  {
  }

  lemma CreateDatabaseGood(d: Data, name: string)
    requires MetaInv(d) && CreateDatabase(d, name).Ok?
    ensures Good(d, CreateDatabase(d, name).data)
  {
    var d' := CreateDatabase(d, name).data;
    GatherConcat(d.databases, [Database(name, "", [])], DatabaseIdents);
    FewerIDs(d, d');
  }

  lemma DropDatabaseGood(d: Data, name: string)
    requires MetaInv(d)
    ensures Good(d, DropDatabase(d, name))
  {
    var at := DatabaseAt(d.databases, name);
    if at.Some? { GatherWithout(d.databases, at.value, DatabaseIdents); }
    FewerIDs(d, DropDatabase(d, name));
  }

  lemma SetDatabaseIdents(dbs: seq<Database>, i: nat, db: Database)
    requires i < |dbs| && DatabaseIdents(db) <= DatabaseIdents(dbs[i])
    ensures Idents(dbs[i := db]) <= Idents(dbs)
  {
    GatherUpdate(dbs, i, db, DatabaseIdents);
    forall x
      ensures Idents(dbs[i := db])[x] <= Idents(dbs)[x]
    {
      assert (Idents(dbs[i := db]) + DatabaseIdents(dbs[i]))[x] == (Idents(dbs) + DatabaseIdents(db))[x];
    }
  }

  lemma SetDatabaseGood(d: Data, i: nat, db: Database)
    requires MetaInv(d) && i < |d.databases|
    requires DatabaseOK(db, NodeIDs(d.dataNodes)) && DatabaseIdents(db) <= DatabaseIdents(d.databases[i])
    ensures Good(d, d.(databases := d.databases[i := db]))
  {
    SetDatabaseIdents(d.databases, i, db);
    FewerIDs(d, d.(databases := d.databases[i := db]));
  }

  lemma AddPolicyIdents(dbs: seq<Database>, i: nat, p: Policy, db: Database)
    requires i < |dbs| && db.policies == dbs[i].policies + [p]
    ensures Idents(dbs[i := db]) == Idents(dbs) + PolicyIdents(p)
  {
    GatherConcat(dbs[i].policies, [p], PolicyIdents);
    GatherUpdate(dbs, i, db, DatabaseIdents);
    Cancel(Idents(dbs[i := db]), Idents(dbs) + PolicyIdents(p), DatabaseIdents(dbs[i]));
  }

  lemma AddPolicyOK(dbs: seq<Database>, i: nat, p: Policy, db: Database, ids: set<nat>)
    requires i < |dbs| && db.policies == dbs[i].policies + [p] && DatabasesOK(dbs, ids)
    ensures DatabasesOK(dbs[i := db], ids) <==> PolicyOK(p, ids)
  {
    assert DatabaseOK(dbs[i], ids);
    assert p in db.policies && dbs[i := db][i] == db;
    if PolicyOK(p, ids) {
      assert DatabaseOK(db, ids);
    } else {
      assert !DatabaseOK(db, ids) && db in dbs[i := db];
    }
  }

  /** Commands that create policies carry no shard groups. */
  predicate NoGroups(cmd: Command) {
    match cmd
    case CreateDatabaseCommand(_, policy) => policy.Some? ==> policy.value.groups == []
    case CreatePolicyCommand(_, spec) => spec.groups == []
    case _ => true
  }

  lemma CreatePolicyGood(d: Data, database: string, spec: PolicySpec, makeDefault: bool)
    requires MetaInv(d) && CreatePolicy(d, database, spec, makeDefault).Ok? && spec.groups == []
    ensures Good(d, CreatePolicy(d, database, spec, makeDefault).data)
  {
    var d' := CreatePolicy(d, database, spec, makeDefault).data;
    if d' == d {
      GoodSame(d);
    } else {
      AddedPolicyGood(d, DatabaseAt(d.databases, database).value, NewPolicy(d, spec), d');
    }
  }

  lemma AddedPolicyGood(d: Data, i: nat, p: Policy, d': Data)
    requires MetaInv(d) && i < |d.databases| && |d.databases| == |d'.databases|
    requires d' == d.(databases := d.databases[i := d'.databases[i]], arrays := d'.arrays)
    requires d'.databases[i].policies == d.databases[i].policies + [p]
    requires p.groups == [] && p.groupDuration > 0
    requires |d'.arrays| == |d.arrays| + (if p.subs.NoSubs? then 0 else 1) && (p.subs.Subs? ==> p.subs.addr == |d.arrays|)
    ensures Good(d, d')
  {
    AddPolicyIdents(d.databases, i, p, d'.databases[i]);
    AddPolicyOK(d.databases, i, p, d'.databases[i], NodeIDs(d.dataNodes));
    AddFreshIDs(d.databases, LimitsOf(d), d'.databases, LimitsOf(d'), PolicyIdents(p));
  }

  /** The policy that a command to create a database names, if the command is sound and
      the database has it. */
  function PolicyThere(d: Data, name: string, spec: PolicySpec): (r: Option<Policy>) {
    if name == "" || spec.name == "" || spec.replicaN < 1 then None
    else if 0 < spec.duration < NormalisedGroupDuration(spec.groupDuration, spec.duration) then None
    else
      match DatabaseAt(d.databases, name)
      case None => None
      case Some(i) =>
        match NamedPolicy(d.databases[i], spec.name)
        case None => None
        case Some(j) => Some(d.databases[i].policies[j])
  }

  predicate SameParameters(p: Policy, spec: PolicySpec) {
    && p.replicaN == spec.replicaN && p.duration == spec.duration
    && p.groupDuration == NormalisedGroupDuration(spec.groupDuration, spec.duration)
  }

  /** The policy that a database has is not its default. */
  predicate NotDefault(d: Data, name: string, p: Policy) {
    match DatabaseAt(d.databases, name)
    case None => false
    case Some(i) => d.databases[i].defaultPolicy != p.name
  }

  /** Creating a database with a policy that it has with other parameters reports that the
      policy exists, and never a conflict; a conflict is reported only for the same
      parameters, if and only if the policy is not the default. */
  lemma ExistingPolicyErrors(d: Data, name: string, spec: PolicySpec, autoCreate: bool)
    ensures var r, p := CreateWithPolicy(d, name, Some(spec), autoCreate), PolicyThere(d, name, spec);
            && (r == Err(PolicyExists) <==> p.Some? && !SameParameters(p.value, spec))
            && (r == Err(PolicyConflict) <==> p.Some? && SameParameters(p.value, spec) && NotDefault(d, name, p.value))
  {
  }

  /** What a policy brings along can be taken over: its groups fit the current nodes
      and its time grid, and their IDs are given out, used once, and not in use. */
  ghost predicate Acceptable(d: Data, p: Policy) {
    && PolicyOK(p, NodeIDs(d.dataNodes))
    && Unique(Gather(p.groups, GroupIdents))
    && forall x <- Gather(p.groups, GroupIdents) :: Issued(x, LimitsOf(d)) && x !in Idents(d.databases)
  }

  lemma UniqueSum(a: multiset<Ident>, g: multiset<Ident>, s: multiset<Ident>)
    requires Unique(a)
    requires forall x <- s :: s[x] == 1 && x !in a && x !in g
    ensures Unique(a + (g + s)) <==> Unique(g) && forall x <- g :: x !in a
  {
    if Unique(a + (g + s)) {
      forall x
        ensures g[x] <= 1 && (x in g ==> x !in a)
      {
        assert (a + (g + s))[x] <= 1;
      }
    }
  }

  lemma {:induction false} NoArrays(groups: seq<Group>)
    ensures forall x <- Gather(groups, GroupIdents) :: !x.ArrayID?
  {
    if groups != [] {
      NoArrays(groups[1..]);
      NoArrayInShards(groups[0].shards);
    }
  }

  lemma {:induction false} NoArrayInShards(shards: seq<Shard>)
    ensures forall x <- Gather(shards, ShardIdents) :: x.ShardID?
  {
    if shards != [] { NoArrayInShards(shards[1..]); }
  }

  /** A command that adds a policy keeps the invariant if and only if what the policy
      brings along can be taken over. */
  lemma CreatePolicyKeepsExactly(d: Data, database: string, spec: PolicySpec, makeDefault: bool)
    requires MetaInv(d) && CreatePolicy(d, database, spec, makeDefault).Ok?
    requires CreatePolicy(d, database, spec, makeDefault).data != d
    ensures MetaInv(CreatePolicy(d, database, spec, makeDefault).data) <==> Acceptable(d, NewPolicy(d, spec))
  {
    var d' := CreatePolicy(d, database, spec, makeDefault).data;
    var i := DatabaseAt(d.databases, database).value;
    var p := NewPolicy(d, spec);
    AddPolicyOK(d.databases, i, p, d'.databases[i], NodeIDs(d.dataNodes));
    AddPolicyIDs(d, i, p, d');
  }

  /** What a command that creates a policy adds, it adds to a state that can take it over. */
  ghost predicate TakesOver(d: Data, database: string, spec: PolicySpec, makeDefault: bool) {
    var r := CreatePolicy(d, database, spec, makeDefault);
    r.Ok? && r.data != d ==> Acceptable(d, NewPolicy(d, spec))
  }

  ghost predicate PoliciesAcceptable(d: Data, cmd: Command) {
    match cmd
    case CreatePolicyCommand(db, spec) => TakesOver(d, db, spec, false)
    case CreateDatabaseCommand(name, Some(spec)) =>
      CreateDatabase(d, name).Ok? ==> TakesOver(CreateDatabase(d, name).data, name, spec, true)
    case _ => true
  }

  lemma AddPolicyIDs(d: Data, i: nat, p: Policy, d': Data)
    requires IDsOK(d.databases, LimitsOf(d)) && i < |d.databases| && |d.databases| == |d'.databases|
    requires d'.databases == d.databases[i := d'.databases[i]] && d'.databases[i].policies == d.databases[i].policies + [p]
    requires d'.maxGroupID == d.maxGroupID && d'.maxShardID == d.maxShardID
    requires |d'.arrays| == |d.arrays| + (if p.subs.NoSubs? then 0 else 1) && (p.subs.Subs? ==> p.subs.addr == |d.arrays|)
    ensures IDsOK(d'.databases, LimitsOf(d')) <==>
              && Unique(Gather(p.groups, GroupIdents))
              && forall x <- Gather(p.groups, GroupIdents) :: Issued(x, LimitsOf(d)) && x !in Idents(d.databases)
  {
    var a, g, s := Idents(d.databases), Gather(p.groups, GroupIdents), SubsIdents(p.subs);
    AddPolicyIdents(d.databases, i, p, d'.databases[i]);
    assert Idents(d'.databases) == a + (g + s);
    NoArrays(p.groups);
    UniqueSum(a, g, s);
    AllIssued(a, g, s, LimitsOf(d), LimitsOf(d'));
  }

  lemma AllIssued(a: multiset<Ident>, g: multiset<Ident>, s: multiset<Ident>, limits: Limits, limits': Limits)
    requires forall x <- a :: Issued(x, limits)
    requires forall x <- s :: Issued(x, limits')
    requires forall x | Issued(x, limits) :: Issued(x, limits')
    requires forall x <- g :: Issued(x, limits') ==> Issued(x, limits)
    ensures (forall x <- a + (g + s) :: Issued(x, limits')) <==> forall x <- g :: Issued(x, limits)
  {
  }

  /** An entry that breaks the invariant: a policy that comes with a group which was
      never given an ID, on a cluster without nodes. */
  lemma CarriedGroupBreaks()
    ensures var spec := PolicySpec("p", 1, 0, HOUR, [Group(7, 0, HOUR, false, [Shard(9, [1])])], []);
            var d := CreateDatabase(INITIAL, "db").data;
            MetaInv(d) && CreatePolicy(d, "db", spec, false).Ok? && !MetaInv(CreatePolicy(d, "db", spec, false).data)
  {
    var spec := PolicySpec("p", 1, 0, HOUR, [Group(7, 0, HOUR, false, [Shard(9, [1])])], []);
    var d := CreateDatabase(INITIAL, "db").data;
    CreateDatabaseGood(INITIAL, "db");
    assert d.databases == [Database("db", "", [])];
    var g := spec.groups[0];
    assert !GroupOK(g, {}) by {
      assert g.shards[0] in g.shards && 1 in g.shards[0].owners;
    }
    assert g in NewPolicy(d, spec).groups;
    CreatePolicyKeepsExactly(d, "db", spec, false);
  }

  lemma DropPolicyGood(d: Data, database: string, name: string)
    requires MetaInv(d)
    ensures Good(d, DropPolicy(d, database, name))
  {
    var d' := DropPolicy(d, database, name);
    if d' == d {
      GoodSame(d);
    } else {
      var i := DatabaseAt(d.databases, database).value;
      var db := d.databases[i];
      GatherWithout(db.policies, PolicyAt(db.policies, name).value, PolicyIdents);
      assert DatabaseOK(db, NodeIDs(d.dataNodes));
      SetDatabaseGood(d, i, d'.databases[i]);
    }
  }

  lemma SetPolicyGood(d: Data, i: nat, j: nat, p: Policy)
    requires MetaInv(d) && i < |d.databases| && j < |d.databases[i].policies|
    requires PolicyOK(p, NodeIDs(d.dataNodes)) && PolicyIdents(p) == PolicyIdents(d.databases[i].policies[j])
    ensures Good(d, SetPolicy(d, i, j, p))
  {
    SetPolicyOK(d, i, j, p, NodeIDs(d.dataNodes));
    SetPolicyIdents(d, i, j, p);
    Cancel(Idents(SetPolicy(d, i, j, p).databases), Idents(d.databases), PolicyIdents(p));
    FewerIDs(d, SetPolicy(d, i, j, p));
  }

  lemma PolicyFound(d: Data, i: nat, j: nat)
    requires MetaInv(d) && i < |d.databases| && j < |d.databases[i].policies|
    ensures PolicyOK(d.databases[i].policies[j], NodeIDs(d.dataNodes))
  {
    assert DatabaseOK(d.databases[i], NodeIDs(d.dataNodes));
  }

  lemma UpdatePolicyGood(d: Data, database: string, name: string, u: PolicyUpdate)
    requires MetaInv(d) && UpdatePolicy(d, database, name, u).Ok?
    ensures Good(d, UpdatePolicy(d, database, name, u).data)
  {
    var d' := UpdatePolicy(d, database, name, u).data;
    var i := DatabaseAt(d.databases, database).value;
    var j := NamedPolicy(d.databases[i], name).value;
    PolicyFound(d, i, j);
    SetPolicyGood(d, i, j, d'.databases[i].policies[j]);
  }

  // ---------- Subscriptions ----------

  lemma SetSubsIdents(d: Data, i: nat, j: nat, subs: Subs)
    requires i < |d.databases| && j < |d.databases[i].policies|
    ensures var p := d.databases[i].policies[j];
            Idents(SetPolicy(d, i, j, p.(subs := subs)).databases) + SubsIdents(p.subs) == Idents(d.databases) + SubsIdents(subs)
  {
    var p := d.databases[i].policies[j];
    SetPolicyIdents(d, i, j, p.(subs := subs));
    var a, b := Idents(SetPolicy(d, i, j, p.(subs := subs)).databases), Idents(d.databases);
    forall x
      ensures (a + SubsIdents(p.subs))[x] == (b + SubsIdents(subs))[x]
    {
      assert (a + PolicyIdents(p))[x] == (b + PolicyIdents(p.(subs := subs)))[x];
    }
  }

  /** A slice that stays in its array, or moves to a new one. */
  lemma SetSubsGood(d: Data, i: nat, j: nat, subs: Subs, arrays: seq<seq<Subscription>>)
    requires MetaInv(d) && i < |d.databases| && j < |d.databases[i].policies|
    requires
      var before := d.databases[i].policies[j].subs;
      || (subs.Subs? && before.Subs? && subs.addr == before.addr && |arrays| == |d.arrays|)
      || (subs.Subs? && subs.addr == |d.arrays| && |arrays| == |d.arrays| + 1)
    ensures Good(d, SetPolicy(d, i, j, d.databases[i].policies[j].(subs := subs)).(arrays := arrays))
  {
    var p := d.databases[i].policies[j];
    var d' := SetPolicy(d, i, j, p.(subs := subs)).(arrays := arrays);
    PolicyFound(d, i, j);
    SetPolicyOK(d, i, j, p.(subs := subs), NodeIDs(d.dataNodes));
    SetSubsIdents(d, i, j, subs);
    var more := if |arrays| == |d.arrays| then multiset{} else SubsIdents(subs);
    forall x
      ensures Idents(d'.databases)[x] <= (Idents(d.databases) + more)[x]
    {
      assert (Idents(d'.databases) + SubsIdents(p.subs))[x] == (Idents(d.databases) + SubsIdents(subs))[x];
    }
    AddFreshIDs(d.databases, LimitsOf(d), d'.databases, LimitsOf(d'), more);
  }

  lemma CreateSubscriptionGood(d: Data, database: string, policy: string, sub: Subscription, valid: bool, spare: nat)
    requires MetaInv(d) && CreateSubscription(d, database, policy, sub, valid, spare).Ok?
    ensures Good(d, CreateSubscription(d, database, policy, sub, valid, spare).data)
  {
    var i := DatabaseAt(d.databases, database).value;
    var j := PolicyAt(d.databases[i].policies, policy).value;
    var (arrays, subs) := AppendSub(d.arrays, d.databases[i].policies[j].subs, sub, spare);
    SetSubsGood(d, i, j, subs, arrays);
  }

  lemma DropSubscriptionGood(d: Data, database: string, policy: string, name: string)
    requires MetaInv(d) && DropSubscription(d, database, policy, name).Ok?
    ensures Good(d, DropSubscription(d, database, policy, name).data)
  {
    var d' := DropSubscription(d, database, policy, name).data;
    var i := DatabaseAt(d.databases, database).value;
    var j := PolicyAt(d.databases[i].policies, policy).value;
    SetSubsGood(d, i, j, d'.databases[i].policies[j].subs, d'.arrays);
  }

  // ---------- Shard groups ----------

  lemma MarkDeletedTimes(p: Policy, k: nat)
    requires PolicyTimes(p) && k < |p.groups|
    ensures PolicyTimes(p.(groups := p.groups[k := p.groups[k].(deleted := true)]))
  {
  }

  lemma MarkDeleted(p: Policy, k: nat, ids: set<nat>)
    requires PolicyOK(p, ids) && k < |p.groups|
    ensures var p' := p.(groups := p.groups[k := p.groups[k].(deleted := true)]);
            PolicyOK(p', ids) && PolicyIdents(p') == PolicyIdents(p)
  {
    var g' := p.groups[k].(deleted := true);
    GatherUpdateSame(p.groups, k, g', GroupIdents);
    MarkDeletedTimes(p, k);
    assert GroupOK(p.groups[k], ids);
    forall g <- p.groups[k := g']
      ensures GroupOK(g, ids)
    {
      assert g == g' || g in p.groups;
    }
  }

  lemma DeleteShardGroupGood(d: Data, database: string, policy: string, id: nat)
    requires MetaInv(d) && DeleteShardGroup(d, database, policy, id).Ok?
    ensures Good(d, DeleteShardGroup(d, database, policy, id).data)
  {
    var i := DatabaseAt(d.databases, database).value;
    var j := PolicyAt(d.databases[i].policies, policy).value;
    var p := d.databases[i].policies[j];
    var k := Find(p.groups, (g: Group) => g.id == id).value;
    PolicyFound(d, i, j);
    MarkDeleted(p, k, NodeIDs(d.dataNodes));
    SetPolicyGood(d, i, j, p.(groups := p.groups[k := p.groups[k].(deleted := true)]));
  }

  /** Every shard of the group has `r` owners, and there are as many shards as that
      leaves room for. */
  ghost predicate Replicated(g: Group, r: nat, nodeN: nat) {
    r > 0 && |g.shards| == nodeN / r && forall s <- g.shards :: |s.owners| == r
  }

  /** A new group: every shard has as many different owners as the policy asks for, one
      if it asks for none, and all nodes if it asks for more; no node owns two. */
  lemma NewGroupSpreads(d: Data, p: Policy, t: int)
    requires MetaInv(d) && d.dataNodes != []
    ensures var g, n := NewGroup(d, p, t), |d.dataNodes|;
            && GroupOK(g, NodeIDs(d.dataNodes)) && !g.deleted
            && (1 <= p.replicaN <= n ==> Replicated(g, p.replicaN, n))
            && (p.replicaN == 0 ==> Replicated(g, 1, n))
            && (p.replicaN > n ==> Replicated(g, n, n))
            && (forall i, k | 0 <= i < k < |g.shards| :: forall n <- g.shards[i].owners :: n !in g.shards[k].owners)
  {
    var n := |d.dataNodes|;
    var r := Replicas(p.replicaN, n);
    ShardCount(n, p.replicaN);
    PlacementSpreads(d.dataNodes, d.maxShardID, d.index % n, n / r, r);
  }

  /** A new group is the slot of the time, its number and those of its shards follow the
      last ones given out, and its shards go to the nodes in turn from the log index on. */
  lemma NewGroupPlaced(d: Data, p: Policy, t: int, i: nat, j: nat)
    requires d.dataNodes != [] && p.groupDuration > 0
    ensures var g := NewGroup(d, p, t);
            && g.id == d.maxGroupID + 1 && g.start <= t < g.end == g.start + p.groupDuration && g.start % p.groupDuration == 0
            && (i < |g.shards| ==> g.shards[i].id == d.maxShardID + 1 + i)
            && (i < |g.shards| && j < |g.shards[i].owners| ==>
                  g.shards[i].owners[j] == d.dataNodes[(d.index + i * |g.shards[i].owners| + j) % |d.dataNodes|].id)
  {
    var n := |d.dataNodes|;
    var r := Replicas(p.replicaN, n);
    if i < n / r && j < r {
      DealtInTurn(d.dataNodes, d.maxShardID, d.index, n / r, r, i, j);
    }
  }

  lemma NewGroupIDs(d: Data, p: Policy, t: int)
    requires d.dataNodes != []
    ensures var g := NewGroup(d, p, t);
            forall x :: GroupIdents(g)[x] <=
              if x == GroupID(d.maxGroupID + 1) || (x.ShardID? && d.maxShardID < x.n <= d.maxShardID + |g.shards|) then 1 else 0
  {
    NumberedShards(NewGroup(d, p, t).shards, d.maxShardID);
  }

  /** The state after a group was added, with the counters moved on. */
  function WithGroup(d: Data, i: nat, j: nat, g: Group): (d': Data)
    requires i < |d.databases| && j < |d.databases[i].policies|
  {
    var p := d.databases[i].policies[j];
    SetPolicy(d, i, j, p.(groups := InsertGroup(p.groups, g))).(
      maxGroupID := d.maxGroupID + 1, maxShardID := d.maxShardID + |g.shards|)
  }

  lemma WithGroupIdents(d: Data, i: nat, j: nat, g: Group)
    requires i < |d.databases| && j < |d.databases[i].policies|
    ensures Idents(WithGroup(d, i, j, g).databases) == Idents(d.databases) + GroupIdents(g)
  {
    var p := d.databases[i].policies[j];
    var p' := p.(groups := InsertGroup(p.groups, g));
    var k := InsertAt(p.groups, g);
    GatherInsert(p.groups, k, g, GroupIdents);
    SetPolicyIdents(d, i, j, p');
    var a, b := Idents(SetPolicy(d, i, j, p').databases), Idents(d.databases);
    forall x
      ensures a[x] == (b + GroupIdents(g))[x]
    {
      assert (a + PolicyIdents(p))[x] == (b + PolicyIdents(p'))[x];
    }
  }

  lemma WithGroupIDs(d: Data, i: nat, j: nat, t: int)
    requires MetaInv(d) && d.dataNodes != [] && i < |d.databases| && j < |d.databases[i].policies|
    ensures var d' := WithGroup(d, i, j, NewGroup(d, d.databases[i].policies[j], t));
            IDsOK(d'.databases, LimitsOf(d')) && IDsExtend(d.databases, LimitsOf(d), d'.databases)
  {
    var p := d.databases[i].policies[j];
    var g := NewGroup(d, p, t);
    var d' := WithGroup(d, i, j, g);
    WithGroupIdents(d, i, j, g);
    NewGroupIDs(d, p, t);
    AddFreshIDs(d.databases, LimitsOf(d), d'.databases, LimitsOf(d'), GroupIdents(g));
  }

  lemma InsertGroupOK(p: Policy, g: Group, ids: set<nat>)
    requires PolicyOK(p, ids) && GroupOK(g, ids) && PolicyTimes(p.(groups := InsertGroup(p.groups, g)))
    ensures PolicyOK(p.(groups := InsertGroup(p.groups, g)), ids)
  {
    forall x <- InsertGroup(p.groups, g)
      ensures GroupOK(x, ids)
    {
      assert x in multiset(InsertGroup(p.groups, g));
      assert x == g || x in p.groups;
    }
  }

  lemma AddGroupGood(d: Data, i: nat, j: nat, t: int)
    requires MetaInv(d) && d.dataNodes != [] && i < |d.databases| && j < |d.databases[i].policies|
    requires GroupAt(d.databases[i].policies[j].groups, t).None?
    ensures Good(d, WithGroup(d, i, j, NewGroup(d, d.databases[i].policies[j], t)))
  {
    var p := d.databases[i].policies[j];
    var g := NewGroup(d, p, t);
    PolicyFound(d, i, j);
    NewGroupSpreads(d, p, t);
    NewGroupKeepsTimes(d, p, t);
    InsertGroupOK(p, g, NodeIDs(d.dataNodes));
    SetPolicyOK(d, i, j, p.(groups := InsertGroup(p.groups, g)), NodeIDs(d.dataNodes));
    WithGroupIDs(d, i, j, t);
  }

  lemma CreateShardGroupGood(d: Data, database: string, policy: string, t: int)
    requires MetaInv(d) && CreateShardGroup(d, database, policy, t).Ok?
    ensures Good(d, CreateShardGroup(d, database, policy, t).data)
  {
    var d' := CreateShardGroup(d, database, policy, t).data;
    if d' != d {
      var i := DatabaseAt(d.databases, database).value;
      var j := PolicyAt(d.databases[i].policies, policy).value;
      AddGroupGood(d, i, j, t);
    }
  }

  // ---------- Nodes ----------

  /** The ID given to a host is the one of the listed nodes with that host, or new. */
  lemma AssignedIdentity(d: Data, host: string, tcpHost: string)
    requires NodesOK(d.metaNodes, d.dataNodes, d.maxNodeID) && HostAt(d.dataNodes, tcpHost).None?
    ensures var n := NodeInfo(AssignedID(d, tcpHost), host, tcpHost);
            && (forall m | Listed(m, d.metaNodes, d.dataNodes) :: SameIdentity(m, n))
            && (n.id in AllNodeIDs(d.metaNodes, d.dataNodes) || n.id == d.maxNodeID + 1)
            && 1 <= n.id && n.id !in NodeIDs(d.dataNodes)
  {
    var at := HostAt(d.metaNodes, tcpHost);
    if at.Some? {
      assert Listed(d.metaNodes[at.value], d.metaNodes, d.dataNodes);
    }
    forall m | Listed(m, d.metaNodes, d.dataNodes)
      ensures SameIdentity(m, NodeInfo(AssignedID(d, tcpHost), host, tcpHost))
    {
      if at.Some? { assert SameIdentity(m, d.metaNodes[at.value]); }
    }
    forall m <- d.dataNodes
      ensures m.id != AssignedID(d, tcpHost)
    {
      assert Listed(m, d.metaNodes, d.dataNodes);
    }
  }

  /** One more entry, with an identity that agrees with the others. */
  lemma NewEntryOK(metas: seq<NodeInfo>, datas: seq<NodeInfo>, max: nat, metas': seq<NodeInfo>, datas': seq<NodeInfo>, max': nat, n: NodeInfo)
    requires NodesOK(metas, datas, max) && max <= max' && 1 <= n.id <= max'
    requires forall m :: Listed(m, metas', datas') <==> Listed(m, metas, datas) || m == n
    requires forall m | Listed(m, metas, datas) :: SameIdentity(m, n)
    requires Sorted(metas') && Sorted(datas') && DistinctNodes(datas')
    ensures NodesOK(metas', datas', max')
  {
  }

  lemma NodeAdded(d: Data, d': Data, host: string, tcpHost: string)
    requires MetaInv(d) && HostAt(d.dataNodes, tcpHost).None?
    requires var n := NodeInfo(AssignedID(d, tcpHost), host, tcpHost);
             || (d'.metaNodes == InsertNode(d.metaNodes, n) && d'.dataNodes == d.dataNodes)
             || (d'.metaNodes == d.metaNodes && d'.dataNodes == InsertNode(d.dataNodes, n))
    requires d'.maxNodeID == if ExistingID(d, tcpHost) == 0 then d.maxNodeID + 1 else d.maxNodeID
    ensures NodesOK(d'.metaNodes, d'.dataNodes, d'.maxNodeID)
    ensures NodesExtend(AllNodeIDs(d.metaNodes, d.dataNodes), d.maxNodeID, AllNodeIDs(d'.metaNodes, d'.dataNodes))
  {
    var n := NodeInfo(AssignedID(d, tcpHost), host, tcpHost);
    AssignedIdentity(d, host, tcpHost);
    if d'.metaNodes == d.metaNodes {
      InsertMembers(d.dataNodes, n);
      InsertSorted(d.dataNodes, n);
    } else {
      InsertMembers(d.metaNodes, n);
      InsertSorted(d.metaNodes, n);
    }
    NewEntryOK(d.metaNodes, d.dataNodes, d.maxNodeID, d'.metaNodes, d'.dataNodes, d'.maxNodeID, n);
  }

  lemma CreateMetaNodeGood(d: Data, host: string, tcpHost: string)
    requires MetaInv(d) && CreateMetaNode(d, host, tcpHost).Ok?
    ensures Good(d, CreateMetaNode(d, host, tcpHost).data)
  {
    NodeAdded(d, CreateMetaNode(d, host, tcpHost).data, host, tcpHost);
  }

  lemma CreateDataNodeGood(d: Data, host: string, tcpHost: string)
    requires MetaInv(d) && CreateDataNode(d, host, tcpHost).Ok?
    ensures Good(d, CreateDataNode(d, host, tcpHost).data)
  {
    var d' := CreateDataNode(d, host, tcpHost).data;
    NodeAdded(d, d', host, tcpHost);
    InsertMembers(d.dataNodes, NodeInfo(AssignedID(d, tcpHost), host, tcpHost));
    MoreNodesOK(d.databases, NodeIDs(d.dataNodes), NodeIDs(d'.dataNodes));
  }

  lemma FewerNodesOK(metas: seq<NodeInfo>, datas: seq<NodeInfo>, max: nat, metas': seq<NodeInfo>, datas': seq<NodeInfo>)
    requires NodesOK(metas, datas, max)
    requires (forall m <- metas' :: m in metas) && (forall m <- datas' :: m in datas)
    requires Sorted(metas') && Sorted(datas') && DistinctNodes(datas')
    ensures NodesOK(metas', datas', max)
    ensures NodesExtend(AllNodeIDs(metas, datas), max, AllNodeIDs(metas', datas'))
  {
  }

  lemma NodeDeletedGood(d: Data, e: Data, id: nat, d': Data)
    requires MetaInv(d) && NodesOK(e.metaNodes, e.dataNodes, d.maxNodeID)
    requires NodeIDs(d.dataNodes) - {id} <= NodeIDs(e.dataNodes)
    requires e == d.(metaNodes := e.metaNodes, dataNodes := e.dataNodes)
    requires NodesExtend(AllNodeIDs(d.metaNodes, d.dataNodes), d.maxNodeID, AllNodeIDs(e.metaNodes, e.dataNodes))
    requires NodeDeleted(e, id, d')
    ensures Good(d, d')
  {
    DatabasesStrippedOK(d.databases, id, d'.databases, NodeIDs(d.dataNodes), NodeIDs(e.dataNodes));
    DatabasesStrippedIdents(d.databases, id, d'.databases);
    FewerIdents(d.databases, LimitsOf(d), d'.databases);
  }

  lemma DeleteDataNodeGood(d: Data, id: nat, d': Data)
    requires MetaInv(d) && NodeDeleted(d.(dataNodes := RemoveNode(d.dataNodes, id)), id, d')
    ensures Good(d, d')
  {
    var e := d.(dataNodes := RemoveNode(d.dataNodes, id));
    RemoveSorted(d.dataNodes, id);
    FewerNodesOK(d.metaNodes, d.dataNodes, d.maxNodeID, e.metaNodes, e.dataNodes);
    NodeDeletedGood(d, e, id, d');
  }

  lemma DeleteMetaNodeGood(d: Data, id: nat, d': Data)
    requires MetaInv(d) && NodeDeleted(d.(metaNodes := RemoveNode(d.metaNodes, id)), id, d')
    ensures Good(d, d')
  {
    var e := d.(metaNodes := RemoveNode(d.metaNodes, id));
    RemoveSorted(d.metaNodes, id);
    FewerNodesOK(d.metaNodes, d.dataNodes, d.maxNodeID, e.metaNodes, e.dataNodes);
    NodeDeletedGood(d, e, id, d');
  }

  // ---------- Steps and runs ----------

  lemma GoodTransitive(a: Data, b: Data, c: Data)
    requires Good(a, b) && Good(b, c)
    ensures Good(a, c)
  {
  }

  lemma GoodSame(d: Data)
    requires MetaInv(d)
    ensures Good(d, d)
  {
  }

  lemma CreateWithPolicyGood(d: Data, name: string, policy: Option<PolicySpec>, autoCreate: bool)
    requires MetaInv(d) && CreateWithPolicy(d, name, policy, autoCreate).Ok?
    requires policy.Some? ==> policy.value.groups == []
    ensures Good(d, CreateWithPolicy(d, name, policy, autoCreate).data)
  {
    var d' := CreateDatabase(d, name).data;
    CreateDatabaseGood(d, name);
    if policy.Some? || autoCreate {
      var spec := if policy.Some? then policy.value else AutoPolicy(|d'.dataNodes|);
      CreatePolicyGood(d', name, spec, true);
      GoodTransitive(d, d', CreatePolicy(d', name, spec, true).data);
    }
  }

  lemma ExecuteGood(d: Data, cmd: Command, autoCreate: bool)
    requires MetaInv(d) && !cmd.DeleteMetaNodeCommand? && !cmd.DeleteDataNodeCommand? && NoGroups(cmd)
    requires Execute(d, cmd, autoCreate).Ok?
    ensures Good(d, Execute(d, cmd, autoCreate).data)
  {
    match cmd
    case CreateDatabaseCommand(name, policy) => CreateWithPolicyGood(d, name, policy, autoCreate);
    case DropDatabaseCommand(name) => DropDatabaseGood(d, name);
    case CreatePolicyCommand(db, spec) => CreatePolicyGood(d, db, spec, false);
    case DropPolicyCommand(db, name) => DropPolicyGood(d, db, name);
    case UpdatePolicyCommand(db, name, u) => UpdatePolicyGood(d, db, name, u);
    case CreateShardGroupCommand(db, rp, t) => CreateShardGroupGood(d, db, rp, t);
    case DeleteShardGroupCommand(db, rp, id) => DeleteShardGroupGood(d, db, rp, id);
    case CreateSubscriptionCommand(db, rp, sub, valid, spare) => CreateSubscriptionGood(d, db, rp, sub, valid, spare);
    case DropSubscriptionCommand(db, rp, name) => DropSubscriptionGood(d, db, rp, name);
    case CreateMetaNodeCommand(host, tcpHost, rand) =>
      if CreateMetaNode(d, host, tcpHost).Ok? { CreateMetaNodeGood(d, host, tcpHost); } else { GoodSame(d); }
    case CreateDataNodeCommand(host, tcpHost) =>
      if CreateDataNode(d, host, tcpHost).Ok? { CreateDataNodeGood(d, host, tcpHost); } else { GoodSame(d); }
    case _ => GoodSame(d);
  }

  lemma EffectGood(d: Data, cmd: Command, autoCreate: bool, d': Data, err: Option<Error>)
    requires MetaInv(d) && Effect(d, cmd, autoCreate, d', err) && NoGroups(cmd)
    ensures Good(d, d')
  {
    if err.Some? {
      GoodSame(d);
    } else {
      match cmd
      case DeleteDataNodeCommand(id) => DeleteDataNodeGood(d, id, d');
      case DeleteMetaNodeCommand(id, left) => DeleteMetaNodeGood(d, id, d');
      case _ => ExecuteGood(d, cmd, autoCreate);
    }
  }

  /** Commands leave term and index alone, and a command that fails leaves everything alone. */
  lemma EffectKeepsTerm(d: Data, cmd: Command, autoCreate: bool, d': Data, err: Option<Error>)
    requires Effect(d, cmd, autoCreate, d', err)
    ensures d'.term == d.term && d'.index == d.index
    ensures err.Some? ==> d' == d
  {
  }

  /** Every entry of the log keeps the invariant and reuses no ID. */
  lemma AppliedGood(d: Data, e: Entry, autoCreate: bool, d': Data, err: Option<Error>)
    requires MetaInv(d) && Applied(d, e, autoCreate, d', err) && NoGroups(e.command)
    ensures Good(d, d')
  {
    EffectGood(d, e.command, autoCreate, d'.(term := d.term, index := d.index), err);
  }

  /** An entry of the log keeps the invariant if and only if what the policy that it adds
      brings along can be taken over. */
  lemma AppliedKeepsExactly(d: Data, e: Entry, autoCreate: bool, d': Data, err: Option<Error>)
    requires MetaInv(d) && Applied(d, e, autoCreate, d', err)
    ensures MetaInv(d') <==> PoliciesAcceptable(d, e.command)
  {
    assert LimitsOf(d') == LimitsOf(d'.(term := d.term, index := d.index));
    match e.command
    case CreatePolicyCommand(db, spec) => TakesOverExactly(d, db, spec, false);
    case CreateDatabaseCommand(name, Some(spec)) => CreateWithPolicyExactly(d, name, spec, autoCreate);
    case _ => AppliedGood(d, e, autoCreate, d', err);
  }

  lemma CreateWithPolicyExactly(d: Data, name: string, spec: PolicySpec, autoCreate: bool)
    requires MetaInv(d)
    ensures var r := CreateWithPolicy(d, name, Some(spec), autoCreate);
            if r.Ok? then MetaInv(r.data) <==> PoliciesAcceptable(d, CreateDatabaseCommand(name, Some(spec)))
            else PoliciesAcceptable(d, CreateDatabaseCommand(name, Some(spec)))
  {
    if CreateDatabase(d, name).Ok? {
      CreateDatabaseGood(d, name);
      TakesOverExactly(CreateDatabase(d, name).data, name, spec, true);
    }
  }

  lemma TakesOverExactly(d: Data, database: string, spec: PolicySpec, makeDefault: bool)
    requires MetaInv(d)
    ensures var r := CreatePolicy(d, database, spec, makeDefault);
            r.Ok? ==> (MetaInv(r.data) <==> TakesOver(d, database, spec, makeDefault))
  {
    var r := CreatePolicy(d, database, spec, makeDefault);
    if r.Ok? && r.data != d { CreatePolicyKeepsExactly(d, database, spec, makeDefault); }
  }

  /** A new store: no nodes, no databases, index one. */
  const INITIAL: Data := Data([], [], [], 0, 0, 0, 0, 0, 1, [])

  /** The entries of a log applied one after the other. */
  ghost predicate Steps(states: seq<Data>, log: seq<Entry>, errs: seq<Option<Error>>, autoCreate: bool) {
    && |states| == |log| + 1 == |errs| + 1
    && forall i | 0 <= i < |log| :: Applied(states[i], log[i], autoCreate, states[i + 1], errs[i])
  }

  /** No entry of the log creates a policy that brings shard groups with it. */
  predicate Plain(log: seq<Entry>) {
    forall e <- log :: NoGroups(e.command)
  }

  ghost predicate IsRun(states: seq<Data>, log: seq<Entry>, errs: seq<Option<Error>>, autoCreate: bool) {
    Steps(states, log, errs, autoCreate) && states[0] == INITIAL
  }

  lemma OneMoreStep(states: seq<Data>, log: seq<Entry>, errs: seq<Option<Error>>, autoCreate: bool, e: Entry, d: Data, err: Option<Error>)
    requires Steps(states, log, errs, autoCreate) && Applied(states[|log|], e, autoCreate, d, err)
    ensures Steps(states + [d], log + [e], errs + [err], autoCreate)
  {
  }

  /** In every state of every run: owners are different current data nodes, live
      groups have shards and shards owners, live groups of a policy are sorted
      and apart, IDs are unique, and node identity holds. */
  lemma {:induction false} RunInvariant(states: seq<Data>, log: seq<Entry>, errs: seq<Option<Error>>, autoCreate: bool, i: nat)
    requires IsRun(states, log, errs, autoCreate) && Plain(log) && i < |states|
    ensures MetaInv(states[i])
  {
    if i > 0 {
      RunInvariant(states, log, errs, autoCreate, i - 1);
      AppliedGood(states[i - 1], log[i - 1], autoCreate, states[i], errs[i - 1]);
    }
  }

  lemma {:induction false} Chain(holds: seq<bool>, i: nat)
    requires i < |holds| && holds[0] && forall k | 0 <= k < i :: holds[k] ==> holds[k + 1]
    ensures holds[i]
  {
    if i > 0 { Chain(holds, i - 1); }
  }

  lemma KeptWhileAcceptable(states: seq<Data>, log: seq<Entry>, errs: seq<Option<Error>>, autoCreate: bool, i: nat)
    requires IsRun(states, log, errs, autoCreate) && i < |states|
    requires forall k | 0 <= k < i :: PoliciesAcceptable(states[k], log[k].command)
    ensures MetaInv(states[i])
  {
    ghost var holds := seq(|states|, k requires 0 <= k < |states| => MetaInv(states[k]));
    InitialInv();
    forall k | 0 <= k < i
      ensures holds[k] ==> holds[k + 1]
    {
      if holds[k] { KeptOnce(states, log, errs, autoCreate, k); }
    }
    Chain(holds, i);
  }

  lemma KeptOnce(states: seq<Data>, log: seq<Entry>, errs: seq<Option<Error>>, autoCreate: bool, i: nat)
    requires Steps(states, log, errs, autoCreate) && i < |log| && MetaInv(states[i])
    requires PoliciesAcceptable(states[i], log[i].command)
    ensures MetaInv(states[i + 1])
  {
    KeptExactly(states, log, errs, autoCreate, i);
  }

  lemma InitialInv()
    ensures MetaInv(INITIAL)
  {
  }

  lemma KeptExactly(states: seq<Data>, log: seq<Entry>, errs: seq<Option<Error>>, autoCreate: bool, i: nat)
    requires Steps(states, log, errs, autoCreate) && i < |log| && MetaInv(states[i])
    ensures MetaInv(states[i + 1]) <==> PoliciesAcceptable(states[i], log[i].command)
  {
    AppliedKeepsExactly(states[i], log[i], autoCreate, states[i + 1], errs[i]);
  }

  /** The same for every run, whatever its policies bring along: the invariant holds up to
      an entry if and only if each policy added before could be taken over. */
  lemma RunInvariantExactly(states: seq<Data>, log: seq<Entry>, errs: seq<Option<Error>>, autoCreate: bool, i: nat)
    requires IsRun(states, log, errs, autoCreate) && i < |states|
    ensures (forall k | 0 <= k <= i :: MetaInv(states[k])) <==>
              (forall k | 0 <= k < i :: PoliciesAcceptable(states[k], log[k].command))
  {
    if forall k | 0 <= k < i :: PoliciesAcceptable(states[k], log[k].command) {
      forall k | 0 <= k <= i
        ensures MetaInv(states[k])
      {
        KeptWhileAcceptable(states, log, errs, autoCreate, k);
      }
    } else if forall k | 0 <= k <= i :: MetaInv(states[k]) {
      forall k | 0 <= k < i
        ensures PoliciesAcceptable(states[k], log[k].command)
      {
        KeptExactly(states, log, errs, autoCreate, k);
      }
    }
  }

  lemma {:induction false} RunGood(states: seq<Data>, log: seq<Entry>, errs: seq<Option<Error>>, autoCreate: bool, i: nat, j: nat)
    requires IsRun(states, log, errs, autoCreate) && Plain(log) && i <= j < |states|
    ensures Good(states[i], states[j])
    decreases j
  {
    if i == j {
      RunInvariant(states, log, errs, autoCreate, j);
      GoodSame(states[i]);
    } else {
      RunGood(states, log, errs, autoCreate, i, j - 1);
      RunInvariant(states, log, errs, autoCreate, j - 1);
      AppliedGood(states[j - 1], log[j - 1], autoCreate, states[j], errs[j - 1]);
      GoodTransitive(states[i], states[j - 1], states[j]);
    }
  }

  /** A group or shard ID that was given out and is gone never comes back, and
      neither does a node ID. */
  lemma NeverReused(states: seq<Data>, log: seq<Entry>, errs: seq<Option<Error>>, autoCreate: bool, i: nat, j: nat)
    requires IsRun(states, log, errs, autoCreate) && Plain(log) && i <= j < |states|
    ensures forall x | Issued(x, LimitsOf(states[i])) && x !in Idents(states[i].databases) :: x !in Idents(states[j].databases)
    ensures forall n: nat | n <= states[i].maxNodeID && n !in AllNodeIDs(states[i].metaNodes, states[i].dataNodes) ::
              n !in AllNodeIDs(states[j].metaNodes, states[j].dataNodes)
  {
    RunGood(states, log, errs, autoCreate, i, j);
  }

  lemma ClusterIDStep(d: Data, e: Entry, autoCreate: bool, d': Data, err: Option<Error>)
    requires Applied(d, e, autoCreate, d', err) && d.clusterID != 0
    ensures d'.clusterID == d.clusterID
  {
  }

  /** Once the cluster has an ID it keeps it. */
  lemma {:induction false} ClusterIDFixed(states: seq<Data>, log: seq<Entry>, errs: seq<Option<Error>>, autoCreate: bool, i: nat, j: nat)
    requires IsRun(states, log, errs, autoCreate) && i <= j < |states| && states[i].clusterID != 0
    ensures states[j].clusterID == states[i].clusterID
    decreases j
  {
    if i < j {
      ClusterIDFixed(states, log, errs, autoCreate, i, j - 1);
      ClusterIDStep(states[j - 1], log[j - 1], autoCreate, states[j], errs[j - 1]);
    }
  }

  // ---------- Creating the group for a timestamp ----------

  lemma LookupUpdated(d: Data, database: string, policy: string, i: nat, j: nat, p: Policy)
    requires DatabaseAt(d.databases, database) == Some(i) && PolicyAt(d.databases[i].policies, policy) == Some(j)
    requires p.name == policy
    ensures Lookup(SetPolicy(d, i, j, p), database, policy) == Some(p)
  {
    FindUpdated(d.databases[i].policies, (q: Policy) => q.name == policy, j, p);
    FindUpdated(d.databases, (db: Database) => db.name == database, i, SetPolicy(d, i, j, p).databases[i]);
  }

  lemma NewGroupFound(d: Data, p: Policy, t: int)
    requires d.dataNodes != [] && p.groupDuration > 0
    ensures GroupAt(InsertGroup(p.groups, NewGroup(d, p, t)), t).Some?
  {
    var g := NewGroup(d, p, t);
    assert g in multiset(InsertGroup(p.groups, g));
    assert g in InsertGroup(p.groups, g) && Contains(g, t) && !g.deleted;
  }

  lemma CreationStops(d: Data, database: string, policy: string, t: int)
    requires Lookup(d, database, policy).Some? && GroupAt(Lookup(d, database, policy).value.groups, t).Some?
    ensures CreateShardGroup(d, database, policy, t) == Ok(d)
  {
  }

  /** With a data node and an existing policy, creation succeeds and leaves a live
      group that covers the timestamp; creating again changes nothing. */
  lemma CreatedGroupCovers(d: Data, database: string, policy: string, t: int)
    requires MetaInv(d) && d.dataNodes != [] && Lookup(d, database, policy).Some?
    ensures var r := CreateShardGroup(d, database, policy, t);
            && r.Ok? && Lookup(r.data, database, policy).Some?
            && GroupAt(Lookup(r.data, database, policy).value.groups, t).Some?
            && CreateShardGroup(r.data, database, policy, t) == r
  {
    var i := DatabaseAt(d.databases, database).value;
    var j := PolicyAt(d.databases[i].policies, policy).value;
    var p := d.databases[i].policies[j];
    if GroupAt(p.groups, t).None? {
      PolicyFound(d, i, j);
      NewGroupFound(d, p, t);
      LookupUpdated(d, database, policy, i, j, p.(groups := InsertGroup(p.groups, NewGroup(d, p, t))));
    }
    CreationStops(CreateShardGroup(d, database, policy, t).data, database, policy, t);
  }

  /** Creation fails exactly when there is a data node and the names are unknown;
      without data nodes nothing happens. */
  lemma CreateFailsExactly(d: Data, database: string, policy: string, t: int)
    ensures CreateShardGroup(d, database, policy, t).Err? <==> d.dataNodes != [] && Lookup(d, database, policy).None?
    ensures d.dataNodes == [] ==> CreateShardGroup(d, database, policy, t) == Ok(d)
  {
  }
}

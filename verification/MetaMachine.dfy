/**
 The metadata state machine: the commands of the log, what each does to the
 metadata, and what every run of them keeps.
 */
module MetaMachine {
  import opened Basics
  import opened Metadata
  import opened Reassign
  import opened ShardGroups
  import opened MetaInvariant

  // ---------- Deleting a node ----------

  ghost predicate GroupsStripped(gs: seq<Group>, id: nat, gs': seq<Group>) {
    && |gs'| == |gs|
    && forall k | 0 <= k < |gs| :: Stripped(gs[k], id, gs'[k])
  }

  ghost predicate PolicyStripped(p: Policy, id: nat, p': Policy) {
    p' == p.(groups := p'.groups) && GroupsStripped(p.groups, id, p'.groups)
  }

  ghost predicate PoliciesStripped(ps: seq<Policy>, id: nat, ps': seq<Policy>) {
    && |ps'| == |ps|
    && forall j | 0 <= j < |ps| :: PolicyStripped(ps[j], id, ps'[j])
  }

  ghost predicate DatabaseStripped(db: Database, id: nat, db': Database) {
    db' == db.(policies := db'.policies) && PoliciesStripped(db.policies, id, db'.policies)
  }

  /** Every group of every policy of every database has lost node `id`. */
  ghost predicate DatabasesStripped(dbs: seq<Database>, id: nat, dbs': seq<Database>) {
    && |dbs'| == |dbs|
    && forall i | 0 <= i < |dbs| :: DatabaseStripped(dbs[i], id, dbs'[i])
  }

  lemma KeptOwners(shards: seq<Shard>, id: nat, i: nat)
    requires i < |shards| && Distinct(shards[i].owners)
    ensures Distinct(Kept(shards, id)[i].owners)
    ensures forall n <- Kept(shards, id)[i].owners :: n in shards[i].owners && n != id
  {
  }

  /** An orphan's new owner owned another shard of the group and is not the node. */
  lemma NewOwnerKnown(g: Group, id: nat, n: nat, ids: set<nat>)
    requires GroupOK(g, ids) && OwnerCount(Kept(g.shards, id), n) > 0
    ensures n in ids && n != id
  {
    var k := OwnerFound(Kept(g.shards, id), n);
    assert g.shards[k] in g.shards;
    KeptOwners(g.shards, id, k);
  }

  lemma OwnersAfter(kept: seq<Shard>, after: seq<Shard>, i: nat)
    requires Reassigned(kept, after) && i < |kept|
    ensures after[i].owners == kept[i].owners != [] || (|after[i].owners| == 1 && OwnerCount(kept, after[i].owners[0]) > 0)
  {
  }

  lemma ShardAfter(g: Group, id: nat, after: seq<Shard>, ids: set<nat>, i: nat)
    requires GroupOK(g, ids) && Reassigned(Kept(g.shards, id), after) && i < |after|
    ensures Distinct(after[i].owners) && forall n <- after[i].owners :: n in ids && n != id
    ensures after[i].owners != []
  {
    OwnersAfter(Kept(g.shards, id), after, i);
    assert g.shards[i] in g.shards;
    KeptOwners(g.shards, id, i);
    if Kept(g.shards, id)[i].owners != after[i].owners {
      NewOwnerKnown(g, id, after[i].owners[0], ids);
      assert after[i].owners == [after[i].owners[0]];
    }
  }

  /** After a node is gone from a group, its owners are still different known
      nodes, the deleted node is not among them, and a group that stays alive
      has no shard without an owner. */
  lemma StrippedOK(g: Group, id: nat, g': Group, ids: set<nat>, ids': set<nat>)
    requires GroupOK(g, ids) && Stripped(g, id, g') && ids - {id} <= ids'
    ensures GroupOK(g', ids')
    ensures forall s <- g'.shards :: id !in s.owners
    ensures g'.deleted <==> g.deleted || AllOrphaned(Kept(g.shards, id))
  {
    var orphaned := AllOrphaned(Kept(g.shards, id));
    forall i | 0 <= i < |g'.shards|
      ensures Distinct(g'.shards[i].owners) && id !in g'.shards[i].owners
      ensures forall n <- g'.shards[i].owners :: n in ids'
      ensures orphaned || g'.shards[i].owners != []
    {
      if orphaned {
        assert g.shards[i] in g.shards;
        KeptOwners(g.shards, id, i);
      } else {
        ShardAfter(g, id, g'.shards, ids, i);
      }
    }
    assert orphaned || g'.shards != [];
  }

  lemma StrippedTimes(p: Policy, id: nat, p': Policy)
    requires PolicyTimes(p) && PolicyStripped(p, id, p')
    ensures PolicyTimes(p')
  {
  }

  lemma PolicyStrippedOK(p: Policy, id: nat, p': Policy, ids: set<nat>, ids': set<nat>)
    requires PolicyOK(p, ids) && PolicyStripped(p, id, p') && ids - {id} <= ids'
    ensures PolicyOK(p', ids')
  {
    StrippedTimes(p, id, p');
    forall k | 0 <= k < |p'.groups|
      ensures GroupOK(p'.groups[k], ids')
    {
      assert p.groups[k] in p.groups;
      StrippedOK(p.groups[k], id, p'.groups[k], ids, ids');
    }
  }

  lemma DatabasesStrippedOK(dbs: seq<Database>, id: nat, dbs': seq<Database>, ids: set<nat>, ids': set<nat>)
    requires DatabasesOK(dbs, ids) && DatabasesStripped(dbs, id, dbs') && ids - {id} <= ids'
    ensures DatabasesOK(dbs', ids')
  {
    forall i, j | 0 <= i < |dbs'| && 0 <= j < |dbs'[i].policies|
      ensures PolicyOK(dbs'[i].policies[j], ids')
    {
      assert DatabaseStripped(dbs[i], id, dbs'[i]);
      assert DatabaseOK(dbs[i], ids);
      assert dbs[i].policies[j] in dbs[i].policies;
      PolicyStrippedOK(dbs[i].policies[j], id, dbs'[i].policies[j], ids, ids');
    }
    forall i | 0 <= i < |dbs'|
      ensures DatabaseOK(dbs'[i], ids')
    {
    }
  }

  lemma StrippedIdents(g: Group, id: nat, g': Group)
    requires Stripped(g, id, g')
    ensures GroupIdents(g') == GroupIdents(g)
  {
    forall i | 0 <= i < |g.shards|
      ensures ShardIdents(g'.shards[i]) == ShardIdents(g.shards[i])
    {
      assert Kept(g.shards, id)[i].id == g.shards[i].id;
    }
    GatherSame(g'.shards, g.shards, ShardIdents);
  }

  lemma PolicyStrippedIdents(p: Policy, id: nat, p': Policy)
    requires PolicyStripped(p, id, p')
    ensures PolicyIdents(p') == PolicyIdents(p)
  {
    forall k | 0 <= k < |p.groups|
      ensures GroupIdents(p'.groups[k]) == GroupIdents(p.groups[k])
    {
      StrippedIdents(p.groups[k], id, p'.groups[k]);
    }
    GatherSame(p'.groups, p.groups, GroupIdents);
  }

  lemma DatabaseStrippedIdents(db: Database, id: nat, db': Database)
    requires DatabaseStripped(db, id, db')
    ensures DatabaseIdents(db') == DatabaseIdents(db)
  {
    forall j | 0 <= j < |db.policies|
      ensures PolicyIdents(db'.policies[j]) == PolicyIdents(db.policies[j])
    {
      PolicyStrippedIdents(db.policies[j], id, db'.policies[j]);
    }
    GatherSame(db'.policies, db.policies, PolicyIdents);
  }

  lemma DatabasesStrippedIdents(dbs: seq<Database>, id: nat, dbs': seq<Database>)
    requires DatabasesStripped(dbs, id, dbs')
    ensures Idents(dbs') == Idents(dbs)
  {
    forall i | 0 <= i < |dbs|
      ensures DatabaseIdents(dbs'[i]) == DatabaseIdents(dbs[i])
    {
      DatabaseStrippedIdents(dbs[i], id, dbs'[i]);
    }
    GatherSame(dbs', dbs, DatabaseIdents);
  }

  // ---------- Commands ----------

  /** `left` is the outcome of leaving the consensus group, which is decided outside the metadata. */
  datatype Command =
    | CreateDatabaseCommand(name: string, policy: Option<PolicySpec>)
    | DropDatabaseCommand(name: string)
    | CreatePolicyCommand(database: string, spec: PolicySpec)
    | DropPolicyCommand(database: string, name: string)
    | SetDefaultPolicyCommand
    | UpdatePolicyCommand(database: string, name: string, update: PolicyUpdate)
    | CreateShardGroupCommand(database: string, policyName: string, timestamp: int)
    | DeleteShardGroupCommand(database: string, policyName: string, id: nat)
    | CreateSubscriptionCommand(database: string, policyName: string, sub: Subscription, valid: bool, spare: nat)
    | DropSubscriptionCommand(database: string, policyName: string, subName: string)
    | CreateMetaNodeCommand(host: string, tcpHost: string, rand: nat)
    | DeleteMetaNodeCommand(id: nat, left: bool)
    | CreateDataNodeCommand(host: string, tcpHost: string)
    | DeleteDataNodeCommand(id: nat)
    | AddShardOwnerCommand
    | OtherCommand(fails: bool)

  const MAX_AUTO_REPLICAS: nat := 3

  function AutoPolicy(nodeN: nat): (spec: PolicySpec) {
    PolicySpec("default", if nodeN > MAX_AUTO_REPLICAS then MAX_AUTO_REPLICAS else if nodeN < 1 then 1 else nodeN, 0, 0, [], [])
  }

  function CreateWithPolicy(d: Data, name: string, policy: Option<PolicySpec>, autoCreate: bool): (r: Result) {
    match CreateDatabase(d, name)
    case Err(e) => Err(e)
    case Ok(d') =>
      if policy.Some? then CreatePolicy(d', name, policy.value, true)
      else if autoCreate then CreatePolicy(d', name, AutoPolicy(|d'.dataNodes|), true)
      else Ok(d')
  }

  function OrSame(r: Result, d: Data): (d': Data) {
    if r.Ok? then r.data else d
  }

  /** The commands whose outcome is determined. Errors of node creation are dropped. */
  function Execute(d: Data, cmd: Command, autoCreate: bool): (r: Result)
    requires !cmd.DeleteMetaNodeCommand? && !cmd.DeleteDataNodeCommand?
  {
    match cmd
    case CreateDatabaseCommand(name, policy) => CreateWithPolicy(d, name, policy, autoCreate)
    case DropDatabaseCommand(name) => Ok(DropDatabase(d, name))
    case CreatePolicyCommand(db, spec) => CreatePolicy(d, db, spec, false)
    case DropPolicyCommand(db, name) => Ok(DropPolicy(d, db, name))
    case SetDefaultPolicyCommand => Ok(d)
    case UpdatePolicyCommand(db, name, u) => UpdatePolicy(d, db, name, u)
    case CreateShardGroupCommand(db, rp, t) => CreateShardGroup(d, db, rp, t)
    case DeleteShardGroupCommand(db, rp, id) => DeleteShardGroup(d, db, rp, id)
    case CreateSubscriptionCommand(db, rp, sub, valid, spare) => CreateSubscription(d, db, rp, sub, valid, spare)
    case DropSubscriptionCommand(db, rp, name) => DropSubscription(d, db, rp, name)
    case CreateMetaNodeCommand(host, tcpHost, rand) =>
      var d' := OrSame(CreateMetaNode(d, host, tcpHost), d);
      Ok(if d'.clusterID == 0 then d'.(clusterID := rand) else d')
    case CreateDataNodeCommand(host, tcpHost) => Ok(OrSame(CreateDataNode(d, host, tcpHost), d))
    case AddShardOwnerCommand => Ok(d)
    case OtherCommand(fails) => if fails then Err(CommandFailed) else Ok(d)
  }

  /** Node `id` is gone from a node list and from every shard. */
  ghost predicate NodeDeleted(d: Data, id: nat, d': Data) {
    d' == d.(databases := d'.databases) && DatabasesStripped(d.databases, id, d'.databases)
  }

  ghost predicate Effect(d: Data, cmd: Command, autoCreate: bool, d': Data, err: Option<Error>) {
    match cmd
    case DeleteDataNodeCommand(id) =>
      if id !in NodeIDs(d.dataNodes) then err == Some(NodeNotFound) && d' == d
      else err.None? && NodeDeleted(d.(dataNodes := RemoveNode(d.dataNodes, id)), id, d')
    case DeleteMetaNodeCommand(id, left) =>
      if id !in NodeIDs(d.metaNodes) then err == Some(NodeNotFound) && d' == d
      else if !left then err == Some(CommandFailed) && d' == d
      else err.None? && NodeDeleted(d.(metaNodes := RemoveNode(d.metaNodes, id)), id, d')
    case _ =>
      match Execute(d, cmd, autoCreate)
      case Ok(r) => err.None? && d' == r
      case Err(e) => err == Some(e) && d' == d
  }

  datatype Entry = Entry(term: nat, index: nat, command: Command)

  /** One entry of the log: the command, then term and index, whether it failed or not. */
  ghost predicate Applied(d: Data, e: Entry, autoCreate: bool, d': Data, err: Option<Error>) {
    && d'.term == e.term && d'.index == e.index
    && Effect(d, e.command, autoCreate, d'.(term := d.term, index := d.index), err)
  }
}

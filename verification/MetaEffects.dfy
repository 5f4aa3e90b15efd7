/**
 What each command of the log changes, and that it changes nothing else. Names are
 looked up front to back, so of several databases or policies with one name the
 first is meant.
 */
module MetaEffects {
  import opened Basics
  import opened Metadata
  import opened Reassign
  import opened ShardGroups
  import opened MetaInvariant
  import opened MetaMachine

  // ---------- Names ----------

  ghost predicate NoDatabase(d: Data, name: string) {
    forall db <- d.databases :: db.name != name
  }

  /** The first database of this name is at `i`. */
  ghost predicate IsDatabase(d: Data, name: string, i: nat) {
    i < |d.databases| && d.databases[i].name == name && forall k | 0 <= k < i :: d.databases[k].name != name
  }

  ghost predicate NoPolicy(db: Database, name: string) {
    forall p <- db.policies :: p.name != name
  }

  /** The first policy of this name is at `j`. */
  ghost predicate IsPolicy(db: Database, name: string, j: nat) {
    j < |db.policies| && db.policies[j].name == name && forall k | 0 <= k < j :: db.policies[k].name != name
  }

  lemma DatabaseIs(d: Data, name: string, i: nat)
    requires IsDatabase(d, name, i)
    ensures DatabaseAt(d.databases, name) == Some(i)
  {
    FindFirst(d.databases, (db: Database) => db.name == name, i);
  }

  lemma PolicyIs(db: Database, name: string, j: nat)
    requires IsPolicy(db, name, j)
    ensures PolicyAt(db.policies, name) == Some(j)
  {
    FindFirst(db.policies, (p: Policy) => p.name == name, j);
  }

  // ---------- What stays ----------

  /** Only the database at `i` may differ. */
  ghost predicate OnlyDatabase(d: Data, d': Data, i: nat) {
    && d' == d.(databases := d'.databases)
    && i < |d.databases| == |d'.databases|
    && forall k | 0 <= k < |d.databases| && k != i :: d'.databases[k] == d.databases[k]
  }

  /** Only the policy at `j` of the database at `i` may differ. */
  ghost predicate OnlyPolicy(d: Data, d': Data, i: nat, j: nat) {
    && OnlyDatabase(d, d', i)
    && d'.databases[i] == d.databases[i].(policies := d'.databases[i].policies)
    && j < |d.databases[i].policies| == |d'.databases[i].policies|
    && forall k | 0 <= k < |d.databases[i].policies| && k != j :: d'.databases[i].policies[k] == d.databases[i].policies[k]
  }

  // ---------- Databases ----------

  /** A sequence without its element at `i`. */
  ghost predicate IsWithout<T>(s: seq<T>, i: nat, r: seq<T>) {
    && i < |s| == |r| + 1
    && (forall k | 0 <= k < i :: r[k] == s[k])
    && (forall k | i <= k < |r| :: r[k] == s[k + 1])
  }

  /** Dropping a database takes the first one of that name away. */
  lemma DropDatabaseExactly(d: Data, name: string, autoCreate: bool, i: nat)
    requires IsDatabase(d, name, i)
    ensures var r := Execute(d, DropDatabaseCommand(name), autoCreate);
            r.Ok? && r.data == d.(databases := r.data.databases) && IsWithout(d.databases, i, r.data.databases)
  {
    DatabaseIs(d, name, i);
  }

  /** Dropping a policy takes the first one of that name in the first database of that
      name away; its other policies and its default stay. */
  lemma DropPolicyExactly(d: Data, database: string, name: string, autoCreate: bool, i: nat, j: nat)
    requires IsDatabase(d, database, i) && IsPolicy(d.databases[i], name, j)
    ensures var r := Execute(d, DropPolicyCommand(database, name), autoCreate);
            && r.Ok? && OnlyDatabase(d, r.data, i)
            && r.data.databases[i] == d.databases[i].(policies := r.data.databases[i].policies)
            && IsWithout(d.databases[i].policies, j, r.data.databases[i].policies)
  {
    DatabaseIs(d, database, i);
    PolicyIs(d.databases[i], name, j);
  }

  // ---------- Shard groups ----------

  /** Only the group at `k` differs, and it is marked as deleted. */
  ghost predicate MarkedAt(groups: seq<Group>, groups': seq<Group>, k: nat) {
    && k < |groups| == |groups'|
    && groups'[k] == groups[k].(deleted := true)
    && forall m | 0 <= m < |groups| && m != k :: groups'[m] == groups[m]
  }

  /** The first group with this ID is at `k`. */
  ghost predicate IsGroup(p: Policy, id: nat, k: nat) {
    k < |p.groups| && p.groups[k].id == id && forall m | 0 <= m < k :: p.groups[m].id != id
  }

  /** Deleting a shard group marks the first group of the policy with that ID as deleted,
      and everything else is as it was. */
  lemma DeleteShardGroupExactly(d: Data, database: string, policy: string, id: nat, autoCreate: bool, i: nat, j: nat, k: nat)
    requires IsDatabase(d, database, i) && IsPolicy(d.databases[i], policy, j) && IsGroup(d.databases[i].policies[j], id, k)
    ensures var r, p := Execute(d, DeleteShardGroupCommand(database, policy, id), autoCreate), d.databases[i].policies[j];
            && r.Ok? && OnlyPolicy(d, r.data, i, j)
            && r.data.databases[i].policies[j] == p.(groups := r.data.databases[i].policies[j].groups)
            && MarkedAt(p.groups, r.data.databases[i].policies[j].groups, k)
  {
    DatabaseIs(d, database, i);
    PolicyIs(d.databases[i], policy, j);
    FindFirst(d.databases[i].policies[j].groups, (g: Group) => g.id == id, k);
  }

  /** It fails if and only if the policy has no group with that ID. */
  lemma DeleteShardGroupFails(d: Data, database: string, policy: string, id: nat, autoCreate: bool, i: nat, j: nat)
    requires IsDatabase(d, database, i) && IsPolicy(d.databases[i], policy, j)
    ensures var r := Execute(d, DeleteShardGroupCommand(database, policy, id), autoCreate);
            && (r.Err? <==> forall g <- d.databases[i].policies[j].groups :: g.id != id)
            && (r.Err? ==> r.error == ShardGroupNotFound)
  {
    DatabaseIs(d, database, i);
    PolicyIs(d.databases[i], policy, j);
  }

  lemma OnlyLiveGroup(p: Policy, k: nat, t: int)
    requires PolicyTimes(p) && k < |p.groups| && !p.groups[k].deleted && Contains(p.groups[k], t)
    ensures GroupAt(p.groups, t) == Some(k)
    ensures forall m | 0 <= m < |p.groups| && m != k :: p.groups[m].deleted || !Contains(p.groups[m], t)
  {
    forall m | 0 <= m < |p.groups| && m != k && !p.groups[m].deleted
      ensures !Contains(p.groups[m], t)
    {
      if m < k { LiveGroupsDisjoint(p, m, k); } else { LiveGroupsDisjoint(p, k, m); }
    }
    FindFirst(p.groups, (g: Group) => Contains(g, t) && !g.deleted, k);
  }

  lemma MarkedIsGone(groups: seq<Group>, groups': seq<Group>, k: nat, t: int)
    requires MarkedAt(groups, groups', k)
    requires forall m | 0 <= m < |groups| && m != k :: groups[m].deleted || !Contains(groups[m], t)
    ensures GroupAt(groups', t).None?
  {
  }

  lemma PolicyTimesOK(d: Data, i: nat, j: nat)
    requires DatabasesOK(d.databases, NodeIDs(d.dataNodes)) && i < |d.databases| && j < |d.databases[i].policies|
    ensures PolicyTimes(d.databases[i].policies[j])
  {
    assert DatabaseOK(d.databases[i], NodeIDs(d.dataNodes));
    assert d.databases[i].policies[j] in d.databases[i].policies;
  }

  lemma StillThere(d: Data, d': Data, database: string, policy: string, i: nat, j: nat)
    requires IsDatabase(d, database, i) && IsPolicy(d.databases[i], policy, j) && OnlyPolicy(d, d', i, j)
    requires d'.databases[i].policies[j].name == policy
    ensures Lookup(d', database, policy) == Some(d'.databases[i].policies[j])
  {
    DatabaseIs(d', database, i);
    PolicyIs(d'.databases[i], policy, j);
  }

  /** So afterwards no group is found for a time that the group covered. */
  lemma DeletedGroupIsGone(d: Data, database: string, policy: string, id: nat, autoCreate: bool, i: nat, j: nat, k: nat, t: int)
    requires MetaInv(d) && IsDatabase(d, database, i) && IsPolicy(d.databases[i], policy, j) && IsGroup(d.databases[i].policies[j], id, k)
    requires var g := d.databases[i].policies[j].groups[k];
             !g.deleted && g.start <= t < g.end
    ensures var r := Execute(d, DeleteShardGroupCommand(database, policy, id), autoCreate);
            && GroupAt(d.databases[i].policies[j].groups, t) == Some(k)
            && r.Ok? && Lookup(r.data, database, policy).Some?
            && GroupAt(Lookup(r.data, database, policy).value.groups, t).None?
  {
    var p := d.databases[i].policies[j];
    DeleteShardGroupExactly(d, database, policy, id, autoCreate, i, j, k);
    var d' := Execute(d, DeleteShardGroupCommand(database, policy, id), autoCreate).data;
    StillThere(d, d', database, policy, i, j);
    PolicyTimesOK(d, i, j);
    OnlyLiveGroup(p, k, t);
    MarkedIsGone(p.groups, d'.databases[i].policies[j].groups, k, t);
  }

  /** Creating a shard group does nothing without data nodes, or if a live group covers the
      time. Otherwise the first policy of that name gets one group more, the counters move
      on by it and its shards, and everything else is as it was. */
  lemma CreateShardGroupExactly(d: Data, database: string, policy: string, t: int, autoCreate: bool, i: nat, j: nat)
    requires IsDatabase(d, database, i) && IsPolicy(d.databases[i], policy, j)
    ensures var r, p := Execute(d, CreateShardGroupCommand(database, policy, t), autoCreate), d.databases[i].policies[j];
            && r.Ok?
            && (d.dataNodes == [] || (exists g <- p.groups :: !g.deleted && g.start <= t < g.end) ==> r.data == d)
            && (d.dataNodes != [] && (forall g <- p.groups :: g.deleted || !(g.start <= t < g.end)) ==>
                  var d', g := r.data, NewGroup(d, p, t);
                  && OnlyPolicy(d, d'.(maxGroupID := d.maxGroupID, maxShardID := d.maxShardID), i, j)
                  && d'.maxGroupID == d.maxGroupID + 1 && d'.maxShardID == d.maxShardID + |g.shards|
                  && d'.databases[i].policies[j] == p.(groups := d'.databases[i].policies[j].groups)
                  && multiset(d'.databases[i].policies[j].groups) == multiset(p.groups) + multiset{g})
  {
    DatabaseIs(d, database, i);
    PolicyIs(d.databases[i], policy, j);
  }

  // ---------- Policies ----------

  /** The group duration of a policy that is created: at least an hour if one is asked
      for; otherwise a week for points kept for at least 180 days or for ever, a day for
      points kept for at least two days, and else an hour. */
  lemma GroupDurationTable(d: Data, spec: PolicySpec)
    requires spec.replicaN >= 0
    ensures NewPolicy(d, spec).groupDuration ==
            var hour := 3_600_000_000_000;
            if spec.groupDuration >= hour then spec.groupDuration
            else if spec.groupDuration != 0 then hour
            else if spec.duration == 0 || spec.duration >= 180 * 24 * hour then 7 * 24 * hour
            else if spec.duration >= 48 * hour then 24 * hour
            else hour
  {
  }

  /** A sound request for a policy: it has a name, at least one replica, and keeps points
      for ever or at least as long as a group lasts. */
  ghost predicate Sound(d: Data, spec: PolicySpec) {
    spec.name != "" && spec.replicaN >= 1 && (spec.duration > 0 ==> spec.duration >= NewPolicy(d, spec).groupDuration)
  }

  /** The database has one policy more, the one that was asked for, and everything else is
      as it was but for the default and the array of its subscriptions. */
  ghost predicate PolicyAdded(d: Data, spec: PolicySpec, makeDefault: bool, d': Data, i: nat) {
    && OnlyDatabase(d, d'.(arrays := d.arrays), i)
    && var db, db' := d.databases[i], d'.databases[i];
       && db'.name == db.name && db'.defaultPolicy == (if makeDefault then spec.name else db.defaultPolicy)
       && |db'.policies| == |db.policies| + 1 && db'.policies[..|db.policies|] == db.policies
       && var p := db'.policies[|db.policies|];
          && p.name == spec.name && p.replicaN == spec.replicaN && p.duration == spec.duration && p.groups == spec.groups
          && Shown(d'.arrays, p.subs) == spec.subs && d.arrays <= d'.arrays
  }

  /** Creating a policy adds exactly the policy that was asked for, if the request is sound
      and the database has no policy of that name. */
  lemma CreatePolicyExactly(d: Data, database: string, spec: PolicySpec, autoCreate: bool, i: nat)
    requires IsDatabase(d, database, i)
    ensures var r := Execute(d, CreatePolicyCommand(database, spec), autoCreate);
            && (r.Ok? ==> Sound(d, spec))
            && (Sound(d, spec) && NoPolicy(d.databases[i], spec.name) ==> r.Ok? && PolicyAdded(d, spec, false, r.data, i))
            && (!NoPolicy(d.databases[i], spec.name) && r.Ok? ==> r.data == d)
  {
    DatabaseIs(d, database, i);
  }

  /** Creating a database adds it at the end, without policies, unless there is one of that
      name. With a policy, or one made for it, the policy is then created in it as its
      default. */
  lemma CreateDatabaseExactly(d: Data, name: string)
    ensures var r := CreateDatabase(d, name);
            && (name == "" <==> r == Err(DatabaseNameRequired)) && (name != "" <==> r.Ok?)
            && (name != "" && NoDatabase(d, name) ==> r.data == d.(databases := d.databases + [Database(name, "", [])]))
            && (name != "" && !NoDatabase(d, name) ==> r.data == d)
  {
  }

  /** The policy made for a new database: fully replicated, on at most three nodes, points
      kept for ever. */
  lemma AutoPolicyIs(nodeN: nat)
    ensures AutoPolicy(nodeN) == PolicySpec("default", if nodeN == 0 then 1 else if nodeN <= 3 then nodeN else 3, 0, 0, [], [])
  {
  }

  /** The command to create a database that is not there: the database and its policy, or
      the one made for it, or none. */
  lemma CreateDatabaseCommandExactly(d: Data, name: string, policy: Option<PolicySpec>, autoCreate: bool)
    requires name != "" && NoDatabase(d, name)
    ensures var r, d1 := Execute(d, CreateDatabaseCommand(name, policy), autoCreate), d.(databases := d.databases + [Database(name, "", [])]);
            && (policy.Some? ==> (r.Ok? <==> Sound(d, policy.value)))
            && (policy.Some? && r.Ok? ==> PolicyAdded(d1, policy.value, true, r.data, |d.databases|))
            && (policy.None? && autoCreate ==> r.Ok? && PolicyAdded(d1, AutoPolicy(|d.dataNodes|), true, r.data, |d.databases|))
            && (policy.None? && !autoCreate ==> r == Ok(d1))
  {
    var d1 := CreateDatabase(d, name).data;
    assert IsDatabase(d1, name, |d.databases|);
    DatabaseIs(d1, name, |d.databases|);
  }

  /** In a database that is there, it creates the policy and makes it the default. */
  lemma CreateDatabaseAgain(d: Data, name: string, policy: Option<PolicySpec>, autoCreate: bool, i: nat)
    requires name != "" && IsDatabase(d, name, i)
    ensures var r := Execute(d, CreateDatabaseCommand(name, policy), autoCreate);
            && (policy.None? && !autoCreate ==> r == Ok(d))
            && (policy.Some? && Sound(d, policy.value) && NoPolicy(d.databases[i], policy.value.name) ==>
                  r.Ok? && PolicyAdded(d, policy.value, true, r.data, i))
  {
    DatabaseIs(d, name, i);
  }

  /** The policy that an update names: an empty name stands for the default. */
  ghost predicate Named(db: Database, name: string, j: nat) {
    if name == "" then db.defaultPolicy != "" && IsPolicy(db, db.defaultPolicy, j) else IsPolicy(db, name, j)
  }

  ghost predicate Taken(db: Database, name: string) {
    if name == "" then db.defaultPolicy != "" && !NoPolicy(db, db.defaultPolicy) else !NoPolicy(db, name)
  }

  function OrElse<T>(o: Option<T>, x: T): (r: T) {
    if o.Some? then o.value else x
  }

  /** Updating a policy: a new name must not be taken, a new duration must be none, or at
      least an hour and as long as a group lasts. Then exactly what is given is set. */
  lemma UpdatePolicyExactly(d: Data, database: string, name: string, u: PolicyUpdate, autoCreate: bool, i: nat, j: nat)
    requires IsDatabase(d, database, i) && Named(d.databases[i], name, j)
    ensures var r, db, p := Execute(d, UpdatePolicyCommand(database, name, u), autoCreate), d.databases[i], d.databases[i].policies[j];
            var taken := u.name.Some? && u.name.value != name && Taken(db, u.name.value);
            var low := u.duration.Some? && u.duration.value != 0 && u.duration.value < 3_600_000_000_000;
            var short := u.duration.Some? && 0 < u.duration.value < p.groupDuration;
            && (r == Err(PolicyNameExists) <==> taken)
            && (r == Err(DurationTooLow) <==> !taken && low)
            && (r == Err(IncompatibleDurations) <==> !taken && !low && short)
            && (r.Ok? <==> !taken && !low && !short)
            && (r.Ok? ==>
                  && OnlyPolicy(d, r.data, i, j)
                  && r.data.databases[i].policies[j] ==
                     p.(name := OrElse(u.name, p.name), duration := OrElse(u.duration, p.duration), replicaN := OrElse(u.replicaN, p.replicaN)))
  {
    DatabaseIs(d, database, i);
    PolicyIs(d.databases[i], if name == "" then d.databases[i].defaultPolicy else name, j);
    if u.name.Some? { TakenExactly(d.databases[i], u.name.value); }
  }

  lemma TakenExactly(db: Database, name: string)
    ensures NamedPolicy(db, name).Some? <==> Taken(db, name)
  {
  }

  // ---------- Subscriptions ----------

  /** The first subscription of this name is at `k`. */
  ghost predicate IsSubscription(subs: seq<Subscription>, name: string, k: nat) {
    k < |subs| && subs[k].name == name && forall m | 0 <= m < k :: subs[m].name != name
  }

  /** Creating a subscription fails if a destination is no URL or the name is taken;
      otherwise the policy shows one more at the end, and only its slice has changed. */
  lemma CreateSubscriptionExactly(d: Data, database: string, policy: string, sub: Subscription, valid: bool, spare: nat,
                                  autoCreate: bool, i: nat, j: nat)
    requires IsDatabase(d, database, i) && IsPolicy(d.databases[i], policy, j)
    ensures var r, p := Execute(d, CreateSubscriptionCommand(database, policy, sub, valid, spare), autoCreate), d.databases[i].policies[j];
            var taken := exists s <- Shown(d.arrays, p.subs) :: s.name == sub.name;
            && (r == Err(InvalidURL) <==> !valid)
            && (r == Err(SubscriptionExists) <==> valid && taken)
            && (r.Ok? <==> valid && !taken)
            && (r.Ok? ==>
                  && OnlyPolicy(d, r.data.(arrays := d.arrays), i, j)
                  && r.data.databases[i].policies[j] == p.(subs := r.data.databases[i].policies[j].subs)
                  && Shown(r.data.arrays, r.data.databases[i].policies[j].subs) == Shown(d.arrays, p.subs) + [sub])
  {
    DatabaseIs(d, database, i);
    PolicyIs(d.databases[i], policy, j);
    AppendShows(d.arrays, d.databases[i].policies[j].subs, sub, spare);
  }

  lemma AppendShows(arrays: seq<seq<Subscription>>, subs: Subs, sub: Subscription, spare: nat)
    ensures var (arrays', subs') := AppendSub(arrays, subs, sub, spare);
            Shown(arrays', subs') == Shown(arrays, subs) + [sub]
  {
  }

  /** Dropping a subscription takes the first one of that name out of what the policy
      shows, and only its slice and array have changed. */
  lemma DropSubscriptionExactly(d: Data, database: string, policy: string, name: string, autoCreate: bool, i: nat, j: nat, k: nat)
    requires IsDatabase(d, database, i) && IsPolicy(d.databases[i], policy, j)
    requires IsSubscription(Shown(d.arrays, d.databases[i].policies[j].subs), name, k)
    ensures var r, p := Execute(d, DropSubscriptionCommand(database, policy, name), autoCreate), d.databases[i].policies[j];
            && r.Ok? && OnlyPolicy(d, r.data.(arrays := d.arrays), i, j)
            && r.data.databases[i].policies[j] == p.(subs := r.data.databases[i].policies[j].subs)
            && IsWithout(Shown(d.arrays, p.subs), k, Shown(r.data.arrays, r.data.databases[i].policies[j].subs))
  {
    DatabaseIs(d, database, i);
    PolicyIs(d.databases[i], policy, j);
    FindFirst(Shown(d.arrays, d.databases[i].policies[j].subs), (s: Subscription) => s.name == name, k);
  }

  /** It fails if and only if the policy shows none of that name. */
  lemma DropSubscriptionFails(d: Data, database: string, policy: string, name: string, autoCreate: bool, i: nat, j: nat)
    requires IsDatabase(d, database, i) && IsPolicy(d.databases[i], policy, j)
    ensures Execute(d, DropSubscriptionCommand(database, policy, name), autoCreate) == Err(SubscriptionNotFound)
       <==> forall s <- Shown(d.arrays, d.databases[i].policies[j].subs) :: s.name != name
  {
    DatabaseIs(d, database, i);
    PolicyIs(d.databases[i], policy, j);
  }

  // ---------- What is not there ----------

  /** On a database that is not there a drop does nothing, and every other command on a
      policy fails, if there is nothing else to say against it. */
  lemma MissingDatabase(d: Data, database: string, name: string, spec: PolicySpec, u: PolicyUpdate, sub: Subscription, n: nat, t: int, autoCreate: bool)
    requires NoDatabase(d, database)
    ensures Execute(d, DropDatabaseCommand(database), autoCreate) == Ok(d)
    ensures Execute(d, DropPolicyCommand(database, name), autoCreate) == Ok(d)
    ensures Sound(d, spec) ==> Execute(d, CreatePolicyCommand(database, spec), autoCreate) == Err(DatabaseNotFound)
    ensures Execute(d, UpdatePolicyCommand(database, name, u), autoCreate) == Err(DatabaseNotFound)
    ensures d.dataNodes != [] ==> Execute(d, CreateShardGroupCommand(database, name, t), autoCreate) == Err(DatabaseNotFound)
    ensures Execute(d, DeleteShardGroupCommand(database, name, n), autoCreate) == Err(DatabaseNotFound)
    ensures Execute(d, CreateSubscriptionCommand(database, name, sub, true, n), autoCreate) == Err(DatabaseNotFound)
    ensures Execute(d, DropSubscriptionCommand(database, name, sub.name), autoCreate) == Err(DatabaseNotFound)
  {
  }

  /** The same on a policy that is not there. */
  lemma MissingPolicy(d: Data, database: string, name: string, u: PolicyUpdate, sub: Subscription, n: nat, t: int, autoCreate: bool, i: nat)
    requires IsDatabase(d, database, i) && NoPolicy(d.databases[i], name)
    ensures Execute(d, DropPolicyCommand(database, name), autoCreate) == Ok(d)
    ensures name != "" ==> Execute(d, UpdatePolicyCommand(database, name, u), autoCreate) == Err(PolicyNotFound)
    ensures d.dataNodes != [] ==> Execute(d, CreateShardGroupCommand(database, name, t), autoCreate) == Err(PolicyNotFound)
    ensures Execute(d, DeleteShardGroupCommand(database, name, n), autoCreate) == Err(PolicyNotFound)
    ensures Execute(d, CreateSubscriptionCommand(database, name, sub, true, n), autoCreate) == Err(PolicyNotFound)
    ensures Execute(d, DropSubscriptionCommand(database, name, sub.name), autoCreate) == Err(PolicyNotFound)
  {
    DatabaseIs(d, database, i);
  }

  // ---------- Nodes ----------

  ghost predicate NoHost(nodes: seq<NodeInfo>, tcpHost: string) {
    forall n <- nodes :: n.tcpHost != tcpHost
  }

  /** The ID a new entry for a host gets: that of a meta node of this host, or the next one. */
  ghost predicate IsNextID(d: Data, tcpHost: string, id: nat) {
    if NoHost(d.metaNodes, tcpHost) then id == d.maxNodeID + 1
    else exists k | 0 <= k < |d.metaNodes| :: d.metaNodes[k].tcpHost == tcpHost && d.metaNodes[k].id == id
  }

  lemma NextIDIs(d: Data, tcpHost: string)
    requires forall n <- d.metaNodes :: n.id >= 1
    ensures IsNextID(d, tcpHost, AssignedID(d, tcpHost))
    ensures ExistingID(d, tcpHost) == 0 <==> NoHost(d.metaNodes, tcpHost)
  {
  }

  /** Creating a meta node adds one entry for it, unless the host is a data node; a cluster
      without an ID gets one, and everything else is as it was. */
  lemma CreateMetaNodeExactly(d: Data, host: string, tcpHost: string, rand: nat, autoCreate: bool)
    requires forall n <- d.metaNodes :: n.id >= 1
    ensures var r := Execute(d, CreateMetaNodeCommand(host, tcpHost, rand), autoCreate);
            && r.Ok?
            && r.data == d.(metaNodes := r.data.metaNodes, maxNodeID := r.data.maxNodeID, clusterID := r.data.clusterID)
            && r.data.clusterID == (if d.clusterID == 0 then rand else d.clusterID)
            && (!NoHost(d.dataNodes, tcpHost) ==> r.data.metaNodes == d.metaNodes && r.data.maxNodeID == d.maxNodeID)
            && (NoHost(d.dataNodes, tcpHost) ==>
                  && IsNextID(d, tcpHost, AssignedID(d, tcpHost))
                  && multiset(r.data.metaNodes) == multiset(d.metaNodes) + multiset{NodeInfo(AssignedID(d, tcpHost), host, tcpHost)}
                  && r.data.maxNodeID == d.maxNodeID + if NoHost(d.metaNodes, tcpHost) then 1 else 0)
  {
    NextIDIs(d, tcpHost);
  }

  /** The same for a data node. */
  lemma CreateDataNodeExactly(d: Data, host: string, tcpHost: string, autoCreate: bool)
    requires forall n <- d.metaNodes :: n.id >= 1
    ensures var r := Execute(d, CreateDataNodeCommand(host, tcpHost), autoCreate);
            && r.Ok?
            && r.data == d.(dataNodes := r.data.dataNodes, maxNodeID := r.data.maxNodeID)
            && (!NoHost(d.dataNodes, tcpHost) ==> r.data == d)
            && (NoHost(d.dataNodes, tcpHost) ==>
                  && IsNextID(d, tcpHost, AssignedID(d, tcpHost))
                  && multiset(r.data.dataNodes) == multiset(d.dataNodes) + multiset{NodeInfo(AssignedID(d, tcpHost), host, tcpHost)}
                  && r.data.maxNodeID == d.maxNodeID + if NoHost(d.metaNodes, tcpHost) then 1 else 0)
  {
    NextIDIs(d, tcpHost);
  }

  /** The same nodes without those of this ID, still in order. */
  ghost predicate OthersStay(nodes: seq<NodeInfo>, id: nat, nodes': seq<NodeInfo>) {
    && (forall n :: multiset(nodes')[n] == if n.id == id then 0 else multiset(nodes)[n])
    && (Sorted(nodes) ==> Sorted(nodes'))
  }

  lemma OthersAre(nodes: seq<NodeInfo>, id: nat)
    ensures OthersStay(nodes, id, RemoveNode(nodes, id))
  {
    forall n
      ensures multiset(RemoveNode(nodes, id))[n] == if n.id == id then 0 else multiset(nodes)[n]
    {
      RemoveCounts(nodes, id, n);
    }
    if Sorted(nodes) { RemoveSorted(nodes, id); }
  }

  lemma {:induction false} RemoveCounts(nodes: seq<NodeInfo>, id: nat, n: NodeInfo)
    ensures multiset(RemoveNode(nodes, id))[n] == if n.id == id then 0 else multiset(nodes)[n]
  {
    if nodes != [] {
      RemoveCounts(nodes[1..], id, n);
      assert nodes == [nodes[0]] + nodes[1..];
    }
  }

  /** Deleting a data node: an error if there is none with that ID. Otherwise the other data
      nodes stay, in their order, every group loses the node, and everything else is as it
      was. */
  lemma DeleteDataNodeExactly(d: Data, id: nat, autoCreate: bool, d': Data, err: Option<Error>)
    requires Effect(d, DeleteDataNodeCommand(id), autoCreate, d', err)
    ensures (err == Some(NodeNotFound) && d' == d) || err.None?
    ensures err.None? <==> exists n <- d.dataNodes :: n.id == id
    ensures err.None? ==>
              && d' == d.(dataNodes := d'.dataNodes, databases := d'.databases)
              && OthersStay(d.dataNodes, id, d'.dataNodes) && DatabasesStripped(d.databases, id, d'.databases)
  {
    OthersAre(d.dataNodes, id);
  }

  /** The same for a meta node, once it has left the consensus group. */
  lemma DeleteMetaNodeExactly(d: Data, id: nat, left: bool, autoCreate: bool, d': Data, err: Option<Error>)
    requires Effect(d, DeleteMetaNodeCommand(id, left), autoCreate, d', err)
    ensures err.Some? ==> d' == d
    ensures err == Some(NodeNotFound) <==> forall n <- d.metaNodes :: n.id != id
    ensures err.None? <==> left && exists n <- d.metaNodes :: n.id == id
    ensures err.None? ==>
              && d' == d.(metaNodes := d'.metaNodes, databases := d'.databases)
              && OthersStay(d.metaNodes, id, d'.metaNodes) && DatabasesStripped(d.databases, id, d'.databases)
  {
    OthersAre(d.metaNodes, id);
  }

  ghost predicate OwnedByAnother(s: Shard, id: nat) {
    exists n <- s.owners :: n != id
  }

  ghost predicate NoneLeft(g: Group, id: nat) {
    forall s <- g.shards :: !OwnedByAnother(s, id)
  }

  lemma KeptBy(s: Shard, id: nat)
    requires Distinct(s.owners)
    ensures Relinquish(s.owners, id) == [] <==> !OwnedByAnother(s, id)
    ensures forall n :: multiset(Relinquish(s.owners, id))[n] == if n == id then 0 else multiset(s.owners)[n]
  {
    RelinquishDistinct(s.owners, id);
    if Relinquish(s.owners, id) != [] {
      assert Relinquish(s.owners, id)[0] in Relinquish(s.owners, id);
    }
  }

  lemma OrphanedExactly(g: Group, id: nat)
    requires forall s <- g.shards :: Distinct(s.owners)
    ensures AllOrphaned(Kept(g.shards, id)) <==> NoneLeft(g, id)
  {
    if AllOrphaned(Kept(g.shards, id)) {
      forall s <- g.shards
        ensures !OwnedByAnother(s, id)
      {
        var k :| 0 <= k < |g.shards| && g.shards[k] == s;
        assert Kept(g.shards, id)[k] in Kept(g.shards, id);
        KeptBy(s, id);
      }
    } else {
      var k :| 0 <= k < |g.shards| && Kept(g.shards, id)[k].owners != [];
      KeptBy(g.shards[k], id);
      assert g.shards[k] in g.shards;
    }
  }

  /** What a group loses with a node: times and numbers stay, and it is marked as deleted if
      no shard has another owner. */
  lemma StrippedGroup(g: Group, id: nat, g': Group)
    requires Stripped(g, id, g') && forall s <- g.shards :: Distinct(s.owners)
    ensures g'.id == g.id && g'.start == g.start && g'.end == g.end && |g'.shards| == |g.shards|
    ensures g'.deleted <==> g.deleted || NoneLeft(g, id)
    ensures forall i | 0 <= i < |g.shards| :: g'.shards[i].id == g.shards[i].id
  {
    OrphanedExactly(g, id);
    assert forall i | 0 <= i < |g.shards| :: Kept(g.shards, id)[i].id == g.shards[i].id;
  }

  /** A shard with another owner keeps exactly its other owners. */
  lemma StrippedShard(g: Group, id: nat, g': Group, i: nat)
    requires Stripped(g, id, g') && i < |g.shards| == |g'.shards| && Distinct(g.shards[i].owners)
    requires OwnedByAnother(g.shards[i], id)
    ensures forall n :: multiset(g'.shards[i].owners)[n] == if n == id then 0 else multiset(g.shards[i].owners)[n]
  {
    KeptBy(g.shards[i], id);
  }

  /** A shard without another owner gets one that owned a shard of the group, if there is
      any, and none otherwise. */
  lemma StrippedOrphan(g: Group, id: nat, g': Group, i: nat) returns (k: nat)
    requires Stripped(g, id, g') && i < |g.shards| == |g'.shards| && forall s <- g.shards :: Distinct(s.owners)
    requires !OwnedByAnother(g.shards[i], id)
    ensures NoneLeft(g, id) ==> g'.shards[i].owners == []
    ensures !NoneLeft(g, id) ==>
              |g'.shards[i].owners| == 1 && k < |g.shards| && g'.shards[i].owners[0] in g.shards[k].owners && g'.shards[i].owners[0] != id
  {
    KeptBy(g.shards[i], id);
    OrphanedExactly(g, id);
    k := 0;
    if !NoneLeft(g, id) {
      k := OwnerFound(Kept(g.shards, id), g'.shards[i].owners[0]);
      RelinquishDistinct(g.shards[k].owners, id);
    }
  }

  /** The commands that change nothing here: two that are not carried out, and those on
      users and continuous queries, which may fail. */
  lemma NothingChanges(d: Data, autoCreate: bool, fails: bool)
    ensures Execute(d, SetDefaultPolicyCommand, autoCreate) == Ok(d)
    ensures Execute(d, AddShardOwnerCommand, autoCreate) == Ok(d)
    ensures Execute(d, OtherCommand(fails), autoCreate) == if fails then Err(CommandFailed) else Ok(d)
  {
  }
}

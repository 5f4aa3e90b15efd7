/**
 The parts together: a client creates the shard group for a timestamp and then
 reads its cache, some time after the call has returned. This module says when it
 finds the group, which is what the points writer needs.
 */
module ReadBack {
  import opened Basics
  import opened Metadata
  import opened ShardGroups
  import opened MetaInvariant
  import opened MetaMachine
  import MetaRuns
  import UpdateProtocol
  import PollAnswers
  import PointsWriter

  /** The policy exists and a live group of it covers the time. */
  ghost predicate Covered(d: Data, database: string, policy: string, t: int) {
    Lookup(d, database, policy).Some? && GroupAt(Lookup(d, database, policy).value.groups, t).Some?
  }

  /** Commands that take no policy, group or node away, and rename nothing. */
  predicate Gentle(cmd: Command) {
    match cmd
    case CreateDatabaseCommand(_, _) => true
    case CreatePolicyCommand(_, _) => true
    case SetDefaultPolicyCommand => true
    case CreateShardGroupCommand(_, _, _) => true
    case CreateSubscriptionCommand(_, _, _, _, _) => true
    case DropSubscriptionCommand(_, _, _) => true
    case CreateMetaNodeCommand(_, _, _) => true
    case CreateDataNodeCommand(_, _) => true
    case AddShardOwnerCommand => true
    case OtherCommand(_) => true
    case _ => false
  }

  lemma CreateDatabaseCovered(d: Data, name: string, database: string, policy: string, t: int)
    requires Covered(d, database, policy, t) && CreateDatabase(d, name).Ok?
    ensures Covered(CreateDatabase(d, name).data, database, policy, t)
  {
    FindOneMore(d.databases, Database(name, "", []), (db: Database) => db.name == database);
  }

  /** A database that gained a policy, or has one policy changed. */
  lemma SetDatabaseCovered(d: Data, i: nat, db: Database, database: string, policy: string, t: int)
    requires Covered(d, database, policy, t) && i < |d.databases| && db.name == d.databases[i].name
    requires
      var at := PolicyAt(d.databases[i].policies, policy);
      at.Some? && GroupAt(d.databases[i].policies[at.value].groups, t).Some? ==>
        var at' := PolicyAt(db.policies, policy);
        at'.Some? && GroupAt(db.policies[at'.value].groups, t).Some?
    ensures Covered(d.(databases := d.databases[i := db]), database, policy, t)
  {
    FindUpdated(d.databases, (x: Database) => x.name == database, i, db);
  }

  lemma CreatePolicyCovered(d: Data, name: string, spec: PolicySpec, makeDefault: bool, database: string, policy: string, t: int)
    requires Covered(d, database, policy, t) && CreatePolicy(d, name, spec, makeDefault).Ok?
    ensures Covered(CreatePolicy(d, name, spec, makeDefault).data, database, policy, t)
  {
    var d' := CreatePolicy(d, name, spec, makeDefault).data;
    if d' != d {
      var i := DatabaseAt(d.databases, name).value;
      var policies, p := d.databases[i].policies, NewPolicy(d, spec);
      assert d'.databases[i].policies == policies + [p];
      FindOneMore(policies, p, (x: Policy) => x.name == policy);
      SetDatabaseCovered(d, i, d'.databases[i], database, policy, t);
    }
  }

  lemma InsertCovers(groups: seq<Group>, g: Group, t: int)
    requires GroupAt(groups, t).Some?
    ensures GroupAt(InsertGroup(groups, g), t).Some?
  {
  }

  lemma CreateShardGroupCovered(d: Data, name: string, rp: string, u: int, database: string, policy: string, t: int)
    requires Covered(d, database, policy, t) && CreateShardGroup(d, name, rp, u).Ok?
    ensures Covered(CreateShardGroup(d, name, rp, u).data, database, policy, t)
  {
    var d' := CreateShardGroup(d, name, rp, u).data;
    if d' != d {
      var i := DatabaseAt(d.databases, name).value;
      var policies := d.databases[i].policies;
      var j := PolicyAt(policies, rp).value;
      var p := policies[j];
      var p' := p.(groups := InsertGroup(p.groups, NewGroup(d, p, u)));
      FindUpdated(policies, (x: Policy) => x.name == policy, j, p');
      if GroupAt(p.groups, t).Some? { InsertCovers(p.groups, NewGroup(d, p, u), t); }
      SetDatabaseCovered(d, i, d'.databases[i], database, policy, t);
    }
  }

  lemma SubsCovered(d: Data, i: nat, j: nat, subs: Subs, arrays: seq<seq<Subscription>>, database: string, policy: string, t: int)
    requires Covered(d, database, policy, t) && i < |d.databases| && j < |d.databases[i].policies|
    ensures Covered(SetPolicy(d, i, j, d.databases[i].policies[j].(subs := subs)).(arrays := arrays), database, policy, t)
  {
    var policies := d.databases[i].policies;
    FindUpdated(policies, (x: Policy) => x.name == policy, j, policies[j].(subs := subs));
    SetDatabaseCovered(d, i, d.databases[i].(policies := policies[j := policies[j].(subs := subs)]), database, policy, t);
  }

  lemma SubscriptionCovered(d: Data, cmd: Command, autoCreate: bool, database: string, policy: string, t: int)
    requires Covered(d, database, policy, t) && (cmd.CreateSubscriptionCommand? || cmd.DropSubscriptionCommand?)
    requires Execute(d, cmd, autoCreate).Ok?
    ensures Covered(Execute(d, cmd, autoCreate).data, database, policy, t)
  {
    var d' := Execute(d, cmd, autoCreate).data;
    var i := DatabaseAt(d.databases, cmd.database).value;
    var j := PolicyAt(d.databases[i].policies, cmd.policyName).value;
    SubsCovered(d, i, j, d'.databases[i].policies[j].subs, d'.arrays, database, policy, t);
  }

  lemma CreateWithPolicyCovered(d: Data, name: string, spec: Option<PolicySpec>, autoCreate: bool, database: string, policy: string, t: int)
    requires Covered(d, database, policy, t) && CreateWithPolicy(d, name, spec, autoCreate).Ok?
    ensures Covered(CreateWithPolicy(d, name, spec, autoCreate).data, database, policy, t)
  {
    CreateDatabaseCovered(d, name, database, policy, t);
    var d' := CreateDatabase(d, name).data;
    if spec.Some? || autoCreate {
      CreatePolicyCovered(d', name, if spec.Some? then spec.value else AutoPolicy(|d'.dataNodes|), true, database, policy, t);
    }
  }

  lemma CreateCovered(d: Data, cmd: Command, autoCreate: bool, database: string, policy: string, t: int)
    requires Covered(d, database, policy, t) && Gentle(cmd) && Execute(d, cmd, autoCreate).Ok?
    ensures Covered(Execute(d, cmd, autoCreate).data, database, policy, t)
  {
    match cmd
    case CreateDatabaseCommand(name, spec) => CreateWithPolicyCovered(d, name, spec, autoCreate, database, policy, t);
    case CreatePolicyCommand(name, spec) => CreatePolicyCovered(d, name, spec, false, database, policy, t);
    case CreateShardGroupCommand(name, rp, u) => CreateShardGroupCovered(d, name, rp, u, database, policy, t);
    case CreateSubscriptionCommand(_, _, _, _, _) => SubscriptionCovered(d, cmd, autoCreate, database, policy, t);
    case DropSubscriptionCommand(_, _, _) => SubscriptionCovered(d, cmd, autoCreate, database, policy, t);
    case _ =>
  }

  lemma GentleCovered(d: Data, e: Entry, autoCreate: bool, d': Data, err: Option<Error>, database: string, policy: string, t: int)
    requires Covered(d, database, policy, t) && Gentle(e.command) && Applied(d, e, autoCreate, d', err)
    ensures Covered(d', database, policy, t)
  {
    if err.None? { CreateCovered(d, e.command, autoCreate, database, policy, t); }
  }

  /** A run of gentle commands keeps the time covered. */
  lemma {:induction false} StaysCovered(md: seq<Data>, log: seq<Entry>, errs: seq<Option<Error>>, autoCreate: bool,
                                        lo: nat, hi: nat, database: string, policy: string, t: int)
    requires MetaRuns.Steps(md, log, errs, autoCreate) && lo <= hi < |md|
    requires Covered(md[lo], database, policy, t) && forall k | lo <= k < hi :: Gentle(log[k].command)
    ensures Covered(md[hi], database, policy, t)
    decreases hi
  {
    if lo < hi {
      StaysCovered(md, log, errs, autoCreate, lo, hi - 1, database, policy, t);
      GentleCovered(md[hi - 1], log[hi - 1], autoCreate, md[hi], errs[hi - 1], database, policy, t);
    }
  }

  /** The entry at `pos` creates the group for a time, on a cluster with data nodes, and succeeds. */
  ghost predicate Creates(md: seq<Data>, log: seq<Entry>, errs: seq<Option<Error>>, pos: nat, database: string, policy: string, t: int) {
    && pos < |log| == |errs| < |md|
    && log[pos].command == CreateShardGroupCommand(database, policy, t)
    && errs[pos].None? && md[pos].dataNodes != []
  }

  lemma CreatesCovers(md: seq<Data>, log: seq<Entry>, errs: seq<Option<Error>>, autoCreate: bool, pos: nat, database: string, policy: string, t: int)
    requires MetaRuns.IsRun(md, log, errs, autoCreate) && MetaRuns.Plain(log) && Creates(md, log, errs, pos, database, policy, t)
    ensures Covered(md[pos + 1], database, policy, t)
  {
    assert Applied(md[pos], log[pos], autoCreate, md[pos + 1], errs[pos]);
    MetaRuns.RunInvariant(md, log, errs, autoCreate, pos);
    MetaRuns.CreateFailsExactly(md[pos], database, policy, t);
    MetaRuns.CreatedGroupCovers(md[pos], database, policy, t);
  }

  /** The cached copy has the group: live, with shards, and the slot of the time. */
  ghost predicate FindsGroup(d: Data, database: string, policy: string, t: int) {
    && Covered(d, database, policy, t)
    && var p := Lookup(d, database, policy).value;
       PointsWriter.SlotOf(p.groups[GroupAt(p.groups, t).value], t, p.groupDuration)
  }

  /** The metadata after each entry of the log of a state. */
  ghost predicate Metadatas(s: UpdateProtocol.State, md: seq<Data>, log: seq<Entry>, errs: seq<Option<Error>>, autoCreate: bool) {
    && MetaRuns.IsRun(md, log, errs, autoCreate) && MetaRuns.Plain(log)
    && |log| == |s.log| && s.cache < |md|
    && forall k | 0 <= k < |log| :: log[k].index == s.log[k]
  }

  /** A read of the cache in any later state finds the group if and only if the cache has
      the caller's entry in that state: it does if the cache has it and nothing behind it
      takes something away, and it does not if the cache has not and the time was not
      covered before. */
  lemma ReadFindsExactly(s: UpdateProtocol.State, pos: nat, md: seq<Data>, log: seq<Entry>, errs: seq<Option<Error>>, autoCreate: bool,
                         database: string, policy: string, t: int)
    requires Metadatas(s, md, log, errs, autoCreate) && Creates(md, log, errs, pos, database, policy, t)
    requires forall k | pos < k < s.cache :: Gentle(log[k].command)
    ensures s.cache > pos ==> FindsGroup(md[s.cache], database, policy, t)
    ensures (forall k | 0 <= k <= pos :: !Covered(md[k], database, policy, t)) ==>
              (FindsGroup(md[s.cache], database, policy, t) <==> s.cache > pos)
  {
    if s.cache > pos {
      CreatesCovers(md, log, errs, autoCreate, pos, database, policy, t);
      StaysCovered(md, log, errs, autoCreate, pos + 1, s.cache, database, policy, t);
      MetaRuns.RunInvariant(md, log, errs, autoCreate, s.cache);
      CoveredSlot(md[s.cache], database, policy, t);
    }
  }

  /** Call `e` returns success with step `i`, and the cache is read in state `j`. */
  ghost predicate ReadsAfter(states: seq<UpdateProtocol.State>, steps: seq<UpdateProtocol.Step>, i: nat, e: nat, j: nat) {
    && UpdateProtocol.IsRun(states, steps) && i < |steps| && i < j < |states|
    && e < |states[i].execs| && !states[i].execs[e].Done?
    && e < |states[i + 1].execs| && states[i + 1].execs[e].Done?
  }

  lemma {:induction false} LogGrows(states: seq<UpdateProtocol.State>, steps: seq<UpdateProtocol.Step>, i: nat, j: nat)
    requires UpdateProtocol.IsRun(states, steps) && i <= j < |states|
    ensures states[i].log <= states[j].log
    decreases j
  {
    if i < j {
      LogGrows(states, steps, i, j - 1);
      assert states[j] == UpdateProtocol.Next(states[j - 1], steps[j - 1]);
    }
  }

  /** While every server that answers has reached the cache, the entry stays in it. */
  lemma EntryStays(states: seq<UpdateProtocol.State>, steps: seq<UpdateProtocol.Step>, i: nat, e: nat, j: nat)
    requires ReadsAfter(states, steps, i, e, j) && UpdateProtocol.AlwaysCaughtUp(states, steps)
    ensures states[i + 1].execs[e].pos < states[j].cache
  {
    UpdateProtocol.ReadYourWrites(states, steps, i, e);
    UpdateProtocol.RunInv(states, steps, i + 1);
    UpdateProtocol.RunInv(states, steps, j);
    UpdateProtocol.CacheMonotone(states, steps, i + 1, j);
    LogGrows(states, steps, i + 1, j);
    UpdateProtocol.IndexMonotone(states[j].log, states[j].cache, states[i + 1].cache);
  }

  /** A client that creates a shard group reads it back at any later time, if nothing in
      its cache behind that entry takes something away and every server that answers its
      polls has reached the cache. */
  lemma CreatedGroupIsReadBack(states: seq<UpdateProtocol.State>, steps: seq<UpdateProtocol.Step>, i: nat, e: nat, j: nat,
                               md: seq<Data>, log: seq<Entry>, errs: seq<Option<Error>>, autoCreate: bool,
                               database: string, policy: string, t: int)
    requires ReadsAfter(states, steps, i, e, j) && UpdateProtocol.AlwaysCaughtUp(states, steps)
    requires Metadatas(states[j], md, log, errs, autoCreate)
    requires Creates(md, log, errs, states[i + 1].execs[e].pos, database, policy, t)
    requires forall k | states[i + 1].execs[e].pos < k < states[j].cache :: Gentle(log[k].command)
    ensures FindsGroup(md[states[j].cache], database, policy, t)
  {
    EntryStays(states, steps, i, e, j);
    ReadFindsExactly(states[j], states[i + 1].execs[e].pos, md, log, errs, autoCreate, database, policy, t);
  }

  /** So it always does with one server. */
  lemma ReadBackWithOneServer(states: seq<UpdateProtocol.State>, steps: seq<UpdateProtocol.Step>, i: nat, e: nat, j: nat,
                              md: seq<Data>, log: seq<Entry>, errs: seq<Option<Error>>, autoCreate: bool,
                              database: string, policy: string, t: int)
    requires ReadsAfter(states, steps, i, e, j) && |states[0].servers| == 1
    requires Metadatas(states[j], md, log, errs, autoCreate)
    requires Creates(md, log, errs, states[i + 1].execs[e].pos, database, policy, t)
    requires forall k | states[i + 1].execs[e].pos < k < states[j].cache :: Gentle(log[k].command)
    ensures FindsGroup(md[states[j].cache], database, policy, t)
  {
    UpdateProtocol.OneServerCaughtUp(states, steps);
    CreatedGroupIsReadBack(states, steps, i, e, j, md, log, errs, autoCreate, database, policy, t);
  }

  lemma CoveredSlot(d: Data, database: string, policy: string, t: int)
    requires MetaInv(d) && Covered(d, database, policy, t)
    ensures var p := Lookup(d, database, policy).value;
            PointsWriter.SlotOf(p.groups[GroupAt(p.groups, t).value], t, p.groupDuration)
  {
    var i := DatabaseAt(d.databases, database).value;
    MetaRuns.PolicyFound(d, i, PolicyAt(d.databases[i].policies, policy).value);
    PointsWriter.LiveGroupIsSlot(Lookup(d, database, policy).value, NodeIDs(d.dataNodes), t);
  }

  // ---------- Two servers ----------

  /** A cluster of one data node. */
  function OneNode(): (d: Data) {
    MetaRuns.INITIAL.(maxNodeID := 1, dataNodes := [NodeInfo(1, "http", "tcp")], term := 1, index := 2)
  }

  /** The same with a database and its automatic policy. */
  function OneDatabase(): (d: Data) {
    OneNode().(databases := [Database("db", "default", [Policy("default", 1, 0, 7 * DAY, [], NoSubs)])], index := 3)
  }

  lemma FirstEntry()
    ensures Applied(MetaRuns.INITIAL, Entry(1, 2, CreateDataNodeCommand("http", "tcp")), true, OneNode(), None)
  {
  }

  lemma SecondEntry()
    ensures Applied(OneNode(), Entry(1, 3, CreateDatabaseCommand("db", None)), true, OneDatabase(), None)
  {
    var d, spec := CreateDatabase(OneNode(), "db").data, AutoPolicy(1);
    assert d.databases == [Database("db", "", [])] && d.databases[0].name == "db";
    assert DatabaseAt(d.databases, "db") == Some(0);
    assert [] + [NewPolicy(d, spec)] == [Policy("default", 1, 0, 7 * DAY, [], NoSubs)];
    assert CreatePolicy(d, "db", spec, true).data.databases == OneDatabase().databases;
  }

  /** The same with the group for the zero time. */
  function OneGroup(): (d: Data) {
    MetaRuns.WithGroup(OneDatabase(), 0, 0, NewGroup(OneDatabase(), OneDatabase().databases[0].policies[0], 0)).(index := 4)
  }

  lemma ThirdEntry()
    ensures !Covered(OneDatabase(), "db", "default", 0)
    ensures Applied(OneDatabase(), Entry(1, 4, CreateShardGroupCommand("db", "default", 0)), true, OneGroup(), None)
  {
  }

  lemma Extend(md: seq<Data>, log: seq<Entry>, errs: seq<Option<Error>>, d: Data, e: Entry, d': Data)
      returns (md': seq<Data>, log': seq<Entry>, errs': seq<Option<Error>>)
    requires MetaRuns.IsRun(md, log, errs, true) && MetaRuns.Plain(log) && md[|log|] == d
    requires Applied(d, e, true, d', None) && MetaRuns.NoGroups(e.command)
    ensures MetaRuns.IsRun(md', log', errs', true) && MetaRuns.Plain(log')
    ensures md' == md + [d'] && log' == log + [e] && errs' == errs + [None]
  {
    MetaRuns.OneMoreStep(md, log, errs, true, e, d', None);
    md', log', errs' := md + [d'], log + [e], errs + [None];
  }

  lemma TwoEntries() returns (md: seq<Data>, log: seq<Entry>, errs: seq<Option<Error>>)
    ensures MetaRuns.IsRun(md, log, errs, true) && MetaRuns.Plain(log) && |log| == 2 && md[2] == OneDatabase()
    ensures log[0].index == 2 && log[1].index == 3
  {
    md, log, errs := [MetaRuns.INITIAL], [], [];
    FirstEntry();
    md, log, errs := Extend(md, log, errs, MetaRuns.INITIAL, Entry(1, 2, CreateDataNodeCommand("http", "tcp")), OneNode());
    SecondEntry();
    md, log, errs := Extend(md, log, errs, OneNode(), Entry(1, 3, CreateDatabaseCommand("db", None)), OneDatabase());
  }

  lemma SmallRun() returns (md: seq<Data>, log: seq<Entry>, errs: seq<Option<Error>>)
    ensures MetaRuns.IsRun(md, log, errs, true) && MetaRuns.Plain(log) && |log| == 3
    ensures log[0].index == 2 && log[1].index == 3 && log[2].index == 4
    ensures md[2] == OneDatabase() && Creates(md, log, errs, 2, "db", "default", 0)
  {
    md, log, errs := TwoEntries();
    ThirdEntry();
    md, log, errs := Extend(md, log, errs, OneDatabase(), Entry(1, 4, CreateShardGroupCommand("db", "default", 0)), OneGroup());
  }

  /** With two servers a client can create a group and then not find it: the call has
      returned, a poll of the server that lags has moved the cache back behind the entry,
      and the points writer gets no group. */
  lemma LaggingReadFindsNothing()
    returns (states: seq<UpdateProtocol.State>, steps: seq<UpdateProtocol.Step>, i: nat, md: seq<Data>, log: seq<Entry>, errs: seq<Option<Error>>)
    ensures ReadsAfter(states, steps, i, 0, |steps|) && Metadatas(states[|steps|], md, log, errs, true)
    ensures Creates(md, log, errs, states[i + 1].execs[0].pos, "db", "default", 0)
    ensures !FindsGroup(md[states[|steps|].cache], "db", "default", 0)
  {
    states, steps, i := PollAnswers.LaggingServerMovesBack();
    md, log, errs := SmallRun();
    ThirdEntry();
  }
}

/**
 What copies of the metadata share. A clone copies everything but the arrays of
 subscriptions, so a command on the current data may change what a copy handed out
 earlier shows. This module says exactly when.
 */
module Snapshots {
  import opened Basics
  import opened Metadata
  import opened ShardGroups
  import opened MetaInvariant
  import opened MetaMachine
  import opened MetaRuns

  type Arrays = seq<seq<Subscription>>

  /** The slices of subscriptions that a copy holds. */
  ghost function Slices(dbs: seq<Database>): (r: set<Subs>) {
    set db, p | db in dbs && p in db.policies :: p.subs
  }

  lemma SliceOf(dbs: seq<Database>, i: nat, j: nat)
    requires i < |dbs| && j < |dbs[i].policies|
    ensures dbs[i].policies[j].subs in Slices(dbs)
  {
  }

  lemma SliceAt(dbs: seq<Database>, s: Subs) returns (i: nat, j: nat)
    requires s in Slices(dbs)
    ensures i < |dbs| && j < |dbs[i].policies| && dbs[i].policies[j].subs == s
  {
    var db, p :| db in dbs && p in db.policies && p.subs == s;
    i :| 0 <= i < |dbs| && dbs[i] == db;
    j :| 0 <= j < |db.policies| && db.policies[j] == p;
  }

  predicate InMemory(arrays: Arrays, s: Subs) {
    s.Subs? ==> s.addr < |arrays| && s.length <= |arrays[s.addr]|
  }

  /** Every slice of the copy lies in memory. */
  ghost predicate AllInMemory(dbs: seq<Database>, arrays: Arrays) {
    forall s <- Slices(dbs) :: InMemory(arrays, s)
  }

  /** The copy shows the same subscriptions in both memories. */
  ghost predicate SameShown(dbs: seq<Database>, arrays: Arrays, arrays': Arrays) {
    forall s <- Slices(dbs) :: Shown(arrays, s) == Shown(arrays', s)
  }

  ghost predicate DistinctNames(elems: seq<Subscription>) {
    forall i, j | 0 <= i < j < |elems| :: elems[i].name != elems[j].name
  }

  ghost predicate SliceOK(arrays: Arrays, s: Subs) {
    InMemory(arrays, s) && DistinctNames(Shown(arrays, s))
  }

  /** Every slice of the current data lies in memory and has no name twice. */
  ghost predicate SubsInv(dbs: seq<Database>, arrays: Arrays) {
    forall s <- Slices(dbs) :: SliceOK(arrays, s)
  }

  // ---------- Commands on other things ----------

  /** Memory is as it was, or has one array more. */
  ghost predicate MemoryKept(arrays: Arrays, arrays': Arrays) {
    arrays <= arrays' && |arrays'| <= |arrays| + 1
  }

  /** Where a slice comes from: it was there, it is empty, or it is all of a new array. */
  ghost predicate Known(s: Subs, dbs: seq<Database>, arrays: Arrays, arrays': Arrays) {
    || s.NoSubs?
    || s in Slices(dbs)
    || (s.addr == |arrays| < |arrays'| && s.length == |arrays'[s.addr]|)
  }

  ghost predicate OnlyKnown(d: Data, d': Data) {
    MemoryKept(d.arrays, d'.arrays) && forall s <- Slices(d'.databases) :: Known(s, d.databases, d.arrays, d'.arrays)
  }

  lemma CreatePolicySlices(d: Data, database: string, spec: PolicySpec, makeDefault: bool)
    requires CreatePolicy(d, database, spec, makeDefault).Ok?
    ensures OnlyKnown(d, CreatePolicy(d, database, spec, makeDefault).data)
    ensures var arrays := CreatePolicy(d, database, spec, makeDefault).data.arrays;
            arrays == d.arrays || arrays == d.arrays + [spec.subs]
  {
  }

  lemma UpdateSlices(d: Data, database: string, name: string, u: PolicyUpdate)
    requires UpdatePolicy(d, database, name, u).Ok?
    ensures Slices(UpdatePolicy(d, database, name, u).data.databases) <= Slices(d.databases)
  {
  }

  predicate OnSubscriptions(cmd: Command) {
    cmd.CreateSubscriptionCommand? || cmd.DropSubscriptionCommand?
  }

  /** Policies in commands carry no subscription name twice. */
  ghost predicate NamesDiffer(cmd: Command) {
    match cmd
    case CreateDatabaseCommand(_, policy) => policy.Some? ==> DistinctNames(policy.value.subs)
    case CreatePolicyCommand(_, spec) => DistinctNames(spec.subs)
    case _ => true
  }

  ghost predicate NewNamesDiffer(d: Data, d': Data) {
    |d'.arrays| > |d.arrays| ==> DistinctNames(d'.arrays[|d.arrays|])
  }

  lemma CreateWithPolicySlices(d: Data, name: string, policy: Option<PolicySpec>, autoCreate: bool)
    requires CreateWithPolicy(d, name, policy, autoCreate).Ok?
    ensures OnlyKnown(d, CreateWithPolicy(d, name, policy, autoCreate).data)
    ensures (policy.Some? ==> DistinctNames(policy.value.subs)) ==>
              NewNamesDiffer(d, CreateWithPolicy(d, name, policy, autoCreate).data)
  {
  }

  lemma PolicyCommandSlices(d: Data, cmd: Command, autoCreate: bool)
    requires cmd.CreateDatabaseCommand? || cmd.CreatePolicyCommand? || cmd.UpdatePolicyCommand?
    requires Execute(d, cmd, autoCreate).Ok?
    ensures OnlyKnown(d, Execute(d, cmd, autoCreate).data)
    ensures NamesDiffer(cmd) ==> NewNamesDiffer(d, Execute(d, cmd, autoCreate).data)
  {
    match cmd
    case CreateDatabaseCommand(name, policy) => CreateWithPolicySlices(d, name, policy, autoCreate);
    case CreatePolicyCommand(db, spec) => CreatePolicySlices(d, db, spec, false);
    case UpdatePolicyCommand(db, name, u) => UpdateSlices(d, db, name, u);
  }

  /** Nothing new in memory, and no new slice. */
  ghost predicate NothingNew(d: Data, d': Data) {
    d'.arrays == d.arrays && Slices(d'.databases) <= Slices(d.databases)
  }

  lemma NodeCommandSlices(d: Data, cmd: Command, autoCreate: bool)
    requires cmd.CreateMetaNodeCommand? || cmd.CreateDataNodeCommand? || cmd.SetDefaultPolicyCommand? || cmd.AddShardOwnerCommand? || cmd.OtherCommand?
    requires Execute(d, cmd, autoCreate).Ok?
    ensures NothingNew(d, Execute(d, cmd, autoCreate).data)
  {
  }

  lemma GroupCommandSlices(d: Data, cmd: Command, autoCreate: bool)
    requires cmd.DropDatabaseCommand? || cmd.DropPolicyCommand? || cmd.CreateShardGroupCommand? || cmd.DeleteShardGroupCommand?
    requires Execute(d, cmd, autoCreate).Ok?
    ensures NothingNew(d, Execute(d, cmd, autoCreate).data)
  {
  }

  lemma DeleteNodeSlices(d: Data, cmd: Command, autoCreate: bool, d': Data)
    requires Effect(d, cmd, autoCreate, d', None) && (cmd.DeleteDataNodeCommand? || cmd.DeleteMetaNodeCommand?)
    ensures NothingNew(d, d')
  {
  }

  lemma Executed(d: Data, cmd: Command, autoCreate: bool, d': Data, err: Option<Error>)
    requires Effect(d, cmd, autoCreate, d', err)
    ensures err.Some? ==> d' == d
    ensures err.None? && !cmd.DeleteDataNodeCommand? && !cmd.DeleteMetaNodeCommand? ==> Execute(d, cmd, autoCreate) == Ok(d')
  {
  }

  lemma OtherCommandSlices(d: Data, cmd: Command, autoCreate: bool, d': Data, err: Option<Error>)
    requires Effect(d, cmd, autoCreate, d', err) && !OnSubscriptions(cmd)
    ensures OnlyKnown(d, d')
    ensures NamesDiffer(cmd) ==> NewNamesDiffer(d, d')
  {
    Executed(d, cmd, autoCreate, d', err);
    if err.Some? {
      assert NothingNew(d, d');
    } else if cmd.DeleteDataNodeCommand? || cmd.DeleteMetaNodeCommand? {
      DeleteNodeSlices(d, cmd, autoCreate, d');
    } else if cmd.CreateDatabaseCommand? || cmd.CreatePolicyCommand? || cmd.UpdatePolicyCommand? {
      PolicyCommandSlices(d, cmd, autoCreate);
    } else if cmd.DropDatabaseCommand? || cmd.DropPolicyCommand? || cmd.CreateShardGroupCommand? || cmd.DeleteShardGroupCommand? {
      GroupCommandSlices(d, cmd, autoCreate);
    } else {
      NodeCommandSlices(d, cmd, autoCreate);
    }
  }

  lemma OtherCommandInv(d: Data, d': Data)
    requires SubsInv(d.databases, d.arrays) && OnlyKnown(d, d') && NewNamesDiffer(d, d')
    ensures SubsInv(d'.databases, d'.arrays)
  {
  }

  // ---------- Commands on subscriptions ----------

  lemma AddressesDiffer(dbs: seq<Database>, i: nat, j: nat, i': nat, j': nat)
    requires Unique(Idents(dbs)) && (i, j) != (i', j')
    requires i < |dbs| && j < |dbs[i].policies| && i' < |dbs| && j' < |dbs[i'].policies|
    requires dbs[i].policies[j].subs.Subs? && dbs[i'].policies[j'].subs.Subs?
    ensures dbs[i].policies[j].subs.addr != dbs[i'].policies[j'].subs.addr
  {
    var x := ArrayID(dbs[i].policies[j].subs.addr);
    PolicyAddress(dbs, i, j);
    PolicyAddress(dbs, i', j');
    if i == i' {
      GatherTwo(dbs[i].policies, if j < j' then j else j', if j < j' then j' else j, PolicyIdents);
      GatherAt(dbs, i, DatabaseIdents);
      assert (PolicyIdents(dbs[i].policies[j]) + PolicyIdents(dbs[i].policies[j']))[x] <= DatabaseIdents(dbs[i])[x] <= Idents(dbs)[x];
    } else {
      GatherTwo(dbs, if i < i' then i else i', if i < i' then i' else i, DatabaseIdents);
      assert (DatabaseIdents(dbs[i]) + DatabaseIdents(dbs[i']))[x] <= Idents(dbs)[x];
    }
  }

  lemma PolicyAddress(dbs: seq<Database>, i: nat, j: nat)
    requires i < |dbs| && j < |dbs[i].policies| && dbs[i].policies[j].subs.Subs?
    ensures PolicyIdents(dbs[i].policies[j])[ArrayID(dbs[i].policies[j].subs.addr)] >= 1
    ensures DatabaseIdents(dbs[i])[ArrayID(dbs[i].policies[j].subs.addr)] >= 1
  {
    var x := ArrayID(dbs[i].policies[j].subs.addr);
    GatherAt(dbs[i].policies, j, PolicyIdents);
    assert PolicyIdents(dbs[i].policies[j])[x] <= DatabaseIdents(dbs[i])[x];
  }

  /** Memory may have changed at one address, and have grown. */
  ghost predicate ChangedAt(arrays: Arrays, s: Subs, arrays': Arrays) {
    && |arrays| <= |arrays'|
    && forall a | 0 <= a < |arrays| && !(s.Subs? && s.addr == a) :: arrays'[a] == arrays[a]
  }

  lemma SetSubsInv(d: Data, i: nat, j: nat, s: Subs, arrays: Arrays)
    requires Unique(Idents(d.databases)) && SubsInv(d.databases, d.arrays)
    requires i < |d.databases| && j < |d.databases[i].policies|
    requires SliceOK(arrays, s) && ChangedAt(d.arrays, d.databases[i].policies[j].subs, arrays)
    ensures SubsInv(SetPolicy(d, i, j, d.databases[i].policies[j].(subs := s)).databases, arrays)
  {
    var before := d.databases[i].policies[j].subs;
    var dbs := SetPolicy(d, i, j, d.databases[i].policies[j].(subs := s)).databases;
    forall x <- Slices(dbs)
      ensures SliceOK(arrays, x)
    {
      var i', j' := SliceAt(dbs, x);
      if (i', j') != (i, j) {
        assert x == d.databases[i'].policies[j'].subs;
        SliceOf(d.databases, i', j');
        assert SliceOK(d.arrays, x);
        if x.Subs? && before.Subs? { AddressesDiffer(d.databases, i, j, i', j'); }
        assert x.Subs? ==> arrays[x.addr] == d.arrays[x.addr];
      }
    }
  }

  lemma AppendSubOK(arrays: Arrays, s: Subs, sub: Subscription, spare: nat)
    requires SliceOK(arrays, s) && NameAt(Shown(arrays, s), sub.name).None?
    ensures var (arrays', s') := AppendSub(arrays, s, sub, spare);
            SliceOK(arrays', s') && ChangedAt(arrays, s, arrays') && Shown(arrays', s') == Shown(arrays, s) + [sub]
  {
    var elems := Shown(arrays, s);
    var (arrays', s') := AppendSub(arrays, s, sub, spare);
    assert Shown(arrays', s') == elems + [sub];
    forall k | 0 <= k < |elems|
      ensures elems[k].name != sub.name
    {
      assert elems[k] in elems;
    }
  }

  lemma WithoutNames(elems: seq<Subscription>, k: nat)
    requires DistinctNames(elems) && k < |elems|
    ensures DistinctNames(Without(elems, k))
  {
  }

  lemma CutOutOK(arrays: Arrays, s: Subs, k: nat)
    requires s.Subs? && SliceOK(arrays, s) && k < s.length
    ensures var arrays' := arrays[s.addr := CutOut(arrays[s.addr], k, s.length)];
            && SliceOK(arrays', Subs(s.addr, s.length - 1)) && ChangedAt(arrays, s, arrays')
            && Shown(arrays', Subs(s.addr, s.length - 1)) == Without(Shown(arrays, s), k)
  {
    var arrays' := arrays[s.addr := CutOut(arrays[s.addr], k, s.length)];
    assert Shown(arrays', Subs(s.addr, s.length - 1)) == Without(Shown(arrays, s), k);
    WithoutNames(Shown(arrays, s), k);
  }

  lemma SubscriptionInv(d: Data, cmd: Command, autoCreate: bool, d': Data, err: Option<Error>)
    requires MetaInv(d) && SubsInv(d.databases, d.arrays)
    requires Effect(d, cmd, autoCreate, d', err) && OnSubscriptions(cmd)
    ensures SubsInv(d'.databases, d'.arrays)
  {
    if err.None? {
      var i := DatabaseAt(d.databases, cmd.database).value;
      var j := PolicyAt(d.databases[i].policies, cmd.policyName).value;
      var s := d.databases[i].policies[j].subs;
      SliceOf(d.databases, i, j);
      assert SliceOK(d.arrays, s);
      match cmd {
        case CreateSubscriptionCommand(_, _, sub, _, spare) => AppendSubOK(d.arrays, s, sub, spare);
        case DropSubscriptionCommand(_, _, name) => CutOutOK(d.arrays, s, NameAt(Shown(d.arrays, s), name).value);
      }
      SetSubsInv(d, i, j, d'.databases[i].policies[j].subs, d'.arrays);
    }
  }

  lemma AppliedInv(d: Data, e: Entry, autoCreate: bool, d': Data, err: Option<Error>)
    requires MetaInv(d) && SubsInv(d.databases, d.arrays)
    requires Applied(d, e, autoCreate, d', err) && NamesDiffer(e.command)
    ensures SubsInv(d'.databases, d'.arrays)
  {
    var m := d'.(term := d.term, index := d.index);
    if OnSubscriptions(e.command) {
      SubscriptionInv(d, e.command, autoCreate, m, err);
    } else {
      OtherCommandSlices(d, e.command, autoCreate, m, err);
      OtherCommandInv(d, m);
    }
  }

  // ---------- When a copy changes ----------

  /** The slice of a policy of the current data. */
  function Target(d: Data, database: string, policy: string): (s: Subs) {
    match Lookup(d, database, policy)
    case None => NoSubs
    case Some(p) => p.subs
  }

  /** Cutting `name` out of slice `cur` moves elements that slice `o` shows: they share
      an array, the element is one that `o` shows, and it is not the last of `cur`. */
  predicate DropOverwrites(o: Subs, arrays: Arrays, cur: Subs, name: string) {
    && o.Subs? && cur.Subs? && o.addr == cur.addr
    && NameAt(Shown(arrays, cur), name).Some?
    && NameAt(Shown(arrays, cur), name).value < o.length
    && NameAt(Shown(arrays, cur), name).value + 1 < cur.length
  }

  /** Appending to slice `cur` writes over an element that slice `o` still shows: they
      share an array, there is room, `cur` is shorter, and the element is another one. */
  predicate AppendOverwrites(o: Subs, arrays: Arrays, cur: Subs, sub: Subscription) {
    && o.Subs? && HasRoom(arrays, cur) && o.addr == cur.addr
    && NameAt(Shown(arrays, cur), sub.name).None?
    && cur.length < o.length && arrays[cur.addr][cur.length] != sub
  }

  predicate Overwrites(o: Subs, d: Data, cmd: Command) {
    match cmd
    case CreateSubscriptionCommand(db, rp, sub, valid, _) => valid && AppendOverwrites(o, d.arrays, Target(d, db, rp), sub)
    case DropSubscriptionCommand(db, rp, name) => DropOverwrites(o, d.arrays, Target(d, db, rp), name)
    case _ => false
  }

  /** A command on the current data changes what a copy shows. */
  ghost predicate Disturbs(dbs: seq<Database>, d: Data, cmd: Command) {
    exists o <- Slices(dbs) :: Overwrites(o, d, cmd)
  }

  lemma DropExactly(arrays: Arrays, cur: Subs, name: string, o: Subs)
    requires cur.Subs? && SliceOK(arrays, cur) && InMemory(arrays, o) && NameAt(Shown(arrays, cur), name).Some?
    ensures var k := NameAt(Shown(arrays, cur), name).value;
            var arrays' := arrays[cur.addr := CutOut(arrays[cur.addr], k, cur.length)];
            Shown(arrays', o) == Shown(arrays, o) <==> !DropOverwrites(o, arrays, cur, name)
  {
  }

  lemma CreateStep(d: Data, database: string, policy: string, sub: Subscription, spare: nat, o: Subs)
    requires SubsInv(d.databases, d.arrays) && InMemory(d.arrays, o)
    requires CreateSubscription(d, database, policy, sub, true, spare).Ok?
    ensures var arrays := CreateSubscription(d, database, policy, sub, true, spare).data.arrays;
            InMemory(arrays, o) && (Shown(arrays, o) == Shown(d.arrays, o) <==> !AppendOverwrites(o, d.arrays, Target(d, database, policy), sub))
  {
  }

  lemma DropStep(d: Data, database: string, policy: string, name: string, o: Subs)
    requires SubsInv(d.databases, d.arrays) && InMemory(d.arrays, o)
    requires DropSubscription(d, database, policy, name).Ok?
    ensures var arrays := DropSubscription(d, database, policy, name).data.arrays;
            InMemory(arrays, o) && (Shown(arrays, o) == Shown(d.arrays, o) <==> !DropOverwrites(o, d.arrays, Target(d, database, policy), name))
  {
    var i := DatabaseAt(d.databases, database).value;
    var j := PolicyAt(d.databases[i].policies, policy).value;
    SliceOf(d.databases, i, j);
    DropExactly(d.arrays, d.databases[i].policies[j].subs, name, o);
  }

  /** A command that fails overwrites nothing. */
  lemma FailedOverwritesNothing(d: Data, cmd: Command, autoCreate: bool, o: Subs)
    requires OnSubscriptions(cmd) && Execute(d, cmd, autoCreate).Err?
    ensures !Overwrites(o, d, cmd)
  {
  }

  lemma SliceStep(d: Data, cmd: Command, autoCreate: bool, d': Data, err: Option<Error>, o: Subs)
    requires SubsInv(d.databases, d.arrays) && InMemory(d.arrays, o)
    requires Effect(d, cmd, autoCreate, d', err) && OnSubscriptions(cmd)
    ensures InMemory(d'.arrays, o) && (Shown(d'.arrays, o) == Shown(d.arrays, o) <==> !Overwrites(o, d, cmd))
  {
    Executed(d, cmd, autoCreate, d', err);
    if err.Some? {
      FailedOverwritesNothing(d, cmd, autoCreate, o);
    } else {
      match cmd
      case CreateSubscriptionCommand(db, rp, sub, _, spare) => CreateStep(d, db, rp, sub, spare, o);
      case DropSubscriptionCommand(db, rp, name) => DropStep(d, db, rp, name, o);
    }
  }

  lemma OtherStep(dbs: seq<Database>, arrays: Arrays, arrays': Arrays)
    requires AllInMemory(dbs, arrays) && MemoryKept(arrays, arrays')
    ensures AllInMemory(dbs, arrays') && SameShown(dbs, arrays, arrays')
  {
  }

  lemma EffectExactly(dbs: seq<Database>, d: Data, cmd: Command, autoCreate: bool, d': Data, err: Option<Error>)
    requires SubsInv(d.databases, d.arrays) && AllInMemory(dbs, d.arrays) && Effect(d, cmd, autoCreate, d', err)
    ensures AllInMemory(dbs, d'.arrays)
    ensures SameShown(dbs, d.arrays, d'.arrays) <==> !Disturbs(dbs, d, cmd)
  {
    if OnSubscriptions(cmd) {
      forall o <- Slices(dbs)
        ensures InMemory(d'.arrays, o) && (Shown(d'.arrays, o) == Shown(d.arrays, o) <==> !Overwrites(o, d, cmd))
      {
        SliceStep(d, cmd, autoCreate, d', err, o);
      }
    } else {
      OtherCommandSlices(d, cmd, autoCreate, d', err);
      OtherStep(dbs, d.arrays, d'.arrays);
    }
  }

  /** One entry of the log changes what a copy shows if and only if it disturbs it. */
  lemma StepExactly(dbs: seq<Database>, d: Data, e: Entry, autoCreate: bool, d': Data, err: Option<Error>)
    requires SubsInv(d.databases, d.arrays) && AllInMemory(dbs, d.arrays) && Applied(d, e, autoCreate, d', err)
    ensures AllInMemory(dbs, d'.arrays)
    ensures SameShown(dbs, d.arrays, d'.arrays) <==> !Disturbs(dbs, d, e.command)
  {
    EffectExactly(dbs, d, e.command, autoCreate, d'.(term := d.term, index := d.index), err);
  }

  /** Policies in commands bring no shard groups, and no subscription name twice. */
  ghost predicate Clean(log: seq<Entry>) {
    Plain(log) && forall e <- log :: NamesDiffer(e.command)
  }

  lemma {:induction false} RunSubs(states: seq<Data>, log: seq<Entry>, errs: seq<Option<Error>>, autoCreate: bool, k: nat)
    requires IsRun(states, log, errs, autoCreate) && Clean(log) && k < |states|
    ensures SubsInv(states[k].databases, states[k].arrays)
  {
    if k > 0 {
      RunSubs(states, log, errs, autoCreate, k - 1);
      RunInvariant(states, log, errs, autoCreate, k - 1);
      AppliedInv(states[k - 1], log[k - 1], autoCreate, states[k], errs[k - 1]);
    }
  }

  lemma {:induction false} StaysInMemory(states: seq<Data>, log: seq<Entry>, errs: seq<Option<Error>>, autoCreate: bool, i: nat, k: nat)
    requires IsRun(states, log, errs, autoCreate) && Clean(log) && i <= k < |states|
    ensures AllInMemory(states[i].databases, states[k].arrays)
    decreases k
  {
    if i < k {
      StaysInMemory(states, log, errs, autoCreate, i, k - 1);
      RunSubs(states, log, errs, autoCreate, k - 1);
      StepExactly(states[i].databases, states[k - 1], log[k - 1], autoCreate, states[k], errs[k - 1]);
    } else {
      RunSubs(states, log, errs, autoCreate, k);
    }
  }

  lemma StepInRun(states: seq<Data>, log: seq<Entry>, errs: seq<Option<Error>>, autoCreate: bool, i: nat, k: nat)
    requires IsRun(states, log, errs, autoCreate) && Clean(log) && i <= k < |log|
    ensures SameShown(states[i].databases, states[k].arrays, states[k + 1].arrays)
       <==> !Disturbs(states[i].databases, states[k], log[k].command)
  {
    StaysInMemory(states, log, errs, autoCreate, i, k);
    RunSubs(states, log, errs, autoCreate, k);
    StepExactly(states[i].databases, states[k], log[k], autoCreate, states[k + 1], errs[k]);
  }

  lemma SameShownTransitive(dbs: seq<Database>, a: Arrays, b: Arrays, c: Arrays)
    requires SameShown(dbs, a, b) && SameShown(dbs, b, c)
    ensures SameShown(dbs, a, c)
  {
  }

  lemma {:induction false} UndisturbedSame(states: seq<Data>, log: seq<Entry>, errs: seq<Option<Error>>, autoCreate: bool, i: nat, j: nat)
    requires IsRun(states, log, errs, autoCreate) && Clean(log) && i <= j < |states|
    requires forall k | i <= k < j :: !Disturbs(states[i].databases, states[k], log[k].command)
    ensures SameShown(states[i].databases, states[i].arrays, states[j].arrays)
    decreases j
  {
    if i < j {
      UndisturbedSame(states, log, errs, autoCreate, i, j - 1);
      StepInRun(states, log, errs, autoCreate, i, j - 1);
      SameShownTransitive(states[i].databases, states[i].arrays, states[j - 1].arrays, states[j].arrays);
    }
  }

  /** Over every run: a copy handed out at `i` shows the same in every state up to `j`
      if and only if no entry in between cuts an element it shows out of a longer list,
      or appends over one. */
  lemma CopyUnchangedExactly(states: seq<Data>, log: seq<Entry>, errs: seq<Option<Error>>, autoCreate: bool, i: nat, j: nat)
    requires IsRun(states, log, errs, autoCreate) && Clean(log) && i <= j < |states|
    ensures (forall k | i <= k <= j :: SameShown(states[i].databases, states[i].arrays, states[k].arrays))
       <==> (forall k | i <= k < j :: !Disturbs(states[i].databases, states[k], log[k].command))
  {
    if forall k | i <= k < j :: !Disturbs(states[i].databases, states[k], log[k].command) {
      forall k | i <= k <= j
        ensures SameShown(states[i].databases, states[i].arrays, states[k].arrays)
      {
        UndisturbedSame(states, log, errs, autoCreate, i, k);
      }
    } else {
      var k :| i <= k < j && Disturbs(states[i].databases, states[k], log[k].command);
      StepInRun(states, log, errs, autoCreate, i, k);
      assert !(SameShown(states[i].databases, states[i].arrays, states[k].arrays)
            && SameShown(states[i].databases, states[i].arrays, states[k + 1].arrays));
    }
  }

  // ---------- Without drops ----------

  /** No slice of the current data is shorter than a slice of the copy in the same array. */
  ghost predicate NoShorter(dbs: seq<Database>, cur: seq<Database>) {
    forall o, c | o in Slices(dbs) && c in Slices(cur) && o.Subs? && c.Subs? && o.addr == c.addr :: o.length <= c.length
  }

  lemma OwnSlices(dbs: seq<Database>)
    requires Unique(Idents(dbs))
    ensures NoShorter(dbs, dbs)
  {
    forall o, c | o in Slices(dbs) && c in Slices(dbs) && o.Subs? && c.Subs? && o.addr == c.addr
      ensures o.length <= c.length
    {
      var i, j := SliceAt(dbs, o);
      var i', j' := SliceAt(dbs, c);
      if (i, j) != (i', j') { AddressesDiffer(dbs, i, j, i', j'); }
    }
  }

  lemma CreateNoShorter(dbs: seq<Database>, d: Data, database: string, policy: string, sub: Subscription, spare: nat)
    requires NoShorter(dbs, d.databases) && AllInMemory(dbs, d.arrays)
    requires CreateSubscription(d, database, policy, sub, true, spare).Ok?
    ensures NoShorter(dbs, CreateSubscription(d, database, policy, sub, true, spare).data.databases)
  {
  }

  lemma StepNoShorter(dbs: seq<Database>, d: Data, cmd: Command, autoCreate: bool, d': Data, err: Option<Error>)
    requires NoShorter(dbs, d.databases) && AllInMemory(dbs, d.arrays)
    requires Effect(d, cmd, autoCreate, d', err) && !cmd.DropSubscriptionCommand?
    ensures NoShorter(dbs, d'.databases)
  {
    if cmd.CreateSubscriptionCommand? {
      Executed(d, cmd, autoCreate, d', err);
      if err.None? { CreateNoShorter(dbs, d, cmd.database, cmd.policyName, cmd.sub, cmd.spare); }
    } else {
      OtherCommandSlices(d, cmd, autoCreate, d', err);
      forall o, c | o in Slices(dbs) && c in Slices(d'.databases) && o.Subs? && c.Subs? && o.addr == c.addr
        ensures o.length <= c.length
      {
        assert InMemory(d.arrays, o) && Known(c, d.databases, d.arrays, d'.arrays);
      }
    }
  }

  lemma {:induction false} RunNoShorter(states: seq<Data>, log: seq<Entry>, errs: seq<Option<Error>>, autoCreate: bool, i: nat, k: nat)
    requires IsRun(states, log, errs, autoCreate) && Clean(log) && i <= k < |states|
    requires forall m | i <= m < k :: !log[m].command.DropSubscriptionCommand?
    ensures NoShorter(states[i].databases, states[k].databases)
    decreases k
  {
    if i < k {
      RunNoShorter(states, log, errs, autoCreate, i, k - 1);
      StaysInMemory(states, log, errs, autoCreate, i, k - 1);
      var d, d' := states[k - 1], states[k];
      StepNoShorter(states[i].databases, d, log[k - 1].command, autoCreate, d'.(term := d.term, index := d.index), errs[k - 1]);
    } else {
      RunInvariant(states, log, errs, autoCreate, i);
      OwnSlices(states[i].databases);
    }
  }

  lemma TargetIsSlice(d: Data, database: string, policy: string)
    ensures Target(d, database, policy).NoSubs? || Target(d, database, policy) in Slices(d.databases)
  {
  }

  /** As long as no subscription is dropped, a copy shows what it showed when it was
      handed out, whatever else is applied. */
  lemma NoDropNoChange(states: seq<Data>, log: seq<Entry>, errs: seq<Option<Error>>, autoCreate: bool, i: nat, j: nat)
    requires IsRun(states, log, errs, autoCreate) && Clean(log) && i <= j < |states|
    requires forall k | i <= k < j :: !log[k].command.DropSubscriptionCommand?
    ensures SameShown(states[i].databases, states[i].arrays, states[j].arrays)
  {
    forall k | i <= k < j
      ensures !Disturbs(states[i].databases, states[k], log[k].command)
    {
      RunNoShorter(states, log, errs, autoCreate, i, k);
      if log[k].command.CreateSubscriptionCommand? {
        TargetIsSlice(states[k], log[k].command.database, log[k].command.policyName);
      }
    }
    UndisturbedSame(states, log, errs, autoCreate, i, j);
  }

  // ---------- Two inputs ----------

  /** A copy whose one policy has the subscriptions `a` and `b`, in an array that is full. */
  function Subscribed(a: Subscription, b: Subscription): (d: Data) {
    INITIAL.(databases := [Database("db", "p", [Policy("p", 1, 0, HOUR, [], Subs(0, 2))])], arrays := [[a, b]])
  }

  lemma SubscribedIsReachable(a: Subscription, b: Subscription)
    ensures Execute(INITIAL, CreateDatabaseCommand("db", Some(PolicySpec("p", 1, 0, HOUR, [], [a, b]))), false) == Ok(Subscribed(a, b))
  {
    var spec := PolicySpec("p", 1, 0, HOUR, [], [a, b]);
    var d := CreateDatabase(INITIAL, "db").data;
    assert d.databases == [Database("db", "", [])];
    assert d.databases[0].name == "db" && DatabaseAt(d.databases, "db") == Some(0);
    assert [] + [NewPolicy(d, spec)] == [Policy("p", 1, 0, HOUR, [], Subs(0, 2))];
    var d' := CreatePolicy(d, "db", spec, true).data;
    assert d'.databases == Subscribed(a, b).databases && d'.arrays == [[a, b]];
  }

  /** Dropping the first of two subscriptions makes a copy handed out before show the
      second one twice. */
  lemma DropShowsTwice(a: Subscription, b: Subscription)
    requires a.name != b.name
    ensures var d := Subscribed(a, b);
            var r := DropSubscription(d, "db", "p", a.name);
            && r.Ok? && Target(d, "db", "p") in Slices(d.databases)
            && Shown(d.arrays, Target(d, "db", "p")) == [a, b]
            && Shown(r.data.arrays, Target(d, "db", "p")) == [b, b]
            && Shown(r.data.arrays, Target(r.data, "db", "p")) == [b]
  {
  }

  /** Dropping the last one and creating another makes the copy show the new one. */
  lemma CreateShowsThrough(a: Subscription, b: Subscription, c: Subscription, spare: nat)
    requires a.name != b.name && a.name != c.name
    ensures var d := Subscribed(a, b);
            var r := DropSubscription(d, "db", "p", b.name);
            && r.Ok?
            && var q := CreateSubscription(r.data, "db", "p", c, true, spare);
               q.Ok? && Shown(r.data.arrays, Target(d, "db", "p")) == [a, b] && Shown(q.data.arrays, Target(d, "db", "p")) == [a, c]
  {
    var d := Subscribed(a, b);
    assert d.databases[0].policies[0].name == "p" && d.databases[0].name == "db";
    assert Shown(d.arrays, Subs(0, 2)) == [a, b];
    FindFirst([a, b], (s: Subscription) => s.name == b.name, 1);
    assert NameAt([a, b], b.name) == Some(1);
    assert CutOut([a, b], 1, 2) == [a, b];
    var d' := DropSubscription(d, "db", "p", b.name).data;
    assert d'.databases[0].policies[0].name == "p" && d'.databases[0].name == "db";
    assert d'.arrays == [[a, b]] && Shown(d'.arrays, Subs(0, 1)) == [a];
    assert NameAt([a], c.name).None?;
  }
}

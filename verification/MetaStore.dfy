/**
 The metadata as an object that commands change in place, and the store that
 clones it, lets a command change the clone, and swaps the clone in.
 */
module MetaStore {
  import opened Basics
  import opened Metadata
  import opened Reassign
  import opened Placement
  import opened ShardGroups
  import opened MetaInvariant
  import opened MetaMachine
  import opened MetaRuns
  import opened Snapshots

  // ---------- Taking a node out of every group ----------

  ghost predicate GroupStrippable(g: Group) {
    OwnersDistinct(g.shards) && DistinctShards(g.shards)
  }

  ghost predicate Strippable(p: Policy) {
    forall g <- p.groups :: GroupStrippable(g)
  }

  lemma StrippedOneMore(gs: seq<Group>, id: nat, gs': seq<Group>, g: Group, g': Group)
    requires GroupsStripped(gs, id, gs') && Stripped(g, id, g')
    ensures GroupsStripped(gs + [g], id, gs' + [g'])
  {
  }

  method StripPolicy(p: Policy, id: nat) returns (err: Option<Error>, p': Policy)
    requires Strippable(p)
    ensures err.None? && PolicyStripped(p, id, p')
  {
    err, p' := None, p;
    var groups := [];
    var k := 0;
    while k < |p.groups|
      invariant 0 <= k <= |p.groups| && err.None?
      invariant GroupsStripped(p.groups[..k], id, groups)
    {
      assert GroupStrippable(p.groups[k]);
      var g;
      err, g := StripGroup(p.groups[k], id);
      if err.Some? {
        return;
      }
      StrippedOneMore(p.groups[..k], id, groups, p.groups[k], g);
      TakeOneMore(p.groups, k);
      groups := groups + [g];
      k := k + 1;
    }
    assert p.groups[..k] == p.groups;
    p' := p.(groups := groups);
  }

  lemma PoliciesOneMore(ps: seq<Policy>, id: nat, ps': seq<Policy>, p: Policy, p': Policy)
    requires PoliciesStripped(ps, id, ps') && PolicyStripped(p, id, p')
    ensures PoliciesStripped(ps + [p], id, ps' + [p'])
  {
  }

  ghost predicate DatabaseStrippable(db: Database) {
    forall p <- db.policies :: Strippable(p)
  }

  method StripDatabase(db: Database, id: nat) returns (err: Option<Error>, db': Database)
    requires DatabaseStrippable(db)
    ensures err.None? && DatabaseStripped(db, id, db')
  {
    err, db' := None, db;
    var policies := [];
    var j := 0;
    while j < |db.policies|
      invariant 0 <= j <= |db.policies| && err.None?
      invariant PoliciesStripped(db.policies[..j], id, policies)
    {
      assert Strippable(db.policies[j]);
      var p;
      err, p := StripPolicy(db.policies[j], id);
      if err.Some? {
        return;
      }
      PoliciesOneMore(db.policies[..j], id, policies, db.policies[j], p);
      TakeOneMore(db.policies, j);
      policies := policies + [p];
      j := j + 1;
    }
    assert db.policies[..j] == db.policies;
    db' := db.(policies := policies);
  }

  lemma DatabasesOneMore(dbs: seq<Database>, id: nat, dbs': seq<Database>, db: Database, db': Database)
    requires DatabasesStripped(dbs, id, dbs') && DatabaseStripped(db, id, db')
    ensures DatabasesStripped(dbs + [db], id, dbs' + [db'])
  {
  }

  /** The loops shared by DeleteDataNode and DeleteMetaNode: they never stop part way. */
  method StripDatabases(dbs: seq<Database>, id: nat) returns (err: Option<Error>, dbs': seq<Database>)
    requires forall db <- dbs :: DatabaseStrippable(db)
    ensures err.None? && DatabasesStripped(dbs, id, dbs')
  {
    err, dbs' := None, [];
    var i := 0;
    while i < |dbs|
      invariant 0 <= i <= |dbs| && err.None?
      invariant DatabasesStripped(dbs[..i], id, dbs')
    {
      assert DatabaseStrippable(dbs[i]);
      var db;
      err, db := StripDatabase(dbs[i], id);
      if err.Some? {
        return;
      }
      DatabasesOneMore(dbs[..i], id, dbs', dbs[i], db);
      TakeOneMore(dbs, i);
      dbs' := dbs' + [db];
      i := i + 1;
    }
    assert dbs[..i] == dbs;
  }

  lemma AllStrippable(d: Data)
    requires MetaInv(d)
    ensures forall db <- d.databases :: DatabaseStrippable(db)
  {
    forall i, j, k | 0 <= i < |d.databases| && 0 <= j < |d.databases[i].policies| && 0 <= k < |d.databases[i].policies[j].groups|
      ensures GroupStrippable(d.databases[i].policies[j].groups[k])
    {
      PolicyFound(d, i, j);
      assert GroupOK(d.databases[i].policies[j].groups[k], NodeIDs(d.dataNodes));
      GroupShardsDistinct(d.databases, i, j, k);
    }
  }

  // ---------- Data ----------

  /** The first node with this TCP host, or none. */
  method FindHost(nodes: seq<NodeInfo>, tcpHost: string) returns (r: Option<nat>)
    ensures r == HostAt(nodes, tcpHost)
  {
    var i := 0;
    while i < |nodes|
      invariant 0 <= i <= |nodes|
      invariant forall n <- nodes[..i] :: n.tcpHost != tcpHost
    {
      if nodes[i].tcpHost == tcpHost {
        FindFirst(nodes, (n: NodeInfo) => n.tcpHost == tcpHost, i);
        return Some(i);
      }
      TakeOneMore(nodes, i);
      i := i + 1;
    }
    assert nodes[..i] == nodes;
    r := None;
  }

  lemma {:induction false} RemoveOneMore(nodes: seq<NodeInfo>, n: NodeInfo, id: nat)
    ensures RemoveNode(nodes + [n], id) == RemoveNode(nodes, id) + if n.id == id then [] else [n]
  {
    if nodes != [] {
      RemoveOneMore(nodes[1..], n, id);
      assert (nodes + [n])[1..] == nodes[1..] + [n];
    }
  }

  lemma {:induction false} RemoveCount(nodes: seq<NodeInfo>, id: nat)
    ensures |RemoveNode(nodes, id)| <= |nodes|
    ensures |RemoveNode(nodes, id)| == |nodes| <==> id !in NodeIDs(nodes)
  {
    if nodes != [] {
      RemoveCount(nodes[1..], id);
      assert NodeIDs(nodes) == {nodes[0].id} + NodeIDs(nodes[1..]);
    }
  }

  /** The other nodes, in order, and whether one was left out. */
  method FilterNodes(nodes: seq<NodeInfo>, id: nat) returns (r: seq<NodeInfo>, found: bool)
    ensures r == RemoveNode(nodes, id)
    ensures found <==> id in NodeIDs(nodes)
  {
    r := [];
    var i := 0;
    while i < |nodes|
      invariant 0 <= i <= |nodes|
      invariant r == RemoveNode(nodes[..i], id)
    {
      RemoveOneMore(nodes[..i], nodes[i], id);
      TakeOneMore(nodes, i);
      if nodes[i].id != id {
        r := r + [nodes[i]];
      }
      i := i + 1;
    }
    assert nodes[..i] == nodes;
    RemoveCount(nodes, id);
    found := |r| != |nodes|;
  }

  /** A result of a value-level operation, as the new contents and the error. */
  ghost predicate Outcome(r: Result, before: Data, after: Data, err: Option<Error>) {
    match r
    case Ok(d) => err.None? && after == d
    case Err(e) => err == Some(e) && after == before
  }

  // ---------- Memory ----------

  ghost function Objects(arrays: seq<array<Subscription>>): (r: set<object>) {
    set a <- arrays
  }

  /** The arrays that slices of subscriptions point into, and what they hold. */
  class Memory {
    var arrays: seq<array<Subscription>>
    ghost var contents: Arrays

    ghost predicate Valid()
      reads this, arrays
    {
      && |contents| == |arrays|
      && (forall i | 0 <= i < |arrays| :: arrays[i][..] == contents[i])
      && (forall i, j | 0 <= i < j < |arrays| :: arrays[i] != arrays[j])
    }

    constructor ()
      ensures Valid() && arrays == [] && contents == []
    {
      arrays, contents := [], [];
    }

    /** What a slice shows. */
    method Read(subs: Subs) returns (elems: seq<Subscription>)
      requires Valid()
      ensures elems == Shown(contents, subs)
    {
      if subs.NoSubs? || subs.addr >= |arrays| || subs.length > arrays[subs.addr].Length {
        return [];
      }
      elems := arrays[subs.addr][..subs.length];
    }

    method Dump() returns (r: Arrays)
      requires Valid()
      ensures r == contents
    {
      r := [];
      while |r| < |arrays|
        invariant |r| <= |arrays| && r == contents[..|r|]
      {
        r := r + [arrays[|r|][..]];
      }
    }

    /** A new array with the given contents, at the next address. */
    method Allocate(elems: seq<Subscription>)
      requires Valid()
      modifies this
      ensures Valid() && fresh(Objects(arrays) - old(Objects(arrays)))
      ensures contents == old(contents) + [elems]
    {
      var a := new Subscription[|elems|](k requires 0 <= k < |elems| => elems[k]);
      assert a[..] == elems;
      arrays, contents := arrays + [a], contents + [elems];
    }

    method Write(addr: nat, k: nat, x: Subscription)
      requires Valid() && addr < |arrays| && k < arrays[addr].Length
      modifies `contents, arrays[addr]
      ensures Valid() && contents == old(contents)[addr := old(contents)[addr][k := x]]
    {
      arrays[addr][k] := x;
      contents := contents[addr := contents[addr][k := x]];
    }

    /** Cuts element `k` out of the first `n`: those behind it move down by one. */
    method MoveDown(addr: nat, k: nat, n: nat)
      requires Valid() && addr < |arrays| && k < n <= arrays[addr].Length
      modifies `contents, arrays[addr]
      ensures Valid() && contents == old(contents)[addr := CutOut(old(contents)[addr], k, n)]
    {
      Shift(arrays[addr], k, n);
      contents := contents[addr := CutOut(contents[addr], k, n)];
    }

    /** Appending to a slice: over what lies behind it if there is room, else into a new array. */
    method Append(subs: Subs, sub: Subscription, spare: nat) returns (subs': Subs)
      requires Valid()
      modifies this, Objects(arrays)
      ensures Valid() && fresh(Objects(arrays) - old(Objects(arrays)))
      ensures (contents, subs') == AppendSub(old(contents), subs, sub, spare)
    {
      if subs.Subs? && subs.addr < |arrays| && subs.length < arrays[subs.addr].Length {
        Write(subs.addr, subs.length, sub);
        subs' := Subs(subs.addr, subs.length + 1);
      } else {
        var elems := Read(subs);
        subs' := Subs(|arrays|, |elems| + 1);
        Allocate(elems + [sub] + seq(spare, _ => BLANK));
      }
    }
  }

  method Shift(a: array<Subscription>, k: nat, n: nat)
    requires k < n <= a.Length
    modifies a
    ensures a[..] == CutOut(old(a[..]), k, n)
  {
    var i := k;
    while i < n - 1
      invariant k <= i <= n - 1
      invariant forall j | 0 <= j < a.Length :: a[j] == old(a[..])[if k <= j < i then j + 1 else j]
    {
      a[i] := a[i + 1];
      i := i + 1;
    }
  }

  class MetaData {
    const memory: Memory
    var metaNodes: seq<NodeInfo>
    var dataNodes: seq<NodeInfo>
    var databases: seq<Database>
    var maxNodeID: nat
    var maxShardID: nat
    var maxGroupID: nat
    var clusterID: nat
    var term: nat
    var index: nat

    /** The fields of this object alone. */
    function Own(): (d: Data)
      reads this
    {
      Data(metaNodes, dataNodes, databases, maxNodeID, maxShardID, maxGroupID, clusterID, term, index, [])
    }

    /** What the object shows, with the arrays it points into. */
    ghost function View(): (d: Data)
      reads this, memory
    {
      Own().(arrays := memory.contents)
    }

    constructor (d: Data, memory: Memory)
      ensures Own() == d.(arrays := []) && this.memory == memory
    {
      this.memory := memory;
      metaNodes, dataNodes, databases := d.metaNodes, d.dataNodes, d.databases;
      maxNodeID, maxShardID, maxGroupID := d.maxNodeID, d.maxShardID, d.maxGroupID;
      clusterID, term, index := d.clusterID, d.term, d.index;
    }

    /** A copy of everything but the arrays, which it shares: slice headers are passed on. */
    method Clone() returns (other: MetaData)
      ensures fresh(other) && other.Own() == Own() && other.memory == memory
    {
      other := new MetaData(Own(), memory);
    }

    /** The ID for a host: the one it has as a meta node, or the next. */
    method AssignID(tcpHost: string) returns (id: nat)
      modifies `maxNodeID
      ensures id == AssignedID(old(View()), tcpHost)
      ensures maxNodeID == if ExistingID(old(View()), tcpHost) == 0 then old(maxNodeID) + 1 else old(maxNodeID)
    {
      id := 0;
      var at := FindHost(metaNodes, tcpHost);
      if at.Some? {
        id := metaNodes[at.value].id;
      }
      if id == 0 {
        maxNodeID := maxNodeID + 1;
        id := maxNodeID;
      }
    }

    method CreateMetaNode(host: string, tcpHost: string) returns (err: Option<Error>)
      modifies this
      ensures Outcome(Metadata.CreateMetaNode(old(View()), host, tcpHost), old(View()), View(), err)
    {
      var at := FindHost(dataNodes, tcpHost);
      if at.Some? {
        return Some(NodeExists);
      }
      var id := AssignID(tcpHost);
      metaNodes := InsertNode(metaNodes, NodeInfo(id, host, tcpHost));
      err := None;
    }

    method CreateDataNode(host: string, tcpHost: string) returns (err: Option<Error>)
      modifies this
      ensures Outcome(Metadata.CreateDataNode(old(View()), host, tcpHost), old(View()), View(), err)
    {
      var at := FindHost(dataNodes, tcpHost);
      if at.Some? {
        return Some(NodeExists);
      }
      var id := AssignID(tcpHost);
      dataNodes := InsertNode(dataNodes, NodeInfo(id, host, tcpHost));
      err := None;
    }

    /** Fails only for a node that is not there, and then changes nothing. */
    method DeleteDataNode(id: nat) returns (err: Option<Error>)
      requires MetaInv(View())
      modifies this
      ensures Effect(old(View()), DeleteDataNodeCommand(id), false, View(), err)
    {
      AllStrippable(View());
      var nodes, found := FilterNodes(dataNodes, id);
      if !found {
        return Some(NodeNotFound);
      }
      dataNodes := nodes;
      var dbs;
      err, dbs := StripDatabases(databases, id);
      databases := dbs;
    }

    method DeleteMetaNode(id: nat) returns (err: Option<Error>)
      requires MetaInv(View())
      modifies this
      ensures Effect(old(View()), DeleteMetaNodeCommand(id, true), false, View(), err)
    {
      AllStrippable(View());
      var nodes, found := FilterNodes(metaNodes, id);
      if !found {
        return Some(NodeNotFound);
      }
      metaNodes := nodes;
      var dbs;
      err, dbs := StripDatabases(databases, id);
      databases := dbs;
    }

    method CreateShardGroup(database: string, policy: string, t: int) returns (err: Option<Error>)
      modifies this
      ensures Outcome(ShardGroups.CreateShardGroup(old(View()), database, policy, t), old(View()), View(), err)
    {
      if |dataNodes| == 0 {
        return None;
      }
      var at := DatabaseAt(databases, database);
      if at.None? {
        return Some(DatabaseNotFound);
      }
      var i := at.value;
      at := PolicyAt(databases[i].policies, policy);
      if at.None? {
        return Some(PolicyNotFound);
      }
      var j := at.value;
      var p := databases[i].policies[j];
      if GroupAt(p.groups, t).Some? {
        return None;
      }
      AddGroup(i, j, t);
      err := None;
    }

    /** A group with its shards, numbered and dealt out. */
    method MakeGroup(p: Policy, t: int) returns (g: Group)
      requires dataNodes != []
      modifies `maxGroupID, `maxShardID
      ensures g == NewGroup(old(View()), p, t)
      ensures maxGroupID == old(maxGroupID) + 1 && maxShardID == old(maxShardID) + |g.shards|
    {
      var replicaN := p.replicaN;
      if replicaN == 0 {
        replicaN := 1;
      } else if replicaN > |dataNodes| {
        replicaN := |dataNodes|;
      }
      var start := Truncate(t, p.groupDuration);
      var shards;
      maxGroupID := maxGroupID + 1;
      shards, maxShardID := GeneratedShards(dataNodes, maxShardID, index, |dataNodes| / replicaN, replicaN);
      g := Group(maxGroupID, start, start + p.groupDuration, false, shards);
    }

    method AddGroup(i: nat, j: nat, t: int)
      requires dataNodes != [] && i < |databases| && j < |databases[i].policies|
      modifies this
      ensures View() == WithGroup(old(View()), i, j, NewGroup(old(View()), old(databases)[i].policies[j], t))
    {
      var p := databases[i].policies[j];
      var g := MakeGroup(p, t);
      databases := databases[i := databases[i].(policies := databases[i].policies[j := p.(groups := InsertGroup(p.groups, g))])];
    }

    /** Takes over the result of an operation of the embedded library type, which has
        at most one array more. */
    method Install(r: Result) returns (err: Option<Error>)
      requires memory.Valid()
      requires r.Ok? ==> MemoryKept(memory.contents, r.data.arrays)
      modifies this, memory
      ensures memory.Valid() && fresh(Objects(memory.arrays) - old(Objects(memory.arrays)))
      ensures Outcome(r, old(View()), View(), err)
    {
      match r
      case Err(e) => err := Some(e);
      case Ok(d) =>
        LastArray(memory.contents, d.arrays);
        if |d.arrays| > |memory.arrays| {
          memory.Allocate(d.arrays[|memory.arrays|]);
        }
        Assign(d);
        err := None;
    }

    method Assign(d: Data)
      modifies this
      ensures Own() == d.(arrays := [])
    {
      metaNodes, dataNodes, databases := d.metaNodes, d.dataNodes, d.databases;
      maxNodeID, maxShardID, maxGroupID := d.maxNodeID, d.maxShardID, d.maxGroupID;
      clusterID, term, index := d.clusterID, d.term, d.index;
    }

    /** The value that library operations compute on. */
    method Load() returns (d: Data)
      requires memory.Valid()
      ensures d == View()
    {
      var arrays := memory.Dump();
      d := Own().(arrays := arrays);
    }

    /** The policy by these names, or the error for the one that is missing. */
    method FindPolicy(database: string, policy: string) returns (err: Option<Error>, i: nat, j: nat)
      ensures match DatabaseAt(databases, database)
              case None => err == Some(DatabaseNotFound)
              case Some(k) =>
                if PolicyAt(databases[k].policies, policy).None? then err == Some(PolicyNotFound)
                else err.None? && i == k && j == PolicyAt(databases[k].policies, policy).value
    {
      var at := DatabaseAt(databases, database);
      if at.None? {
        return Some(DatabaseNotFound), 0, 0;
      }
      i := at.value;
      at := PolicyAt(databases[i].policies, policy);
      if at.None? {
        return Some(PolicyNotFound), i, 0;
      }
      err, j := None, at.value;
    }

    method SetSubs(i: nat, j: nat, subs: Subs)
      requires i < |databases| && j < |databases[i].policies|
      modifies `databases
      ensures Own() == SetPolicy(old(Own()), i, j, old(databases)[i].policies[j].(subs := subs))
    {
      var db := databases[i];
      databases := databases[i := db.(policies := db.policies[j := db.policies[j].(subs := subs)])];
    }

    /** In place if the array has room, which every copy that shares the array sees. */
    method CreateSubscription(database: string, policy: string, sub: Subscription, valid: bool, spare: nat) returns (err: Option<Error>)
      requires memory.Valid()
      modifies this, memory, Objects(memory.arrays)
      ensures memory.Valid() && fresh(Objects(memory.arrays) - old(Objects(memory.arrays)))
      ensures Outcome(Metadata.CreateSubscription(old(View()), database, policy, sub, valid, spare), old(View()), View(), err)
    {
      if !valid {
        return Some(InvalidURL);
      }
      var i, j;
      err, i, j := FindPolicy(database, policy);
      if err.Some? {
        return;
      }
      var elems := memory.Read(databases[i].policies[j].subs);
      if NameAt(elems, sub.name).Some? {
        return Some(SubscriptionExists);
      }
      var subs := memory.Append(databases[i].policies[j].subs, sub, spare);
      SetSubs(i, j, subs);
      err := None;
    }

    /** Always in place, which every copy that shares the array sees. */
    method DropSubscription(database: string, policy: string, name: string) returns (err: Option<Error>)
      requires memory.Valid()
      modifies this, memory`contents, Objects(memory.arrays)
      ensures memory.Valid()
      ensures Outcome(Metadata.DropSubscription(old(View()), database, policy, name), old(View()), View(), err)
    {
      var i, j;
      err, i, j := FindPolicy(database, policy);
      if err.Some? {
        return;
      }
      var elems := memory.Read(databases[i].policies[j].subs);
      var at := NameAt(elems, name);
      if at.None? {
        return Some(SubscriptionNotFound);
      }
      RemoveSub(i, j, at.value);
      err := None;
    }

    method RemoveSub(i: nat, j: nat, k: nat)
      requires memory.Valid() && i < |databases| && j < |databases[i].policies|
      requires k < |Shown(memory.contents, databases[i].policies[j].subs)|
      modifies this`databases, memory`contents, Objects(memory.arrays)
      ensures memory.Valid()
      ensures var s := old(databases)[i].policies[j].subs;
              && Own() == SetPolicy(old(Own()), i, j, old(databases)[i].policies[j].(subs := Subs(s.addr, s.length - 1)))
              && memory.contents == old(memory.contents)[s.addr := CutOut(old(memory.contents)[s.addr], k, s.length)]
    {
      var subs := databases[i].policies[j].subs;
      memory.MoveDown(subs.addr, k, subs.length);
      SetSubs(i, j, Subs(subs.addr, subs.length - 1));
    }
  }

  lemma LastArray(arrays: Arrays, arrays': Arrays)
    requires MemoryKept(arrays, arrays')
    ensures arrays' == if |arrays'| > |arrays| then arrays + [arrays'[|arrays|]] else arrays
  {
  }

  predicate OnNodes(cmd: Command) {
    cmd.CreateMetaNodeCommand? || cmd.CreateDataNodeCommand? || cmd.DeleteDataNodeCommand? || cmd.DeleteMetaNodeCommand?
  }

  /** The entry leaves the data object in place. */
  predicate KeepsObject(e: Entry, err: Option<Error>) {
    err.Some? || e.command.AddShardOwnerCommand?
  }

  /** The effect of a command, stamped with term and index. */
  lemma StampedIsApplied(d: Data, e: Entry, autoCreate: bool, m: Data, err: Option<Error>, d': Data)
    requires MetaInv(d) && Effect(d, e.command, autoCreate, m, err) && d' == m.(term := e.term, index := e.index)
    ensures Applied(d, e, autoCreate, d', err) && (NoGroups(e.command) ==> MetaInv(d'))
    ensures err.Some? ==> m == d
  {
    EffectKeepsTerm(d, e.command, autoCreate, m, err);
    assert d'.(term := d.term, index := d.index) == m;
    if NoGroups(e.command) { AppliedGood(d, e, autoCreate, d', err); }
  }

  lemma AddingOwnerDoesNothing(d: Data, autoCreate: bool)
    ensures Effect(d, AddShardOwnerCommand, autoCreate, d, None)
  {
  }

  lemma OutcomeIsEffect(d: Data, cmd: Command, autoCreate: bool, d': Data, err: Option<Error>)
    requires !cmd.DeleteMetaNodeCommand? && !cmd.DeleteDataNodeCommand?
    requires Outcome(Execute(d, cmd, autoCreate), d, d', err)
    ensures Effect(d, cmd, autoCreate, d', err)
  {
  }

  // ---------- The store ----------

  class Store {
    const autoCreate: bool
    var data: MetaData
    /** Which `dataChanged` channel is the open one. */
    var changes: nat

    ghost predicate Valid()
      reads this, data, data.memory, data.memory.arrays
    {
      data.memory.Valid() && MetaInv(data.View())
    }

    constructor (autoCreate: bool)
      ensures Valid() && fresh(data) && fresh(data.memory) && data.memory.arrays == []
      ensures data.View() == INITIAL && changes == 0 && this.autoCreate == autoCreate
    {
      this.autoCreate := autoCreate;
      var memory := new Memory();
      data := new MetaData(INITIAL, memory);
      changes := 0;
      new;
    }

    /** Commands of the cluster's own metadata, on a clone. */
    method ChangeNodes(other: MetaData, cmd: Command) returns (err: Option<Error>)
      requires MetaInv(other.View()) && OnNodes(cmd)
      modifies other
      ensures Effect(old(other.View()), cmd, autoCreate, other.View(), err)
    {
      match cmd
      case CreateMetaNodeCommand(host, tcpHost, rand) =>
        var _ := other.CreateMetaNode(host, tcpHost);
        if other.clusterID == 0 {
          other.clusterID := rand;
        }
        err := None;
      case CreateDataNodeCommand(host, tcpHost) =>
        var _ := other.CreateDataNode(host, tcpHost);
        err := None;
      case DeleteDataNodeCommand(id) =>
        err := other.DeleteDataNode(id);
      case DeleteMetaNodeCommand(id, left) =>
        err := Leave(other, id, left);
    }

    /** Every other command, on a clone and on what the clone shares. */
    method ChangeData(other: MetaData, cmd: Command) returns (err: Option<Error>)
      requires other.memory.Valid() && !OnNodes(cmd)
      modifies other, other.memory, Objects(other.memory.arrays)
      ensures other.memory.Valid() && fresh(Objects(other.memory.arrays) - old(Objects(other.memory.arrays)))
      ensures Outcome(Execute(old(other.View()), cmd, autoCreate), old(other.View()), other.View(), err)
    {
      if cmd.CreateShardGroupCommand? {
        err := other.CreateShardGroup(cmd.database, cmd.policyName, cmd.timestamp);
      } else if cmd.CreateSubscriptionCommand? {
        err := other.CreateSubscription(cmd.database, cmd.policyName, cmd.sub, cmd.valid, cmd.spare);
      } else if cmd.DropSubscriptionCommand? {
        err := other.DropSubscription(cmd.database, cmd.policyName, cmd.subName);
      } else {
        err := ChangeLibrary(other, cmd);
      }
    }

    method ChangeLibrary(other: MetaData, cmd: Command) returns (err: Option<Error>)
      requires other.memory.Valid() && !OnNodes(cmd) && !OnSubscriptions(cmd)
      modifies other, other.memory
      ensures other.memory.Valid() && fresh(Objects(other.memory.arrays) - old(Objects(other.memory.arrays)))
      ensures Outcome(Execute(old(other.View()), cmd, autoCreate), old(other.View()), other.View(), err)
    {
      var d := other.Load();
      ExecuteKept(d, cmd, autoCreate);
      err := other.Install(Execute(d, cmd, autoCreate));
    }

    /** A clone that a command has changed, with what it shares. */
    method Fork(cmd: Command) returns (err: Option<Error>, other: MetaData)
      requires Valid()
      modifies data.memory, Objects(data.memory.arrays)
      ensures fresh(other) && other.memory == data.memory && data.memory.Valid()
      ensures fresh(Objects(data.memory.arrays) - old(Objects(data.memory.arrays)))
      ensures Effect(old(data.View()), cmd, autoCreate, other.View(), err)
    {
      other := data.Clone();
      err := Change(other, cmd);
    }

    method Change(other: MetaData, cmd: Command) returns (err: Option<Error>)
      requires other.memory.Valid() && MetaInv(other.View())
      modifies other, other.memory, Objects(other.memory.arrays)
      ensures other.memory.Valid() && fresh(Objects(other.memory.arrays) - old(Objects(other.memory.arrays)))
      ensures Effect(old(other.View()), cmd, autoCreate, other.View(), err)
    {
      if OnNodes(cmd) {
        err := ChangeNodes(other, cmd);
      } else {
        err := ChangeData(other, cmd);
        OutcomeIsEffect(old(other.View()), cmd, autoCreate, other.View(), err);
      }
    }

    method Leave(other: MetaData, id: nat, left: bool) returns (err: Option<Error>)
      requires MetaInv(other.View())
      modifies other
      ensures Effect(old(other.View()), DeleteMetaNodeCommand(id, left), autoCreate, other.View(), err)
    {
      var _, found := FilterNodes(other.metaNodes, id);
      if !found {
        return Some(NodeNotFound);
      }
      if !left {
        return Some(CommandFailed);
      }
      err := other.DeleteMetaNode(id);
    }

    /** One log entry. A command that fails, and one that only adds a shard owner, leaves
        the data object in place and stamps term and index on it. Every other one works
        on a clone that replaces the object, whose own fields then stay as they are. What
        the old object shows of subscriptions is in memory that both share. */
    method Apply(e: Entry) returns (err: Option<Error>)
      requires Valid()
      modifies this, data`term, data`index, data.memory, Objects(data.memory.arrays)
      ensures NoGroups(e.command) ==> Valid()
      ensures data.memory == old(data.memory) && data.memory.Valid()
      ensures fresh(Objects(data.memory.arrays) - old(Objects(data.memory.arrays)))
      ensures changes == old(changes) + 1
      ensures Applied(old(data.View()), e, autoCreate, data.View(), err)
      ensures KeepsObject(e, err) ==>
                data == old(data) && data.View() == old(data.View()).(term := e.term, index := e.index)
      ensures !KeepsObject(e, err) ==> fresh(data) && old(data).Own() == old(data.Own())
    {
      if e.command.AddShardOwnerCommand? {
        AddingOwnerDoesNothing(data.View(), autoCreate);
        StampedIsApplied(data.View(), e, autoCreate, data.View(), None, data.View().(term := e.term, index := e.index));
        Stamp(e);
        return None;
      }
      err := ApplyToClone(e);
    }

    /** One log entry that changes a clone, and swaps it in if it succeeds. */
    method ApplyToClone(e: Entry) returns (err: Option<Error>)
      requires Valid() && !e.command.AddShardOwnerCommand?
      modifies this, data`term, data`index, data.memory, Objects(data.memory.arrays)
      ensures NoGroups(e.command) ==> MetaInv(data.View())
      ensures data.memory == old(data.memory) && data.memory.Valid()
      ensures fresh(Objects(data.memory.arrays) - old(Objects(data.memory.arrays)))
      ensures changes == old(changes) + 1
      ensures Applied(old(data.View()), e, autoCreate, data.View(), err)
      ensures err.Some? ==> data == old(data) && data.View() == old(data.View()).(term := e.term, index := e.index)
      ensures err.None? ==> fresh(data) && old(data).Own() == old(data.Own())
    {
      var other;
      err, other := Fork(e.command);
      ghost var m := other.View().(term := e.term, index := e.index);
      StampedIsApplied(old(data.View()), e, autoCreate, other.View(), err, m);
      Adopt(other, err.None?, e);
      assert data.View() == m;
    }

    /** Swaps the clone in, or drops it, and stamps whatever is the data then. */
    method Adopt(other: MetaData, swap: bool, e: Entry)
      requires other != data
      modifies this`data, this`changes, data`term, data`index, other`term, other`index
      ensures data == (if swap then other else old(data)) && changes == old(changes) + 1
      ensures data.Own() == old(if swap then other.Own() else data.Own()).(term := e.term, index := e.index)
      ensures swap ==> old(data).Own() == old(data.Own())
    {
      if swap {
        data := other;
      }
      Stamp(e);
    }

    /** Copies term and index to whatever is the data now, and replaces the channel. */
    method Stamp(e: Entry)
      modifies this`changes, data`term, data`index
      ensures data.Own() == old(data.Own()).(term := e.term, index := e.index)
      ensures changes == old(changes) + 1
    {
      data.term := e.term;
      data.index := e.index;
      changes := changes + 1;
    }

    /** Any further run of commands: the fields of an object handed out before it are
        unchanged after it, but for term and index, and it shows its subscriptions as
        they are in memory then. */
    method ApplyAll(log: seq<Entry>) returns (errs: seq<Option<Error>>, ghost states: seq<Data>)
      requires Valid() && Plain(log)
      modifies this, data`term, data`index, data.memory, Objects(data.memory.arrays)
      ensures Valid() && (data == old(data) || fresh(data)) && changes == old(changes) + |log|
      ensures Steps(states, log, errs, autoCreate) && states[0] == old(data.View()) && states[|log|] == data.View()
      ensures data == old(data) <==> forall k | 0 <= k < |log| :: KeepsObject(log[k], errs[k])
      ensures old(data).View() ==
              old(data.View()).(term := old(data).term, index := old(data).index, arrays := states[|log|].arrays)
    {
      errs, states := [], [data.View()];
      var i := 0;
      while i < |log|
        invariant 0 <= i <= |log| && Valid() && (data == old(data) || fresh(data)) && changes == old(changes) + i
        invariant data.memory == old(data.memory) && fresh(Objects(data.memory.arrays) - old(Objects(data.memory.arrays)))
        invariant |errs| == i && (data == old(data) <==> forall k | 0 <= k < i :: KeepsObject(log[k], errs[k]))
        invariant Steps(states, log[..i], errs, autoCreate) && states[0] == old(data.View()) && states[i] == data.View()
      {
        assert log[i] in log;
        var err := Apply(log[i]);
        OneMoreStep(states, log[..i], errs, autoCreate, log[i], data.View(), err);
        TakeOneMore(log, i);
        errs, states := errs + [err], states + [data.View()];
        i := i + 1;
      }
      assert log[..i] == log;
    }
  }

  /** Library commands leave memory alone, or add an array. */
  lemma ExecuteKept(d: Data, cmd: Command, autoCreate: bool)
    requires !OnSubscriptions(cmd) && !cmd.DeleteMetaNodeCommand? && !cmd.DeleteDataNodeCommand?
    ensures Execute(d, cmd, autoCreate).Ok? ==> MemoryKept(d.arrays, Execute(d, cmd, autoCreate).data.arrays)
  {
    var r := Execute(d, cmd, autoCreate);
    if r.Ok? { OtherCommandSlices(d, cmd, autoCreate, r.data, None); }
  }

  /** A new store fed a log goes through a run of the state machine. */
  method Replay(log: seq<Entry>, autoCreate: bool) returns (errs: seq<Option<Error>>, final: Data, ghost states: seq<Data>)
    requires Plain(log)
    ensures IsRun(states, log, errs, autoCreate) && final == states[|log|] && MetaInv(final)
  {
    var store := new Store(autoCreate);
    errs, states := store.ApplyAll(log);
    final := store.data.Load();
  }
}

/**
 Cluster metadata as a value: nodes, databases, retention policies, shard
 groups and shards, with the counters that number them.
 */
module Metadata {
  import opened Basics

  datatype NodeInfo = NodeInfo(id: nat, host: string, tcpHost: string)

  datatype Shard = Shard(id: nat, owners: seq<nat>)

  /** Covers the instants from `start` up to, but not including, `end`. */
  datatype Group = Group(id: nat, start: int, end: int, deleted: bool, shards: seq<Shard>)

  datatype Subscription = Subscription(name: string, mode: string, destinations: seq<string>)

  /** The header of a slice: where its array is, and how much of it is in use. */
  datatype Subs = NoSubs | Subs(addr: nat, length: nat)

  datatype Policy = Policy(name: string, replicaN: nat, duration: int, groupDuration: int, groups: seq<Group>, subs: Subs)

  datatype Database = Database(name: string, defaultPolicy: string, policies: seq<Policy>)

  /** `arrays` is the memory that the slices of subscriptions point into, by address,
      each array with its full capacity. Copies of the metadata share it. */
  datatype Data = Data(
    metaNodes: seq<NodeInfo>,
    dataNodes: seq<NodeInfo>,
    databases: seq<Database>,
    maxNodeID: nat,
    maxShardID: nat,
    maxGroupID: nat,
    clusterID: nat,
    term: nat,
    index: nat,
    arrays: seq<seq<Subscription>>)

  // ---------- Looking things up ----------

  function Contains(g: Group, t: int): (b: bool) {
    g.start <= t < g.end
  }

  /** The first live group containing `t`. */
  function GroupAt(groups: seq<Group>, t: int): (r: Option<nat>) {
    Find(groups, (g: Group) => Contains(g, t) && !g.deleted)
  }

  function DatabaseAt(databases: seq<Database>, name: string): (r: Option<nat>) {
    Find(databases, (db: Database) => db.name == name)
  }

  function PolicyAt(policies: seq<Policy>, name: string): (r: Option<nat>) {
    Find(policies, (p: Policy) => p.name == name)
  }

  /** DatabaseInfo.RetentionPolicy: an empty name stands for the default policy. */
  function NamedPolicy(db: Database, name: string): (r: Option<nat>)
    ensures r.Some? ==> r.value < |db.policies|
  {
    if name == "" && db.defaultPolicy == "" then None
    else PolicyAt(db.policies, if name == "" then db.defaultPolicy else name)
  }

  // ---------- Results ----------

  datatype Error =
    | DatabaseNameRequired
    | DatabaseNotFound
    | PolicyNameRequired
    | PolicyNotFound
    | PolicyExists
    | PolicyConflict
    | PolicyNameExists
    | ReplicationFactorTooLow
    | IncompatibleDurations
    | DurationTooLow
    | ShardGroupNotFound
    | NodeNotFound
    | NodeExists
    | NoOwnerAvailable
    | InvalidURL
    | SubscriptionExists
    | SubscriptionNotFound
    | CommandFailed

  datatype Result = Ok(data: Data) | Err(error: Error)

  function SetPolicy(d: Data, i: nat, j: nat, p: Policy): (r: Data)
    requires i < |d.databases| && j < |d.databases[i].policies|
  {
    d.(databases := d.databases[i := d.databases[i].(policies := d.databases[i].policies[j := p])])
  }

  // ---------- Databases and policies ----------

  const HOUR: int := 3_600_000_000_000
  const DAY: int := 24 * HOUR

  function CreateDatabase(d: Data, name: string): (r: Result)
    ensures r.Ok? ==> r.data == d.(databases := r.data.databases)
  {
    if name == "" then Err(DatabaseNameRequired)
    else if DatabaseAt(d.databases, name).Some? then Ok(d)
    else Ok(d.(databases := d.databases + [Database(name, "", [])]))
  }

  function DropDatabase(d: Data, name: string): (r: Data)
    ensures r == d.(databases := r.databases)
  {
    match DatabaseAt(d.databases, name)
    case None => d
    case Some(i) => d.(databases := Without(d.databases, i))
  }

  function DefaultGroupDuration(duration: int): (sgd: int)
    ensures sgd > 0
  {
    if duration >= 180 * DAY || duration == 0 then 7 * DAY
    else if duration >= 2 * DAY then DAY
    else HOUR
  }

  /** A group duration is never zero or negative once normalised. */
  function NormalisedGroupDuration(sgd: int, duration: int): (r: int)
    ensures r > 0
  {
    if sgd == 0 then DefaultGroupDuration(duration)
    else if sgd < HOUR then DefaultGroupDuration(HOUR)
    else sgd
  }

  /** A policy as the bytes of a command give it. They may carry shard groups and
      subscriptions. */
  datatype PolicySpec = PolicySpec(name: string, replicaN: int, duration: int, groupDuration: int, groups: seq<Group>, subs: seq<Subscription>)

  /** The policy that a command adds; its subscriptions get an array of their own. */
  function NewPolicy(d: Data, spec: PolicySpec): (p: Policy)
    requires spec.replicaN >= 0
  {
    Policy(spec.name, spec.replicaN, spec.duration, NormalisedGroupDuration(spec.groupDuration, spec.duration), spec.groups,
           if spec.subs == [] then NoSubs else Subs(|d.arrays|, |spec.subs|))
  }

  function CreatePolicy(d: Data, database: string, spec: PolicySpec, makeDefault: bool): (r: Result)
    ensures r.Ok? ==> r.data == d.(databases := r.data.databases, arrays := r.data.arrays)
  {
    if spec.name == "" then Err(PolicyNameRequired)
    else if spec.replicaN < 1 then Err(ReplicationFactorTooLow)
    else
      var sgd := NormalisedGroupDuration(spec.groupDuration, spec.duration);
      if spec.duration > 0 && spec.duration < sgd then Err(IncompatibleDurations)
      else
        match DatabaseAt(d.databases, database)
        case None => Err(DatabaseNotFound)
        case Some(i) =>
          var db := d.databases[i];
          match NamedPolicy(db, spec.name)
          case Some(j) =>
            var p := db.policies[j];
            if p.replicaN != spec.replicaN || p.duration != spec.duration || p.groupDuration != sgd then Err(PolicyExists)
            else if makeDefault && db.defaultPolicy != spec.name then Err(PolicyConflict)
            else Ok(d)
          case None =>
            Ok(d.(databases := d.databases[i := Database(
                    db.name, if makeDefault then spec.name else db.defaultPolicy, db.policies + [NewPolicy(d, spec)])],
                  arrays := if spec.subs == [] then d.arrays else d.arrays + [spec.subs]))
  }

  function DropPolicy(d: Data, database: string, name: string): (r: Data)
    ensures r == d.(databases := r.databases)
  {
    match DatabaseAt(d.databases, database)
    case None => d
    case Some(i) =>
      match PolicyAt(d.databases[i].policies, name)
      case None => d
      case Some(j) =>
        d.(databases := d.databases[i := d.databases[i].(policies := Without(d.databases[i].policies, j))])
  }

  datatype PolicyUpdate = PolicyUpdate(name: Option<string>, duration: Option<int>, replicaN: Option<nat>)

  function UpdatePolicy(d: Data, database: string, name: string, u: PolicyUpdate): (r: Result)
    ensures r.Ok? ==> r.data == d.(databases := r.data.databases)
  {
    match DatabaseAt(d.databases, database)
    case None => Err(DatabaseNotFound)
    case Some(i) =>
      var db := d.databases[i];
      match NamedPolicy(db, name)
      case None => Err(PolicyNotFound)
      case Some(j) =>
        var p := db.policies[j];
        if u.name.Some? && u.name.value != name && NamedPolicy(db, u.name.value).Some? then Err(PolicyNameExists)
        else if u.duration.Some? && u.duration.value < HOUR && u.duration.value != 0 then Err(DurationTooLow)
        else if u.duration.Some? && u.duration.value > 0 && u.duration.value < p.groupDuration then Err(IncompatibleDurations)
        else
          Ok(SetPolicy(d, i, j, p.(
            name := if u.name.Some? then u.name.value else p.name,
            duration := if u.duration.Some? then u.duration.value else p.duration,
            replicaN := if u.replicaN.Some? then u.replicaN.value else p.replicaN)))
  }

  function DeleteShardGroup(d: Data, database: string, policy: string, id: nat): (r: Result)
    ensures r.Ok? ==> r.data == d.(databases := r.data.databases)
  {
    match DatabaseAt(d.databases, database)
    case None => Err(DatabaseNotFound)
    case Some(i) =>
      match PolicyAt(d.databases[i].policies, policy)
      case None => Err(PolicyNotFound)
      case Some(j) =>
        var p := d.databases[i].policies[j];
        match Find(p.groups, (g: Group) => g.id == id)
        case None => Err(ShardGroupNotFound)
        case Some(k) =>
          Ok(SetPolicy(d, i, j, p.(groups := p.groups[k := p.groups[k].(deleted := true)])))
  }

  // ---------- Subscriptions ----------

  /** What a slice shows. */
  function Shown(arrays: seq<seq<Subscription>>, subs: Subs): (r: seq<Subscription>) {
    if subs.NoSubs? || subs.addr >= |arrays| || subs.length > |arrays[subs.addr]| then []
    else arrays[subs.addr][..subs.length]
  }

  function NameAt(elems: seq<Subscription>, name: string): (r: Option<nat>) {
    Find(elems, (s: Subscription) => s.name == name)
  }

  const BLANK: Subscription := Subscription("", "", [])

  /** The slice has room behind its last element. */
  predicate HasRoom(arrays: seq<seq<Subscription>>, subs: Subs) {
    subs.Subs? && subs.addr < |arrays| && subs.length < |arrays[subs.addr]|
  }

  /** Appending to a slice: in place if there is room, else into a new array with
      `spare` room left. */
  function AppendSub(arrays: seq<seq<Subscription>>, subs: Subs, sub: Subscription, spare: nat): (r: (seq<seq<Subscription>>, Subs)) {
    if HasRoom(arrays, subs) then
      (arrays[subs.addr := arrays[subs.addr][subs.length := sub]], Subs(subs.addr, subs.length + 1))
    else
      var elems := Shown(arrays, subs);
      (arrays + [elems + [sub] + seq(spare, _ => BLANK)], Subs(|arrays|, |elems| + 1))
  }

  /** The first `n` elements with element `k` cut out; the last one stays behind. */
  function CutOut<T>(a: seq<T>, k: nat, n: nat): (r: seq<T>)
    requires k < n <= |a|
    ensures |r| == |a|
    ensures forall i | 0 <= i < |a| :: r[i] == if k <= i < n - 1 then a[i + 1] else a[i]
  {
    a[..k] + a[k + 1..n] + a[n - 1..]
  }

  /** `valid` says whether the destinations are URLs, and `spare` how much room a new
      array is given; both are decided outside the metadata. */
  function CreateSubscription(d: Data, database: string, policy: string, sub: Subscription, valid: bool, spare: nat): (r: Result)
    ensures r.Ok? ==> r.data == d.(databases := r.data.databases, arrays := r.data.arrays)
  {
    if !valid then Err(InvalidURL)
    else
      match DatabaseAt(d.databases, database)
      case None => Err(DatabaseNotFound)
      case Some(i) =>
        match PolicyAt(d.databases[i].policies, policy)
        case None => Err(PolicyNotFound)
        case Some(j) =>
          var p := d.databases[i].policies[j];
          if NameAt(Shown(d.arrays, p.subs), sub.name).Some? then Err(SubscriptionExists)
          else
            var (arrays, subs) := AppendSub(d.arrays, p.subs, sub, spare);
            Ok(SetPolicy(d, i, j, p.(subs := subs)).(arrays := arrays))
  }

  function DropSubscription(d: Data, database: string, policy: string, name: string): (r: Result)
    ensures r.Ok? ==> r.data == d.(databases := r.data.databases, arrays := r.data.arrays)
  {
    match DatabaseAt(d.databases, database)
    case None => Err(DatabaseNotFound)
    case Some(i) =>
      match PolicyAt(d.databases[i].policies, policy)
      case None => Err(PolicyNotFound)
      case Some(j) =>
        var p := d.databases[i].policies[j];
        match NameAt(Shown(d.arrays, p.subs), name)
        case None => Err(SubscriptionNotFound)
        case Some(k) =>
          var a := p.subs.addr;
          Ok(SetPolicy(d, i, j, p.(subs := Subs(a, p.subs.length - 1))).(
            arrays := d.arrays[a := CutOut(d.arrays[a], k, p.subs.length)]))
  }

  // ---------- Nodes ----------

  function HostAt(nodes: seq<NodeInfo>, tcpHost: string): (r: Option<nat>) {
    Find(nodes, (n: NodeInfo) => n.tcpHost == tcpHost)
  }

  /** Appending and sorting by ID, on a list that is sorted already. */
  function InsertNode(nodes: seq<NodeInfo>, n: NodeInfo): (r: seq<NodeInfo>)
    ensures multiset(r) == multiset(nodes) + multiset{n}
  {
    if nodes == [] then [n]
    else if n.id < nodes[0].id then [n] + nodes
    else
      assert nodes == [nodes[0]] + nodes[1..];
      [nodes[0]] + InsertNode(nodes[1..], n)
  }

  /** The ID of the meta node with this host, or zero. */
  function ExistingID(d: Data, tcpHost: string): (id: nat) {
    match HostAt(d.metaNodes, tcpHost)
    case None => 0
    case Some(i) => d.metaNodes[i].id
  }

  function AssignedID(d: Data, tcpHost: string): (id: nat) {
    if ExistingID(d, tcpHost) == 0 then d.maxNodeID + 1 else ExistingID(d, tcpHost)
  }

  function CreateMetaNode(d: Data, host: string, tcpHost: string): (r: Result) {
    if HostAt(d.dataNodes, tcpHost).Some? then Err(NodeExists)
    else
      Ok(d.(maxNodeID := if ExistingID(d, tcpHost) == 0 then d.maxNodeID + 1 else d.maxNodeID,
            metaNodes := InsertNode(d.metaNodes, NodeInfo(AssignedID(d, tcpHost), host, tcpHost))))
  }

  function CreateDataNode(d: Data, host: string, tcpHost: string): (r: Result) {
    if HostAt(d.dataNodes, tcpHost).Some? then Err(NodeExists)
    else
      Ok(d.(maxNodeID := if ExistingID(d, tcpHost) == 0 then d.maxNodeID + 1 else d.maxNodeID,
            dataNodes := InsertNode(d.dataNodes, NodeInfo(AssignedID(d, tcpHost), host, tcpHost))))
  }

  function RemoveNode(nodes: seq<NodeInfo>, id: nat): (r: seq<NodeInfo>)
    ensures forall n :: n in r <==> n in nodes && n.id != id
  {
    if nodes == [] then []
    else if nodes[0].id == id then RemoveNode(nodes[1..], id)
    else [nodes[0]] + RemoveNode(nodes[1..], id)
  }

  ghost function NodeIDs(nodes: seq<NodeInfo>): (ids: set<nat>) {
    set n <- nodes :: n.id
  }
}

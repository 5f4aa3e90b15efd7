/**
 Shard groups in time: creating the group for a timestamp, and why the live
 groups of a policy never overlap.
 */
module ShardGroups {
  import opened Basics
  import opened Metadata
  import opened Placement

  /** Rounding down to a multiple of the group duration; times are counted from
      the zero time, and a duration that is not positive rounds nothing. */
  function Truncate(t: int, d: int): (r: int)
    ensures d > 0 ==> r <= t < r + d && r % d == 0
  {
    if d <= 0 then t
    else
      TruncateIsMultiple(t, d);
      t - t % d
  }

  lemma TruncateIsMultiple(t: int, d: int)
    requires d > 0
    ensures (t - t % d) % d == 0
  {
    var x := t - t % d;
    Division(t, d);
    Division(x, d);
    Distribute(d, t / d, x / d);
    if t / d > x / d { MulAtLeast(d, t / d - x / d); }
    if t / d < x / d { MulAtLeast(d, x / d - t / d); Distribute(d, x / d, t / d); }
  }

  /** Two multiples of `d` are equal or at least `d` apart. */
  lemma MultiplesApart(a: int, b: int, d: int)
    requires d > 0 && a % d == 0 && b % d == 0 && a < b
    ensures a + d <= b
  {
    Division(a, d);
    Division(b, d);
    Distribute(d, b / d, a / d);
    Distribute(d, a / d, b / d);
    if b / d > a / d { MulAtLeast(d, b / d - a / d); }
    if b / d < a / d { MulAtLeast(d, a / d - b / d); }
  }

  /** The order groups are kept in: by end, then by start. */
  predicate Less(a: Group, b: Group) {
    a.end < b.end || (a.end == b.end && a.start < b.start)
  }

  /** Appending and sorting, on a list that is sorted already. */
  function InsertGroup(groups: seq<Group>, g: Group): (r: seq<Group>)
    ensures multiset(r) == multiset(groups) + multiset{g}
  {
    if groups == [] then [g]
    else if Less(g, groups[0]) then [g] + groups
    else
      assert groups == [groups[0]] + groups[1..];
      [groups[0]] + InsertGroup(groups[1..], g)
  }

  /** A new group goes in before the first group that ends later, or at the same time and
      starts later. */
  lemma {:induction false} InsertAt(groups: seq<Group>, g: Group) returns (i: nat)
    ensures i <= |groups|
    ensures InsertGroup(groups, g) == groups[..i] + [g] + groups[i..]
    ensures forall k | 0 <= k < i :: groups[k].end < g.end || (groups[k].end == g.end && groups[k].start <= g.start)
    ensures i < |groups| ==> groups[i].end > g.end || (groups[i].end == g.end && groups[i].start > g.start)
  {
    if groups == [] || Less(g, groups[0]) {
      i := 0;
    } else {
      var k := InsertAt(groups[1..], g);
      i := k + 1;
      ShiftSplice(groups, g, k);
      forall j | 0 <= j < i
        ensures groups[j].end < g.end || (groups[j].end == g.end && groups[j].start <= g.start)
      {
        assert j > 0 ==> groups[j] == groups[1..][j - 1];
      }
    }
  }

  lemma ShiftSplice<T>(s: seq<T>, x: T, k: nat)
    requires k < |s|
    ensures [s[0]] + (s[1..][..k] + [x] + s[1..][k..]) == s[..k + 1] + [x] + s[k + 1..]
  {
  }

  // ---------- Groups of one policy ----------

  /** Groups are whole slots of the policy's group duration, in order, and no two
      live groups share a slot. */
  ghost predicate PolicyTimes(p: Policy) {
    && p.groupDuration > 0
    && (forall g <- p.groups :: g.start % p.groupDuration == 0 && g.end == g.start + p.groupDuration)
    && InOrder(p.groups)
    && LiveApart(p.groups)
  }

  /** Live groups of a policy are disjoint and sorted. */
  lemma LiveGroupsDisjoint(p: Policy, i: nat, j: nat)
    requires PolicyTimes(p) && i < j < |p.groups| && !p.groups[i].deleted && !p.groups[j].deleted
    ensures p.groups[i].end <= p.groups[j].start
  {
    MultiplesApart(p.groups[i].start, p.groups[j].start, p.groupDuration);
  }

  ghost predicate InOrder(groups: seq<Group>) {
    forall i, j | 0 <= i < j < |groups| :: groups[i].start <= groups[j].start
  }

  ghost predicate LiveApart(groups: seq<Group>) {
    forall i, j | 0 <= i < j < |groups| && !groups[i].deleted && !groups[j].deleted :: groups[i].start != groups[j].start
  }

  lemma SpliceInOrder(a: seq<Group>, g: Group, b: seq<Group>)
    requires InOrder(a + b) && LiveApart(a + b)
    requires forall x <- a :: x.start <= g.start
    requires b != [] ==> g.start <= b[0].start
    requires forall x | x in a || x in b :: x.deleted || x.start != g.start
    ensures InOrder(a + [g] + b) && LiveApart(a + [g] + b)
  {
    var before, after := a + b, a + [g] + b;
    forall k | 0 <= k < |b|
      ensures g.start <= b[k].start
    {
      assert b[0] == before[|a|] && b[k] == before[|a| + k];
    }
    forall i, j | 0 <= i < j < |after|
      ensures after[i].start <= after[j].start
      ensures !after[i].deleted && !after[j].deleted ==> after[i].start != after[j].start
    {
      if i != |a| && j != |a| {
        var i', j' := if i < |a| then i else i - 1, if j < |a| then j else j - 1;
        assert after[i] == before[i'] && after[j] == before[j'];
      }
    }
  }

  lemma InsertKeepsTimes(p: Policy, g: Group)
    requires PolicyTimes(p)
    requires g.start % p.groupDuration == 0 && g.end == g.start + p.groupDuration
    requires forall x <- p.groups :: x.deleted || x.start != g.start
    ensures PolicyTimes(p.(groups := InsertGroup(p.groups, g)))
  {
    var i := InsertAt(p.groups, g);
    var a, b := p.groups[..i], p.groups[i..];
    assert p.groups == a + b;
    forall x | x in a
      ensures x.start <= g.start
    {
      var k :| 0 <= k < i && p.groups[k] == x;
      assert x in p.groups;
    }
    assert b != [] ==> b[0] in p.groups;
    SpliceInOrder(a, g, b);
    forall x | x in a + [g] + b
      ensures x.start % p.groupDuration == 0 && x.end == x.start + p.groupDuration
    {
      assert x == g || x in p.groups;
    }
  }

  // ---------- CreateShardGroup ----------

  function NewGroup(d: Data, p: Policy, t: int): (g: Group)
    requires d.dataNodes != []
  {
    var r := Replicas(p.replicaN, |d.dataNodes|);
    var start := Truncate(t, p.groupDuration);
    Group(d.maxGroupID + 1, start, start + p.groupDuration, false,
          PlacedShards(d.dataNodes, d.maxShardID, d.index % |d.dataNodes|, |d.dataNodes| / r, r))
  }

  /** Without data nodes, and when a live group covers the time, nothing happens. */
  function CreateShardGroup(d: Data, database: string, policy: string, t: int): (r: Result) {
    if d.dataNodes == [] then Ok(d)
    else
      match DatabaseAt(d.databases, database)
      case None => Err(DatabaseNotFound)
      case Some(i) =>
        match PolicyAt(d.databases[i].policies, policy)
        case None => Err(PolicyNotFound)
        case Some(j) =>
          var p := d.databases[i].policies[j];
          if GroupAt(p.groups, t).Some? then Ok(d)
          else
            var g := NewGroup(d, p, t);
            Ok(SetPolicy(d, i, j, p.(groups := InsertGroup(p.groups, g))).(
              maxGroupID := d.maxGroupID + 1, maxShardID := d.maxShardID + |g.shards|))
  }

  /** A policy with no live group at `t` has no live group in that slot. */
  lemma NoLiveGroupInSlot(p: Policy, t: int, x: Group)
    requires PolicyTimes(p) && GroupAt(p.groups, t).None? && x in p.groups
    ensures x.deleted || x.start != Truncate(t, p.groupDuration)
  {
  }

  lemma NewGroupKeepsTimes(d: Data, p: Policy, t: int)
    requires d.dataNodes != [] && PolicyTimes(p) && GroupAt(p.groups, t).None?
    ensures PolicyTimes(p.(groups := InsertGroup(p.groups, NewGroup(d, p, t))))
  {
    forall x <- p.groups
      ensures x.deleted || x.start != Truncate(t, p.groupDuration)
    {
      NoLiveGroupInSlot(p, t, x);
    }
    InsertKeepsTimes(p, NewGroup(d, p, t));
  }

  /** The policy by these names, if both exist. */
  function Lookup(d: Data, database: string, policy: string): (r: Option<Policy>) {
    match DatabaseAt(d.databases, database)
    case None => None
    case Some(i) =>
      match PolicyAt(d.databases[i].policies, policy)
      case None => None
      case Some(j) => Some(d.databases[i].policies[j])
  }
}

/**
 Mapping a batch of points to shards: one pass asks for the shard groups that the
 batch needs, a second one hands each point to a shard.
 */
module PointsWriter {
  import opened Basics
  import opened Metadata
  import opened ShardGroups
  import MetaInvariant

  datatype Point = Point(time: int, hash: nat, body: seq<nat>)

  // ---------- The list of groups ----------

  /** sort.Search for the first group that ends after `t`. */
  function Search(l: seq<Group>, t: int, i: nat, j: nat): (r: nat)
    requires i <= j <= |l|
    ensures i <= r <= j
    decreases j - i
  {
    if i >= j then i
    else
      var h := i + (j - i) / 2;
      if l[h].end > t then Search(l, t, i, h) else Search(l, t, h + 1, j)
  }

  function ShardGroupAt(l: seq<Group>, t: int): (r: Option<nat>)
    ensures r.Some? ==> r.value < |l|
  {
    var idx := Search(l, t, 0, |l|);
    if idx == |l| || t < l[idx].start then None else Some(idx)
  }

  function Covers(l: seq<Group>, t: int): (b: bool) {
    if |l| == 0 then false else ShardGroupAt(l, t).Some?
  }

  ghost predicate EndsSorted(l: seq<Group>) {
    forall i, j | 0 <= i < j < |l| :: l[i].end <= l[j].end
  }

  lemma {:induction false} SearchSplits(l: seq<Group>, t: int, i: nat, j: nat)
    requires i <= j <= |l| && EndsSorted(l)
    requires (forall k | 0 <= k < i :: l[k].end <= t) && (forall k | j <= k < |l| :: l[k].end > t)
    ensures var r := Search(l, t, i, j);
            (forall k | 0 <= k < r :: l[k].end <= t) && (forall k | r <= k < |l| :: l[k].end > t)
    decreases j - i
  {
    if i < j {
      var h := i + (j - i) / 2;
      if l[h].end > t { SearchSplits(l, t, i, h); } else { SearchSplits(l, t, h + 1, j); }
    }
  }

  /** A list of live groups with shards, sorted and apart, all of one duration. */
  ghost predicate ListOK(l: seq<Group>, d: int) {
    PolicyTimes(Policy("", 0, 0, d, l, NoSubs)) && forall g <- l :: !g.deleted && g.shards != []
  }

  lemma ListSorted(l: seq<Group>, d: int)
    requires ListOK(l, d)
    ensures EndsSorted(l)
    ensures forall i, j | 0 <= i < j < |l| :: l[i].end <= l[j].start
  {
    forall i, j | 0 <= i < j < |l|
      ensures l[i].end <= l[j].end && l[i].end <= l[j].start
    {
      LiveGroupsDisjoint(Policy("", 0, 0, d, l, NoSubs), i, j);
      assert l[j] in l;
    }
  }

  /** Bisection finds a group that contains `t` exactly when a linear scan does,
      and then it is the only one. */
  lemma BisectionFinds(l: seq<Group>, d: int, t: int)
    requires ListOK(l, d)
    ensures ShardGroupAt(l, t) == GroupAt(l, t)
    ensures ShardGroupAt(l, t).Some? ==> forall i | 0 <= i < |l| :: Contains(l[i], t) <==> i == ShardGroupAt(l, t).value
    ensures ShardGroupAt(l, t).None? ==> forall g <- l :: !Contains(g, t)
  {
    ListSorted(l, d);
    SearchSplits(l, t, 0, |l|);
    var idx := Search(l, t, 0, |l|);
    forall i | 0 <= i < |l|
      ensures Contains(l[i], t) <==> i == idx && l[idx].start <= t
    {
      assert i > idx ==> l[idx].end <= l[i].start;
    }
    forall i | 0 <= i < |l|
      ensures l[i] in l
    {
    }
    if idx < |l| && l[idx].start <= t {
      FirstContaining(l, t, idx);
    } else {
      NoneContaining(l, t);
    }
  }

  lemma FirstContaining(l: seq<Group>, t: int, idx: nat)
    requires idx < |l| && (forall g <- l :: !g.deleted) && forall i | 0 <= i < |l| :: Contains(l[i], t) <==> i == idx
    ensures GroupAt(l, t) == Some(idx)
  {
    assert l[idx] in l;
    var r := GroupAt(l, t);
    assert r.Some? ==> Contains(l[r.value], t);
  }

  lemma NoneContaining(l: seq<Group>, t: int)
    requires forall i | 0 <= i < |l| :: !Contains(l[i], t)
    ensures GroupAt(l, t).None?
  {
  }

  // ---------- First pass ----------

  /** What the metadata client answers when it is asked for the group of a time. */
  datatype Reply = Failed(error: string) | Nil | Found(group: Group)

  datatype MapError = LookupFailed(error: string) | NoSuchPolicy | CreateFailed(error: string) | NilShardGroup

  /** The groups of a policy are the slots of its group duration, and they have shards. */
  ghost predicate Slots(create: (nat, int) -> Reply, d: int) {
    d > 0 && forall k, t {:trigger create(k, t)} :: create(k, t).Found? ==> SlotOf(create(k, t).group, t, d)
  }

  ghost predicate SlotOf(g: Group, t: int, d: int) {
    d > 0 && g.start == Truncate(t, d) && g.end == g.start + d && !g.deleted && g.shards != []
  }

  /** What the metadata guarantees about the group it finds for a time. */
  lemma LiveGroupIsSlot(p: Policy, ids: set<nat>, t: int)
    requires MetaInvariant.PolicyOK(p, ids) && GroupAt(p.groups, t).Some?
    ensures SlotOf(p.groups[GroupAt(p.groups, t).value], t, p.groupDuration)
  {
    var g := p.groups[GroupAt(p.groups, t).value];
    assert g in p.groups && MetaInvariant.GroupOK(g, ids);
    var start := Truncate(t, p.groupDuration);
    if start < g.start { MultiplesApart(start, g.start, p.groupDuration); }
    if g.start < start { MultiplesApart(g.start, start, p.groupDuration); }
  }

  /** Groups have shards; on one without any the source divides by zero. */
  ghost predicate WithShards(create: (nat, int) -> Reply) {
    forall k, t {:trigger create(k, t)} :: create(k, t).Found? ==> create(k, t).group.shards != []
  }

  lemma InsertMembers(l: seq<Group>, g: Group)
    ensures forall x :: x in InsertGroup(l, g) <==> x in l || x == g
  {
  }

  lemma AppendKeeps(l: seq<Group>, d: int, t: int, g: Group)
    requires ListOK(l, d) && SlotOf(g, t, d) && !Covers(l, t)
    ensures ListOK(InsertGroup(l, g), d)
  {
    var p := Policy("", 0, 0, d, l, NoSubs);
    if l != [] { BisectionFinds(l, d, t); }
    forall x <- l
      ensures x.deleted || x.start != g.start
    {
      assert !Contains(x, t);
    }
    InsertKeepsTimes(p, g);
    forall x <- InsertGroup(l, g)
      ensures !x.deleted && x.shards != []
    {
      assert x in multiset(InsertGroup(l, g));
    }
  }

  /** Some point of the batch that is not too old lies in the same slot as `t`. */
  ghost predicate Needed(points: seq<Point>, min: int, d: int, t: int)
    requires d > 0
  {
    exists q <- points :: q.time >= min && Truncate(q.time, d) == Truncate(t, d)
  }

  /** The list has a group for exactly the slots that the points need. */
  ghost predicate Collected(l: seq<Group>, points: seq<Point>, min: int, d: int) {
    ListOK(l, d) && forall t :: ShardGroupAt(l, t).Some? <==> Needed(points, min, d, t)
  }

  lemma SameSlotContains(g: Group, t: int, u: int, d: int)
    requires SlotOf(g, t, d)
    ensures Contains(g, u) <==> Truncate(u, d) == Truncate(t, d)
  {
    if Contains(g, u) && Truncate(u, d) < g.start { MultiplesApart(Truncate(u, d), g.start, d); }
    if Contains(g, u) && Truncate(u, d) > g.start { MultiplesApart(g.start, Truncate(u, d), d); }
  }

  lemma FoundIff(l: seq<Group>, d: int, t: int)
    requires ListOK(l, d)
    ensures ShardGroupAt(l, t).Some? <==> exists g <- l :: Contains(g, t)
  {
    BisectionFinds(l, d, t);
    if ShardGroupAt(l, t).Some? { assert l[ShardGroupAt(l, t).value] in l; }
  }

  lemma AppendFinds(l: seq<Group>, d: int, t: int, g: Group, u: int)
    requires ListOK(l, d) && SlotOf(g, t, d) && !Covers(l, t)
    ensures ShardGroupAt(InsertGroup(l, g), u).Some? <==> ShardGroupAt(l, u).Some? || Truncate(u, d) == Truncate(t, d)
  {
    AppendKeeps(l, d, t, g);
    var l' := InsertGroup(l, g);
    forall x
      ensures x in l' <==> x in l || x == g
    {
      assert x in multiset(l') <==> x in multiset(l) || x == g;
    }
    FoundIff(l, d, u);
    FoundIff(l', d, u);
    SameSlotContains(g, t, u, d);
  }

  lemma NeededOneMore(points: seq<Point>, p: Point, min: int, d: int, t: int)
    requires d > 0
    ensures Needed(points + [p], min, d, t) <==>
              Needed(points, min, d, t) || (p.time >= min && Truncate(p.time, d) == Truncate(t, d))
  {
  }

  lemma SkipKeeps(l: seq<Group>, points: seq<Point>, p: Point, min: int, d: int)
    requires Collected(l, points, min, d) && (p.time < min || Covers(l, p.time))
    ensures Collected(l, points + [p], min, d)
  {
  }

  lemma CreateKeeps(l: seq<Group>, points: seq<Point>, p: Point, min: int, d: int, g: Group)
    requires Collected(l, points, min, d) && p.time >= min && !Covers(l, p.time) && SlotOf(g, p.time, d)
    ensures Collected(InsertGroup(l, g), points + [p], min, d)
  {
    AppendKeeps(l, d, p.time, g);
    forall t
      ensures ShardGroupAt(InsertGroup(l, g), t).Some? <==> Needed(points + [p], min, d, t)
    {
      AppendFinds(l, d, p.time, g, t);
      NeededOneMore(points, p, min, d, t);
    }
  }

  /** The groups for a batch. Point `k` asks with `create(k, time)` unless it is too
      old or an earlier answer covers it. */
  method CollectGroups(points: seq<Point>, min: int, create: (nat, int) -> Reply, ghost d: int)
    returns (err: Option<MapError>, list: seq<Group>)
    requires WithShards(create)
    ensures forall g <- list :: g.shards != []
    ensures err.None? && Slots(create, d) ==> Collected(list, points, min, d)
    ensures err.Some? ==>
              exists k :: 0 <= k < |points| && points[k].time >= min &&
                match create(k, points[k].time)
                case Failed(e) => err == Some(CreateFailed(e))
                case Nil => err == Some(NilShardGroup)
                case Found(_) => false
  {
    list, err := [], None;
    var k := 0;
    while k < |points|
      invariant 0 <= k <= |points| && forall g <- list :: g.shards != []
      invariant Slots(create, d) ==> Collected(list, points[..k], min, d)
    {
      var p := points[k];
      TakeOneMore(points, k);
      if p.time < min || Covers(list, p.time) {
        if Slots(create, d) { SkipKeeps(list, points[..k], p, min, d); }
      } else {
        match create(k, p.time)
        case Failed(e) => return Some(CreateFailed(e)), list;
        case Nil => return Some(NilShardGroup), list;
        case Found(g) =>
          if Slots(create, d) { CreateKeeps(list, points[..k], p, min, d, g); }
          InsertMembers(list, g);
          list := InsertGroup(list, g);
      }
      k := k + 1;
    }
    assert points[..k] == points;
  }

  // ---------- Second pass ----------

  /** The shard that the hash selects in a group. */
  function ShardFor(g: Group, hash: nat): (s: Shard)
    requires g.shards != []
  {
    g.shards[hash % |g.shards|]
  }

  function Assigned(l: seq<Group>, p: Point): (r: Option<Shard>)
    requires forall g <- l :: g.shards != []
  {
    match ShardGroupAt(l, p.time)
    case None => None
    case Some(i) => Some(ShardFor(l[i], p.hash))
  }

  /** The points for shard `id`, in the order of the request. */
  function PointsFor(points: seq<Point>, l: seq<Group>, id: nat): (r: seq<Point>)
    requires forall g <- l :: g.shards != []
  {
    if points == [] then []
    else
      var k := |points| - 1;
      var a := Assigned(l, points[k]);
      PointsFor(points[..k], l, id) + if a.Some? && a.value.id == id then [points[k]] else []
  }

  /** A slice: its elements, and how many fit before it has to grow. */
  datatype Slice = Slice(elems: seq<Point>, cap: nat)

  /** Appending, with room for at least the new length. */
  function AppendTo(s: Slice, p: Point): (r: Slice) {
    Slice(s.elems + [p], if |s.elems| < s.cap then s.cap else 2 * |s.elems| + 1)
  }

  class ShardMapping {
    const n: nat
    var points: map<nat, Slice>
    var shards: map<nat, Shard>

    /** Every slice has the capacity it was first given, so it is never replaced again. */
    ghost predicate Valid()
      reads this
    {
      && points.Keys == shards.Keys
      && (forall id <- points :: points[id].cap >= n && points[id].elems != [])
      && (forall id <- shards :: shards[id].id == id)
    }

    /** What is mapped to a shard so far. */
    function Mapped(id: nat): (r: seq<Point>)
      reads this
    {
      if id in points then points[id].elems else []
    }

    constructor (n: nat)
      ensures Valid() && this.n == n && points == map[] && shards == map[]
    {
      this.n, points, shards := n, map[], map[];
    }

    /** One point more for one shard. The reset of a slice with too little capacity
        loses nothing, and no other shard is touched. */
    method MapPoint(s: Shard, p: Point)
      requires Valid()
      modifies this
      ensures Valid()
      ensures forall id :: Mapped(id) == old(Mapped(id)) + if id == s.id then [p] else []
      ensures shards == old(shards)[s.id := s]
    {
      var slice := if s.id in points then points[s.id] else Slice([], 0);
      if slice.cap < n {
        slice := Slice([], n);
      }
      points := points[s.id := AppendTo(slice, p)];
      shards := shards[s.id := s];
    }
  }

  lemma PointsForOneMore(points: seq<Point>, p: Point, l: seq<Group>, id: nat)
    requires forall g <- l :: g.shards != []
    ensures PointsFor(points + [p], l, id) ==
            PointsFor(points, l, id) + if Assigned(l, p).Some? && Assigned(l, p).value.id == id then [p] else []
  {
  }

  /** The mapping has exactly the points of `done`, each with its shard. */
  ghost predicate Maps(m: ShardMapping, done: seq<Point>, l: seq<Group>)
    requires forall g <- l :: g.shards != []
    reads m
  {
    m.Valid() && forall id :: m.Mapped(id) == PointsFor(done, l, id)
  }

  method MapOne(m: ShardMapping, l: seq<Group>, p: Point, ghost done: seq<Point>)
    requires forall g <- l :: g.shards != []
    requires Maps(m, done, l)
    modifies m
    ensures Maps(m, done + [p], l)
  {
    forall id
      ensures PointsFor(done + [p], l, id) ==
              PointsFor(done, l, id) + if Assigned(l, p).Some? && Assigned(l, p).value.id == id then [p] else []
    {
      PointsForOneMore(done, p, l, id);
    }
    var at := ShardGroupAt(l, p.time);
    if at.Some? {
      m.MapPoint(ShardFor(l[at.value], p.hash), p);
    }
  }

  /** Hands each point to its shard, or to none. */
  method MapPoints(points: seq<Point>, l: seq<Group>) returns (m: ShardMapping)
    requires forall g <- l :: g.shards != []
    ensures fresh(m) && Maps(m, points, l)
  {
    m := new ShardMapping(|points|);
    var k := 0;
    while k < |points|
      invariant 0 <= k <= |points| && fresh(m)
      invariant Maps(m, points[..k], l)
    {
      MapOne(m, l, points[k], points[..k]);
      TakeOneMore(points, k);
      k := k + 1;
    }
    assert points[..k] == points;
  }

  // ---------- The whole mapping ----------

  /** What the metadata client answers about the policy itself. */
  datatype Lookup = LookupError(error: string) | Missing | Known(duration: int)

  /** The earliest instant of a point. */
  const MIN_NANO_TIME: int := -0x8000_0000_0000_0000 + 2

  /** The retention limit. */
  function Limit(duration: int, now: int): (min: int) {
    if duration > 0 then now - duration else MIN_NANO_TIME
  }

  /** A point is too old if and only if the policy keeps points for a limited time, and
      the point is older than that. */
  lemma TooOldExactly(duration: int, now: int, t: int)
    requires t >= -9_223_372_036_854_775_806
    ensures t < Limit(duration, now) <==> duration > 0 && now - t > duration
  {
  }

  /** MapShards. `now` is the time of the call, and `d` the group duration of the policy. */
  method MapShards(policy: Lookup, points: seq<Point>, now: int, create: (nat, int) -> Reply, ghost d: int)
    returns (err: Option<MapError>, m: ShardMapping?, ghost list: seq<Group>)
    requires WithShards(create)
    ensures policy.LookupError? ==> err == Some(LookupFailed(policy.error))
    ensures policy.Missing? ==> err == Some(NoSuchPolicy)
    ensures err.None? <==> m != null
    ensures err.None? ==> (forall g <- list :: g.shards != []) && fresh(m) && Maps(m, points, list)
    ensures err.None? ==> policy.Known?
    ensures err.None? && Slots(create, d) ==> Collected(list, points, Limit(policy.duration, now), d)
  {
    match policy
    case LookupError(e) => return Some(LookupFailed(e)), null, [];
    case Missing => return Some(NoSuchPolicy), null, [];
    case Known(duration) =>
      var groups;
      var min := MIN_NANO_TIME;
      if duration > 0 {
        min := now - duration;
      }
      err, groups := CollectGroups(points, min, create, d);
      list := groups;
      if err.Some? {
        return err, null, list;
      }
      m := MapPoints(points, groups);
  }

  /** The hash of a point, modulo the number of shards, is the position of its shard in
      the group that contains its time. */
  lemma AssignedByHash(list: seq<Group>, d: int, g: Group, p: Point)
    requires ListOK(list, d) && g in list && Contains(g, p.time)
    ensures Assigned(list, p) == Some(g.shards[p.hash % |g.shards|])
  {
    var i :| 0 <= i < |list| && list[i] == g;
    BisectionFinds(list, d, p.time);
    assert ShardGroupAt(list, p.time) == Some(i);
  }

  /** Every point is mapped exactly when some point of the batch that is not too
      old lies in its slot, so every such point is, and it goes to the shard at its hash
      modulo the number of shards in the one group that covers its time. */
  lemma MappedExactly(list: seq<Group>, points: seq<Point>, min: int, d: int, p: Point)
    requires Collected(list, points, min, d)
    ensures Assigned(list, p).Some? <==> Needed(points, min, d, p.time)
    ensures p in points && p.time >= min ==> Assigned(list, p).Some?
    ensures Assigned(list, p).Some? <==> exists g <- list :: Contains(g, p.time)
    ensures forall g <- list | Contains(g, p.time) :: Assigned(list, p) == Some(g.shards[p.hash % |g.shards|])
    ensures forall i, j | 0 <= i < |list| && 0 <= j < |list| && Contains(list[i], p.time) && Contains(list[j], p.time) :: i == j
  {
    BisectionFinds(list, d, p.time);
    assert ShardGroupAt(list, p.time).Some? <==> Needed(points, min, d, p.time);
    if p in points && p.time >= min {
      assert Needed(points, min, d, p.time);
    }
    forall g <- list | Contains(g, p.time)
      ensures Assigned(list, p) == Some(g.shards[p.hash % |g.shards|])
    {
      AssignedByHash(list, d, g, p);
    }
  }

  /** Every shard of a group gets points: those of its times whose hash is its position. */
  lemma EveryShardSelected(list: seq<Group>, d: int, g: Group, k: nat, t: int, body: seq<nat>)
    requires ListOK(list, d) && g in list && Contains(g, t) && k < |g.shards|
    ensures Assigned(list, Point(t, k, body)) == Some(g.shards[k])
  {
    AssignedByHash(list, d, g, Point(t, k, body));
    SmallMod(k, |g.shards|);
  }

  /** A point older than the limit that is mapped: with slots of ten hours and the limit at
      five, a point at three shares its slot with one at seven. */
  lemma OldPointIsMapped(list: seq<Group>, p: Point, q: Point)
    requires p.time == 3 * HOUR && q.time == 7 * HOUR && Collected(list, [p, q], 5 * HOUR, 10 * HOUR)
    ensures p.time < 5 * HOUR && Assigned(list, p).Some?
  {
  }

  lemma {:induction false} EarlierFirst(points: seq<Point>, l: seq<Group>, i: nat, id: nat)
    requires i <= |points| && forall g <- l :: g.shards != []
    ensures PointsFor(points[..i], l, id) <= PointsFor(points, l, id)
  {
    if i < |points| {
      var k := |points| - 1;
      EarlierFirst(points[..k], l, i, id);
      assert points[..k][..i] == points[..i];
    } else {
      assert points[..i] == points;
    }
  }

  /** The point at position `i` is in the list of its shard, behind the earlier points
      of that shard, and it makes no other list longer. */
  lemma MappedOnce(points: seq<Point>, l: seq<Group>, i: nat, id: nat)
    requires i < |points| && forall g <- l :: g.shards != []
    ensures var before, upto, all := PointsFor(points[..i], l, id), PointsFor(points[..i + 1], l, id), PointsFor(points, l, id);
            && before <= upto <= all
            && upto == before + if Assigned(l, points[i]).Some? && Assigned(l, points[i]).value.id == id then [points[i]] else []
  {
    TakeOneMore(points, i);
    PointsForOneMore(points[..i], points[i], l, id);
    EarlierFirst(points, l, i + 1, id);
  }

  predicate AssignedTo(l: seq<Group>, p: Point, id: nat)
    requires forall g <- l :: g.shards != []
  {
    Assigned(l, p).Some? && Assigned(l, p).value.id == id
  }

  /** The positions of the batch that are mapped to shard `id`. */
  function Positions(points: seq<Point>, l: seq<Group>, id: nat): (r: seq<nat>)
    requires forall g <- l :: g.shards != []
    ensures forall m | 0 <= m < |r| :: r[m] < |points|
    ensures forall m, n | 0 <= m < n < |r| :: r[m] < r[n]
  {
    if points == [] then []
    else
      var k := |points| - 1;
      Positions(points[..k], l, id) + if AssignedTo(l, points[k], id) then [k] else []
  }

  lemma {:induction false} PositionIn(points: seq<Point>, l: seq<Group>, id: nat, i: nat)
    requires forall g <- l :: g.shards != []
    ensures i in Positions(points, l, id) <==> i < |points| && AssignedTo(l, points[i], id)
  {
    if points != [] { PositionIn(points[..|points| - 1], l, id, i); }
  }

  /** The points at these positions. */
  function Pick(points: seq<Point>, at: seq<nat>): (r: seq<Point>)
    requires forall m | 0 <= m < |at| :: at[m] < |points|
    ensures |r| == |at| && forall m | 0 <= m < |at| :: r[m] == points[at[m]]
  {
    if at == [] then [] else Pick(points, at[..|at| - 1]) + [points[at[|at| - 1]]]
  }

  lemma PickEarlier(points: seq<Point>, k: nat, at: seq<nat>)
    requires k <= |points| && forall m | 0 <= m < |at| :: at[m] < k
    ensures Pick(points[..k], at) == Pick(points, at)
  {
  }

  lemma PickOneMore(points: seq<Point>, at: seq<nat>, k: nat)
    requires k < |points| && forall m | 0 <= m < |at| :: at[m] < |points|
    ensures Pick(points, at + [k]) == Pick(points, at) + [points[k]]
  {
  }

  /** The list of a shard is the points at its positions, in their order. */
  lemma {:induction false} ListIsPositions(points: seq<Point>, l: seq<Group>, id: nat)
    requires forall g <- l :: g.shards != []
    ensures PointsFor(points, l, id) == Pick(points, Positions(points, l, id))
  {
    if points != [] {
      var k := |points| - 1;
      var front := Positions(points[..k], l, id);
      ListIsPositions(points[..k], l, id);
      PickEarlier(points, k, front);
      PickOneMore(points, front, k);
    }
  }

  lemma {:induction false} Increasing(s: seq<nat>, x: nat)
    requires forall m, n | 0 <= m < n < |s| :: s[m] < s[n]
    ensures multiset(s)[x] == if x in s then 1 else 0
  {
    if s != [] {
      assert s == [s[0]] + s[1..];
      Increasing(s[1..], x);
    }
  }

  /** Over the lists of all shards together: a position whose point is assigned is in
      exactly one list, and once in it; any other position is in none. */
  lemma {:induction false} EachPositionOnce(points: seq<Point>, l: seq<Group>, i: nat, id: nat)
    requires i < |points| && forall g <- l :: g.shards != []
    ensures multiset(Positions(points, l, id))[i] == if AssignedTo(l, points[i], id) then 1 else 0
  {
    PositionIn(points, l, id, i);
    Increasing(Positions(points, l, id), i);
  }
}

/**
 Taking a node's ownership away from the shards of one group, and giving the
 shards that are left without an owner to the least loaded remaining owners.
 */
module Reassign {
  import opened Basics
  import opened Metadata

  /** The last occurrence of `id`, or -1. */
  function LastIndex(owners: seq<nat>, id: nat): (i: int)
    ensures -1 <= i < |owners|
    ensures i >= 0 ==> owners[i] == id
    ensures forall j | i < j < |owners| :: owners[j] != id
  {
    if owners == [] then -1
    else if owners[|owners| - 1] == id then |owners| - 1
    else LastIndex(owners[..|owners| - 1], id)
  }

  function Relinquish(owners: seq<nat>, id: nat): (r: seq<nat>) {
    if LastIndex(owners, id) < 0 then owners else Without(owners, LastIndex(owners, id))
  }

  ghost predicate Distinct<T>(s: seq<T>) {
    forall i, j | 0 <= i < j < |s| :: s[i] != s[j]
  }

  /** How often `n` occurs among the owners of these shards. */
  function OwnerCount(shards: seq<Shard>, n: nat): (k: nat) {
    if shards == [] then 0
    else OwnerCount(shards[..|shards| - 1], n) + multiset(shards[|shards| - 1].owners)[n]
  }

  function Get(freqs: map<nat, nat>, n: nat): (k: nat) {
    if n in freqs then freqs[n] else 0
  }

  /** The frequency map is the true count of every owner. */
  ghost predicate Counts(freqs: map<nat, nat>, shards: seq<Shard>) {
    && (forall n <- freqs :: freqs[n] > 0)
    && forall n :: Get(freqs, n) == OwnerCount(shards, n)
  }

  lemma {:induction false} CountDistinct(s: seq<nat>, x: nat)
    requires Distinct(s)
    ensures multiset(s)[x] == if x in s then 1 else 0
  {
    if s != [] {
      assert s == [s[0]] + s[1..];
      CountDistinct(s[1..], x);
    }
  }

  lemma WithoutDistinct(s: seq<nat>, i: nat)
    requires Distinct(s) && i < |s|
    ensures Distinct(Without(s, i))
    ensures multiset(Without(s, i)) == multiset(s) - multiset{s[i]}
  {
    assert s == s[..i] + [s[i]] + s[i + 1..];
  }

  /** Relinquishing removes the node, and only the node. */
  lemma RelinquishDistinct(owners: seq<nat>, id: nat)
    requires Distinct(owners)
    ensures Distinct(Relinquish(owners, id))
    ensures forall n :: multiset(Relinquish(owners, id))[n] == if n == id then 0 else multiset(owners)[n]
    ensures forall n :: n in Relinquish(owners, id) <==> n in owners && n != id
  {
    var i, r := LastIndex(owners, id), Relinquish(owners, id);
    CountDistinct(owners, id);
    if i >= 0 { WithoutDistinct(owners, i); }
    forall n
      ensures n in r <==> n in owners && n != id
    {
      CountDistinct(owners, n);
      CountDistinct(r, n);
    }
  }

  lemma {:induction false} OwnerCountUpdate(shards: seq<Shard>, i: nat, s: Shard, n: nat)
    requires i < |shards|
    ensures OwnerCount(shards[i := s], n) == OwnerCount(shards, n) - multiset(shards[i].owners)[n] + multiset(s.owners)[n]
  {
    var k := |shards| - 1;
    if i < k {
      OwnerCountUpdate(shards[..k], i, s, n);
      assert shards[i := s][..k] == shards[..k][i := s];
    } else {
      assert shards[i := s][..k] == shards[..k];
    }
  }

  lemma {:induction false} OwnerCounted(shards: seq<Shard>, i: nat, n: nat)
    requires i < |shards|
    ensures OwnerCount(shards, n) >= multiset(shards[i].owners)[n]
  {
    if i < |shards| - 1 { OwnerCounted(shards[..|shards| - 1], i, n); }
  }

  lemma {:induction false} OwnerFound(shards: seq<Shard>, n: nat) returns (i: nat)
    requires OwnerCount(shards, n) > 0
    ensures i < |shards| && n in shards[i].owners
  {
    i := |shards| - 1;
    if n !in shards[i].owners { i := OwnerFound(shards[..i], n); }
  }

  /** NewShardOwner: some node with the fewest shards, and the map counting one more for it. */
  method NewShardOwner(freqs: map<nat, nat>) returns (owner: Option<nat>, freqs': map<nat, nat>)
    ensures owner.None? <==> freqs == map[]
    ensures owner.None? ==> freqs' == freqs
    ensures owner.Some? ==>
              && owner.value in freqs
              && (forall m <- freqs :: freqs[owner.value] <= freqs[m])
              && freqs' == freqs[owner.value := freqs[owner.value] + 1]
  {
    owner := None;
    var todo := freqs.Keys;
    while todo != {}
      invariant todo <= freqs.Keys
      invariant owner.None? <==> todo == freqs.Keys
      invariant owner.Some? ==> owner.value in freqs && forall m <- freqs.Keys - todo :: freqs[owner.value] <= freqs[m]
      decreases |todo|
    {
      var id :| id in todo;
      if owner.None? || freqs[id] < freqs[owner.value] {
        owner := Some(id);
      }
      todo := todo - {id};
    }
    match owner
    case None =>
      assert freqs.Keys == {};
      freqs' := freqs;
    case Some(id) =>
      freqs' := freqs[id := freqs[id] + 1];
  }

  // ---------- What a group becomes ----------

  /** The shards once the node has given them up. */
  function Kept(shards: seq<Shard>, id: nat): (r: seq<Shard>)
    ensures |r| == |shards|
    ensures forall i | 0 <= i < |shards| :: r[i] == Shard(shards[i].id, Relinquish(shards[i].owners, id))
  {
    if shards == [] then []
    else
      var k := |shards| - 1;
      Kept(shards[..k], id) + [Shard(shards[k].id, Relinquish(shards[k].owners, id))]
  }

  ghost predicate AllOrphaned(shards: seq<Shard>) {
    forall s <- shards :: s.owners == []
  }

  /** Shards with an owner are untouched. Every other one has exactly one owner
      now, which owned a shard of the group before and ends with at most one
      shard more than any other such node. */
  ghost predicate Reassigned(kept: seq<Shard>, after: seq<Shard>) {
    && |after| == |kept|
    && (forall i | 0 <= i < |kept| :: after[i].id == kept[i].id)
    && (forall i | 0 <= i < |kept| && kept[i].owners != [] :: after[i].owners == kept[i].owners)
    && (forall i | 0 <= i < |kept| && kept[i].owners == [] ::
          && |after[i].owners| == 1
          && OwnerCount(kept, after[i].owners[0]) > 0
          && forall m | OwnerCount(kept, m) > 0 ::
               OwnerCount(after, after[i].owners[0]) <= OwnerCount(after, m) + 1)
  }

  /** The effect of deleting node `id` on one group. */
  ghost predicate Stripped(g: Group, id: nat, g': Group) {
    var kept := Kept(g.shards, id);
    if AllOrphaned(kept) then g' == g.(deleted := true, shards := kept)
    else g' == g.(shards := g'.shards) && Reassigned(kept, g'.shards)
  }

  ghost predicate DistinctShards(shards: seq<Shard>) {
    forall i, j | 0 <= i < j < |shards| :: shards[i].id != shards[j].id
  }

  /** The IDs of the shards without an owner, in order. */
  function OrphanIDs(shards: seq<Shard>): (ids: seq<nat>) {
    if shards == [] then []
    else
      var k := |shards| - 1;
      OrphanIDs(shards[..k]) + if shards[k].owners == [] then [shards[k].id] else []
  }

  lemma {:induction false} OrphanHas(shards: seq<Shard>, i: nat)
    requires i < |shards| && shards[i].owners == []
    ensures shards[i].id in OrphanIDs(shards)
  {
    if i < |shards| - 1 { OrphanHas(shards[..|shards| - 1], i); }
  }

  lemma {:induction false} OrphanAt(shards: seq<Shard>, j: nat) returns (i: nat)
    requires j < |OrphanIDs(shards)|
    ensures i < |shards| && shards[i].owners == [] && shards[i].id == OrphanIDs(shards)[j]
  {
    i := |shards| - 1;
    if j < |OrphanIDs(shards[..i])| { i := OrphanAt(shards[..i], j); }
  }

  lemma {:induction false} OrphanIDsDistinct(shards: seq<Shard>)
    requires DistinctShards(shards)
    ensures Distinct(OrphanIDs(shards))
  {
    if shards != [] {
      var k := |shards| - 1;
      var front := OrphanIDs(shards[..k]);
      OrphanIDsDistinct(shards[..k]);
      forall j | 0 <= j < |front|
        ensures front[j] != shards[k].id
      {
        var i := OrphanAt(shards[..k], j);
      }
    }
  }

  lemma {:induction false} KeptCount(shards: seq<Shard>, id: nat, n: nat)
    requires forall s <- shards :: Distinct(s.owners)
    ensures OwnerCount(Kept(shards, id), n) == if n == id then 0 else OwnerCount(shards, n)
  {
    if shards != [] {
      var k := |shards| - 1;
      KeptCount(shards[..k], id, n);
      RelinquishDistinct(shards[k].owners, id);
      assert Kept(shards, id)[..k] == Kept(shards[..k], id);
    }
  }

  // ---------- The loops ----------

  /** `after` counts these owners on top of `before`. */
  ghost predicate Added(before: map<nat, nat>, owners: seq<nat>, after: map<nat, nat>) {
    && ((forall n <- before :: before[n] > 0) ==> forall n <- after :: after[n] > 0)
    && forall n :: Get(after, n) == Get(before, n) + multiset(owners)[n]
  }

  lemma AddedOneMore(before: map<nat, nat>, owners: seq<nat>, after: map<nat, nat>, x: nat)
    requires Added(before, owners, after)
    ensures Added(before, owners + [x], after[x := Get(after, x) + 1])
  {
  }

  lemma LastIndexUnique(owners: seq<nat>, id: nat, i: int)
    requires -1 <= i < |owners|
    requires i >= 0 ==> owners[i] == id
    requires forall j | i < j < |owners| :: owners[j] != id
    ensures LastIndex(owners, id) == i
  {
  }

  /** Counts the owners of one shard and finds the node among them. */
  method CountOwners(owners: seq<nat>, freqs: map<nat, nat>, id: nat) returns (freqs': map<nat, nat>, nodeIdx: int)
    ensures nodeIdx == LastIndex(owners, id)
    ensures Added(freqs, owners, freqs')
  {
    freqs', nodeIdx := freqs, -1;
    var i := 0;
    while i < |owners|
      invariant 0 <= i <= |owners|
      invariant -1 <= nodeIdx < i && (nodeIdx >= 0 ==> owners[nodeIdx] == id)
      invariant forall j | nodeIdx < j < i :: owners[j] != id
      invariant Added(freqs, owners[..i], freqs')
    {
      AddedOneMore(freqs, owners[..i], freqs', owners[i]);
      TakeOneMore(owners, i);
      if owners[i] == id { nodeIdx := i; }
      freqs' := freqs'[owners[i] := Get(freqs', owners[i]) + 1];
      i := i + 1;
    }
    assert owners[..i] == owners;
    LastIndexUnique(owners, id, nodeIdx);
  }

  lemma CountsOneMore(before: map<nat, nat>, after: map<nat, nat>, shards: seq<Shard>, s: Shard)
    requires Counts(before, shards) && Added(before, s.owners, after)
    ensures Counts(after, shards + [s])
  {
  }

  lemma KeptOneMore(shards: seq<Shard>, s: Shard, id: nat)
    ensures Kept(shards + [s], id) == Kept(shards, id) + [Shard(s.id, Relinquish(s.owners, id))]
  {
  }

  lemma OrphanIDsOneMore(shards: seq<Shard>, s: Shard)
    ensures OrphanIDs(shards + [s]) == OrphanIDs(shards) + if s.owners == [] then [s.id] else []
  {
  }

  /** First pass over a group: every shard loses the node, owners are counted, orphans collected. */
  method RelinquishAll(shards: seq<Shard>, id: nat)
    returns (kept: seq<Shard>, freqs: map<nat, nat>, orphans: seq<nat>)
    ensures kept == Kept(shards, id)
    ensures orphans == OrphanIDs(kept)
    ensures Counts(freqs, shards)
  {
    kept, freqs, orphans := [], map[], [];
    var i := 0;
    while i < |shards|
      invariant 0 <= i <= |shards|
      invariant kept == Kept(shards[..i], id)
      invariant orphans == OrphanIDs(kept)
      invariant Counts(freqs, shards[..i])
    {
      var s := shards[i];
      var freqs', nodeIdx := CountOwners(s.owners, freqs, id);
      if nodeIdx > -1 {
        s := s.(owners := s.owners[..nodeIdx] + s.owners[nodeIdx + 1..]);
      }
      if |s.owners| == 0 {
        orphans := orphans + [s.id];
      }
      CountsOneMore(freqs, freqs', shards[..i], shards[i]);
      KeptOneMore(shards[..i], shards[i], id);
      OrphanIDsOneMore(kept, s);
      TakeOneMore(shards, i);
      kept, freqs := kept + [s], freqs';
      i := i + 1;
    }
    assert shards[..i] == shards;
  }

  lemma CountsOfKept(freqs: map<nat, nat>, shards: seq<Shard>, id: nat)
    requires Counts(freqs, shards)
    requires forall s <- shards :: Distinct(s.owners)
    ensures Counts(freqs - {id}, Kept(shards, id))
  {
    forall n
      ensures OwnerCount(Kept(shards, id), n) == if n == id then 0 else OwnerCount(shards, n)
    {
      KeptCount(shards, id, n);
    }
  }

  /** The state of the second pass once the orphans listed in `done` have an owner. */
  ghost predicate Assigned(kept: seq<Shard>, after: seq<Shard>, done: seq<nat>) {
    && |after| == |kept|
    && (forall i | 0 <= i < |kept| :: after[i].id == kept[i].id)
    && (forall i | 0 <= i < |kept| && kept[i].id !in done :: after[i] == kept[i])
    && (forall i | 0 <= i < |kept| && kept[i].id in done :: |after[i].owners| == 1)
  }

  ghost predicate Balanced(freqs: map<nat, nat>, kept: seq<Shard>, after: seq<Shard>, done: seq<nat>)
    requires Assigned(kept, after, done)
  {
    forall i | 0 <= i < |kept| && kept[i].id in done ::
      after[i].owners[0] in freqs && forall m <- freqs :: freqs[after[i].owners[0]] <= freqs[m] + 1
  }

  ghost predicate Progress(kept: seq<Shard>, after: seq<Shard>, done: seq<nat>, freqs: map<nat, nat>) {
    Assigned(kept, after, done) && Balanced(freqs, kept, after, done) && Counts(freqs, after)
  }

  /** Second pass over a group: each orphan goes to a node with the fewest shards so far. */
  method AssignOrphans(kept: seq<Shard>, freqs0: map<nat, nat>, orphans: seq<nat>)
    returns (err: Option<Error>, after: seq<Shard>)
    requires Counts(freqs0, kept) && DistinctShards(kept)
    requires orphans == OrphanIDs(kept)
    requires !AllOrphaned(kept)
    ensures err.None? && Reassigned(kept, after)
  {
    err, after := None, kept;
    var freqs := freqs0;
    SomeOwner(kept, freqs0);
    var j := 0;
    while j < |orphans|
      invariant 0 <= j <= |orphans|
      invariant Progress(kept, after, orphans[..j], freqs) && freqs.Keys == freqs0.Keys
    {
      var owner, freqs' := NewShardOwner(freqs);
      if owner.None? {
        return Some(NoOwnerAvailable), after;
      }
      AssignNext(kept, after, j, freqs, owner.value);
      var si := Find(after, (s: Shard) => s.id == orphans[j]);
      if si.Some? {
        after := after[si.value := after[si.value].(owners := after[si.value].owners + [owner.value])];
      }
      freqs := freqs';
      j := j + 1;
    }
    assert orphans[..j] == orphans;
    AllAssigned(kept, after, freqs0, freqs);
  }

  /** One round of the second pass. */
  lemma AssignNext(kept: seq<Shard>, after: seq<Shard>, j: nat, freqs: map<nat, nat>, n: nat)
    requires DistinctShards(kept) && j < |OrphanIDs(kept)|
    requires Progress(kept, after, OrphanIDs(kept)[..j], freqs)
    requires n in freqs && forall m <- freqs :: freqs[n] <= freqs[m]
    ensures var si := Find(after, (s: Shard) => s.id == OrphanIDs(kept)[j]);
            && si.Some?
            && Progress(kept, GiveTo(after, si.value, n), OrphanIDs(kept)[..j + 1], freqs[n := freqs[n] + 1])
  {
    var orphans := OrphanIDs(kept);
    OrphanIDsDistinct(kept);
    assert orphans[j] !in orphans[..j];
    var i := OrphanAt(kept, j);
    FoundOrphan(kept, after, orphans[..j], i);
    AssignOne(kept, after, orphans[..j], freqs, i, n);
    AssignCounts(after, freqs, i, n);
    TakeOneMore(orphans, j);
  }

  /** The search by ID finds the orphan itself, which is still without an owner. */
  lemma FoundOrphan(kept: seq<Shard>, after: seq<Shard>, done: seq<nat>, i: nat)
    requires DistinctShards(kept) && Assigned(kept, after, done)
    requires i < |kept| && kept[i].id !in done
    ensures Find(after, (s: Shard) => s.id == kept[i].id) == Some(i)
    ensures after[i] == kept[i]
  {
    var f := Find(after, (s: Shard) => s.id == kept[i].id);
    assert after[i] in after;
    assert f.Some?;
    assert kept[f.value].id == kept[i].id;
  }

  function GiveTo(after: seq<Shard>, i: nat, n: nat): (r: seq<Shard>)
    requires i < |after|
  {
    after[i := after[i].(owners := after[i].owners + [n])]
  }

  lemma AssignCounts(after: seq<Shard>, freqs: map<nat, nat>, i: nat, n: nat)
    requires i < |after| && n in freqs && Counts(freqs, after)
    ensures Counts(freqs[n := freqs[n] + 1], GiveTo(after, i, n))
  {
    var s := after[i].(owners := after[i].owners + [n]);
    forall m
      ensures Get(freqs[n := freqs[n] + 1], m) == OwnerCount(GiveTo(after, i, n), m)
    {
      OwnerCountUpdate(after, i, s, m);
      assert multiset(s.owners) == multiset(after[i].owners) + multiset{n};
      assert Get(freqs, m) == OwnerCount(after, m);
    }
  }

  lemma AssignOne(kept: seq<Shard>, after: seq<Shard>, done: seq<nat>, freqs: map<nat, nat>, i: nat, n: nat)
    requires DistinctShards(kept) && Assigned(kept, after, done) && Balanced(freqs, kept, after, done)
    requires i < |kept| && kept[i].id !in done && after[i].owners == []
    requires n in freqs && forall m <- freqs :: freqs[n] <= freqs[m]
    ensures var after', done' := GiveTo(after, i, n), done + [kept[i].id];
            Assigned(kept, after', done') && Balanced(freqs[n := freqs[n] + 1], kept, after', done')
  {
  }

  lemma AllAssigned(kept: seq<Shard>, after: seq<Shard>, freqs0: map<nat, nat>, freqs: map<nat, nat>)
    requires Assigned(kept, after, OrphanIDs(kept)) && Balanced(freqs, kept, after, OrphanIDs(kept))
    requires DistinctShards(kept)
    requires Counts(freqs0, kept) && Counts(freqs, after) && freqs.Keys == freqs0.Keys
    ensures Reassigned(kept, after)
  {
    forall i | 0 <= i < |kept|
      ensures kept[i].owners == [] <==> kept[i].id in OrphanIDs(kept)
    {
      if kept[i].owners == [] {
        OrphanHas(kept, i);
      } else if j :| 0 <= j < |OrphanIDs(kept)| && OrphanIDs(kept)[j] == kept[i].id {
        var k := OrphanAt(kept, j);
      }
    }
    forall m
      ensures OwnerCount(kept, m) > 0 <==> m in freqs
      ensures Get(freqs, m) == OwnerCount(after, m)
    {
      assert Get(freqs0, m) == OwnerCount(kept, m);
    }
  }

  lemma SomeOwner(kept: seq<Shard>, freqs: map<nat, nat>)
    requires Counts(freqs, kept) && !AllOrphaned(kept)
    ensures freqs.Keys != {}
  {
    var i :| 0 <= i < |kept| && kept[i].owners != [];
    var n := kept[i].owners[0];
    OwnerCounted(kept, i, n);
    assert Get(freqs, n) > 0;
  }

  // ---------- One group ----------

  ghost predicate OwnersDistinct(shards: seq<Shard>) {
    forall s <- shards :: Distinct(s.owners)
  }

  /** The body of the loops in DeleteDataNode and DeleteMetaNode for one group.
      It never fails on shards with distinct owners and distinct IDs. */
  method StripGroup(g: Group, id: nat) returns (err: Option<Error>, g': Group)
    requires OwnersDistinct(g.shards) && DistinctShards(g.shards)
    ensures err.None? && Stripped(g, id, g')
  {
    var kept, freqs, orphans := RelinquishAll(g.shards, id);
    OrphanCount(kept);
    if |g.shards| == 0 || |orphans| == |g.shards| {
      return None, g.(shards := kept, deleted := true);
    }
    CountsOfKept(freqs, g.shards, id);
    freqs := freqs - {id};
    var after;
    err, after := AssignOrphans(kept, freqs, orphans);
    g' := g.(shards := after);
  }

  lemma {:induction false} OrphanCount(shards: seq<Shard>)
    ensures |OrphanIDs(shards)| <= |shards|
    ensures |OrphanIDs(shards)| == |shards| <==> AllOrphaned(shards)
  {
    if shards != [] {
      var k := |shards| - 1;
      OrphanCount(shards[..k]);
      TakeOneMore(shards, k);
      assert shards[..k + 1] == shards;
    }
  }
}

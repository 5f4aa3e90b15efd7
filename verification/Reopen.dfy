/**
 Closing a queue and opening it again.

 Opening lists the segment files by descending ID, whereas a queue grows by
 ascending IDs. No entry is lost or duplicated; the order survives exactly when
 the segments that still hold entries were in descending order already.
 */
module Reopen {
  import opened Basics
  import opened QueueSpec

  ghost predicate Descending(segs: seq<SegmentView>) {
    forall i, j | 0 <= i < j < |segs| :: segs[i].id > segs[j].id
  }

  ghost predicate Ascending(segs: seq<SegmentView>) {
    forall i, j | 0 <= i < j < |segs| :: segs[i].id < segs[j].id
  }

  /** The segments of a queue, each opened again. */
  function Reloaded(q: QueueView, now: int): (r: seq<SegmentView>)
    ensures |r| == |q.segments|
    ensures forall i | 0 <= i < |r| :: r[i] == Reopened(q.segments[i], q.maxSegmentSize, now)
  {
    seq(|q.segments|, i requires 0 <= i < |q.segments| => Reopened(q.segments[i], q.maxSegmentSize, now))
  }

  /** The same segments, sorted as loadSegments sorts them. */
  ghost predicate Sorted(before: seq<SegmentView>, after: seq<SegmentView>) {
    multiset(before) == multiset(after) && Descending(after)
  }

  /** `after` lists the segments of the queue as they come back from disk. */
  ghost predicate Reordered(q: QueueView, after: seq<SegmentView>, now: int) {
    Sorted(Reloaded(q, now), after)
  }

  /** The last step of Open: an exhausted head is trimmed. */
  function TrimExhausted(q: QueueView, now: int): (r: QueueView)
    requires q.segments != []
  {
    if Current(q).None? then TrimHead(q, now) else q
  }

  /** An empty directory gets a first segment. */
  function WithSegment(q: QueueView, now: int): (r: QueueView)
    ensures r.segments != []
  {
    if q.segments == [] then AddSegment(q, now) else q
  }

  /** The queue that Open builds from the segments in the order `after`. */
  function OpenedView(q: QueueView, after: seq<SegmentView>, now: int): (r: QueueView) {
    TrimExhausted(WithSegment(q.(segments := after), now), now)
  }

  /** Reading an exhausted head first makes no difference to trimming it. */
  lemma TrimAfterCurrent(q: QueueView, now: int)
    requires QueueInv(q)
    ensures q.segments[0].unread == [] ==> TrimHead(AfterCurrent(q), now) == TrimHead(q, now)
  {
    AfterCurrentEffect(q);
    if AfterCurrent(q) != q {
      assert q.segments[0] in q.segments;
      assert AfterCurrent(q).segments[1..] == q.segments[1..];
    }
  }

  lemma PendingWithout(b: seq<SegmentView>, j: nat)
    requires j < |b|
    ensures multiset(Pending(b)) == multiset(b[j].unread) + multiset(Pending(Without(b, j)))
    ensures Usage(b) == b[j].size + Usage(Without(b, j))
  {
    var front, back := b[..j], b[j..];
    assert b == front + back && b[j + 1..] == back[1..];
    PendingConcat(front, back);
    UsageConcat(front, back);
    PendingConcat(front, back[1..]);
    UsageConcat(front, back[1..]);
  }

  /** Pending entries and disk usage do not depend on the order of the segments. */
  lemma {:induction false} PermutationKeepsContents(a: seq<SegmentView>, b: seq<SegmentView>)
    requires multiset(a) == multiset(b)
    ensures multiset(Pending(a)) == multiset(Pending(b))
    ensures Usage(a) == Usage(b)
  {
    if a == [] {
      assert |multiset(b)| == |b|;
    } else {
      assert a[0] in multiset(b);
      var j :| 0 <= j < |b| && b[j] == a[0];
      var b' := Without(b, j);
      WithoutMultiset(b, j);
      assert a == [a[0]] + a[1..];
      PermutationKeepsContents(a[1..], b');
      PendingWithout(b, j);
    }
  }

  lemma {:induction false} ReloadedPending(q: QueueView, now: int)
    ensures Pending(Reloaded(q, now)) == Pending(q.segments)
    decreases |q.segments|
  {
    if q.segments != [] {
      ReloadedTail(q, now);
      ReloadedPending(q.(segments := q.segments[1..]), now);
    }
  }

  lemma ReloadedTail(q: QueueView, now: int)
    requires q.segments != []
    ensures Reloaded(q, now)[1..] == Reloaded(q.(segments := q.segments[1..]), now)
  {
  }

  lemma ReopenedInv(s: SegmentView, maxSegmentSize: nat, now: int)
    requires SegmentInv(s, maxSegmentSize) && FOOTER_SIZE <= maxSegmentSize
    ensures SegmentInv(Reopened(s, maxSegmentSize, now), maxSegmentSize)
    ensures Reopened(s, maxSegmentSize, now).size <= s.size
  {
  }

  lemma {:induction false} ReloadedInv(q: QueueView, now: int)
    requires FOOTER_SIZE <= q.maxSegmentSize && forall s <- q.segments :: SegmentInv(s, q.maxSegmentSize)
    ensures forall s <- Reloaded(q, now) :: SegmentInv(s, q.maxSegmentSize)
    ensures Usage(Reloaded(q, now)) <= Usage(q.segments)
    decreases |q.segments|
  {
    if q.segments != [] {
      ReloadedTail(q, now);
      assert q.segments[0] in q.segments;
      ReopenedInv(q.segments[0], q.maxSegmentSize, now);
      ReloadedInv(q.(segments := q.segments[1..]), now);
      forall s | s in Reloaded(q, now)
        ensures SegmentInv(s, q.maxSegmentSize)
      {
        assert s == Reloaded(q, now)[0] || s in Reloaded(q, now)[1..];
      }
    }
  }

  /** The queue invariant survives a reopen. */
  lemma WithSegmentInv(q: QueueView, after: seq<SegmentView>, now: int)
    requires Reordered(q, after, now) && q.maxSize >= 0
    requires q.segments != [] ==> QueueInv(q) && FOOTER_SIZE <= q.maxSegmentSize
    ensures QueueInv(WithSegment(q.(segments := after), now))
  {
    var loaded := Reloaded(q, now);
    assert |multiset(loaded)| == |loaded| && |multiset(after)| == |after|;
    if q.segments != [] {
      ReloadedInv(q, now);
      PermutationKeepsContents(loaded, after);
      forall s | s in after
        ensures SegmentInv(s, q.maxSegmentSize)
      {
        assert s in multiset(loaded);
      }
    }
  }

  /** Reopening neither loses nor duplicates an entry, whatever the segment order. */
  lemma ReopenConserves(q: QueueView, after: seq<SegmentView>, now: int)
    requires q.segments != [] && Reordered(q, after, now)
    ensures after != []
    ensures multiset(Pending(TrimExhausted(q.(segments := after), now).segments)) == multiset(Pending(q.segments))
  {
    ReloadedPending(q, now);
    PermutationKeepsContents(Reloaded(q, now), after);
    assert Reloaded(q, now)[0] in multiset(after);
    if after[0].unread == [] {
      TrimHeadEffect(q.(segments := after), now);
    }
  }

  // ---------- The segments that hold entries ----------

  /** The segments with something left to read, in order. */
  function Holders(segs: seq<SegmentView>): (r: seq<SegmentView>)
    ensures forall x <- r :: x in segs && x.unread != []
  {
    if segs == [] then []
    else (if segs[0].unread != [] then [segs[0]] else []) + Holders(segs[1..])
  }

  lemma {:induction false} PendingOfHolders(segs: seq<SegmentView>)
    ensures Pending(Holders(segs)) == Pending(segs)
  {
    if segs != [] {
      PendingOfHolders(segs[1..]);
      PendingConcat(if segs[0].unread != [] then [segs[0]] else [], Holders(segs[1..]));
    }
  }

  lemma {:induction false} HolderCount(segs: seq<SegmentView>, x: SegmentView)
    ensures multiset(Holders(segs))[x] == if x.unread != [] then multiset(segs)[x] else 0
  {
    if segs != [] {
      HolderCount(segs[1..], x);
      assert segs == [segs[0]] + segs[1..];
    }
  }

  lemma HoldersPermuted(a: seq<SegmentView>, b: seq<SegmentView>)
    requires multiset(a) == multiset(b)
    ensures multiset(Holders(a)) == multiset(Holders(b))
  {
    forall x
      ensures multiset(Holders(a))[x] == multiset(Holders(b))[x]
    {
      HolderCount(a, x);
      HolderCount(b, x);
    }
  }

  /** Segments with something left to read are in descending order of ID. */
  ghost predicate HoldersDescend(segs: seq<SegmentView>) {
    forall i, j | 0 <= i < j < |segs| && segs[i].unread != [] && segs[j].unread != [] :: segs[i].id > segs[j].id
  }

  lemma {:induction false} HoldersDescending(segs: seq<SegmentView>)
    requires HoldersDescend(segs)
    ensures Descending(Holders(segs))
  {
    if segs != [] {
      HoldersDescending(segs[1..]);
      forall x | x in Holders(segs[1..]) && segs[0].unread != []
        ensures segs[0].id > x.id
      {
        var k :| 0 <= k < |segs| - 1 && segs[1..][k] == x;
        assert segs[k + 1] == x;
      }
    }
  }

  /** Trimming an exhausted head on opening removes no entry. */
  lemma TrimKeepsPending(q: QueueView, now: int)
    requires q.segments != []
    ensures Pending(TrimExhausted(q, now).segments) == Pending(q.segments)
  {
  }

  /** If the holders are in descending order, opening keeps the sequence. */
  lemma ReopenKeepsOrder(q: QueueView, after: seq<SegmentView>, now: int)
    requires q.segments != [] && Reordered(q, after, now) && HoldersDescend(q.segments)
    ensures after != []
    ensures Pending(TrimExhausted(q.(segments := after), now).segments) == Pending(q.segments)
  {
    ReopenConserves(q, after, now);
    var loaded := Reloaded(q, now);
    HoldersPermuted(loaded, after);
    HoldersDescending(loaded);
    HoldersDescending(after);
    DescendingUnique(Holders(loaded), Holders(after));
    PendingOfHolders(loaded);
    PendingOfHolders(after);
    ReloadedPending(q, now);
    TrimKeepsPending(q.(segments := after), now);
  }

  /** Where the first entry of a segment is among the pending ones. */
  lemma {:induction false} FirstAt(segs: seq<SegmentView>, i: nat)
    requires i < |segs| && segs[i].unread != []
    ensures |Pending(segs[..i])| < |Pending(segs)| && Pending(segs)[|Pending(segs[..i])|] == segs[i].unread[0]
  {
    assert segs == segs[..i] + segs[i..];
    PendingConcat(segs[..i], segs[i..]);
  }

  lemma EarlierSegment(segs: seq<SegmentView>, i: nat, j: nat)
    requires i < j < |segs| && segs[i].unread != []
    ensures |Pending(segs[..i])| < |Pending(segs[..j])|
  {
    assert segs[..j] == segs[..i] + segs[i..j];
    PendingConcat(segs[..i], segs[i..j]);
    assert segs[i..j][0] == segs[i];
  }

  ghost predicate NoDuplicates<T>(s: seq<T>) {
    forall i, j | 0 <= i < j < |s| :: s[i] != s[j]
  }

  ghost predicate DifferentIDs(segs: seq<SegmentView>) {
    forall i, j | 0 <= i < j < |segs| :: segs[i].id != segs[j].id
  }

  /** Two holders in ascending order come out the other way round. */
  lemma AscendingHoldersSwap(before: seq<SegmentView>, after: seq<SegmentView>, i: nat, j: nat)
    requires Sorted(before, after) && NoDuplicates(Pending(before))
    requires i < j < |before| && before[i].unread != [] && before[j].unread != [] && before[i].id < before[j].id
    ensures Pending(after) != Pending(before)
  {
    assert before[i] in multiset(after) && before[j] in multiset(after);
    var i' :| 0 <= i' < |after| && after[i'] == before[i];
    var j' :| 0 <= j' < |after| && after[j'] == before[j];
    FirstAt(before, i);
    FirstAt(before, j);
    FirstAt(after, i');
    FirstAt(after, j');
    EarlierSegment(before, i, j);
    EarlierSegment(after, j', i');
  }

  /** The exact condition, for every queue whose segments have different IDs and whose
      pending entries differ: opening keeps their order if and only if the segments with
      entries left are in descending order of ID. */
  lemma ReopenOrderExactly(q: QueueView, after: seq<SegmentView>, now: int)
    requires q.segments != [] && DifferentIDs(q.segments) && Reordered(q, after, now)
    requires NoDuplicates(Pending(q.segments))
    ensures after != []
    ensures Pending(TrimExhausted(q.(segments := after), now).segments) == Pending(q.segments)
       <==> HoldersDescend(q.segments)
  {
    ReopenConserves(q, after, now);
    if HoldersDescend(q.segments) {
      ReopenKeepsOrder(q, after, now);
    } else {
      var i, j :| 0 <= i < j < |q.segments| && q.segments[i].unread != [] && q.segments[j].unread != [] && q.segments[i].id <= q.segments[j].id;
      ReloadedPending(q, now);
      AscendingHoldersSwap(Reloaded(q, now), after, i, j);
      TrimKeepsPending(q.(segments := after), now);
    }
  }

  // ---------- A queue that grew in one session ----------

  function Reverse<T>(s: seq<T>): (r: seq<T>)
    ensures |r| == |s|
  {
    if s == [] then [] else Reverse(s[1..]) + [s[0]]
  }

  lemma {:induction false} ReverseAt<T>(s: seq<T>, k: nat)
    requires k < |s|
    ensures Reverse(s)[k] == s[|s| - 1 - k]
  {
    if k < |s| - 1 { ReverseAt(s[1..], k); }
  }

  lemma {:induction false} ReverseMultiset<T>(s: seq<T>)
    ensures multiset(Reverse(s)) == multiset(s)
  {
    if s != [] {
      ReverseMultiset(s[1..]);
      assert s == [s[0]] + s[1..];
    }
  }

  lemma DescendingHead(a: seq<SegmentView>, b: seq<SegmentView>)
    requires a != [] && multiset(a) == multiset(b) && Descending(a) && Descending(b)
    ensures b != [] && a[0] == b[0]
  {
    assert a[0] in multiset(b);
    assert b[0] in multiset(a);
  }

  lemma TailMultiset<T>(s: seq<T>)
    requires s != []
    ensures multiset(s[1..]) == multiset(s) - multiset{s[0]}
  {
    assert s == [s[0]] + s[1..];
  }

  lemma {:induction false} DescendingUnique(a: seq<SegmentView>, b: seq<SegmentView>)
    requires multiset(a) == multiset(b) && Descending(a) && Descending(b)
    ensures a == b
  {
    if a == [] {
      assert |multiset(b)| == |b|;
    } else {
      DescendingHead(a, b);
      TailMultiset(a);
      TailMultiset(b);
      DescendingUnique(a[1..], b[1..]);
      assert a == [a[0]] + a[1..] && b == [b[0]] + b[1..];
    }
  }

  /** Reopening a queue that only ever grew reverses its segments. */
  lemma ReopenReverses(q: QueueView, after: seq<SegmentView>, now: int)
    requires Ascending(q.segments) && Reordered(q, after, now)
    ensures after == Reverse(Reloaded(q, now))
  {
    var loaded := Reloaded(q, now);
    ReverseMultiset(loaded);
    forall i, j | 0 <= i < j < |loaded|
      ensures Reverse(loaded)[i].id > Reverse(loaded)[j].id
    {
      ReverseAt(loaded, i);
      ReverseAt(loaded, j);
    }
    DescendingUnique(after, Reverse(loaded));
  }

  lemma AddSegmentAscends(q: QueueView, now: int)
    requires Ascending(q.segments)
    ensures Ascending(AddSegment(q, now).segments)
  {
  }

  lemma TailAscends(q: QueueView, b: Entry, now: int)
    requires q.segments != [] && Ascending(q.segments)
    ensures Ascending(AppendToTail(q, b, now).segments)
  {
  }

  lemma AppendAscends(q: QueueView, b: Entry, now: int)
    requires q.segments != [] && Ascending(q.segments)
    ensures Ascending(Append(q, b, now).0.segments)
  {
    AddSegmentAscends(q, now);
    TailAscends(q, b, now);
    TailAscends(AddSegment(q, now), b, now);
  }

  lemma TrimAscends(q: QueueView, now: int)
    requires q.segments != [] && Ascending(q.segments)
    ensures Ascending(TrimHead(q, now).segments)
  {
  }

  lemma AdvanceAscends(q: QueueView, now: int)
    requires q.segments != [] && Ascending(q.segments)
    ensures Ascending(Advance(q, now).segments)
  {
    TrimAscends(q, now);
    if q.segments[0].unread != [] {
      assert Ascending(AdvanceHead(q, now).segments);
      TrimAscends(AdvanceHead(q, now), now);
    }
  }

  lemma PurgeAscends(q: QueueView, when: int, now: int)
    requires q.segments != [] && Ascending(q.segments)
    ensures Ascending(Purge(q, when, now).segments)
  {
  }

  lemma DoAscends(q: QueueView, op: Op)
    requires q.segments != [] && Ascending(q.segments)
    ensures Do(q, op).segments != [] && Ascending(Do(q, op).segments)
  {
    match op
    case DoAppend(b, t) => AppendAscends(q, b, t);
    case DoCurrent => assert Ascending(AfterCurrent(q).segments);
    case DoAdvance(t) => AdvanceAscends(q, t);
    case DoPurge(when, t) => PurgeAscends(q, when, t);
  }

  /** Until it is reopened, a queue has its segments in ascending order of ID. */
  lemma {:induction false} RunAscends(states: seq<QueueView>, ops: seq<Op>, k: nat, maxSegmentSize: nat, maxSize: nat, now: int)
    requires IsRun(states, ops) && states[0] == FreshQueue(maxSegmentSize, maxSize, now) && k < |states|
    ensures states[k].segments != [] && Ascending(states[k].segments)
  {
    if k > 0 {
      RunAscends(states, ops, k - 1, maxSegmentSize, maxSize, now);
      DoAscends(states[k - 1], ops[k - 1]);
    }
  }

  /** At most one segment has something left to read. */
  ghost predicate SingleHolder(segs: seq<SegmentView>) {
    forall i, j | 0 <= i < j < |segs| :: segs[i].unread == [] || segs[j].unread == []
  }

  /** So after every run from a fresh queue whose pending entries differ, opening keeps
      their order if and only if at most one segment holds entries. */
  lemma FirstReopenExactly(states: seq<QueueView>, ops: seq<Op>, k: nat, maxSegmentSize: nat, maxSize: nat, start: int,
                           after: seq<SegmentView>, now: int)
    requires IsRun(states, ops) && states[0] == FreshQueue(maxSegmentSize, maxSize, start) && k < |states|
    requires Reordered(states[k], after, now) && NoDuplicates(Pending(states[k].segments))
    ensures after != [] && after == Reverse(Reloaded(states[k], now))
    ensures Pending(TrimExhausted(states[k].(segments := after), now).segments) == Pending(states[k].segments)
       <==> SingleHolder(states[k].segments)
  {
    RunAscends(states, ops, k, maxSegmentSize, maxSize, start);
    ReopenReverses(states[k], after, now);
    ReopenOrderExactly(states[k], after, now);
  }

  /** Two segments with one unread entry each. */
  function Two(a: Entry, b: Entry, maxSegmentSize: nat, maxSize: nat, now: int): (q: QueueView) {
    QueueView([SegmentView(1, [], [a], 16 + |a|, |a|, now), SegmentView(2, [], [b], 16 + |b|, |b|, now)], maxSegmentSize, maxSize)
  }

  /** Two entries that fit a segment each, and none together. */
  lemma TwoIsReached(a: Entry, b: Entry, maxSegmentSize: nat, maxSize: nat, now: int)
    requires 8 + |a| <= maxSegmentSize && 8 + |b| <= maxSegmentSize < 16 + |a| + |b| <= maxSize
    ensures Append(Append(FreshQueue(maxSegmentSize, maxSize, now), a, now).0, b, now)
         == (Two(a, b, maxSegmentSize, maxSize, now), Appended)
  {
    var q0 := FreshQueue(maxSegmentSize, maxSize, now);
    assert Usage(q0.segments) == 8 && q0.segments[0].unread + [a] == [a];
    var q1 := Append(q0, a, now).0;
    var s := SegmentView(1, [], [a], 16 + |a|, |a|, now);
    assert q1.segments == [s] && MaxID([s]) == 1 && Usage([s]) == 16 + |a|;
    assert AddSegment(q1, now).segments == [s, FreshSegment(2, now)];
    assert FreshSegment(2, now).unread + [b] == [b];
    assert AppendToTail(AddSegment(q1, now), b, now).segments == Two(a, b, maxSegmentSize, maxSize, now).segments;
  }

  lemma PendingOfTwo(s: SegmentView, t: SegmentView)
    ensures Pending([s, t]) == s.unread + t.unread
  {
    assert [s, t] == [s] + [t];
    PendingConcat([s], [t]);
    assert Pending([s]) == s.unread && Pending([t]) == t.unread;
  }

  /** Reopened, the two come back in the other order. */
  lemma TwoReopened(a: Entry, b: Entry, maxSegmentSize: nat, maxSize: nat, after: seq<SegmentView>, now: int)
    requires Reordered(Two(a, b, maxSegmentSize, maxSize, now), after, now)
    ensures var segs := Two(a, b, maxSegmentSize, maxSize, now).segments;
            after == [Reopened(segs[1], maxSegmentSize, now), Reopened(segs[0], maxSegmentSize, now)]
    ensures Pending(Two(a, b, maxSegmentSize, maxSize, now).segments) == [a, b] && Pending(after) == [b, a]
  {
    var q := Two(a, b, maxSegmentSize, maxSize, now);
    var segs := Reloaded(q, now);
    ReopenReverses(q, after, now);
    ReverseAt(segs, 0);
    ReverseAt(segs, 1);
    assert after == [segs[1], segs[0]];
    PendingOfTwo(q.segments[0], q.segments[1]);
    PendingOfTwo(segs[1], segs[0]);
  }

  /** An input: two entries of ten bytes do not fit a segment of thirty together, and come
      back in the other order. */
  lemma TwoEntriesSwap(a: Entry, b: Entry, after: seq<SegmentView>, now: int)
    requires |a| == |b| == 10 && Reordered(Two(a, b, 30, 100, now), after, now)
    ensures Append(Append(FreshQueue(30, 100, now), a, now).0, b, now) == (Two(a, b, 30, 100, now), Appended)
    ensures Pending(Two(a, b, 30, 100, now).segments) == [a, b]
    ensures after != [] && Pending(TrimExhausted(Two(a, b, 30, 100, now).(segments := after), now).segments) == [b, a]
  {
    TwoIsReached(a, b, 30, 100, now);
    TwoReopened(a, b, 30, 100, after, now);
  }

  lemma UsageOfTwo(s: SegmentView, t: SegmentView)
    ensures Usage([s, t]) == s.size + t.size && FileUsage([s, t]) == FileSize(s) + FileSize(t)
    ensures ClippedCount([s, t]) == (if Clipped(s) then 1 else 0) + if Clipped(t) then 1 else 0
  {
    OneSegment(t);
    assert [s, t][1..] == [t] && ClippedCount([t]) == if Clipped(t) then 1 else 0;
  }

  /** Clipped sizes make room that is not there: two files of 28 bytes at a segment maximum
      of twenty are counted as forty after a reopen, and a third one takes the files 32
      bytes over a queue maximum of 52. */
  lemma ClippedUsageIsReached(a: Entry, b: Entry, c: Entry, after: seq<SegmentView>, now: int)
    requires |a| == |b| == |c| == 12 && Reordered(Two(a, b, 20, 52, now), after, now)
    ensures Append(Append(FreshQueue(20, 52, now), a, now).0, b, now) == (Two(a, b, 20, 52, now), Appended)
    ensures var q := OpenedView(Two(a, b, 20, 52, now), after, now);
            && q.segments != [] && ClippedCount(q.segments) == 2
            && Append(q, c, now).1 == Appended
            && FileUsage(Append(q, c, now).0.segments) == 52 + 16 + 8 * 2
  {
    TwoIsReached(a, b, 20, 52, now);
    TwoReopened(a, b, 20, 52, after, now);
    var q := OpenedView(Two(a, b, 20, 52, now), after, now);
    assert q.segments == after;
    forall e: Entry
      ensures Length([e]) == 8 + |e|
    {
    }
    assert FileSize(after[0]) == FileSize(after[1]) == 28 && after[0].size == after[1].size == 20;
    UsageOfTwo(after[0], after[1]);
    AppendKeepsMaxExactly(q, c, now);
  }
}

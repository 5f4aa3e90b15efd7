/**
 Lists of segment objects against lists of views: which object shows which
 view, which objects a directory names, and what opening a directory yields.
 */
module SegmentList {
  import opened Basics
  import opened QueueSpec
  import opened Reopen
  import opened Segment

  /** An open segment shows this view. */
  ghost predicate Tracks(s: Segment, v: SegmentView, maxSegmentSize: nat)
    reads s
  {
    s.isOpen && s.maxSize == maxSegmentSize && s.Valid() && s.View() == v
  }

  /** Reading the head of a segment within its invariant. */
  method ReadOne(s: Segment, ghost v: SegmentView, maxSegmentSize: nat) returns (r: ReadResult)
    requires Tracks(s, v, maxSegmentSize) && SegmentInv(v, maxSegmentSize)
    modifies s`currentSize
    ensures Tracks(s, ReadSegment(v), maxSegmentSize)
    ensures r == if v.unread == [] then EOF else Record(v.unread[0])
  {
    HeadReads(v, maxSegmentSize);
    s.Lengths();
    r := s.Current();
  }

  /** Advancing it. The end is answered unless the last entry of a segment whose size is
      clipped was passed; from there the next call leaves the file. */
  method AdvanceOne(s: Segment, ghost v: SegmentView, maxSegmentSize: nat, now: int) returns (r: SegmentResult)
    requires Tracks(s, v, maxSegmentSize) && SegmentInv(v, maxSegmentSize)
    modifies s
    ensures s.size == v.size
    ensures v.unread != [] ==> Tracks(s, AdvanceSegment(v, now), maxSegmentSize)
    ensures v.unread == [] ==> Tracks(s, v, maxSegmentSize) || s.size == maxSegmentSize
    ensures r == if v.unread == [] || (|v.unread| == 1 && !Clipped(v)) then EndOfFile else Done
  {
    HeadReads(v, maxSegmentSize);
    if v.unread != [] {
      AdvanceSegmentSize(v, now);
      AdvanceSegmentInv(v, maxSegmentSize, now);
      AtFooterExactly(AdvanceSegment(v, now), maxSegmentSize);
    }
    r := s.Advance(now);
  }

  ghost predicate AllTrack(segments: seq<Segment>, views: seq<SegmentView>, maxSegmentSize: nat)
    reads segments
  {
    && |segments| == |views|
    && forall i {:trigger Tracks(segments[i], views[i], maxSegmentSize)} | 0 <= i < |segments| ::
         Tracks(segments[i], views[i], maxSegmentSize)
  }

  lemma TrackConcat(s: seq<Segment>, t: seq<Segment>, v: seq<SegmentView>, w: seq<SegmentView>, maxSegmentSize: nat)
    requires AllTrack(s, v, maxSegmentSize) && AllTrack(t, w, maxSegmentSize)
    ensures AllTrack(s + t, v + w, maxSegmentSize)
  {
  }

  lemma TrackSlice(s: seq<Segment>, v: seq<SegmentView>, i: nat, j: nat, maxSegmentSize: nat)
    requires AllTrack(s, v, maxSegmentSize) && i <= j <= |s|
    ensures AllTrack(s[i..j], v[i..j], maxSegmentSize)
  {
  }

  lemma TrackOne(s: Segment, v: SegmentView, maxSegmentSize: nat)
    requires Tracks(s, v, maxSegmentSize)
    ensures AllTrack([s], [v], maxSegmentSize)
  {
  }

  lemma OnlyAt(s: seq<Segment>, k: nat)
    requires DistinctIDs(s) && k < |s|
    ensures s[k] !in s[..k] && s[k] !in s[k + 1..]
  {
    forall i | 0 <= i < |s| && i != k
      ensures s[i] != s[k]
    {
      assert if i < k then Differ(s[i], s[k]) else Differ(s[k], s[i]);
    }
  }

  /** A file, open or not, holds what this view says. */
  ghost predicate Holds(s: Segment, v: SegmentView)
    reads s
  {
    s.WellFormed() && s.View() == v.(size := s.size, cached := s.currentSize)
  }

  ghost predicate AllFiles(files: seq<Segment>, views: seq<SegmentView>)
    reads files
  {
    && |files| == |views|
    && forall i {:trigger Holds(files[i], views[i])} | 0 <= i < |files| :: Holds(files[i], views[i])
  }

  lemma FilesOf(segments: seq<Segment>, views: seq<SegmentView>, maxSegmentSize: nat)
    requires AllTrack(segments, views, maxSegmentSize)
    ensures AllFiles(segments, views)
  {
    forall i | 0 <= i < |segments|
      ensures Holds(segments[i], views[i])
    {
      assert Tracks(segments[i], views[i], maxSegmentSize);
    }
  }

  // ---------- Opening a directory ----------

  ghost predicate Shown(segments: seq<Segment>, shown: map<Segment, SegmentView>) {
    forall s <- segments :: s in shown
  }

  ghost function ViewsOf(segments: seq<Segment>, shown: map<Segment, SegmentView>): (views: seq<SegmentView>)
    requires Shown(segments, shown)
    ensures |views| == |segments|
    ensures forall i | 0 <= i < |segments| :: views[i] == shown[segments[i]]
  {
    seq(|segments|, i requires 0 <= i < |segments| => shown[segments[i]])
  }

  /** A file that shows this view once it is opened. */
  ghost predicate Loadable(s: Segment, v: SegmentView, maxSegmentSize: nat, now: int)
    reads s
  {
    s.WellFormed() && |s.data| <= maxSegmentSize + 8 && v == Reopened(s.View(), maxSegmentSize, now)
  }

  ghost predicate AllLoadable(files: seq<Segment>, shown: map<Segment, SegmentView>, maxSegmentSize: nat, now: int)
    reads files
  {
    && Shown(files, shown)
    && forall i {:trigger Loadable(files[i], shown[files[i]], maxSegmentSize, now)} | 0 <= i < |files| ::
         Loadable(files[i], shown[files[i]], maxSegmentSize, now)
  }

  lemma LoadableSlice(s: seq<Segment>, shown: map<Segment, SegmentView>, i: nat, maxSegmentSize: nat, now: int)
    requires AllLoadable(s, shown, maxSegmentSize, now) && i <= |s|
    ensures AllLoadable(s[i..], shown, maxSegmentSize, now)
  {
  }

  lemma FilesAreLoadable(files: seq<Segment>, q: QueueView, shown: map<Segment, SegmentView>, now: int)
    requires AllFiles(files, q.segments) && shown == map s | s in files :: Reopened(s.View(), q.maxSegmentSize, now)
    requires forall v <- q.segments :: FileSize(v) <= q.maxSegmentSize + 8
    ensures AllLoadable(files, shown, q.maxSegmentSize, now) && ViewsOf(files, shown) == Reloaded(q, now)
  {
    forall i | 0 <= i < |files|
      ensures ViewsOf(files, shown)[i] == Reloaded(q, now)[i] && Loadable(files[i], shown[files[i]], q.maxSegmentSize, now)
    {
      assert Holds(files[i], q.segments[i]);
      assert q.segments[i] in q.segments;
      files[i].Lengths();
    }
  }

  lemma LoadablePermuted(a: seq<Segment>, b: seq<Segment>, shown: map<Segment, SegmentView>, maxSegmentSize: nat, now: int)
    requires AllLoadable(a, shown, maxSegmentSize, now) && multiset(a) == multiset(b)
    ensures AllLoadable(b, shown, maxSegmentSize, now)
  {
    forall s | s in b
      ensures s in shown && Loadable(s, shown[s], maxSegmentSize, now)
    {
      assert s in multiset(a);
      var i :| 0 <= i < |a| && a[i] == s;
      assert Loadable(a[i], shown[a[i]], maxSegmentSize, now);
    }
  }

  lemma TrackPermuted(a: seq<Segment>, b: seq<Segment>, shown: map<Segment, SegmentView>, maxSegmentSize: nat)
    requires Shown(a, shown) && AllTrack(a, ViewsOf(a, shown), maxSegmentSize) && multiset(a) == multiset(b)
    ensures Shown(b, shown) && AllTrack(b, ViewsOf(b, shown), maxSegmentSize)
  {
    forall s | s in b
      ensures s in shown && Tracks(s, shown[s], maxSegmentSize)
    {
      assert s in multiset(a);
      var i :| 0 <= i < |a| && a[i] == s;
      assert Tracks(a[i], ViewsOf(a, shown)[i], maxSegmentSize);
    }
  }

  lemma {:induction false} ViewsPermuted(a: seq<Segment>, b: seq<Segment>, shown: map<Segment, SegmentView>)
    requires Shown(a, shown) && Shown(b, shown) && multiset(a) == multiset(b)
    ensures multiset(ViewsOf(a, shown)) == multiset(ViewsOf(b, shown))
    decreases |a|
  {
    if a == [] {
      assert |multiset(b)| == |b|;
    } else {
      assert a[0] in multiset(b);
      var j :| 0 <= j < |b| && b[j] == a[0];
      var a', b' := Without(a, 0), Without(b, j);
      WithoutMultiset(a, 0);
      WithoutMultiset(b, j);
      ViewsPermuted(a', b', shown);
      ViewsWithout(a, 0, a', shown);
      ViewsWithout(b, j, b', shown);
    }
  }

  lemma ViewsWithout(s: seq<Segment>, i: nat, s': seq<Segment>, shown: map<Segment, SegmentView>)
    requires i < |s| && Shown(s, shown) && s' == Without(s, i)
    ensures Shown(s', shown)
    ensures multiset(ViewsOf(s, shown)) == multiset(ViewsOf(s', shown)) + multiset{shown[s[i]]}
  {
    var v, v' := ViewsOf(s, shown), ViewsOf(s', shown);
    assert v' == Without(v, i);
    assert v == v[..i] + [v[i]] + v[i + 1..];
  }

  /** sort.Sort on segments: insertion by descending ID. */
  function InsertByID(segments: seq<Segment>, s: Segment): (r: seq<Segment>)
    ensures multiset(r) == multiset(segments) + multiset{s}
  {
    if segments == [] then [s]
    else if s.id > segments[0].id then [s] + segments
    else
      assert segments == [segments[0]] + segments[1..];
      [segments[0]] + InsertByID(segments[1..], s)
  }

  function SortByID(segments: seq<Segment>): (r: seq<Segment>)
    ensures multiset(r) == multiset(segments)
  {
    if segments == [] then []
    else
      assert segments == [segments[0]] + segments[1..];
      InsertByID(SortByID(segments[1..]), segments[0])
  }

  ghost predicate DescendingIDs(segments: seq<Segment>) {
    forall i, j | 0 <= i < j < |segments| :: segments[i].id > segments[j].id
  }

  lemma {:induction false} InsertByIDSorted(segments: seq<Segment>, s: Segment)
    requires DescendingIDs(segments)
    requires forall t <- segments :: t.id != s.id
    ensures DescendingIDs(InsertByID(segments, s))
  {
    if segments != [] && s.id < segments[0].id {
      InsertByIDSorted(segments[1..], s);
      forall t | t in InsertByID(segments[1..], s)
        ensures t.id < segments[0].id
      {
        assert t in multiset(InsertByID(segments[1..], s));
      }
    }
  }

  lemma {:induction false} SortByIDSorted(segments: seq<Segment>)
    requires DistinctIDs(segments)
    ensures DescendingIDs(SortByID(segments))
  {
    if segments != [] {
      assert DistinctIDs(segments[1..]) by {
        forall i, j | 0 <= i < j < |segments| - 1
          ensures Differ(segments[1..][i], segments[1..][j])
        {
          assert Differ(segments[i + 1], segments[j + 1]);
        }
      }
      SortByIDSorted(segments[1..]);
      forall t | t in SortByID(segments[1..])
        ensures t.id != segments[0].id
      {
        assert t in multiset(segments[1..]);
        var i :| 0 <= i < |segments| - 1 && segments[1..][i] == t;
        assert Differ(segments[0], segments[i + 1]);
      }
      InsertByIDSorted(SortByID(segments[1..]), segments[0]);
    }
  }

  lemma {:induction false} CountOnce(s: seq<Segment>, x: Segment)
    requires NoDuplicates(s) && x in s
    ensures multiset(s)[x] == 1
  {
    assert s == [s[0]] + s[1..];
    if x == s[0] {
      assert x !in s[1..];
    } else {
      CountOnce(s[1..], x);
    }
  }

  lemma DistinctObjects(s: seq<Segment>)
    requires DistinctIDs(s)
    ensures NoDuplicates(s)
  {
    forall i, j | 0 <= i < j < |s|
      ensures s[i] != s[j]
    {
      assert Differ(s[i], s[j]);
    }
  }

  lemma RegisteredPermuted(dir: map<nat, Segment>, a: seq<Segment>, b: seq<Segment>)
    requires Registered(dir, a) && multiset(a) == multiset(b) && DescendingIDs(b)
    ensures Registered(dir, b)
  {
    SameMembers(a, b);
    SameMembers(b, a);
    AllListed(dir, a);
  }

  ghost function Objects(segments: seq<Segment>): (objects: set<Segment>) {
    set s <- segments
  }

  lemma SameMembers(a: seq<Segment>, b: seq<Segment>)
    requires multiset(a) == multiset(b)
    ensures Objects(a) == Objects(b)
    ensures forall s <- a :: s in b
  {
    forall s
      ensures s in a <==> s in b
    {
      assert s in a <==> s in multiset(b);
    }
  }

  lemma AllListed(dir: map<nat, Segment>, s: seq<Segment>)
    requires Registered(dir, s)
    ensures forall x <- s :: Listed(dir, x)
  {
  }

  lemma SamePermutation(dir: map<nat, Segment>, a: seq<Segment>, b: seq<Segment>)
    requires Registered(dir, a) && Registered(dir, b)
    ensures multiset(a) == multiset(b)
  {
    DistinctObjects(a);
    DistinctObjects(b);
    AllListed(dir, a);
    AllListed(dir, b);
    forall x
      ensures multiset(a)[x] == multiset(b)[x]
    {
      if x in a || x in b {
        assert x in a && x in b;
        CountOnce(a, x);
        CountOnce(b, x);
      }
    }
  }

  ghost predicate Differ(s: Segment, t: Segment) {
    s.id != t.id
  }

  ghost predicate DistinctIDs(segments: seq<Segment>) {
    forall i, j {:trigger Differ(segments[i], segments[j])} | 0 <= i < j < |segments| ::
      Differ(segments[i], segments[j])
  }

  ghost predicate Listed(dir: map<nat, Segment>, s: Segment) {
    s.id in dir && dir[s.id] == s
  }

  /** The directory lists exactly these segments, under distinct numbers. */
  ghost predicate Registered(dir: map<nat, Segment>, segments: seq<Segment>) {
    && DistinctIDs(segments)
    && (forall i {:trigger Listed(dir, segments[i])} | 0 <= i < |segments| :: Listed(dir, segments[i]))
    && (forall k | k in dir :: dir[k].id == k && dir[k] in segments)
  }

  // ---------- Segment numbers ----------

  lemma {:induction false} MaxIDAttained(segs: seq<SegmentView>) returns (i: nat)
    requires segs != []
    ensures i < |segs| && segs[i].id == MaxID(segs)
  {
    if |segs| == 1 || segs[0].id > MaxID(segs[1..]) {
      i := 0;
    } else {
      i := MaxIDAttained(segs[1..]);
      i := i + 1;
    }
  }

  ghost predicate SameID(s: Segment, v: SegmentView) {
    s.id == v.id
  }

  /** Segments and views have the same numbers. */
  ghost predicate SameIDs(segments: seq<Segment>, views: seq<SegmentView>) {
    && |segments| == |views|
    && forall i {:trigger SameID(segments[i], views[i])} | 0 <= i < |segments| :: SameID(segments[i], views[i])
  }

  lemma TrackedIDs(segments: seq<Segment>, views: seq<SegmentView>, maxSegmentSize: nat)
    requires AllTrack(segments, views, maxSegmentSize)
    ensures SameIDs(segments, views)
  {
    forall i | 0 <= i < |segments|
      ensures SameID(segments[i], views[i])
    {
      assert Tracks(segments[i], views[i], maxSegmentSize);
    }
  }

  lemma MaxIDIsMaxKey(dir: map<nat, Segment>, segments: seq<Segment>, views: seq<SegmentView>, m: nat)
    requires Registered(dir, segments) && SameIDs(segments, views)
    requires m == 0 || m in dir
    requires forall k | k in dir :: k <= m
    ensures m == MaxID(views)
  {
    if m in dir {
      var i :| 0 <= i < |segments| && segments[i] == dir[m];
      assert SameID(segments[i], views[i]);
      assert views[i] in views;
    }
    if views != [] {
      var j := MaxIDAttained(views);
      assert SameID(segments[j], views[j]);
      assert Listed(dir, segments[j]);
    }
  }

  lemma NewID(dir: map<nat, Segment>, segments: seq<Segment>, views: seq<SegmentView>)
    requires Registered(dir, segments) && SameIDs(segments, views)
    ensures MaxID(views) + 1 !in dir
  {
    forall k | k in dir
      ensures k <= MaxID(views)
    {
      var i :| 0 <= i < |segments| && segments[i] == dir[k];
      assert SameID(segments[i], views[i]);
      assert views[i] in views;
    }
  }

  lemma Register(dir: map<nat, Segment>, segments: seq<Segment>, s: Segment)
    requires Registered(dir, segments) && s.id !in dir
    ensures Registered(dir[s.id := s], segments + [s])
  {
    var segments', dir' := segments + [s], dir[s.id := s];
    forall i | 0 <= i < |segments'|
      ensures Listed(dir', segments'[i])
    {
      assert i < |segments| ==> Listed(dir, segments[i]);
    }
    forall i, j | 0 <= i < j < |segments'|
      ensures Differ(segments'[i], segments'[j])
    {
      assert Listed(dir, segments[i]);
      assert j < |segments| ==> Differ(segments[i], segments[j]);
    }
  }

  lemma Unregister(dir: map<nat, Segment>, segments: seq<Segment>)
    requires Registered(dir, segments) && segments != []
    ensures Registered(dir - {segments[0].id}, segments[1..])
  {
    var segments', dir' := segments[1..], dir - {segments[0].id};
    forall i | 0 <= i < |segments'|
      ensures Listed(dir', segments'[i])
    {
      assert Differ(segments[0], segments[i + 1]);
      assert Listed(dir, segments[i + 1]);
    }
    forall i, j | 0 <= i < j < |segments'|
      ensures Differ(segments'[i], segments'[j])
    {
      assert Differ(segments[i + 1], segments[j + 1]);
    }
    forall k | k in dir'
      ensures dir'[k] in segments'
    {
      assert dir[k] in segments && dir[k] != segments[0];
    }
  }

  lemma DescendingViews(segments: seq<Segment>, views: seq<SegmentView>, maxSegmentSize: nat)
    requires AllTrack(segments, views, maxSegmentSize) && DescendingIDs(segments)
    ensures Descending(views)
  {
    forall i, j | 0 <= i < j < |views|
      ensures views[i].id > views[j].id
    {
      assert Tracks(segments[i], views[i], maxSegmentSize);
      assert Tracks(segments[j], views[j], maxSegmentSize);
    }
  }
}

/**
 The disk-backed queue: a directory of segment files, a list of open segments,
 and the head and tail of that list. Every method is proved against the
 function of the same name in QueueSpec.
 */
module Queue {
  import opened Bytes
  import opened QueueSpec
  import opened Reopen
  import opened Segment
  import opened SegmentList

  datatype QueueResult = Success | QueueNotOpen | QueueIsFull | SegmentIsFull

  ghost function FromAppend(r: AppendResult): (q: QueueResult) {
    match r
    case Appended => Success
    case QueueFull => QueueIsFull
    case SegmentFull => SegmentIsFull
  }

  datatype CurrentResult = Got(entry: Entry) | AtEnd | CurrentNotOpen | BadRecord

  class Queue {
    const maxSegmentSize: nat
    const maxSize: nat
    var dir: map<nat, Segment>
    var segments: seq<Segment>
    var head: Segment?
    var tail: Segment?
    ghost var view: QueueView
    ghost var files: seq<Segment>  // the segments a closed queue left behind, in queue order

    /** Views, segment objects and directory entries agree on the segment numbers. */
    ghost predicate Numbered()
      reads this
    {
      && maxSegmentSize < TWO_TO_63
      && view == QueueView(view.segments, maxSegmentSize, maxSize)
      && Registered(dir, segments)
      && SameIDs(segments, view.segments)
    }

    /** Every segment object shows its view. */
    ghost predicate ListValid()
      reads this, segments
    {
      Numbered() && AllTrack(segments, view.segments, maxSegmentSize)
    }

    ghost predicate Ends()
      reads this
    {
      segments != [] && head == segments[0] && tail == Last(segments)
    }

    /** What trimming needs. A head that will go may be in any state. */
    ghost predicate Trimmable()
      reads this, segments
    {
      && Numbered() && Ends()
      && AllTrack(segments[1..], view.segments[1..], maxSegmentSize)
      && segments[0].size == view.segments[0].size
      && (Tracks(segments[0], view.segments[0], maxSegmentSize) || |segments| > 1 || segments[0].size == maxSegmentSize)
    }

    /** An open queue: the head is the first segment, the tail the last one. */
    ghost predicate Valid()
      reads this, segments
    {
      ListValid() && Ends() && QueueInv(view)
    }

    /** A closed queue: the directory still lists the files, which hold what the view says. */
    ghost predicate Closed()
      reads this, files
    {
      && head == null && tail == null && segments == []
      && maxSegmentSize < TWO_TO_63
      && view == QueueView(view.segments, maxSegmentSize, maxSize)
      && Registered(dir, files)
      && AllFiles(files, view.segments)
      && (view.segments != [] ==> QueueInv(view))
    }

    /** newQueue on an empty directory. */
    constructor (maxSegmentSize: nat, maxSize: nat)
      requires maxSegmentSize < TWO_TO_63
      ensures Closed() && view == QueueView([], maxSegmentSize, maxSize)
    {
      files := [];
      this.maxSegmentSize, this.maxSize := maxSegmentSize, maxSize;
      dir, segments, head, tail := map[], [], null, null;
      view := QueueView([], maxSegmentSize, maxSize);
    }

    method DiskUsage() returns (n: nat)
      requires ListValid()
      ensures n == Usage(view.segments)
    {
      n := 0;
      var i := 0;
      while i < |segments|
        invariant 0 <= i <= |segments|
        invariant n == Usage(view.segments[..i])
      {
        assert Tracks(segments[i], view.segments[i], maxSegmentSize);
        n := n + segments[i].size;
        assert view.segments[..i + 1] == view.segments[..i] + [view.segments[i]];
        UsageConcat(view.segments[..i], [view.segments[i]]);
        i := i + 1;
      }
      assert view.segments[..i] == view.segments;
    }

    method NextSegmentID() returns (id: nat)
      requires Numbered()
      ensures id == MaxID(view.segments) + 1
    {
      var maxID, todo := 0, dir.Keys;
      while todo != {}
        invariant todo <= dir.Keys
        invariant maxID == 0 || maxID in dir
        invariant forall k | k in dir && k !in todo :: k <= maxID
        decreases |todo|
      {
        var k :| k in todo;
        if k > maxID { maxID := k; }
        todo := todo - {k};
      }
      MaxIDIsMaxKey(dir, segments, view.segments, maxID);
      return maxID + 1;
    }

    /** addSegment, which looks at the segment numbers only. */
    method NewSegment(now: int)
      requires Numbered()
      modifies this`dir, this`segments, this`tail, this`view
      ensures Numbered()
      ensures |segments| == |old(segments)| + 1 && segments[..|old(segments)|] == old(segments)
      ensures tail == Last(segments) && fresh(tail)
      ensures view == QueueSpec.AddSegment(old(view), now)
      ensures Tracks(tail, Last(view.segments), maxSegmentSize)
    {
      var id := NextSegmentID();
      NewID(dir, segments, view.segments);
      var segment := new Segment(id, maxSegmentSize, now);
      Register(dir, segments, segment);
      dir := dir[id := segment];
      segments := segments + [segment];
      tail := segment;
      view := QueueSpec.AddSegment(view, now);
    }

    /** After a segment was added: the list shows it as well. */
    lemma AttachTail(front: seq<Segment>, views: seq<SegmentView>)
      requires Numbered() && AllTrack(front, views, maxSegmentSize)
      requires |segments| == |front| + 1 && segments[..|front|] == front && tail == Last(segments)
      requires |view.segments| == |views| + 1 && view.segments[..|views|] == views
      requires Tracks(Last(segments), Last(view.segments), maxSegmentSize)
      ensures ListValid()
    {
    }

    method AddSegment(now: int)
      requires ListValid()
      modifies this`dir, this`segments, this`tail, this`view
      ensures ListValid()
      ensures |segments| == |old(segments)| + 1 && segments[..|old(segments)|] == old(segments)
      ensures tail == Last(segments) && fresh(tail)
      ensures view == QueueSpec.AddSegment(old(view), now)
    {
      NewSegment(now);
      AttachTail(old(segments), old(view).segments);
    }

    /** Writes to the tail; the caller sees the view change by AppendToTail. */
    method AppendToTail(b: Entry, now: int) returns (r: SegmentResult)
      requires ListValid() && segments != [] && tail == Last(segments)
      modifies this`view, tail
      ensures ListValid()
      ensures r == if Fits(Last(old(view).segments), b, maxSegmentSize) then Done else Full
      ensures view == if r == Done then QueueSpec.AppendToTail(old(view), b, now) else old(view)
    {
      ghost var k := |segments| - 1;
      ghost var front, views := segments[..k], view.segments[..k];
      assert segments == front + [tail];
      assert Tracks(segments[k], view.segments[k], maxSegmentSize);
      TrackSlice(segments, view.segments, 0, k, maxSegmentSize);
      OnlyAt(segments, k);
      r := tail.Append(b, now);
      TrackOne(tail, tail.View(), maxSegmentSize);
      TrackConcat(front, [tail], views, [tail.View()], maxSegmentSize);
      view := view.(segments := views + [tail.View()]);
    }

    method Append(b: Entry, now: int) returns (r: QueueResult)
      requires tail == null || Valid()
      modifies this`dir, this`segments, this`tail, this`view, tail
      ensures old(tail) == null ==> r == QueueNotOpen && unchanged(this)
      ensures old(tail) != null && b != [] ==> Valid()
      ensures old(tail) != null ==>
                && ListValid() && Ends()
                && (view, r) == (QueueSpec.Append(old(view), b, now).0, FromAppend(QueueSpec.Append(old(view), b, now).1))
    {
      if tail == null { return QueueNotOpen; }
      if b != [] { AppendInv(view, b, now); }
      var usage := DiskUsage();
      if usage + |b| > maxSize { return QueueIsFull; }
      var err := AppendToTail(b, now);
      if err == Full {
        err := AppendToNew(b, now);
        return if err == Done then Success else SegmentIsFull;
      }
      return Success;
    }

    /** Adds a segment and writes to it. */
    method AppendToNew(b: Entry, now: int) returns (r: SegmentResult)
      requires ListValid() && Ends()
      modifies this`dir, this`segments, this`tail, this`view
      ensures ListValid() && Ends()
      ensures var q := QueueSpec.AddSegment(old(view), now);
              && r == (if Fits(Last(q.segments), b, maxSegmentSize) then Done else Full)
              && view == (if r == Done then QueueSpec.AppendToTail(q, b, now) else q)
    {
      AddSegment(now);
      r := AppendToTail(b, now);
    }

    method Current() returns (r: CurrentResult)
      requires head == null || Valid()
      modifies this`view, head
      ensures old(head) == null ==> r == CurrentNotOpen && unchanged(this)
      ensures old(head) != null ==>
                && Valid()
                && view == AfterCurrent(old(view))
                && r == if QueueSpec.Current(old(view)).None? then AtEnd else Got(QueueSpec.Current(old(view)).value)
    {
      if head == null { return CurrentNotOpen; }
      DetachHead();
      AfterCurrentEffect(view);
      assert view.segments[0] in view.segments;
      var b := ReadOne(head, view.segments[0], maxSegmentSize);
      AttachHead(ReadSegment(view.segments[0]));
      view := AfterCurrent(view);
      TrackedIDs(segments, view.segments, maxSegmentSize);
      match b
      case Record(body) => return Got(body);
      case EOF => return AtEnd;
      case OutOfRange => return BadRecord;
      case ReadError => return BadRecord;
    }

    /** Before the head changes: the other segments are separate objects. */
    lemma DetachHead()
      requires ListValid() && segments != [] && head == segments[0]
      ensures segments == [head] + segments[1..] && head !in segments[1..]
      ensures AllTrack(segments[1..], view.segments[1..], maxSegmentSize)
      ensures Tracks(head, view.segments[0], maxSegmentSize)
    {
      OnlyAt(segments, 0);
      TrackSlice(segments, view.segments, 1, |segments|, maxSegmentSize);
      assert Tracks(segments[0], view.segments[0], maxSegmentSize);
    }

    /** After the head has changed: the list shows the head's new view. */
    lemma AttachHead(v: SegmentView)
      requires segments != [] && |view.segments| == |segments| && segments == [head] + segments[1..]
      requires AllTrack(segments[1..], view.segments[1..], maxSegmentSize) && Tracks(segments[0], v, maxSegmentSize)
      ensures AllTrack(segments, [v] + view.segments[1..], maxSegmentSize)
    {
    }

    lemma ListTrims()
      requires ListValid() && Ends()
      ensures Trimmable()
    {
      TrackSlice(segments, view.segments, 1, |segments|, maxSegmentSize);
      assert Tracks(segments[0], view.segments[0], maxSegmentSize);
    }

    method TrimHead(now: int)
      requires Trimmable()
      modifies this`dir, this`segments, this`head, this`tail, this`view, head`isOpen
      ensures ListValid() && Ends()
      ensures view == QueueSpec.TrimHead(old(view), now)
      ensures forall s <- segments :: s in old(segments) || fresh(s)
    {
      OnlyAt(segments, 0);
      if |segments| == 1 && head.size == maxSegmentSize {
        NewSegment(now);
        TrackOne(Last(segments), Last(view.segments), maxSegmentSize);
        assert segments[1..] == [Last(segments)] && view.segments[1..] == [Last(view.segments)];
      }
      if |segments| > 1 {
        OnlyAt(segments, 0);
        Unregister(dir, segments);
        segments := segments[1..];
        head.Close();
        dir := dir - {head.id};
        head := segments[0];
        view := view.(segments := view.segments[1..]);
        TrackedIDs(segments, view.segments, maxSegmentSize);
      } else {
        AttachHead(view.segments[0]);
      }
    }

    /** Moves the head of the head segment; the view changes by AdvanceHead. */
    method AdvanceHead(now: int) returns (r: SegmentResult)
      requires ListValid() && Ends() && SegmentInv(view.segments[0], maxSegmentSize)
      modifies this`view, head
      ensures if old(view).segments[0].unread == [] then Trimmable() else ListValid() && Ends()
      ensures view == if old(view).segments[0].unread == [] then old(view) else QueueSpec.AdvanceHead(old(view), now)
      ensures r == if old(view).segments[0].unread == [] || (view.segments[0].unread == [] && !Clipped(old(view).segments[0]))
                   then EndOfFile else Done
    {
      DetachHead();
      ghost var v := view.segments[0];
      r := AdvanceOne(head, v, maxSegmentSize, now);
      if v.unread != [] {
        AttachHead(AdvanceSegment(v, now));
        view := QueueSpec.AdvanceHead(view, now);
        TrackedIDs(segments, view.segments, maxSegmentSize);
      }
    }

    method Advance(now: int) returns (r: QueueResult)
      requires head == null || Valid()
      modifies this`dir, this`segments, this`head, this`tail, this`view, head
      ensures old(head) == null ==> r == QueueNotOpen && unchanged(this)
      ensures old(head) != null ==> r == Success && Valid() && view == QueueSpec.Advance(old(view), now)
    {
      if head == null { return QueueNotOpen; }
      AdvanceInv(view, now);
      assert view.segments[0] in view.segments;
      var err := AdvanceHead(now);
      if err == EndOfFile {
        if old(view).segments[0].unread != [] { ListTrims(); }
        TrimHead(now);
      }
      return Success;
    }

    method LastModified() returns (m: int)
      requires ListValid() && segments != [] && head == segments[0]
      ensures m == view.segments[0].modified
    {
      DetachHead();
      return head.modified;
    }

    /** One round of the purge: the head goes, after a fresh segment took its place if it was alone. */
    method DropHead(now: int)
      requires ListValid() && Ends()
      modifies this`dir, this`segments, this`head, this`tail, this`view, head`isOpen
      ensures ListValid() && Ends()
      ensures view.segments == DropFirst(old(view).segments, 1, now)
      ensures forall s <- segments :: s in old(segments) || fresh(s)
    {
      if |segments| == 1 {
        assert MaxID(view.segments) == view.segments[0].id;
        AddSegment(now);
      }
      ListTrims();
      TrimHead(now);
    }

    /** Drops leading segments last modified before the cutoff. Terminates when a
        fresh segment is not older than the cutoff. */
    method PurgeOlderThan(when: int, now: int)
      requires segments == [] || Valid()
      requires Cutoff(when) <= now
      modifies this`dir, this`segments, this`head, this`tail, this`view, segments
      ensures old(segments) == [] ==> unchanged(this)
      ensures old(segments) != [] ==> Valid() && view == QueueSpec.Purge(old(view), when, now)
    {
      if segments == [] { return; }
      PurgeInv(view, when, now);
      var cutoff := when - when % SECOND;
      ghost var before, k := view.segments, 0;
      var mod := LastModified();
      while mod < cutoff
        invariant ListValid() && Ends()
        invariant forall s <- segments :: s in old(segments) || fresh(s)
        invariant mod == view.segments[0].modified
        invariant 0 <= k <= StaleRun(before, cutoff)
        invariant view.segments == DropFirst(before, k, now)
        decreases |before| - k
      {
        StaleRunAt(before, cutoff, k, now);
        assert head in segments;
        DropHead(now);
        DropOneMore(before, k, now);
        k := k + 1;
        mod := LastModified();
      }
      StaleRunAt(before, cutoff, k, now);
    }

    method Close()
      requires Valid() || Closed()
      modifies this`segments, this`head, this`tail, this`files, segments`isOpen
      ensures Closed() && view == old(view)
    {
      if segments == [] { return; }
      FilesOf(segments, view.segments, maxSegmentSize);
      var i := 0;
      while i < |segments|
        invariant 0 <= i <= |segments| && unchanged(this)
        invariant AllFiles(segments, view.segments)
      {
        CloseOne(segments, i);
        i := i + 1;
      }
      files := segments;
      segments, head, tail := [], null, null;
    }

    method CloseOne(segments: seq<Segment>, i: nat)
      requires i < |segments| && AllFiles(segments, view.segments)
      modifies segments`isOpen
      ensures AllFiles(segments, view.segments)
    {
      segments[i].Close();
      forall j | 0 <= j < |segments|
        ensures Holds(segments[j], view.segments[j])
      {
        assert old(Holds(segments[j], view.segments[j]));
      }
    }

    /** ReadDir: the segments the directory lists, in any order. */
    method ReadDir() returns (all: seq<Segment>)
      requires Closed()
      ensures Registered(dir, all)
    {
      all := [];
      var todo := dir.Keys;
      ghost var done: map<nat, Segment> := map[];
      while todo != {}
        invariant todo <= dir.Keys && done.Keys == dir.Keys - todo
        invariant forall k | k in done :: dir[k] == done[k]
        invariant Registered(done, all)
        decreases |todo|
      {
        var k :| k in todo;
        Register(done, all, dir[k]);
        done := done[k := dir[k]];
        all := all + [dir[k]];
        todo := todo - {k};
      }
      assert done == dir;
    }

    /** Opens every file of the directory and sorts the segments by descending ID. */
    method LoadSegments(now: int) returns (loaded: seq<Segment>, ghost views: seq<SegmentView>)
      requires Closed()
      requires view.segments == [] || FOOTER_SIZE <= maxSegmentSize
      modifies Objects(files)
      ensures DescendingIDs(loaded) && multiset(loaded) == multiset(files)
      ensures AllTrack(loaded, views, maxSegmentSize)
      ensures Reordered(view, views, now)
    {
      ghost var shown := map s | s in files :: Reopened(s.View(), maxSegmentSize, now);
      FilesAreLoadable(files, view, shown, now);
      var all := ReadDir();
      SamePermutation(dir, all, files);
      LoadablePermuted(files, all, shown, maxSegmentSize, now);
      SameMembers(all, files);
      OpenAll(all, shown, now);
      SortByIDSorted(all);
      loaded := SortByID(all);
      TrackPermuted(all, loaded, shown, maxSegmentSize);
      ViewsPermuted(files, loaded, shown);
      views := ViewsOf(loaded, shown);
      DescendingViews(loaded, views, maxSegmentSize);
    }

    method OpenAll(all: seq<Segment>, ghost shown: map<Segment, SegmentView>, now: int)
      requires AllLoadable(all, shown, maxSegmentSize, now) && DistinctIDs(all)
      requires maxSegmentSize < TWO_TO_63 && (all == [] || FOOTER_SIZE <= maxSegmentSize)
      modifies Objects(all)
      ensures AllTrack(all, ViewsOf(all, shown), maxSegmentSize)
    {
      var i := 0;
      while i < |all|
        invariant 0 <= i <= |all|
        invariant Shown(all[..i], shown) && AllTrack(all[..i], ViewsOf(all[..i], shown), maxSegmentSize)
        invariant AllLoadable(all[i..], shown, maxSegmentSize, now)
      {
        var s := all[i];
        OnlyAt(all, i);
        assert all[i..][0] == s && all[i..][1..] == all[i + 1..];
        assert Loadable(all[i..][0], shown[all[i..][0]], maxSegmentSize, now);
        LoadableSlice(all[i..], shown, 1, maxSegmentSize, now);
        s.Open(maxSegmentSize, now);
        TrackOne(s, shown[s], maxSegmentSize);
        TrackConcat(all[..i], [s], ViewsOf(all[..i], shown), [shown[s]], maxSegmentSize);
        assert all[..i + 1] == all[..i] + [s];
        assert ViewsOf(all[..i + 1], shown) == ViewsOf(all[..i], shown) + [shown[s]];
        i := i + 1;
      }
      assert all[..i] == all;
    }

    /** Open up to the point where the segments are listed. */
    method LoadList(now: int)
      requires Closed()
      requires view.segments == [] || FOOTER_SIZE <= maxSegmentSize
      modifies this`segments, this`view, Objects(files)
      ensures ListValid() && Objects(segments) == Objects(files)
      ensures Reordered(old(view), view.segments, now) && view == old(view).(segments := view.segments)
    {
      var loaded, views := LoadSegments(now);
      RegisteredPermuted(dir, files, loaded);
      SameMembers(loaded, files);
      TrackedIDs(loaded, views, maxSegmentSize);
      segments := loaded;
      view := view.(segments := views);
    }

    /** Opens the queue on whatever the directory holds: the segments come back in
        descending order of their numbers, an empty directory gets a first
        segment, and an exhausted head is trimmed. */
    method Open(now: int) returns (ghost after: seq<SegmentView>)
      requires Closed()
      requires view.segments == [] || FOOTER_SIZE <= maxSegmentSize
      modifies this`dir, this`segments, this`head, this`tail, this`view, Objects(files)
      ensures Valid()
      ensures Reordered(old(view), after, now)
      ensures view == OpenedView(old(view), after, now)
    {
      after := LoadAll(now);
      assert head in segments;
      AfterCurrentEffect(view);
      TrimAfterCurrent(view, now);
      var cur := Current();
      if cur == AtEnd {
        TrimHeadInv(view, now);
        ListTrims();
        TrimHead(now);
      }
    }

    /** Open up to the point where head and tail are set. */
    method LoadAll(now: int) returns (ghost after: seq<SegmentView>)
      requires Closed()
      requires view.segments == [] || FOOTER_SIZE <= maxSegmentSize
      modifies this`dir, this`segments, this`head, this`tail, this`view, Objects(files)
      ensures Valid() && (forall s <- segments :: s in Objects(files) || fresh(s))
      ensures Reordered(old(view), after, now)
      ensures view == WithSegment(old(view).(segments := after), now)
    {
      LoadList(now);
      after := view.segments;
      WithSegmentInv(old(view), after, now);
      if |segments| == 0 {
        AddSegment(now);
      }
      head := segments[0];
      tail := segments[|segments| - 1];
    }
  }
}

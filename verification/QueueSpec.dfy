/**
 The hinted-handoff queue as a value.

 A segment file is a run of `[length][body]` blocks and a footer with the head
 offset. A view lists the blocks before the head (`read`), the blocks from the
 head on (`unread`), the size of the file and the length of the head block as the
 segment object keeps them, and the file's modification time. The classes of
 module Queue are proved against the functions here; what the queue promises is
 proved about the functions.
 */
module QueueSpec {
  import opened Basics
  import opened Bytes

  type Entry = seq<byte>

  const FOOTER_SIZE: nat := 8
  const SECOND: nat := 1_000_000_000

  datatype SegmentView = SegmentView(id: nat, read: seq<Entry>, unread: seq<Entry>, size: nat, cached: nat, modified: int)

  datatype QueueView = QueueView(segments: seq<SegmentView>, maxSegmentSize: nat, maxSize: int)

  datatype AppendResult = Appended | QueueFull | SegmentFull

  // ---------- Block layout ----------

  function Block(e: Entry): (s: seq<byte>)
    ensures |s| == 8 + |e|
  {
    U64(|e|) + e
  }

  function Blocks(es: seq<Entry>): (s: seq<byte>) {
    if es == [] then [] else Block(es[0]) + Blocks(es[1..])
  }

  /** The bytes a run of entries takes, length prefixes included. */
  function Length(es: seq<Entry>): (n: nat) {
    if es == [] then 0 else 8 + |es[0]| + Length(es[1..])
  }

  lemma {:induction false} BlocksLength(es: seq<Entry>)
    ensures |Blocks(es)| == Length(es)
  {
    if es != [] { BlocksLength(es[1..]); }
  }

  lemma {:induction false} BlocksConcat(a: seq<Entry>, b: seq<Entry>)
    ensures Blocks(a + b) == Blocks(a) + Blocks(b)
  {
    if a == [] {
      assert a + b == b;
    } else {
      assert (a + b)[1..] == a[1..] + b;
      BlocksConcat(a[1..], b);
    }
  }

  lemma {:induction false} LengthConcat(a: seq<Entry>, b: seq<Entry>)
    ensures Length(a + b) == Length(a) + Length(b)
  {
    if a == [] {
      assert a + b == b;
    } else {
      assert (a + b)[1..] == a[1..] + b;
      LengthConcat(a[1..], b);
    }
  }

  // ---------- One segment ----------

  function FileSize(s: SegmentView): (n: nat) {
    Length(s.read) + Length(s.unread) + FOOTER_SIZE
  }

  /** The object keeps less than the size of the file, as it does after opening a
      file over the segment maximum. */
  predicate Clipped(s: SegmentView) {
    s.size < FileSize(s)
  }

  /** The test for the end of a segment: the head offset is where the footer should be. */
  predicate AtFooter(s: SegmentView) {
    Length(s.read) + FOOTER_SIZE == s.size
  }

  function HeadLength(es: seq<Entry>): (n: nat) {
    if es == [] then 0 else |es[0]|
  }

  /** The cached length is the length of the head block. */
  predicate Aligned(s: SegmentView) {
    s.cached == HeadLength(s.unread)
  }

  function FreshSegment(id: nat, now: int): (s: SegmentView) {
    SegmentView(id, [], [], FOOTER_SIZE, 0, now)
  }

  predicate Fits(s: SegmentView, b: Entry, maxSegmentSize: nat) {
    s.size + |b| <= maxSegmentSize
  }

  function AppendToSegment(s: SegmentView, b: Entry, now: int): (r: SegmentView) {
    s.(unread := s.unread + [b], size := s.size + |b| + 8, cached := if s.cached == 0 then |b| else s.cached, modified := now)
  }

  /** The number at the head offset: the length of the head block or, behind the last
      block, the footer, which is the head offset itself. */
  function NumberAtHead(s: SegmentView): (n: nat) {
    if s.unread == [] then Length(s.read) else |s.unread[0]|
  }

  /** Reading the head caches the number found there. */
  function ReadSegment(s: SegmentView): (r: SegmentView) {
    if AtFooter(s) then s else s.(cached := NumberAtHead(s))
  }

  function AdvanceSegment(s: SegmentView, now: int): (r: SegmentView)
    requires s.unread != []
  {
    var r := s.(read := s.read + [s.unread[0]], unread := s.unread[1..], modified := now);
    r.(cached := if AtFooter(r) then 0 else NumberAtHead(r))
  }

  /** A file opened again. The object keeps no more than the segment maximum as its
      size; an exhausted file over the maximum is repaired, which writes to it. */
  function Reopened(s: SegmentView, maxSegmentSize: nat, now: int): (r: SegmentView) {
    var fits := FileSize(s) <= maxSegmentSize;
    s.(size := if fits then FileSize(s) else maxSegmentSize,
       cached := HeadLength(s.unread),
       modified := if fits || s.unread != [] then s.modified else now)
  }

  lemma AppendToSegmentSize(s: SegmentView, b: Entry, now: int)
    ensures FileSize(AppendToSegment(s, b, now)) == FileSize(s) + 8 + |b|
  {
    LengthConcat(s.unread, [b]);
    assert Length([b]) == 8 + |b|;
  }

  lemma AdvanceSegmentSize(s: SegmentView, now: int)
    requires s.unread != []
    ensures FileSize(AdvanceSegment(s, now)) == FileSize(s)
  {
    LengthConcat(s.read, [s.unread[0]]);
    assert Length([s.unread[0]]) == 8 + |s.unread[0]|;
  }

  /** Appending keeps the cached head length right, except for one case: a
      non-empty entry appended behind an empty head entry. */
  lemma AppendKeepsAlignment(s: SegmentView, b: Entry, now: int)
    requires Aligned(s)
    ensures Aligned(AppendToSegment(s, b, now)) <==> !(s.unread != [] && s.unread[0] == [] && b != [])
  {
  }

  /** The excluded case is reachable: append an empty entry, then a non-empty one. */
  lemma EmptyEntryMisaligns(id: nat, now: int, b: Entry)
    requires b != []
    ensures !Aligned(AppendToSegment(AppendToSegment(FreshSegment(id, now), [], now), b, now))
  {
  }

  // ---------- The queue ----------

  /** Everything appended and not yet advanced past, oldest first. */
  function Pending(segs: seq<SegmentView>): (es: seq<Entry>) {
    if segs == [] then [] else segs[0].unread + Pending(segs[1..])
  }

  /** The disk usage as the queue sees it. */
  function Usage(segs: seq<SegmentView>): (n: nat) {
    if segs == [] then 0 else segs[0].size + Usage(segs[1..])
  }

  /** The bytes on disk. */
  function FileUsage(segs: seq<SegmentView>): (n: nat) {
    if segs == [] then 0 else FileSize(segs[0]) + FileUsage(segs[1..])
  }

  function MaxID(segs: seq<SegmentView>): (id: nat)
    ensures forall s <- segs :: s.id <= id
  {
    if segs == [] then 0
    else
      var m := MaxID(segs[1..]);
      if segs[0].id > m then segs[0].id else m
  }

  function AddSegment(q: QueueView, now: int): (r: QueueView) {
    q.(segments := q.segments + [FreshSegment(MaxID(q.segments) + 1, now)])
  }

  function Last<T>(s: seq<T>): (x: T)
    requires s != []
  {
    s[|s| - 1]
  }

  function AppendToTail(q: QueueView, b: Entry, now: int): (r: QueueView)
    requires q.segments != []
  {
    q.(segments := q.segments[..|q.segments| - 1] + [AppendToSegment(Last(q.segments), b, now)])
  }

  function Append(q: QueueView, b: Entry, now: int): (r: (QueueView, AppendResult))
    requires q.segments != []
  {
    if Usage(q.segments) + |b| > q.maxSize then (q, QueueFull)
    else if Fits(Last(q.segments), b, q.maxSegmentSize) then (AppendToTail(q, b, now), Appended)
    else
      var q' := AddSegment(q, now);
      if Fits(Last(q'.segments), b, q.maxSegmentSize) then (AppendToTail(q', b, now), Appended)
      else (q', SegmentFull)
  }

  /** The head entry; None is the end-of-file answer. */
  function Current(q: QueueView): (r: Option<Entry>)
    requires q.segments != []
  {
    if q.segments[0].unread == [] then None else Some(q.segments[0].unread[0])
  }

  function AfterCurrent(q: QueueView): (r: QueueView)
    requires q.segments != []
  {
    q.(segments := [ReadSegment(q.segments[0])] + q.segments[1..])
  }

  function TrimHead(q: QueueView, now: int): (r: QueueView)
    requires q.segments != []
  {
    var q' := if |q.segments| == 1 && q.segments[0].size == q.maxSegmentSize then AddSegment(q, now) else q;
    if |q'.segments| > 1 then q'.(segments := q'.segments[1..]) else q'
  }

  function AdvanceHead(q: QueueView, now: int): (r: QueueView)
    requires q.segments != [] && q.segments[0].unread != []
  {
    q.(segments := [AdvanceSegment(q.segments[0], now)] + q.segments[1..])
  }

  /** A head segment whose size is clipped is not recognised as exhausted when its last
      entry is passed, and stays; the next call finds no number to read, and it goes. */
  function Advance(q: QueueView, now: int): (r: QueueView)
    requires q.segments != []
  {
    if q.segments[0].unread == [] then TrimHead(q, now)
    else
      var q' := AdvanceHead(q, now);
      if q'.segments[0].unread == [] && !Clipped(q.segments[0]) then TrimHead(q', now) else q'
  }

  /** The number of leading segments last modified before the cutoff. */
  function StaleRun(segs: seq<SegmentView>, cutoff: int): (k: nat)
    ensures k <= |segs|
    ensures forall i | 0 <= i < k :: segs[i].modified < cutoff
    ensures k < |segs| ==> segs[k].modified >= cutoff
  {
    if segs == [] || segs[0].modified >= cutoff then 0 else 1 + StaleRun(segs[1..], cutoff)
  }

  function Cutoff(when: int): (c: int) {
    when - when % SECOND
  }

  /** The cutoff of a purge is the last full second that is not after the given time. */
  lemma CutoffIsFullSecond(when: int)
    ensures Cutoff(when) % 1_000_000_000 == 0 && Cutoff(when) <= when < Cutoff(when) + 1_000_000_000
  {
  }

  /** The segments left once the first `k` are dropped. A queue with nothing left
      gets one fresh segment, numbered after the last one dropped. */
  function DropFirst(segs: seq<SegmentView>, k: nat, now: int): (r: seq<SegmentView>)
    requires segs != [] && k <= |segs|
    ensures r != []
  {
    if k < |segs| then segs[k..] else [FreshSegment(Last(segs).id + 1, now)]
  }

  /** Purging drops the leading stale segments. */
  function Purge(q: QueueView, when: int, now: int): (r: QueueView)
    requires q.segments != []
  {
    q.(segments := DropFirst(q.segments, StaleRun(q.segments, Cutoff(when)), now))
  }

  lemma DropOneMore(segs: seq<SegmentView>, k: nat, now: int)
    requires k < |segs|
    ensures DropFirst(DropFirst(segs, k, now), 1, now) == DropFirst(segs, k + 1, now)
  {
  }

  lemma StaleRunAt(segs: seq<SegmentView>, cutoff: int, k: nat, now: int)
    requires segs != [] && k <= StaleRun(segs, cutoff) && cutoff <= now
    ensures DropFirst(segs, k, now)[0].modified < cutoff <==> k < StaleRun(segs, cutoff)
  {
  }

  // ---------- Facts about the list functions ----------

  lemma {:induction false} PendingConcat(a: seq<SegmentView>, b: seq<SegmentView>)
    ensures Pending(a + b) == Pending(a) + Pending(b)
  {
    if a == [] {
      assert a + b == b;
    } else {
      assert (a + b)[1..] == a[1..] + b;
      PendingConcat(a[1..], b);
    }
  }

  lemma {:induction false} UsageConcat(a: seq<SegmentView>, b: seq<SegmentView>)
    ensures Usage(a + b) == Usage(a) + Usage(b)
    ensures FileUsage(a + b) == FileUsage(a) + FileUsage(b)
  {
    if a == [] {
      assert a + b == b;
    } else {
      assert (a + b)[1..] == a[1..] + b;
      UsageConcat(a[1..], b);
    }
  }

  lemma {:induction false} OneSegment(s: SegmentView)
    ensures Pending([s]) == s.unread && Usage([s]) == s.size && FileUsage([s]) == FileSize(s)
  {
    assert s.unread + [] == s.unread;
  }

  lemma {:induction false} SplitLast(segs: seq<SegmentView>)
    requires segs != []
    ensures Pending(segs) == Pending(segs[..|segs| - 1]) + Last(segs).unread
    ensures Usage(segs) == Usage(segs[..|segs| - 1]) + Last(segs).size
    ensures FileUsage(segs) == FileUsage(segs[..|segs| - 1]) + FileSize(Last(segs))
  {
    var front := segs[..|segs| - 1];
    assert segs == front + [Last(segs)];
    PendingConcat(front, [Last(segs)]);
    UsageConcat(front, [Last(segs)]);
    OneSegment(Last(segs));
  }

  lemma AddSegmentEffect(q: QueueView, now: int)
    ensures Pending(AddSegment(q, now).segments) == Pending(q.segments)
    ensures Usage(AddSegment(q, now).segments) == Usage(q.segments) + FOOTER_SIZE
    ensures FileUsage(AddSegment(q, now).segments) == FileUsage(q.segments) + FOOTER_SIZE
  {
    SplitLast(AddSegment(q, now).segments);
    assert AddSegment(q, now).segments[..|q.segments|] == q.segments;
  }

  lemma AppendToTailEffect(q: QueueView, b: Entry, now: int)
    requires q.segments != []
    ensures Pending(AppendToTail(q, b, now).segments) == Pending(q.segments) + [b]
    ensures Usage(AppendToTail(q, b, now).segments) == Usage(q.segments) + 8 + |b|
    ensures FileUsage(AppendToTail(q, b, now).segments) == FileUsage(q.segments) + 8 + |b|
  {
    var q' := AppendToTail(q, b, now);
    SplitLast(q.segments);
    SplitLast(q'.segments);
    assert q'.segments[..|q'.segments| - 1] == q.segments[..|q.segments| - 1];
    AppendToSegmentSize(Last(q.segments), b, now);
    assert Pending(q.segments[..|q.segments| - 1]) + (Last(q.segments).unread + [b]) == Pending(q.segments) + [b];
  }

  lemma TrimHeadEffect(q: QueueView, now: int)
    requires q.segments != []
    requires q.segments[0].unread == []
    ensures Pending(TrimHead(q, now).segments) == Pending(q.segments)
    ensures TrimHead(q, now).segments != []
  {
  }

  lemma AdvanceHeadEffect(q: QueueView, now: int)
    requires q.segments != [] && q.segments[0].unread != []
    ensures Pending(AdvanceHead(q, now).segments) == Pending(q.segments)[1..]
    ensures Usage(AdvanceHead(q, now).segments) == Usage(q.segments)
  {
    AdvanceSegmentSize(q.segments[0], now);
    assert AdvanceHead(q, now).segments[1..] == q.segments[1..];
  }

  // ---------- First in, first out ----------

  /** An append is refused if and only if usage and entry exceed the queue maximum, and fails
      if and only if the entry fits neither the tail nor an empty segment. */
  lemma AppendOutcomes(q: QueueView, b: Entry, now: int)
    requires q.segments != []
    ensures var r, full := Append(q, b, now).1, Usage(q.segments) + |b| > q.maxSize;
            && (r == QueueFull <==> full)
            && (r == SegmentFull <==> !full && Last(q.segments).size + |b| > q.maxSegmentSize && 8 + |b| > q.maxSegmentSize)
            && (r == Appended <==> !full && (Last(q.segments).size + |b| <= q.maxSegmentSize || 8 + |b| <= q.maxSegmentSize))
  {
  }

  /** A successful append adds the entry at the end; a failed one changes no pending entry. */
  lemma AppendIsEnqueue(q: QueueView, b: Entry, now: int)
    requires q.segments != []
    ensures var (q', r) := Append(q, b, now);
            Pending(q'.segments) == if r == Appended then Pending(q.segments) + [b] else Pending(q.segments)
  {
    AppendToTailEffect(q, b, now);
    AddSegmentEffect(q, now);
    AppendToTailEffect(AddSegment(q, now), b, now);
  }

  /** A readable head entry is the oldest pending one. */
  lemma CurrentIsOldest(q: QueueView)
    requires q.segments != []
    ensures Current(q).Some? ==> Pending(q.segments) != [] && Current(q).value == Pending(q.segments)[0]
  {
  }

  /** Advancing removes the oldest entry, or nothing when the head segment is exhausted. */
  lemma AdvanceIsDequeue(q: QueueView, now: int)
    requires q.segments != []
    ensures Pending(Advance(q, now).segments)
         == if Current(q).None? then Pending(q.segments) else Pending(q.segments)[1..]
    ensures Advance(q, now).segments != []
  {
  }

  // ---------- Draining ----------

  function AdvanceTimes(q: QueueView, n: nat, now: int): (r: QueueView)
    requires q.segments != []
    decreases n
  {
    if n == 0 then q else
      AdvanceIsDequeue(q, now);
      AdvanceTimes(Advance(q, now), n - 1, now)
  }

  /** Calls of Advance still needed to empty the queue. */
  function Work(q: QueueView): (n: nat)
    requires q.segments != []
  {
    |Pending(q.segments)| + |q.segments| - 1
  }

  lemma AdvanceDoesWork(q: QueueView, now: int)
    requires q.segments != []
    ensures Advance(q, now).segments != []
    ensures Work(q) == 0 ==> Work(Advance(q, now)) == 0
    ensures Work(q) > 0 ==> Work(Advance(q, now)) < Work(q)
  {
    AdvanceIsDequeue(q, now);
  }

  ghost predicate IsSuffix<T>(a: seq<T>, b: seq<T>) {
    |a| <= |b| && a == b[|b| - |a|..]
  }

  /** Work(q) calls of Advance always empty the queue, also when Current says
      end-of-file with entries behind it. */
  lemma {:induction false} DrainingEmpties(q: QueueView, n: nat, now: int)
    requires q.segments != []
    requires n >= Work(q)
    ensures Pending(AdvanceTimes(q, n, now).segments) == []
    decreases n
  {
    if n > 0 {
      AdvanceDoesWork(q, now);
      DrainingEmpties(Advance(q, now), n - 1, now);
    }
  }

  /** However often it is advanced, a queue loses entries from the front only. */
  lemma {:induction false} DrainingKeepsOrder(q: QueueView, n: nat, now: int)
    requires q.segments != []
    ensures IsSuffix(Pending(AdvanceTimes(q, n, now).segments), Pending(q.segments))
    decreases n
  {
    if n > 0 {
      AdvanceIsDequeue(q, now);
      var q' := Advance(q, now);
      DrainingKeepsOrder(q', n - 1, now);
      assert AdvanceTimes(q, n, now) == AdvanceTimes(q', n - 1, now);
      SuffixOfSuffix(Pending(AdvanceTimes(q, n, now).segments), Pending(q'.segments), Pending(q.segments));
    }
  }

  lemma SuffixOfSuffix<T>(a: seq<T>, b: seq<T>, c: seq<T>)
    requires IsSuffix(a, b) && IsSuffix(b, c)
    ensures IsSuffix(a, c)
  {
  }

  // ---------- Purging ----------

  /** What is left after a purge is a suffix of what was pending, the segments
      dropped are exactly the leading stale ones, and the queue keeps a segment. */
  lemma PurgeKeepsSuffix(q: QueueView, when: int, now: int)
    requires q.segments != []
    requires Cutoff(when) <= now
    ensures var k := StaleRun(q.segments, Cutoff(when));
            var q' := Purge(q, when, now);
            && Pending(q.segments) == Pending(q.segments[..k]) + Pending(q'.segments)
            && q'.segments != []
            && q'.segments[0].modified >= Cutoff(when)
            && StaleRun(q'.segments, Cutoff(when)) == 0
  {
    var k := StaleRun(q.segments, Cutoff(when));
    assert q.segments == q.segments[..k] + q.segments[k..];
    PendingConcat(q.segments[..k], q.segments[k..]);
    if k == |q.segments| {
      assert Pending(Purge(q, when, now).segments) == [];
    }
  }

  // ---------- What every operation keeps ----------

  /** Blocks are non-empty, no body is larger than the segment maximum, the file is at
      most eight bytes over it, the size kept is that of the file or, for a file over
      the maximum, the maximum, and the cached head length is right unless the segment
      is exhausted and its size clipped, when nothing fits behind it any more. */
  ghost predicate SegmentInv(s: SegmentView, maxSegmentSize: nat) {
    && FileSize(s) <= maxSegmentSize + 8
    && (s.size == FileSize(s) || FOOTER_SIZE <= s.size == maxSegmentSize < FileSize(s))
    && (Aligned(s) || (s.unread == [] && Clipped(s)))
    && (forall e <- s.unread :: 0 < |e| <= maxSegmentSize)
  }

  /** The test for the end of a segment misses an exhausted segment whose size is
      clipped, and is right about every other one. */
  lemma AtFooterExactly(s: SegmentView, maxSegmentSize: nat)
    requires SegmentInv(s, maxSegmentSize)
    ensures AtFooter(s) <==> s.unread == [] && !Clipped(s)
  {
    assert s.unread != [] ==> s.unread[0] in s.unread;
  }

  /** Where the end is missed, the footer is taken for a length, and no length is out of range. */
  lemma HeadReads(s: SegmentView, maxSegmentSize: nat)
    requires SegmentInv(s, maxSegmentSize)
    ensures AtFooter(s) <==> s.unread == [] && !Clipped(s)
    ensures !AtFooter(s) ==> NumberAtHead(s) <= maxSegmentSize && (s.unread == [] ==> Length(s.read) > 0)
    ensures if s.unread == [] && Clipped(s) then s.size == maxSegmentSize else Aligned(s)
  {
    AtFooterExactly(s, maxSegmentSize);
  }

  ghost predicate QueueInv(q: QueueView) {
    && q.segments != []
    && (forall s <- q.segments :: SegmentInv(s, q.maxSegmentSize))
    && Usage(q.segments) <= q.maxSize + 16
  }

  function FreshQueue(maxSegmentSize: nat, maxSize: nat, now: int): (q: QueueView) {
    QueueView([FreshSegment(1, now)], maxSegmentSize, maxSize)
  }

  lemma FreshQueueInv(maxSegmentSize: nat, maxSize: nat, now: int)
    ensures QueueInv(FreshQueue(maxSegmentSize, maxSize, now))
    ensures Pending(FreshQueue(maxSegmentSize, maxSize, now).segments) == []
  {
  }

  lemma AddSegmentInv(q: QueueView, now: int)
    requires QueueInv(q)
    ensures forall s <- AddSegment(q, now).segments :: SegmentInv(s, q.maxSegmentSize)
  {
  }

  lemma AppendToTailInv(q: QueueView, b: Entry, now: int)
    requires q.segments != [] && b != []
    requires forall s <- q.segments :: SegmentInv(s, q.maxSegmentSize)
    requires Fits(Last(q.segments), b, q.maxSegmentSize)
    ensures forall s <- AppendToTail(q, b, now).segments :: SegmentInv(s, q.maxSegmentSize)
  {
    var t := Last(q.segments);
    AppendToSegmentSize(t, b, now);
    assert t in q.segments;
    AppendKeepsAlignment(t, b, now);
  }

  lemma AppendInv(q: QueueView, b: Entry, now: int)
    requires QueueInv(q) && b != []
    ensures QueueInv(Append(q, b, now).0)
  {
    if Usage(q.segments) + |b| <= q.maxSize {
      AppendToTailEffect(q, b, now);
      AddSegmentEffect(q, now);
      AddSegmentInv(q, now);
      var q' := AddSegment(q, now);
      AppendToTailEffect(q', b, now);
      if Fits(Last(q.segments), b, q.maxSegmentSize) {
        AppendToTailInv(q, b, now);
      } else if Fits(Last(q'.segments), b, q.maxSegmentSize) {
        AppendToTailInv(q', b, now);
      }
    }
  }

  lemma TrimHeadInv(q: QueueView, now: int)
    requires QueueInv(q)
    ensures QueueInv(TrimHead(q, now))
  {
    assert q.segments[0] in q.segments;
  }

  lemma AdvanceSegmentInv(s: SegmentView, maxSegmentSize: nat, now: int)
    requires SegmentInv(s, maxSegmentSize) && s.unread != []
    ensures SegmentInv(AdvanceSegment(s, now), maxSegmentSize)
  {
    AdvanceSegmentSize(s, now);
    AtFooterExactly(AdvanceSegment(s, now).(cached := HeadLength(s.unread[1..])), maxSegmentSize);
  }

  lemma AdvanceInv(q: QueueView, now: int)
    requires QueueInv(q)
    ensures QueueInv(Advance(q, now))
  {
    if q.segments[0].unread == [] {
      TrimHeadInv(q, now);
    } else {
      var q' := AdvanceHead(q, now);
      AdvanceHeadEffect(q, now);
      assert q.segments[0] in q.segments;
      AdvanceSegmentInv(q.segments[0], q.maxSegmentSize, now);
      TrimHeadInv(q', now);
    }
  }

  /** Reading the head changes no more than the cached length of an exhausted head whose
      size is clipped. */
  lemma AfterCurrentEffect(q: QueueView)
    requires QueueInv(q)
    ensures QueueInv(AfterCurrent(q))
    ensures AfterCurrent(q) == q || (q.segments[0].unread == [] && Clipped(q.segments[0]))
    ensures AfterCurrent(q).segments == [q.segments[0].(cached := AfterCurrent(q).segments[0].cached)] + q.segments[1..]
  {
    assert q.segments[0] in q.segments;
    AtFooterExactly(q.segments[0], q.maxSegmentSize);
    assert q.segments == [q.segments[0]] + q.segments[1..];
  }

  lemma PurgeInv(q: QueueView, when: int, now: int)
    requires QueueInv(q)
    ensures QueueInv(Purge(q, when, now))
  {
    var k := StaleRun(q.segments, Cutoff(when));
    assert q.segments == q.segments[..k] + q.segments[k..];
    UsageConcat(q.segments[..k], q.segments[k..]);
    if k == |q.segments| {
      SplitLast(q.segments);
      assert Last(q.segments) in q.segments;
      assert Usage(Purge(q, when, now).segments) == FOOTER_SIZE;
    }
  }

  // ---------- Runs ----------

  datatype Op =
    | DoAppend(entry: Entry, now: int)
    | DoCurrent
    | DoAdvance(now: int)
    | DoPurge(when: int, now: int)

  predicate Legal(op: Op) {
    op.DoAppend? ==> op.entry != []
  }

  function Do(q: QueueView, op: Op): (r: QueueView)
    requires q.segments != []
  {
    match op
    case DoAppend(b, now) => Append(q, b, now).0
    case DoCurrent => AfterCurrent(q)
    case DoAdvance(now) => Advance(q, now)
    case DoPurge(when, now) => Purge(q, when, now)
  }

  lemma DoInv(q: QueueView, op: Op)
    requires QueueInv(q) && Legal(op)
    ensures QueueInv(Do(q, op))
    ensures Do(q, op).maxSegmentSize == q.maxSegmentSize && Do(q, op).maxSize == q.maxSize
  {
    match op
    case DoAppend(b, now) => AppendInv(q, b, now);
    case DoCurrent => AfterCurrentEffect(q);
    case DoAdvance(now) => AdvanceInv(q, now);
    case DoPurge(when, now) => PurgeInv(q, when, now);
  }

  ghost predicate IsRun(states: seq<QueueView>, ops: seq<Op>) {
    && |states| == |ops| + 1
    && (forall s <- states :: s.segments != [])
    && (forall op <- ops :: Legal(op))
    && (forall i | 0 <= i < |ops| :: states[i + 1] == Do(states[i], ops[i]))
  }

  lemma {:induction false} RunInv(states: seq<QueueView>, ops: seq<Op>, k: nat)
    requires IsRun(states, ops) && QueueInv(states[0])
    requires k < |states|
    ensures QueueInv(states[k])
    ensures states[k].maxSegmentSize == states[0].maxSegmentSize && states[k].maxSize == states[0].maxSize
  {
    if k > 0 {
      RunInv(states, ops, k - 1);
      DoInv(states[k - 1], ops[k - 1]);
    }
  }

  // ---------- Disk usage ----------

  /** Every segment object keeps the size of its file. */
  ghost predicate Unclipped(segs: seq<SegmentView>) {
    forall s <- segs :: !Clipped(s)
  }

  function ClippedCount(segs: seq<SegmentView>): (n: nat) {
    if segs == [] then 0 else (if Clipped(segs[0]) then 1 else 0) + ClippedCount(segs[1..])
  }

  lemma {:induction false} UsageIsFileUsage(segs: seq<SegmentView>, maxSegmentSize: nat)
    requires forall s <- segs :: SegmentInv(s, maxSegmentSize)
    ensures Usage(segs) <= FileUsage(segs) <= Usage(segs) + 8 * ClippedCount(segs)
    ensures Unclipped(segs) ==> ClippedCount(segs) == 0
  {
    if segs != [] {
      assert segs[0] in segs;
      UsageIsFileUsage(segs[1..], maxSegmentSize);
    }
  }

  lemma TailUnclipped(q: QueueView, b: Entry, now: int)
    requires q.segments != [] && Unclipped(q.segments)
    ensures Unclipped(AppendToTail(q, b, now).segments)
  {
    AppendToSegmentSize(Last(q.segments), b, now);
    assert Last(q.segments) in q.segments;
  }

  lemma AppendUnclipped(q: QueueView, b: Entry, now: int)
    requires q.segments != [] && Unclipped(q.segments)
    ensures Unclipped(Append(q, b, now).0.segments)
  {
    TailUnclipped(q, b, now);
    TailUnclipped(AddSegment(q, now), b, now);
  }

  lemma AdvanceUnclipped(q: QueueView, now: int)
    requires q.segments != [] && Unclipped(q.segments)
    ensures Unclipped(Advance(q, now).segments)
  {
    if q.segments[0].unread != [] {
      AdvanceSegmentSize(q.segments[0], now);
      assert q.segments[0] in q.segments;
      assert Unclipped(AdvanceHead(q, now).segments);
    }
  }

  /** Sizes are clipped by opening only. */
  lemma DoUnclipped(q: QueueView, op: Op)
    requires q.segments != [] && Unclipped(q.segments)
    ensures Unclipped(Do(q, op).segments)
  {
    match op
    case DoAppend(b, now) => AppendUnclipped(q, b, now);
    case DoCurrent => assert q.segments[0] in q.segments;
    case DoAdvance(now) => AdvanceUnclipped(q, now);
    case DoPurge(_, _) =>
  }

  lemma {:induction false} RunUnclipped(states: seq<QueueView>, ops: seq<Op>, k: nat)
    requires IsRun(states, ops) && Unclipped(states[0].segments) && k < |states|
    ensures Unclipped(states[k].segments)
  {
    if k > 0 {
      RunUnclipped(states, ops, k - 1);
      DoUnclipped(states[k - 1], ops[k - 1]);
    }
  }

  /** Over every run from a fresh queue the files never take more than sixteen
      bytes over the queue maximum, and no file more than eight over the segment
      maximum. */
  lemma DiskBound(states: seq<QueueView>, ops: seq<Op>, k: nat, maxSegmentSize: nat, maxSize: nat, now: int)
    requires IsRun(states, ops) && states[0] == FreshQueue(maxSegmentSize, maxSize, now)
    requires k < |states|
    ensures FileUsage(states[k].segments) <= maxSize + 16
    ensures forall s <- states[k].segments :: FileSize(s) <= maxSegmentSize + 8
  {
    FreshQueueInv(maxSegmentSize, maxSize, now);
    RunInv(states, ops, k);
    RunUnclipped(states, ops, k);
    UsageIsFileUsage(states[k].segments, maxSegmentSize);
  }

  /** Over every run from any queue, reopened or not, another eight for each segment whose
      size is clipped. */
  lemma DiskBoundReopened(states: seq<QueueView>, ops: seq<Op>, k: nat)
    requires IsRun(states, ops) && QueueInv(states[0])
    requires k < |states|
    ensures FileUsage(states[k].segments) <= states[0].maxSize + 16 + 8 * ClippedCount(states[k].segments)
    ensures forall s <- states[k].segments :: FileSize(s) <= states[0].maxSegmentSize + 8
  {
    RunInv(states, ops, k);
    UsageIsFileUsage(states[k].segments, states[0].maxSegmentSize);
  }

  /** The bound is reached: two appends of twelve bytes, a segment maximum of
      twenty and a queue maximum of forty leave fifty-six bytes on disk. */
  lemma DiskBoundIsReached(a: Entry, b: Entry, now: int)
    requires |a| == |b| == 12
    ensures var q1 := Append(FreshQueue(20, 40, now), a, now);
            var q2 := Append(q1.0, b, now);
            q1.1 == q2.1 == Appended && FileUsage(q2.0.segments) == 40 + 16
  {
    var q0 := FreshQueue(20, 40, now);
    AppendToTailEffect(q0, a, now);
    var q1 := AppendToTail(q0, a, now);
    assert Append(q0, a, now) == (q1, Appended);
    AddSegmentEffect(q1, now);
    AppendToTailEffect(AddSegment(q1, now), b, now);
  }

  /** What an append adds to the files: nothing when the queue refuses it, a block, a
      segment with a block, or an empty segment when the entry is too large for any. */
  function Growth(q: QueueView, b: Entry): (n: nat)
    requires q.segments != []
  {
    if Usage(q.segments) + |b| > q.maxSize then 0
    else if Fits(Last(q.segments), b, q.maxSegmentSize) then |b| + 8
    else if FOOTER_SIZE + |b| <= q.maxSegmentSize then |b| + 16
    else 8
  }

  /** So an append keeps the files within the queue maximum if and only if there is room
      for that. */
  lemma AppendKeepsMaxExactly(q: QueueView, b: Entry, now: int)
    requires q.segments != []
    ensures FileUsage(Append(q, b, now).0.segments) == FileUsage(q.segments) + Growth(q, b)
    ensures FileUsage(Append(q, b, now).0.segments) <= q.maxSize <==> FileUsage(q.segments) + Growth(q, b) <= q.maxSize
  {
    AppendToTailEffect(q, b, now);
    AddSegmentEffect(q, now);
    AppendToTailEffect(AddSegment(q, now), b, now);
  }

  lemma TailFilesExactly(q: QueueView, b: Entry, now: int)
    requires q.segments != [] && forall s <- q.segments :: FileSize(s) <= q.maxSegmentSize
    ensures (forall s <- AppendToTail(q, b, now).segments :: FileSize(s) <= q.maxSegmentSize)
       <==> FileSize(Last(q.segments)) + 8 + |b| <= q.maxSegmentSize
  {
    var t := AppendToSegment(Last(q.segments), b, now);
    AppendToSegmentSize(Last(q.segments), b, now);
    assert t == Last(AppendToTail(q, b, now).segments) && t in AppendToTail(q, b, now).segments;
  }

  /** Exactly when an append keeps every file within the segment maximum: it is not
      written, or the file it goes to has room for its length as well. */
  lemma AppendKeepsFilesExactly(q: QueueView, b: Entry, now: int)
    requires q.segments != [] && forall s <- q.segments :: FileSize(s) <= q.maxSegmentSize
    ensures var (q', r) := Append(q, b, now);
            var before := if Fits(Last(q.segments), b, q.maxSegmentSize) then FileSize(Last(q.segments)) else FOOTER_SIZE;
            (forall s <- q'.segments :: FileSize(s) <= q.maxSegmentSize)
              <==> (r != Appended || before + 8 + |b| <= q.maxSegmentSize)
  {
    assert q.segments[0] in q.segments;
    TailFilesExactly(q, b, now);
    TailFilesExactly(AddSegment(q, now), b, now);
  }
}

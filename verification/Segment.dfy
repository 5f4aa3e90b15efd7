/**
 Segment files and the object that reads and writes one of them.
 */
module Segment {
  import opened Bytes
  import opened QueueSpec

  /** Writing `bytes` at offset `at`: overwrites what is there, extends the file past its end. */
  function Overwrite<T>(data: seq<T>, at: nat, bytes: seq<T>): (r: seq<T>)
    requires at <= |data|
  {
    data[..at] + bytes + (if at + |bytes| < |data| then data[at + |bytes|..] else [])
  }

  /** A file: the bytes the head has passed, the unread blocks and the footer. */
  function Layout(passed: seq<byte>, unread: seq<Entry>): (data: seq<byte>) {
    passed + Blocks(unread) + U64(|passed|)
  }

  lemma LayoutLength(passed: seq<byte>, unread: seq<Entry>)
    ensures |Layout(passed, unread)| == |passed| + Length(unread) + FOOTER_SIZE
  {
  }

  lemma ThreeWrites<T>(body: seq<T>, footer: seq<T>, len: seq<T>, b: seq<T>, footer': seq<T>)
    requires |footer| == |len|
    ensures var d1 := Overwrite(body + footer, |body|, len);
            var d2 := Overwrite(d1, |d1|, b);
            Overwrite(d2, |d2|, footer') == body + (len + b) + footer'
  {
  }

  /** The three writes of an append: length over the footer, body, new footer. */
  lemma AppendLayout(passed: seq<byte>, unread: seq<Entry>, b: Entry)
    ensures var data := Layout(passed, unread);
            var d1 := Overwrite(data, |data| - 8, U64(|b|));
            var d2 := Overwrite(d1, |d1|, b);
            Overwrite(d2, |d2|, U64(|passed|)) == Layout(passed, unread + [b])
  {
    ThreeWrites(passed + Blocks(unread), U64(|passed|), U64(|b|), b, U64(|passed|));
    BlocksConcat(unread, [b]);
    assert Blocks([b]) == Block(b) + [];
    Associate(passed, Blocks(unread), Block(b));
  }

  lemma Associate<T>(a: seq<T>, b: seq<T>, c: seq<T>)
    ensures (a + b) + c == a + (b + c)
  {
  }

  /** Rewriting the footer moves the head over the first unread block. */
  lemma AdvanceLayout(passed: seq<byte>, unread: seq<Entry>)
    requires unread != []
    ensures var data := Layout(passed, unread);
            Overwrite(data, |data| - 8, U64(|passed| + 8 + |unread[0]|)) == Layout(passed + Block(unread[0]), unread[1..])
  {
  }

  /** The block at the head offset. */
  lemma HeadBlock(passed: seq<byte>, unread: seq<Entry>)
    requires unread != []
    ensures var data := Layout(passed, unread);
            var pos := |passed|;
            && pos + 8 + |unread[0]| + 8 <= |data|
            && data[pos..pos + 8] == U64(|unread[0]|)
            && data[pos + 8..pos + 8 + |unread[0]|] == unread[0]
  {
  }

  /** The bytes the head has passed are the blocks read, unless the file was repaired:
      then the length of the first one is overwritten. */
  ghost predicate Passed(passed: seq<byte>, read: seq<Entry>) {
    passed == Blocks(read) || (read != [] && passed == Overwrite(Blocks(read), 0, U64(0)))
  }

  lemma PassedLength(passed: seq<byte>, read: seq<Entry>)
    requires Passed(passed, read)
    ensures |passed| == Length(read)
  {
    BlocksLength(read);
  }

  lemma PassOne(passed: seq<byte>, read: seq<Entry>, e: Entry)
    requires Passed(passed, read)
    ensures Passed(passed + Block(e), read + [e])
  {
    BlocksConcat(read, [e]);
    assert Blocks([e]) == Block(e) + [];
    if read != [] {
      OverwriteFront(Blocks(read), U64(0), Block(e));
    }
  }

  lemma OverwriteFront<T>(a: seq<T>, bytes: seq<T>, b: seq<T>)
    requires |bytes| <= |a|
    ensures Overwrite(a, 0, bytes) + b == Overwrite(a + b, 0, bytes)
  {
  }

  lemma PassedRepaired(passed: seq<byte>, read: seq<Entry>)
    requires Passed(passed, read) && read != []
    ensures |passed| >= 8 && Passed(Overwrite(passed, 0, U64(0)), read)
  {
  }

  // ---------- Opening an existing file ----------

  datatype Header =
    | Header(pos: nat, size: nat, currentSize: nat)
    | Repaired(pos: nat, size: nat)
    | Malformed
    | Unreadable

  /** What newSegment and open compute from the contents of a file. When the head offset
      is behind the place of the footer, repair overwrites the first eight bytes with
      zero and the offset stays. Malformed stands for the other calls of repair, after
      which the file is opened again. */
  function OpenHeader(data: seq<byte>, maxSize: nat): (h: Header) {
    var size := if maxSize >= |data| then |data| else maxSize;
    if size == 0 then Header(0, FOOTER_SIZE, 0)
    else if |data| < FOOTER_SIZE then Unreadable
    else
      var pos := FromBytes(data[|data| - FOOTER_SIZE..]);
      if pos > size - FOOTER_SIZE then Repaired(pos, size)
      else if pos == size - FOOTER_SIZE then Header(pos, size, 0)
      else
        var currentSize := FromBytes(data[pos..pos + 8]);
        if currentSize > size - FOOTER_SIZE then Malformed
        else if pos + 8 + currentSize > |data| then Malformed
        else Header(pos, size, currentSize)
  }

  /** Opening a well-formed file restores head offset, size and head length if
      and only if the file is no longer than the segment maximum. (A maximum of
      zero makes an empty segment look new, which amounts to the same.) */
  lemma OpenRestoresExactly(passed: seq<byte>, unread: seq<Entry>, maxSize: nat)
    requires |Layout(passed, unread)| < 2 * TWO_TO_63
    ensures var data := Layout(passed, unread);
            OpenHeader(data, maxSize) == Header(|passed|, |data|, HeadLength(unread))
            <==> (|data| <= maxSize || (maxSize == 0 && |data| == FOOTER_SIZE))
  {
    ReadLayout(passed, unread);
  }

  /** Opening a well-formed file that is at most eight bytes too long clips the size and
      restores the rest; the file is repaired if and only if it is exhausted. */
  lemma OpenClips(passed: seq<byte>, unread: seq<Entry>, maxSize: nat)
    requires FOOTER_SIZE <= maxSize < |Layout(passed, unread)| <= maxSize + 8
    requires |Layout(passed, unread)| < 2 * TWO_TO_63
    ensures OpenHeader(Layout(passed, unread), maxSize)
         == if unread == [] then Repaired(|passed|, maxSize) else Header(|passed|, maxSize, HeadLength(unread))
  {
    ReadLayout(passed, unread);
  }

  /** Opening any file whose head offset points to a number n before the footer: it is
      taken as it is if and only if n bytes can be read behind the number, and n is within
      the size. The bytes of the footer count, so a block cut short by as many bytes passes. */
  lemma OpenAcceptsExactly(passed: seq<byte>, n: nat, rest: seq<byte>, maxSize: nat)
    requires n < TWO_TO_63 && |passed| + 16 + |rest| < TWO_TO_63
    requires |passed| + FOOTER_SIZE < maxSize
    ensures var data := passed + U64(n) + rest + U64(|passed|);
            var size := if |data| <= maxSize then |data| else maxSize;
            && (OpenHeader(data, maxSize) == Header(|passed|, size, n) <==> n <= |rest| + FOOTER_SIZE && n + FOOTER_SIZE <= size)
            && (OpenHeader(data, maxSize) == Malformed <==> n > |rest| + FOOTER_SIZE || n + FOOTER_SIZE > size)
  {
    var data := passed + U64(n) + rest + U64(|passed|);
    assert data[|data| - FOOTER_SIZE..] == U64(|passed|);
    assert data[|passed|..|passed| + 8] == U64(n);
    U64RoundTrip(|passed|);
    U64RoundTrip(n);
  }

  lemma ReadLayout(passed: seq<byte>, unread: seq<Entry>)
    requires |Layout(passed, unread)| < 2 * TWO_TO_63
    ensures var data := Layout(passed, unread);
            && FromBytes(data[|data| - FOOTER_SIZE..]) == |passed|
            && FromBytes(data[|passed|..|passed| + 8]) == (if unread == [] then |passed| else |unread[0]|)
            && (unread != [] ==> |passed| + 8 + |unread[0]| + 8 <= |data|)
  {
    var data := Layout(passed, unread);
    assert data[|data| - FOOTER_SIZE..] == U64(|passed|);
    U64RoundTrip(|passed|);
    if unread == [] {
      assert data[|passed|..|passed| + 8] == data[|data| - FOOTER_SIZE..];
    } else {
      HeadBlock(passed, unread);
      U64RoundTrip(|unread[0]|);
    }
  }

  /** The number read at the new head offset, and how that read ends. */
  function NextHeader(data: seq<byte>, pos: nat, size: nat, cached: nat): (r: (nat, SegmentResult)) {
    if pos >= |data| then (cached, EndOfFile)
    else if pos + 8 > |data| then (cached, IoError)
    else if pos + FOOTER_SIZE == size then (0, EndOfFile)
    else (FromBytes(data[pos..pos + 8]), Done)
  }

  lemma NextHeaderOfLayout(passed: seq<byte>, unread: seq<Entry>, size: nat, cached: nat)
    requires |Layout(passed, unread)| < 2 * TWO_TO_63
    ensures NextHeader(Layout(passed, unread), |passed|, size, cached) ==
            if |passed| + FOOTER_SIZE == size then (0, EndOfFile)
            else (if unread == [] then |passed| else |unread[0]|, Done)
  {
    ReadLayout(passed, unread);
  }

  datatype SegmentResult = Done | NotOpen | Full | EndOfFile | IoError

  datatype ReadResult = Record(body: Entry) | EOF | OutOfRange | ReadError

  /** Reading `n` bytes at an offset: at the end of the file there are none, and fewer
      than asked for are an error. */
  function ReadBody(data: seq<byte>, at: nat, n: nat): (r: ReadResult) {
    if n > 0 && at >= |data| then EOF
    else if at + n > |data| then ReadError
    else Record(data[at..at + n])
  }

  lemma BodyOfLayout(passed: seq<byte>, unread: seq<Entry>)
    ensures var n := if unread == [] then |passed| else |unread[0]|;
            ReadBody(Layout(passed, unread), |passed| + 8, n)
              == if unread != [] then Record(unread[0]) else if passed == [] then Record([]) else EOF
  {
  }

  /** A segment file (`data`, `modified`) with the header its open handle keeps
      in memory. The file outlives the handle: closing only clears `isOpen`. */
  class Segment {
    const id: nat
    var data: seq<byte>
    var modified: int
    var maxSize: nat
    var size: nat
    var pos: nat
    var currentSize: nat
    var isOpen: bool
    ghost var passed: seq<byte>
    ghost var read: seq<Entry>
    ghost var unread: seq<Entry>

    ghost predicate WellFormed()
      reads this
    {
      data == Layout(passed, unread) && Passed(passed, read) && |data| < 2 * TWO_TO_63
    }

    /** The header in memory has the head offset of the file; its size may be clipped. */
    ghost predicate Valid()
      reads this
    {
      WellFormed() && pos == |passed| && size <= |data| <= size + 8 && maxSize < TWO_TO_63
    }

    ghost function View(): (s: SegmentView)
      reads this
    {
      SegmentView(id, read, unread, size, currentSize, modified)
    }

    lemma Lengths()
      requires WellFormed()
      ensures |passed| == Length(read) && |data| == FileSize(View())
    {
      PassedLength(passed, read);
      LayoutLength(passed, unread);
    }

    /** newSegment on a name that does not exist: the file gets its footer. */
    constructor (id: nat, maxSize: nat, now: int)
      requires maxSize < TWO_TO_63
      ensures this.id == id && this.maxSize == maxSize && isOpen
      ensures Valid() && View() == FreshSegment(id, now)
    {
      assert Layout([], []) == U64(0);
      var h := OpenHeader([], maxSize);
      this.id, this.maxSize, this.isOpen := id, maxSize, true;
      this.pos, this.currentSize, this.size := h.pos, h.currentSize, h.size;
      data, modified, passed, read, unread := U64(0), now, [], [], [];
    }

    /** newSegment on an existing file that is at most eight bytes over the segment maximum. */
    method Open(maxSize: nat, now: int)
      requires WellFormed() && FOOTER_SIZE <= maxSize < TWO_TO_63 && |data| <= maxSize + 8
      modifies this`data, this`modified, this`maxSize, this`size, this`pos, this`currentSize, this`isOpen, this`passed
      ensures this.maxSize == maxSize && isOpen
      ensures Valid() && View() == Reopened(old(View()), maxSize, now)
    {
      Lengths();
      OpenRestoresExactly(passed, unread, maxSize);
      if |data| > maxSize { OpenClips(passed, unread, maxSize); }
      var h := OpenHeader(data, maxSize);
      this.maxSize, this.isOpen := maxSize, true;
      pos, size := h.pos, h.size;
      if h.Repaired? {
        currentSize := 0;
        Repair(now);
      } else {
        currentSize := h.currentSize;
      }
    }

    /** repair, on an exhausted file. */
    method Repair(now: int)
      requires WellFormed() && unread == [] && read != []
      modifies this`data, this`modified, this`passed
      ensures WellFormed() && modified == now && |passed| == |old(passed)|
    {
      PassedRepaired(passed, read);
      OverwriteFront(passed, U64(0), Blocks([]) + U64(|passed|));
      Write(0, U64(0), now);
      passed := Overwrite(passed, 0, U64(0));
    }

    method Close()
      modifies this`isOpen
      ensures !isOpen
    {
      isOpen := false;
    }

    method Write(at: nat, bytes: seq<byte>, now: int)
      requires at <= |data|
      modifies this`data, this`modified
      ensures data == Overwrite(old(data), at, bytes) && modified == now
    {
      data := data[..at] + bytes + (if at + |bytes| < |data| then data[at + |bytes|..] else []);
      modified := now;
    }

    /** Adds a block at the end, or says why not; all of the new state is in the view. */
    method Append(b: Entry, now: int) returns (r: SegmentResult)
      requires Valid()
      modifies this`data, this`modified, this`size, this`currentSize, this`unread
      ensures Valid()
      ensures r == if !isOpen then NotOpen else if !Fits(old(View()), b, maxSize) then Full else Done
      ensures View() == if r == Done then AppendToSegment(old(View()), b, now) else old(View())
    {
      if !isOpen { return NotOpen; }
      if size + |b| > maxSize { return Full; }
      WriteBlock(b, now);
      if currentSize == 0 { currentSize := |b|; }
      size := size + |b| + 8;
      return Done;
    }

    method WriteBlock(b: Entry, now: int)
      requires WellFormed() && pos == |passed|
      modifies this`data, this`modified, this`unread
      ensures data == Layout(passed, unread) && unread == old(unread) + [b] && modified == now
      ensures |data| == |old(data)| + 8 + |b|
    {
      LayoutLength(passed, unread);
      AppendLayout(passed, unread, b);
      Write(|data| - FOOTER_SIZE, U64(|b|), now);
      Write(|data|, b, now);
      Write(|data|, U64(pos), now);
      unread := unread + [b];
    }

    /** Reads the head block and caches its length. Behind the last block of a segment
        whose size is clipped it takes the footer for a length, and the file ends. */
    method Current() returns (r: ReadResult)
      requires Valid()
      modifies this`currentSize
      ensures Valid()
      ensures r == if AtFooter(old(View())) then EOF
                   else if !isOpen then ReadError
                   else if NumberAtHead(old(View())) > maxSize then OutOfRange
                   else if unread != [] then Record(unread[0])
                   else if pos == 0 then Record([])
                   else EOF
      ensures View() == if isOpen then ReadSegment(old(View())) else old(View())
    {
      Lengths();
      if pos == size - FOOTER_SIZE { return EOF; }
      if !isOpen { return ReadError; }
      ReadLayout(passed, unread);
      BodyOfLayout(passed, unread);
      var sz := FromBytes(data[pos..pos + 8]);
      currentSize := sz;
      if sz > maxSize { return OutOfRange; }
      return ReadBody(data, pos + 8, sz);
    }

    /** Moves the head over one block. The step lands on a block boundary if and
        only if the cached length was right. Behind the last block of a segment whose
        size is clipped, the head leaves the file. */
    method Advance(now: int) returns (r: SegmentResult)
      requires Valid()
      modifies this`data, this`modified, this`pos, this`currentSize, this`passed, this`read, this`unread
      ensures !isOpen ==> r == NotOpen && View() == old(View()) && Valid()
      ensures isOpen && old(AtFooter(View())) ==>
                r == EndOfFile && View() == old(View()).(cached := 0) && Valid()
      ensures isOpen && !old(AtFooter(View())) && old(unread) == [] ==> r == EndOfFile
      ensures isOpen && !old(AtFooter(View())) && old(unread) != [] && old(Aligned(View())) ==>
                && Valid()
                && View() == AdvanceSegment(old(View()), now)
                && r == if AtFooter(View()) then EndOfFile else Done
      ensures isOpen && !old(AtFooter(View())) && old(unread) != [] ==>
                (pos == |old(passed) + Block(old(unread)[0])| <==> old(Aligned(View())))
    {
      Lengths();
      if !isOpen { return NotOpen; }
      if pos == size - FOOTER_SIZE {
        currentSize := 0;
        return EndOfFile;
      }
      MoveHead(now);
      r := ReadHeader();
      if old(unread != [] && Aligned(View())) {
        PassedLength(passed, read);
        NextHeaderOfLayout(passed, unread, size, old(currentSize));
      }
    }

    method MoveHead(now: int)
      requires Valid()
      modifies this`data, this`modified, this`pos, this`passed, this`read, this`unread
      ensures modified == now && pos == old(pos) + old(currentSize) + 8 && |data| == |old(data)|
      ensures old(unread) != [] && old(Aligned(View())) ==>
                Valid() && read == old(read) + [old(unread)[0]] && unread == old(unread)[1..]
    {
      ghost var step := unread != [] && Aligned(View());
      if step {
        AdvanceLayout(passed, unread);
        PassOne(passed, read, unread[0]);
      }
      var next := pos + currentSize + 8;
      Write(|data| - FOOTER_SIZE, U64(next), now);
      pos := next;
      if step {
        passed, read, unread := passed + Block(unread[0]), read + [unread[0]], unread[1..];
      }
    }

    method ReadHeader() returns (r: SegmentResult)
      modifies this`currentSize
      ensures (currentSize, r) == NextHeader(data, pos, size, old(currentSize))
    {
      if pos >= |data| { return EndOfFile; }
      if pos + 8 > |data| { return IoError; }
      currentSize := FromBytes(data[pos..pos + 8]);
      if pos + FOOTER_SIZE == size {
        currentSize := 0;
        return EndOfFile;
      }
      return Done;
    }
  }
}

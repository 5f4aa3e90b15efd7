/**
 The hinted-handoff node processor: many writers append to one queue while a
 single sender reads the head entry, sends it, and advances. Writers may run
 between any two steps of the sender.
 */
module Handoff {
  import opened Basics
  import opened Bytes
  import opened PointText
  import opened QueueSpec
  import opened Reopen

  // ---------- The queued record ----------

  method MarshalWrite(shardID: nat, points: seq<seq<byte>>) returns (b: Entry)
    ensures b == U64(shardID) + Lines(points)
  {
    b := U64(shardID);
    var i := 0;
    while i < |points|
      invariant 0 <= i <= |points|
      invariant b == U64(shardID) + LinesTo(points, i)
    {
      b := b + points[i];
      b := b + [NEWLINE];
      i := i + 1;
    }
  }

  /** The shard ID and the text of the points; None is the "too short" error. */
  function UnmarshalWrite(b: Entry): (r: Option<(nat, seq<byte>)>) {
    if |b| < 8 then None else Some((FromBytes(b[..8]), b[8..]))
  }

  /** A marshalled write is never empty and gives back its shard ID and its text. Cut as
      ParsePoints cuts it, the text gives back the points if and only if each survives. */
  lemma MarshalRoundTrip(shardID: nat, points: seq<seq<byte>>)
    requires shardID < 2 * TWO_TO_63
    ensures var b := U64(shardID) + Lines(points);
            |b| >= 8 && UnmarshalWrite(b) == Some((shardID, Lines(points)))
    ensures Cut(Lines(points)) == points <==> forall k | 0 <= k < |points| :: SurvivesAt(points, k)
  {
    U64RoundTrip(shardID);
    var b := U64(shardID) + Lines(points);
    assert b[..8] == U64(shardID) && b[8..] == Lines(points);
    PointsComeBackExactly(points);
  }

  // ---------- The protocol ----------

  /** Where the sender is inside SendWrite. */
  datatype Phase = Idle | Holding(entry: Entry) | Acknowledged(entry: Entry)

  /**
   The queue, the sender, and its history: every entry appended with success,
   how many entries were moved past, every delivery to the remote node, with
   the number of entries moved past at that time, and which entries were purged.
   */
  datatype State = State(queue: QueueView, phase: Phase, appended: seq<Entry>, advanced: nat,
                         delivered: seq<Entry>, slots: seq<nat>, purged: set<nat>)

  datatype Step =
    | WriteShard(entry: Entry, now: int)  // any writer
    | ReadHead                            // Current, by the sender
    | Send(acknowledged: bool, reached: bool)  // the remote write and whether it took effect
    | MoveOn(now: int)                    // Advance, after an acknowledged send
    | PurgeStale(when: int, now: int)     // by the sender, between two sends

  function Positions(start: nat, n: nat): (r: set<nat>)
    ensures forall i :: i in r <==> start <= i < start + n
  {
    if n == 0 then {} else Positions(start, n - 1) + {start + n - 1}
  }

  /** A write that is not acknowledged may still have reached the node. */
  function AfterSend(s: State, acknowledged: bool, reached: bool): (s': State)
    requires s.phase.Holding?
  {
    var delivered := acknowledged || reached;
    s.(phase := if acknowledged then Acknowledged(s.phase.entry) else Idle,
       delivered := if delivered then s.delivered + [s.phase.entry] else s.delivered,
       slots := if delivered then s.slots + [s.advanced] else s.slots)
  }

  function AfterMoveOn(s: State, now: int): (s': State)
    requires s.queue.segments != []
  {
    s.(phase := Idle, queue := Advance(s.queue, now), advanced := s.advanced + 1)
  }

  /** A purge moves past the entries of the segments it drops. */
  ghost predicate Next(s: State, step: Step, s': State)
    requires s.queue.segments != []
  {
    match step
    case WriteShard(b, now) =>
      var (q, r) := Append(s.queue, b, now);
      b != [] && s' == s.(queue := q, appended := if r == Appended then s.appended + [b] else s.appended)
    case ReadHead =>
      && s.phase == Idle
      && s' == s.(queue := AfterCurrent(s.queue), phase := if Current(s.queue).None? then Idle else Holding(Current(s.queue).value))
    case Send(acknowledged, reached) => s.phase.Holding? && s' == AfterSend(s, acknowledged, reached)
    case MoveOn(now) => s.phase.Acknowledged? && s' == AfterMoveOn(s, now)
    case PurgeStale(when, now) =>
      && s.phase == Idle && Cutoff(when) <= now
      && var n := |Pending(s.queue.segments[..StaleRun(s.queue.segments, Cutoff(when))])|;
         s' == s.(queue := Purge(s.queue, when, now), advanced := s.advanced + n,
                  purged := s.purged + Positions(s.advanced, n))
  }

  /** A sender starts on whatever the queue holds. */
  ghost predicate Initial(s: State) {
    QueueInv(s.queue) && s == State(s.queue, Idle, Pending(s.queue.segments), 0, [], [], {})
  }

  /** What was appended is what was moved past followed by what is pending. */
  ghost predicate Conserved(s: State) {
    s.advanced <= |s.appended| && Pending(s.queue.segments) == s.appended[s.advanced..]
  }

  /** Deliveries come in the order of appending, repeat only the entry at hand,
      and cover every entry moved past that was not purged. */
  ghost predicate InOrder(s: State) {
    && |s.delivered| == |s.slots|
    && (forall k | 0 <= k < |s.slots| :: s.slots[k] <= s.advanced && s.slots[k] < |s.appended|)
    && (forall k | 0 <= k < |s.slots| :: s.delivered[k] == s.appended[s.slots[k]])
    && (forall j, k | 0 <= j < k < |s.slots| :: s.slots[j] <= s.slots[k])
    && (forall i | 0 <= i < s.advanced :: i in s.slots || i in s.purged)
    && (forall i <- s.purged :: i < s.advanced)
    && (s.phase.Acknowledged? ==> s.advanced in s.slots)
  }

  /** While the sender has an entry at hand, it is the head entry. */
  ghost predicate QueueKept(s: State) {
    && QueueInv(s.queue)
    && Conserved(s)
    && (!s.phase.Idle? ==> Current(s.queue) == Some(s.phase.entry))
  }

  ghost predicate HandoffInv(s: State) {
    QueueKept(s) && InOrder(s)
  }

  /** An append leaves a readable head entry where it is. */
  lemma AppendKeepsCurrent(q: QueueView, b: Entry, now: int)
    requires q.segments != [] && Current(q).Some?
    ensures Append(q, b, now).0.segments != [] && Current(Append(q, b, now).0) == Current(q)
  {
  }

  lemma ReadKeepsContents(q: QueueView)
    requires QueueInv(q)
    ensures QueueInv(AfterCurrent(q)) && Current(AfterCurrent(q)) == Current(q)
    ensures Pending(AfterCurrent(q).segments) == Pending(q.segments)
  {
    AfterCurrentEffect(q);
    assert AfterCurrent(q).segments[1..] == q.segments[1..];
  }

  lemma WriteKeepsQueue(s: State, b: Entry, now: int, s': State)
    requires QueueKept(s) && Next(s, WriteShard(b, now), s')
    ensures QueueKept(s')
  {
    AppendInv(s.queue, b, now);
    AppendIsEnqueue(s.queue, b, now);
    if Current(s.queue).Some? { AppendKeepsCurrent(s.queue, b, now); }
  }

  lemma MoveOnKeepsQueue(s: State, now: int)
    requires QueueKept(s) && s.phase.Acknowledged?
    ensures QueueKept(AfterMoveOn(s, now))
  {
    AdvanceInv(s.queue, now);
    AdvanceIsDequeue(s.queue, now);
    CurrentIsOldest(s.queue);
  }

  lemma PurgeKeepsQueue(s: State, when: int, now: int, s': State)
    requires QueueKept(s) && Next(s, PurgeStale(when, now), s')
    ensures QueueKept(s')
  {
    PurgeInv(s.queue, when, now);
    PurgeKeepsSuffix(s.queue, when, now);
  }

  lemma NextKeepsQueue(s: State, step: Step, s': State)
    requires QueueKept(s) && Next(s, step, s')
    ensures QueueKept(s')
  {
    match step
    case WriteShard(b, now) => WriteKeepsQueue(s, b, now, s');
    case ReadHead => ReadKeepsContents(s.queue);
    case Send(_, _) =>
    case MoveOn(now) => MoveOnKeepsQueue(s, now);
    case PurgeStale(when, now) => PurgeKeepsQueue(s, when, now, s');
  }

  lemma SendKeepsOrder(s: State, acknowledged: bool, reached: bool)
    requires HandoffInv(s) && s.phase.Holding?
    ensures InOrder(AfterSend(s, acknowledged, reached))
  {
    CurrentIsOldest(s.queue);
    assert s.appended[s.advanced] == s.appended[s.advanced..][0];
  }

  lemma NextKeepsOrder(s: State, step: Step, s': State)
    requires HandoffInv(s) && Next(s, step, s')
    ensures InOrder(s')
  {
    if step.Send? { SendKeepsOrder(s, step.acknowledged, step.reached); }
  }

  ghost predicate IsRun(states: seq<State>, steps: seq<Step>) {
    && |states| == |steps| + 1
    && (forall s <- states :: s.queue.segments != [])
    && forall i | 0 <= i < |steps| :: Next(states[i], steps[i], states[i + 1])
  }

  /** Nothing is purged in the first k steps. */
  ghost predicate NoPurge(steps: seq<Step>, k: nat)
    requires k <= |steps|
  {
    forall i | 0 <= i < k :: !steps[i].PurgeStale?
  }

  /** For every interleaving nothing else is lost, order is kept, and every entry
      moved past was delivered at least once or purged. */
  lemma {:induction false} DeliveredInOrderAtLeastOnce(states: seq<State>, steps: seq<Step>, k: nat)
    requires IsRun(states, steps) && Initial(states[0])
    requires k < |states|
    ensures HandoffInv(states[k])
    ensures NoPurge(steps, k) ==> states[k].purged == {}
  {
    if k > 0 {
      DeliveredInOrderAtLeastOnce(states, steps, k - 1);
      NextKeepsQueue(states[k - 1], steps[k - 1], states[k]);
      NextKeepsOrder(states[k - 1], steps[k - 1], states[k]);
    }
  }

  // ---------- A call of SendWrite ----------

  /** What SendWrite hands to the remote writer. */
  function Handed(q: QueueView, active: Option<bool>, parses: bool): (r: Option<(nat, seq<byte>)>)
    requires q.segments != []
  {
    if active == Some(true) && Current(q).Some? && parses then UnmarshalWrite(Current(q).value) else None
  }

  function AfterSendWrite(q: QueueView, active: Option<bool>, parses: bool, acknowledged: bool, now: int): (r: QueueView)
    requires q.segments != []
  {
    if Handed(q, active, parses).Some? && acknowledged then Advance(q, now)
    else if active == Some(true) then AfterCurrent(q)
    else q
  }

  lemma ThreeSteps(s0: State, s1: State, s2: State, s3: State, a: Step, b: Step, c: Step)
    requires s0.queue.segments != [] && s1.queue.segments != [] && s2.queue.segments != [] && s3.queue.segments != []
    requires Next(s0, a, s1) && Next(s1, b, s2) && Next(s2, c, s3)
    ensures IsRun([s0, s1, s2, s3], [a, b, c])
  {
  }

  /** Reading the head entry, sending it and, if that is acknowledged, moving on. */
  lemma SendingRun(s: State, acknowledged: bool, reached: bool, now: int)
    returns (states: seq<State>, steps: seq<Step>)
    requires QueueInv(s.queue) && s.phase == Idle && Current(s.queue).Some?
    ensures IsRun(states, steps) && states[0] == s && |steps| <= 3 && NoPurge(steps, |steps|)
    ensures var done := AfterSend(s.(phase := Holding(Current(s.queue).value)), acknowledged, reached);
            Last(states) == if acknowledged then AfterMoveOn(done, now) else done
  {
    AfterCurrentEffect(s.queue);
    AdvanceIsDequeue(s.queue, now);
    var s1 := s.(phase := Holding(Current(s.queue).value));
    var s2, send := AfterSend(s1, acknowledged, reached), Send(acknowledged, reached);
    if acknowledged {
      ThreeSteps(s, s1, s2, AfterMoveOn(s2, now), ReadHead, send, MoveOn(now));
      states, steps := [s, s1, s2, AfterMoveOn(s2, now)], [ReadHead, send, MoveOn(now)];
    } else {
      states, steps := [s, s1, s2], [ReadHead, send];
    }
  }

  /** Without a writer in between, a call is at most three steps of the sender. */
  lemma SendWriteIsRun(s: State, active: Option<bool>, parses: bool, acknowledged: bool, reached: bool, now: int)
    returns (states: seq<State>, steps: seq<Step>)
    requires HandoffInv(s) && s.phase == Idle
    ensures IsRun(states, steps) && states[0] == s && |steps| <= 3 && NoPurge(steps, |steps|)
    ensures var sent, done := Handed(s.queue, active, parses).Some?, Last(states);
            && done.phase == Idle && done.queue == AfterSendWrite(s.queue, active, parses, acknowledged, now)
            && done.appended == s.appended
            && done.advanced == s.advanced + (if sent && acknowledged then 1 else 0)
            && done.delivered == s.delivered + if sent && (acknowledged || reached) then [Current(s.queue).value] else []
  {
    if active != Some(true) {
      states, steps := [s], [];
    } else if Current(s.queue).None? {
      states, steps := [s, s.(queue := AfterCurrent(s.queue))], [ReadHead];
    } else {
      var sent := Handed(s.queue, active, parses).Some?;
      AfterCurrentEffect(s.queue);
      states, steps := SendingRun(s, sent && acknowledged, sent && reached, now);
    }
  }

  // ---------- Writes ----------

  /** A write as it is queued. */
  datatype Write = Write(shardID: nat, points: seq<seq<byte>>)

  function Record(w: Write): (b: Entry) {
    U64(w.shardID) + Lines(w.points)
  }

  /** In every interleaving in which writes are queued, each delivery is the shard ID and
      the text of one of them, and deliveries go through the writes in order. */
  lemma DeliveredWrites(states: seq<State>, steps: seq<Step>, k: nat, writes: seq<Write>, n: nat)
    requires IsRun(states, steps) && Initial(states[0]) && k < |states| && n < |states[k].delivered|
    requires |writes| == |states[k].appended|
    requires forall i | 0 <= i < |writes| :: writes[i].shardID < 2 * TWO_TO_63 && states[k].appended[i] == Record(writes[i])
    ensures |states[k].slots| == |states[k].delivered| && states[k].slots[n] < |writes|
    ensures var w := writes[states[k].slots[n]];
            UnmarshalWrite(states[k].delivered[n]) == Some((w.shardID, Lines(w.points)))
    ensures forall m | 0 <= m < n :: states[k].slots[m] <= states[k].slots[n]
  {
    DeliveredInOrderAtLeastOnce(states, steps, k);
    var w := writes[states[k].slots[n]];
    MarshalRoundTrip(w.shardID, w.points);
  }

  // ---------- A sender that stops for good ----------

  /** The head segment is exhausted although other segments follow. SendWrite
      gives up at the end-of-file answer and never reaches Advance. */
  ghost predicate Blocked(q: QueueView) {
    |q.segments| > 1 && q.segments[0].unread == []
  }

  lemma AppendKeepsBlocked(q: QueueView, b: Entry, now: int)
    requires Blocked(q)
    ensures Blocked(Append(q, b, now).0)
  {
  }

  /** Once blocked, no run of writers and sender delivers or advances again before a
      purge, whatever is still appended. */
  lemma {:induction false} BlockedForever(states: seq<State>, steps: seq<Step>, k: nat)
    requires IsRun(states, steps) && states[0].phase == Idle && Blocked(states[0].queue)
    requires k < |states| && NoPurge(steps, k)
    ensures Blocked(states[k].queue) && states[k].phase == Idle
    ensures states[k].delivered == states[0].delivered && states[k].advanced == states[0].advanced
  {
    if k > 0 {
      BlockedForever(states, steps, k - 1);
      var s := states[k - 1];
      if steps[k - 1].WriteShard? {
        AppendKeepsBlocked(s.queue, steps[k - 1].entry, steps[k - 1].now);
      }
    }
  }

  /** An append blocks the sender exactly when the only segment is exhausted, the
      queue has room and the segment has not. */
  lemma AppendBlocksExactly(q: QueueView, b: Entry, now: int)
    requires q.segments != [] && !Blocked(q)
    ensures Blocked(Append(q, b, now).0)
       <==> (&& |q.segments| == 1
             && q.segments[0].unread == []
             && Usage(q.segments) + |b| <= q.maxSize
             && !Fits(q.segments[0], b, q.maxSegmentSize))
  {
  }

  /** An advance blocks the sender exactly when it exhausts the head and other segments
      follow, and either the size of the head is clipped, so that it stays, or the next
      segment has nothing to read and a third one follows. */
  lemma AdvanceBlocksExactly(q: QueueView, now: int)
    requires q.segments != [] && !Blocked(q)
    ensures Blocked(Advance(q, now))
       <==> (&& |q.segments| > 1 && |q.segments[0].unread| == 1
             && (Clipped(q.segments[0]) || (|q.segments| > 2 && q.segments[1].unread == [])))
  {
  }

  /** Opening leads into the state exactly when the two segments with the highest IDs
      are exhausted and a third one follows, whatever the state was before; in every
      other case it leads out of it. */
  lemma OpenBlocksExactly(q: QueueView, after: seq<SegmentView>, now: int)
    requires Reordered(q, after, now)
    ensures Blocked(OpenedView(q, after, now)) <==> |after| > 2 && after[0].unread == [] && after[1].unread == []
  {
  }

  /** For a queue that grew in one session these are its last two segments. */
  lemma FirstOpenBlocksExactly(q: QueueView, after: seq<SegmentView>, now: int)
    requires Ascending(q.segments) && Reordered(q, after, now)
    ensures var n := |q.segments|;
            Blocked(OpenedView(q, after, now)) <==> n > 2 && q.segments[n - 1].unread == [] && q.segments[n - 2].unread == []
  {
    ReopenReverses(q, after, now);
    if |after| > 2 {
      ReverseAt(Reloaded(q, now), 0);
      ReverseAt(Reloaded(q, now), 1);
    }
    OpenBlocksExactly(q, after, now);
  }

  /** A purge leads into the state exactly when the first segment that is kept is
      exhausted and another one follows it, whatever the state was before. So it leads
      out of it exactly when it drops at least one segment and what it keeps starts with
      an unread entry, or is a single segment. */
  lemma PurgeBlocksExactly(q: QueueView, when: int, now: int)
    requires q.segments != []
    ensures var k := StaleRun(q.segments, Cutoff(when));
            && (Blocked(Purge(q, when, now)) <==> k + 1 < |q.segments| && q.segments[k].unread == [])
            && (Blocked(q) ==>
                  (!Blocked(Purge(q, when, now)) <==> k > 0 && (k + 1 >= |q.segments| || q.segments[k].unread != [])))
  {
  }

  /** Two appends too large for a segment leave two empty segments behind; opening then
      leads into the state with an entry pending. */
  lemma OpenBlocksInput(a: Entry, b: Entry, after: seq<SegmentView>, now: int)
    requires |a| == 4 && |b| == 30
    requires
      var q := Append(Append(Append(FreshQueue(20, 100, now), a, now).0, b, now).0, b, now).0;
      Reordered(q, after, now)
    ensures
      var q := Append(Append(Append(FreshQueue(20, 100, now), a, now).0, b, now).0, b, now).0;
      !Blocked(q) && Pending(q.segments) == [a] && Blocked(OpenedView(q, after, now))
  {
    var q1 := Append(FreshQueue(20, 100, now), a, now).0;
    OneSmallEntry(a, now);
    LeavesEmpty(q1, b, now);
    var q2 := Append(q1, b, now).0;
    LeavesEmpty(q2, b, now);
    var q3 := Append(q2, b, now).0;
    AppendAscends(FreshQueue(20, 100, now), a, now);
    AppendAscends(q1, b, now);
    AppendAscends(q2, b, now);
    FirstOpenBlocksExactly(q3, after, now);
  }

  lemma OneSmallEntry(a: Entry, now: int)
    requires |a| == 4
    ensures var q := Append(FreshQueue(20, 100, now), a, now).0;
            |q.segments| == 1 && q.segments[0].unread == [a] && Pending(q.segments) == [a] && Usage(q.segments) == 20
            && q.maxSegmentSize == 20 && q.maxSize == 100
  {
    var q0 := FreshQueue(20, 100, now);
    AppendToTailEffect(q0, a, now);
    assert Append(q0, a, now) == (AppendToTail(q0, a, now), Appended);
    assert q0.segments[0].unread + [a] == [a];
  }

  lemma LeavesEmpty(q: QueueView, b: Entry, now: int)
    requires q.segments != [] && q.maxSegmentSize == 20 && q.maxSize == 100 && |b| == 30 && Usage(q.segments) <= 70
    ensures var q' := Append(q, b, now).0;
            && q' == AddSegment(q, now) && Last(q'.segments).unread == []
            && Pending(q'.segments) == Pending(q.segments) && Usage(q'.segments) == Usage(q.segments) + 8
  {
    AddSegmentEffect(q, now);
  }

  /** The state is reachable: drain a fresh queue of one entry, then append one
      that does not fit the rest of the segment. */
  lemma BlockedIsReachable(a: Entry, b: Entry, now: int)
    requires |a| == 10 && |b| == 12
    ensures var q1 := Append(FreshQueue(30, 100, now), a, now).0;
            var q2 := Advance(q1, now);
            var (q3, r) := Append(q2, b, now);
            r == Appended && Blocked(q3) && Pending(q3.segments) == [b]
  {
    var q0 := FreshQueue(30, 100, now);
    AppendToTailEffect(q0, a, now);
    var q1 := Append(q0, a, now).0;
    assert q1.segments == [AppendToSegment(q0.segments[0], a, now)];
    AppendToSegmentSize(q0.segments[0], a, now);
    var q2 := Advance(q1, now);
    AdvanceIsDequeue(q1, now);
    AdvanceHeadEffect(q1, now);
    assert q2 == AdvanceHead(q1, now);
    assert Usage(q2.segments) == q2.segments[0].size == 26;
    AppendIsEnqueue(q2, b, now);
    AppendBlocksExactly(q2, b, now);
    assert Pending(q2.segments) == [];
  }

  // ---------- What a sender delivers ----------

  /** While something is pending, reading the head finds nothing exactly in that state. */
  lemma BlockedExactly(q: QueueView)
    requires q.segments != [] && Pending(q.segments) != []
    ensures Current(q).None? <==> Blocked(q)
  {
  }

  /** One acknowledged round of the sender, without a writer in between. */
  function Round(q: QueueView, now: int): (r: QueueView)
    requires q.segments != []
    ensures r.segments != []
  {
    if Current(q).None? then AfterCurrent(q) else AdvanceIsDequeue(q, now); Advance(q, now)
  }

  function Rounds(q: QueueView, n: nat, now: int): (r: QueueView)
    requires q.segments != []
    decreases n
  {
    if n == 0 then q else Rounds(Round(q, now), n - 1, now)
  }

  /** A segment the sender does not get past: it is exhausted, or its size is clipped. */
  predicate Stops(s: SegmentView) {
    s.unread == [] || Clipped(s)
  }

  /** No segment that stops the sender lies before an unread entry. */
  ghost predicate Clear(segs: seq<SegmentView>) {
    forall i, j | 0 <= i < j < |segs| && segs[j].unread != [] :: !Stops(segs[i])
  }

  ghost predicate NothingUnread(segs: seq<SegmentView>) {
    forall s <- segs :: s.unread == []
  }

  lemma {:induction false} PendingNothing(segs: seq<SegmentView>)
    ensures Pending(segs) == [] <==> NothingUnread(segs)
  {
    if segs != [] {
      PendingNothing(segs[1..]);
      assert segs == [segs[0]] + segs[1..];
    }
  }

  lemma ClearFront(segs: seq<SegmentView>)
    requires segs != []
    ensures Clear(segs) <==> Clear(segs[1..]) && (Stops(segs[0]) ==> NothingUnread(segs[1..]))
  {
  }

  lemma RoundKeepsClear(q: QueueView, now: int)
    requires q.segments != []
    ensures Clear(Round(q, now).segments) <==> Clear(q.segments)
  {
    var segs, segs' := q.segments, Round(q, now).segments;
    ClearFront(segs);
    ClearFront(segs');
    if segs[0].unread != [] {
      AdvanceSegmentSize(segs[0], now);
      assert AdvanceHead(q, now).segments[1..] == segs[1..];
    }
  }

  /** Acknowledged rounds deliver everything that is pending if and only if the way is
      clear; otherwise something stays, however many there are. */
  lemma {:induction false} DrainsExactly(q: QueueView, n: nat, now: int)
    requires q.segments != []
    ensures n >= |Pending(q.segments)| ==> (Pending(Rounds(q, n, now).segments) == [] <==> Clear(q.segments))
    ensures n < |Pending(q.segments)| ==> Pending(Rounds(q, n, now).segments) != []
    decreases n
  {
    PendingNothing(q.segments);
    ClearFront(q.segments);
    if n > 0 {
      RoundKeepsClear(q, now);
      RoundDelivers(q, now);
      DrainsExactly(Round(q, now), n - 1, now);
    } else if NothingUnread(q.segments) {
      assert Clear(q.segments);
    }
  }

  /** A round delivers the oldest entry; it delivers none of those pending only if the
      way is not clear. */
  lemma RoundDelivers(q: QueueView, now: int)
    requires q.segments != []
    ensures Pending(Round(q, now).segments) == if Current(q).None? then Pending(q.segments) else Pending(q.segments)[1..]
    ensures Pending(q.segments) != [] && Clear(q.segments) ==> Current(q).Some?
  {
    AdvanceIsDequeue(q, now);
    PendingNothing(q.segments[1..]);
    ClearFront(q.segments);
    assert AfterCurrent(q).segments[1..] == q.segments[1..];
  }

  /** In a list of files that were just opened, no file over the segment maximum lies
      before an unread entry, nor an exhausted one but for the very first. */
  ghost predicate FilesClear(after: seq<SegmentView>, maxSegmentSize: nat) {
    forall i, j | 0 <= i < j < |after| && after[j].unread != [] ::
      (i == 0 && after[0].unread == []) || (after[i].unread != [] && FileSize(after[i]) <= maxSegmentSize)
  }

  lemma JustOpened(q: QueueView, after: seq<SegmentView>, now: int, i: nat)
    requires Reordered(q, after, now) && i < |after|
    ensures Clipped(after[i]) <==> FileSize(after[i]) > q.maxSegmentSize
  {
    assert after[i] in multiset(Reloaded(q, now));
  }

  /** Opening trims an exhausted first segment. */
  lemma OpenedClear(q: QueueView, after: seq<SegmentView>, now: int)
    requires after != [] && Reordered(q, after, now)
    ensures Clear(OpenedView(q, after, now).segments) <==> FilesClear(after, q.maxSegmentSize)
  {
    var segs := OpenedView(q, after, now).segments;
    forall i | 0 <= i < |after|
      ensures Clipped(after[i]) <==> FileSize(after[i]) > q.maxSegmentSize
    {
      JustOpened(q, after, now, i);
    }
    if after[0].unread == [] && |after| > 1 {
      assert segs == after[1..];
      assert forall i | 0 < i < |after| :: after[i] == segs[i - 1];
    }
  }

  /** So after opening, acknowledged rounds deliver everything if and only if the files
      are clear. */
  lemma OpenDrainsExactly(q: QueueView, after: seq<SegmentView>, n: nat, now: int)
    requires q.segments != [] && Reordered(q, after, now)
    requires n >= |Pending(q.segments)|
    ensures OpenedView(q, after, now).segments != []
    ensures Pending(Rounds(OpenedView(q, after, now), n, now).segments) == [] <==> FilesClear(after, q.maxSegmentSize)
  {
    ReopenConserves(q, after, now);
    var q0 := OpenedView(q, after, now);
    assert |multiset(Pending(q0.segments))| == |Pending(q0.segments)|;
    assert |multiset(Pending(q.segments))| == |Pending(q.segments)|;
    OpenedClear(q, after, now);
    DrainsExactly(q0, n, now);
  }

  /** An input: two entries of twelve bytes, each in a file of 28 bytes at a segment
      maximum of twenty. After a reopen the sender delivers one, and never the other. */
  lemma ClippedHeadStops(a: Entry, b: Entry, after: seq<SegmentView>, now: int)
    requires |a| == |b| == 12 && Reordered(Two(a, b, 20, 100, now), after, now)
    ensures Append(Append(FreshQueue(20, 100, now), a, now).0, b, now) == (Two(a, b, 20, 100, now), Appended)
    ensures var q := OpenedView(Two(a, b, 20, 100, now), after, now);
            && !Blocked(q) && Current(q) == Some(b)
            && Blocked(Advance(q, now)) && Pending(Advance(q, now).segments) == [a]
  {
    TwoIsReached(a, b, 20, 100, now);
    TwoReopened(a, b, 20, 100, after, now);
    var q := OpenedView(Two(a, b, 20, 100, now), after, now);
    AdvanceBlocksExactly(q, now);
    AdvanceIsDequeue(q, now);
  }
}

/**
 How far the sender gets: the entries it can ever move past are those up to the first
 segment that stops it, whatever writers append meanwhile.
 */
module SenderReach {
  import opened QueueSpec
  import opened Handoff

  /** The number of entries up to and in the first segment that stops the sender. */
  function Reach(segs: seq<SegmentView>): (n: nat) {
    if segs == [] then 0 else |segs[0].unread| + if Stops(segs[0]) then 0 else Reach(segs[1..])
  }

  /** The sender reaches everything that is pending if and only if the way is clear. */
  lemma {:induction false} ReachesAllExactly(segs: seq<SegmentView>)
    ensures Reach(segs) <= |Pending(segs)|
    ensures Reach(segs) == |Pending(segs)| <==> Clear(segs)
  {
    if segs != [] {
      ClearFront(segs);
      PendingNothing(segs[1..]);
      ReachesAllExactly(segs[1..]);
    }
  }

  // ---------- One step ----------

  /** What lies behind a segment that stops the sender does not matter. */
  lemma {:induction false} OnlyUpToStop(a: seq<SegmentView>, b: seq<SegmentView>, c: seq<SegmentView>, i: nat)
    requires i < |a| && Stops(a[i])
    ensures Reach(a + b) == Reach(a + c)
  {
    assert (a + b)[0] == (a + c)[0] == a[0];
    if i > 0 {
      OnlyUpToStop(a[1..], b, c, i - 1);
      assert (a + b)[1..] == a[1..] + b && (a + c)[1..] == a[1..] + c;
    }
  }

  /** An append changes the last segment alone, and leaves what it holds unread. */
  lemma AppendOnlyBehind(q: QueueView, b: Entry, now: int)
    requires q.segments != []
    ensures var segs, segs', n := q.segments, Append(q, b, now).0.segments, |q.segments| - 1;
            && n < |segs'| && segs'[..n] == segs[..n]
            && (segs[n].unread != [] ==> segs'[n].unread != [])
  {
  }

  lemma AppendBehindStop(q: QueueView, b: Entry, now: int)
    requires q.segments != [] && !Clear(q.segments)
    ensures Reach(Append(q, b, now).0.segments) == Reach(q.segments) && !Clear(Append(q, b, now).0.segments)
  {
    var segs, segs', n := q.segments, Append(q, b, now).0.segments, |q.segments| - 1;
    var i, j :| 0 <= i < j < |segs| && segs[j].unread != [] && Stops(segs[i]);
    AppendOnlyBehind(q, b, now);
    SameUpToStop(segs, segs', n, i);
    assert j < n ==> segs'[..n][j] == segs[..n][j];
  }

  lemma SameUpToStop(segs: seq<SegmentView>, segs': seq<SegmentView>, n: nat, i: nat)
    requires i < n <= |segs| && n <= |segs'| && segs'[..n] == segs[..n] && Stops(segs[i])
    ensures Reach(segs') == Reach(segs) && segs'[i] == segs[i]
  {
    var front := segs[..n];
    assert segs == front + segs[n..] && segs' == front + segs'[n..];
    assert front[i] == segs[i] && front[i] == segs'[i];
    OnlyUpToStop(front, segs[n..], segs'[n..], i);
  }

  lemma ReadKeepsReach(q: QueueView)
    requires q.segments != []
    ensures Reach(AfterCurrent(q).segments) == Reach(q.segments)
    ensures Clear(AfterCurrent(q).segments) <==> Clear(q.segments)
  {
    var segs' := AfterCurrent(q).segments;
    assert segs'[1..] == q.segments[1..];
    ClearFront(q.segments);
    ClearFront(segs');
  }

  lemma AdvanceTakesOne(q: QueueView, now: int)
    requires q.segments != [] && Current(q).Some?
    ensures Reach(Advance(q, now).segments) == Reach(q.segments) - 1
    ensures Clear(Advance(q, now).segments) <==> Clear(q.segments)
  {
    AdvanceSegmentSize(q.segments[0], now);
    assert AdvanceHead(q, now).segments[1..] == q.segments[1..];
    RoundKeepsClear(q, now);
  }

  // ---------- Every run ----------

  lemma NextKeepsReach(s: State, step: Step, s': State)
    requires HandoffInv(s) && Next(s, step, s') && !step.PurgeStale? && !Clear(s.queue.segments)
    ensures !Clear(s'.queue.segments) && s'.advanced + Reach(s'.queue.segments) == s.advanced + Reach(s.queue.segments)
  {
    match step
    case WriteShard(b, now) => AppendBehindStop(s.queue, b, now);
    case ReadHead => ReadKeepsReach(s.queue);
    case Send(_, _) =>
    case MoveOn(now) => AdvanceTakesOne(s.queue, now);
  }

  /** If the way is not clear, no run of writers and sender moves past more than the
      entries within reach before a purge, and what was pending behind them stays. */
  lemma {:induction false} NoFurther(states: seq<State>, steps: seq<Step>, k: nat)
    requires Handoff.IsRun(states, steps) && HandoffInv(states[0]) && !Clear(states[0].queue.segments)
    requires k < |states| && NoPurge(steps, k)
    ensures HandoffInv(states[k]) && !Clear(states[k].queue.segments)
    ensures states[k].advanced + Reach(states[k].queue.segments) == states[0].advanced + Reach(states[0].queue.segments)
    ensures states[k].advanced <= states[0].advanced + Reach(states[0].queue.segments) < |states[0].appended|
  {
    ReachesAllExactly(states[0].queue.segments);
    if k > 0 {
      NoFurther(states, steps, k - 1);
      NextKeepsQueue(states[k - 1], steps[k - 1], states[k]);
      NextKeepsOrder(states[k - 1], steps[k - 1], states[k]);
      NextKeepsReach(states[k - 1], steps[k - 1], states[k]);
    }
  }

  // ---------- A run that gets there ----------

  /** The state after an acknowledged round of the sender. */
  ghost function AfterRound(s: State, now: int): (s': State)
    requires s.queue.segments != [] && Current(s.queue).Some?
  {
    State(Advance(s.queue, now), Idle, s.appended, s.advanced + 1, s.delivered + [Current(s.queue).value], s.slots + [s.advanced], s.purged)
  }

  lemma RoundIsThreeSteps(s: State, now: int) returns (s1: State, s2: State)
    requires HandoffInv(s) && s.phase == Idle && Current(s.queue).Some?
    ensures s1.queue.segments != [] && s2.queue.segments != []
    ensures Next(s, ReadHead, s1) && Next(s1, Send(true, true), s2) && Next(s2, MoveOn(now), AfterRound(s, now))
    ensures HandoffInv(AfterRound(s, now))
  {
    AfterCurrentEffect(s.queue);
    var entry := Current(s.queue).value;
    s1 := s.(phase := Holding(entry));
    s2 := AfterSend(s1, true, true);
    var s3 := AfterRound(s, now);
    NextKeepsQueue(s, ReadHead, s1);
    NextKeepsOrder(s, ReadHead, s1);
    NextKeepsQueue(s1, Send(true, true), s2);
    NextKeepsOrder(s1, Send(true, true), s2);
    NextKeepsQueue(s2, MoveOn(now), s3);
    NextKeepsOrder(s2, MoveOn(now), s3);
  }

  lemma HeadAndRest<T>(d: seq<T>, es: seq<T>, n: nat)
    requires 0 < n <= |es|
    ensures d + [es[0]] + es[1..][..n - 1] == d + es[..n]
  {
  }

  /** The entries delivered from here on are the head entry and those delivered later. */
  lemma OneAndTheRest(s: State, now: int)
    requires s.queue.segments != [] && Current(s.queue).Some?
    ensures var q, q' := s.queue.segments, Advance(s.queue, now).segments;
            && Reach(q') == Reach(q) - 1 && Reach(q) <= |Pending(q)| && Reach(q') <= |Pending(q')|
            && AfterRound(s, now).delivered + Pending(q')[..Reach(q')] == s.delivered + Pending(q)[..Reach(q)]
  {
    var es, n := Pending(s.queue.segments), Reach(s.queue.segments);
    AdvanceTakesOne(s.queue, now);
    AdvanceIsDequeue(s.queue, now);
    CurrentIsOldest(s.queue);
    ReachesAllExactly(s.queue.segments);
    HeadAndRest(s.delivered, es, n);
  }

  /** A run that starts in s and delivers exactly the entries within reach, each once and
      in order. */
  ghost predicate Delivers(s: State, states: seq<State>, steps: seq<Step>)
    requires Reach(s.queue.segments) <= |Pending(s.queue.segments)|
  {
    && Handoff.IsRun(states, steps) && states[0] == s && NoPurge(steps, |steps|)
    && var e, n := Last(states), Reach(s.queue.segments);
       && e.delivered == s.delivered + Pending(s.queue.segments)[..n] && e.advanced == s.advanced + n
       && e.appended == s.appended && e.phase == Idle && Reach(e.queue.segments) == 0
  }

  lemma RunOn(s: State, s1: State, s2: State, states: seq<State>, steps: seq<Step>, now: int)
    requires Handoff.IsRun(states, steps)
    requires s.queue.segments != [] && s1.queue.segments != [] && s2.queue.segments != []
    requires Next(s, ReadHead, s1) && Next(s1, Send(true, true), s2) && Next(s2, MoveOn(now), states[0])
    ensures Handoff.IsRun([s, s1, s2] + states, [ReadHead, Send(true, true), MoveOn(now)] + steps)
  {
    var states', steps' := [s, s1, s2] + states, [ReadHead, Send(true, true), MoveOn(now)] + steps;
    forall i | 0 <= i < |steps'|
      ensures Next(states'[i], steps'[i], states'[i + 1])
    {
      if i >= 3 {
        assert Next(states[i - 3], steps[i - 3], states[i - 2]);
      }
    }
  }

  /** From every state between two rounds there is such a run. */
  lemma {:induction false} AllTheWay(s: State, now: int) returns (states: seq<State>, steps: seq<Step>)
    requires HandoffInv(s) && s.phase == Idle
    ensures Reach(s.queue.segments) <= |Pending(s.queue.segments)| && Delivers(s, states, steps)
    decreases Reach(s.queue.segments)
  {
    ReachesAllExactly(s.queue.segments);
    if Current(s.queue).None? {
      states, steps := [s], [];
    } else {
      OneAndTheRest(s, now);
      var s1, s2 := RoundIsThreeSteps(s, now);
      states, steps := AllTheWay(AfterRound(s, now), now);
      RunOn(s, s1, s2, states, steps, now);
      states, steps := [s, s1, s2] + states, [ReadHead, Send(true, true), MoveOn(now)] + steps;
    }
  }
}

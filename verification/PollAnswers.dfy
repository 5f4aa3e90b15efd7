/**
 What the answer to a poll does to the cache: exactly when it raises the cached
 index, and a run with two servers in which it does not.
 */
module PollAnswers {
  import opened UpdateProtocol

  // ---------- When an answer raises the index ----------

  /** What may happen from here until the poller's next update, if it stays with its server. */
  ghost predicate Continuation(s: State, states: seq<State>, steps: seq<Step>) {
    && Path(states, steps) && states[0] == s
    && steps != [] && steps[|steps| - 1].Update?
    && forall k | 0 <= k < |steps| - 1 :: !steps[k].Update? && !steps[k].Redial?
  }

  ghost predicate Raises(s: State, s': State) {
    InRange(s) && InRange(s') && IndexOf(s.log, s.cache) < IndexOf(s'.log, s'.cache)
  }

  /** However it goes on, the answer to this poll raises the cached index. */
  ghost predicate EveryAnswerRaises(s: State) {
    forall states, steps | Continuation(s, states, steps) :: Raises(s, states[|steps|])
  }

  /** The poll under way will be answered with something newer than the cache. */
  ghost predicate OnTrack(s: State) {
    Inv(s) && !s.poller.Idle? && CaughtUp(s) && FreshPoll(s)
  }

  lemma OnTrackStep(s: State, step: Step)
    requires OnTrack(s) && Enabled(s, step) && !step.Update? && !step.Redial?
    ensures OnTrack(Next(s, step)) && Next(s, step).cache == s.cache
  {
    StepKeeps(s, step);
    StepFresh(s, step);
  }

  lemma {:induction false} StaysOnTrack(s: State, states: seq<State>, steps: seq<Step>, k: nat)
    requires Continuation(s, states, steps) && OnTrack(s) && k < |steps|
    ensures OnTrack(states[k]) && states[k].cache == s.cache && IndexOf(states[k].log, s.cache) == IndexOf(s.log, s.cache)
  {
    if k > 0 {
      StaysOnTrack(s, states, steps, k - 1);
      OnTrackStep(states[k - 1], steps[k - 1]);
      OnlyUpdateMovesCache(states[k - 1], steps[k - 1]);
    }
  }

  lemma CaughtUpRaises(s: State, states: seq<State>, steps: seq<Step>)
    requires Inv(s) && s.poller.Asked? && CaughtUp(s) && Continuation(s, states, steps)
    ensures Raises(s, states[|steps|])
  {
    var k := |steps| - 1;
    StaysOnTrack(s, states, steps, k);
    StepKeeps(states[k], Update);
    IndexMonotone(states[k].log, s.cache, states[k].poller.prefix);
  }

  lemma PathOne(s: State, step: Step, s': State) returns (states: seq<State>, steps: seq<Step>)
    requires InRange(s) && Enabled(s, step) && s' == Next(s, step)
    ensures states == [s, s'] && steps == [step] && Path(states, steps)
  {
    states, steps := [s, s'], [step];
  }

  lemma PathMore(states: seq<State>, steps: seq<Step>, step: Step, s': State) returns (states': seq<State>, steps': seq<Step>)
    requires Path(states, steps) && InRange(states[|steps|]) && Enabled(states[|steps|], step) && s' == Next(states[|steps|], step)
    ensures Path(states', steps') && states' == states + [s'] && steps' == steps + [step]
  {
    states', steps' := states + [s'], steps + [step];
    forall i | 0 <= i < |steps'|
      ensures Follows(states'[i], steps'[i], states'[i + 1])
    {
      assert states'[i] == states[i];
      assert i < |steps| ==> states'[i + 1] == states[i + 1] && steps'[i] == steps[i];
    }
  }

  /** The server one entry further on. */
  function OneMore(s: State, i: nat): (servers: seq<Server>)
    requires i < |s.servers|
  {
    s.servers[i := Server(s.servers[i].applied + 1, s.servers[i].channel + 1)]
  }

  lemma LaggingHolds(s: State) returns (states: seq<State>, steps: seq<Step>)
    requires Inv(s) && s.poller.Asked? && !CaughtUp(s)
    ensures var i := s.poller.server;
            && Path(states, steps) && steps == [After, Apply(i)] && states[0] == s
            && states[2] == s.(poller := Held(s.poller.idx, i, s.servers[i].channel), servers := OneMore(s, i))
  {
    var i := s.poller.server;
    IndexMonotone(s.log, s.servers[i].applied, s.cache);
    var s1 := s.(poller := Held(s.poller.idx, i, s.servers[i].channel));
    states, steps := PathOne(s, After, s1);
    states, steps := PathMore(states, steps, Apply(i), s1.(servers := OneMore(s, i)));
  }

  /** A server that lags behind the cache holds the poll, answers after its next entry,
      and the cache then has exactly the entries of that server. */
  lemma LaggingAnswers(s: State) returns (states: seq<State>, steps: seq<Step>)
    requires Inv(s) && s.poller.Asked? && !CaughtUp(s)
    ensures Continuation(s, states, steps) && |steps| == 5
    ensures states[5] == s.(poller := Idle, servers := OneMore(s, s.poller.server), cache := s.servers[s.poller.server].applied + 1)
  {
    var i, idx, servers := s.poller.server, s.poller.idx, OneMore(s, s.poller.server);
    states, steps := LaggingHolds(s);
    var s3 := s.(poller := Serving(idx, i), servers := servers);
    states, steps := PathMore(states, steps, WakePoll, s3);
    var s4 := s3.(poller := Received(idx, i, s.servers[i].applied + 1));
    states, steps := PathMore(states, steps, Snapshot, s4);
    IndexMonotone(s.log, s.cache, s.servers[i].applied + 1);
    states, steps := PathMore(states, steps, Update, s4.(poller := Idle, cache := s.servers[i].applied + 1));
  }

  /** In every reachable state in which the poller has asked a server: the answer raises
      the cached index, however the run goes on, if and only if that server has applied
      at least what the cache has. */
  lemma AnswerRaisesExactly(s: State)
    requires Inv(s) && s.poller.Asked?
    ensures EveryAnswerRaises(s) <==> s.cache <= s.servers[s.poller.server].applied
  {
    if CaughtUp(s) {
      forall states, steps | Continuation(s, states, steps)
        ensures Raises(s, states[|steps|])
      {
        CaughtUpRaises(s, states, steps);
      }
    } else {
      var states, steps := LaggingAnswers(s);
      IndexMonotone(s.log, s.cache, states[5].cache);
      assert !Raises(s, states[|steps|]);
    }
  }

  /** If the server lags by more than one entry, there is an answer that lowers it. */
  lemma LaggingLowers(s: State) returns (states: seq<State>, steps: seq<Step>)
    requires Inv(s) && s.poller.Asked? && s.servers[s.poller.server].applied + 1 < s.cache
    ensures Continuation(s, states, steps) && Raises(states[|steps|], s)
  {
    states, steps := LaggingAnswers(s);
    IndexMonotone(s.log, states[5].cache, s.cache);
  }

  // ---------- A run with two servers ----------

  /** A run that ends in `last`. */
  ghost predicate RunTo(states: seq<State>, steps: seq<Step>, last: State) {
    IsRun(states, steps) && states[|steps|] == last
  }

  lemma ExtendRun(states: seq<State>, steps: seq<Step>, last: State, step: Step, next: State)
      returns (states': seq<State>, steps': seq<Step>)
    requires RunTo(states, steps, last) && InRange(last) && Enabled(last, step) && next == Next(last, step)
    ensures RunTo(states', steps', next) && states' == states + [next] && steps' == steps + [step]
  {
    states', steps' := PathMore(states, steps, step, next);
  }

  /** Appends what may happen next to a run. */
  lemma Join(states: seq<State>, steps: seq<Step>, s: State, more: seq<State>, moreSteps: seq<Step>)
      returns (states': seq<State>, steps': seq<Step>)
    requires RunTo(states, steps, s) && Path(more, moreSteps) && more[0] == s
    ensures RunTo(states', steps', more[|moreSteps|]) && states <= states' && steps <= steps'
    ensures |steps'| == |steps| + |moreSteps|
  {
    states', steps' := states + more[1..], steps + moreSteps;
    forall i | 0 <= i < |steps'|
      ensures Follows(states'[i], steps'[i], states'[i + 1])
    {
      if i < |steps| {
        assert states'[i] == states[i] && states'[i + 1] == states[i + 1] && steps'[i] == steps[i];
      } else {
        var k := i - |steps|;
        assert states'[i] == more[k] && states'[i + 1] == more[k + 1] && steps'[i] == moreSteps[k];
      }
    }
  }

  /** Two servers of which the second has applied one entry, and one call. */
  function Two(log: seq<nat>, first: Server, cache: nat, channel: nat, exec: Exec, poller: Poller): (s: State) {
    State(log, [first, Server(1, 0)], cache, channel, [exec], poller)
  }

  lemma TwoStart() returns (states: seq<State>, steps: seq<Step>)
    ensures RunTo(states, steps, Two([2, 3], Server(2, 0), 2, 0, Ready, Idle)) && |steps| == 0
  {
    var s0 := Two([2, 3], Server(2, 0), 2, 0, Ready, Idle);
    assert s0.servers[0] == Server(2, 0);
    states, steps := [s0], [];
  }

  lemma TwoPosts() returns (states: seq<State>, steps: seq<Step>)
    ensures RunTo(states, steps, Two([2, 3, 4], Server(2, 0), 2, 0, Committed(0, 2), Idle)) && |steps| == 2
  {
    states, steps := TwoStart();
    var s0, s1 := Two([2, 3], Server(2, 0), 2, 0, Ready, Idle), Two([2, 3], Server(2, 0), 2, 0, Posted(0), Idle);
    states, steps := ExtendRun(states, steps, s0, Post(0, 0), s1);
    states, steps := ExtendRun(states, steps, s1, CommitOwn(0, 4), Two([2, 3, 4], Server(2, 0), 2, 0, Committed(0, 2), Idle));
  }

  lemma TwoApplies() returns (states: seq<State>, steps: seq<Step>)
    ensures RunTo(states, steps, Two([2, 3, 4], Server(3, 1), 2, 0, Waiting(2, 4), Idle)) && |steps| == 4
  {
    states, steps := TwoPosts();
    var log := [2, 3, 4];
    var s2, s3 := Two(log, Server(2, 0), 2, 0, Committed(0, 2), Idle), Two(log, Server(3, 1), 2, 0, Committed(0, 2), Idle);
    states, steps := ExtendRun(states, steps, s2, Apply(0), s3);
    states, steps := ExtendRun(states, steps, s3, Respond(0), Two(log, Server(3, 1), 2, 0, Waiting(2, 4), Idle));
  }

  lemma TwoPolls() returns (states: seq<State>, steps: seq<Step>)
    ensures RunTo(states, steps, Two([2, 3, 4], Server(3, 1), 2, 0, Waiting(2, 4), Serving(3, 0))) && |steps| == 6
  {
    states, steps := TwoApplies();
    var log, first := [2, 3, 4], Server(3, 1);
    var s4, s5 := Two(log, first, 2, 0, Waiting(2, 4), Idle), Two(log, first, 2, 0, Waiting(2, 4), Asked(3, 0));
    states, steps := ExtendRun(states, steps, s4, Ask(0), s5);
    states, steps := ExtendRun(states, steps, s5, After, Two(log, first, 2, 0, Waiting(2, 4), Serving(3, 0)));
  }

  /** The call returns at the ninth step, with its entry in the cache. */
  lemma TwoReturns() returns (states: seq<State>, steps: seq<Step>)
    ensures RunTo(states, steps, Two([2, 3, 4], Server(3, 1), 3, 1, Done(2, 4), Idle)) && |steps| == 9
    ensures states[8] == Two([2, 3, 4], Server(3, 1), 3, 1, Waiting(2, 4), Idle)
  {
    states, steps := TwoPolls();
    var log, first := [2, 3, 4], Server(3, 1);
    var s7 := Two(log, first, 2, 0, Waiting(2, 4), Received(3, 0, 3));
    states, steps := ExtendRun(states, steps, Two(log, first, 2, 0, Waiting(2, 4), Serving(3, 0)), Snapshot, s7);
    var s8 := Two(log, first, 3, 1, Waiting(2, 4), Idle);
    states, steps := ExtendRun(states, steps, s7, Update, s8);
    states, steps := ExtendRun(states, steps, s8, Check(0), Two(log, first, 3, 1, Done(2, 4), Idle));
  }

  lemma TwoAsks() returns (states: seq<State>, steps: seq<Step>)
    ensures RunTo(states, steps, Two([2, 3, 4], Server(3, 1), 3, 1, Done(2, 4), Asked(4, 1))) && |steps| == 11
    ensures states[8] == Two([2, 3, 4], Server(3, 1), 3, 1, Waiting(2, 4), Idle)
    ensures states[9] == Two([2, 3, 4], Server(3, 1), 3, 1, Done(2, 4), Idle)
  {
    states, steps := TwoReturns();
    var s9 := Two([2, 3, 4], Server(3, 1), 3, 1, Done(2, 4), Idle);
    var s10 := Two([2, 3, 4], Server(3, 1), 3, 1, Done(2, 4), Asked(4, 0));
    states, steps := ExtendRun(states, steps, s9, Ask(0), s10);
    states, steps := ExtendRun(states, steps, s10, Redial(1), Two([2, 3, 4], Server(3, 1), 3, 1, Done(2, 4), Asked(4, 1)));
  }

  /** With two servers the index can fall, and a write that a call has returned can
      leave the cache again: the next poll goes to the server that lags. */
  lemma LaggingServerMovesBack() returns (states: seq<State>, steps: seq<Step>, i: nat)
    ensures IsRun(states, steps) && i + 1 < |steps|
    ensures states[i] == Two([2, 3, 4], Server(3, 1), 3, 1, Waiting(2, 4), Idle)
    ensures states[i + 1] == Two([2, 3, 4], Server(3, 1), 3, 1, Done(2, 4), Idle)
    ensures states[|steps|].cache == 2 && states[|steps|].log == [2, 3, 4]
  {
    i := 8;
    var first, firstSteps := TwoAsks();
    var s := Two([2, 3, 4], Server(3, 1), 3, 1, Done(2, 4), Asked(4, 1));
    RunInv(first, firstSteps, 11);
    assert s.servers[1] == Server(1, 0);
    var more, moreSteps := LaggingAnswers(s);
    states, steps := Join(first, firstSteps, s, more, moreSteps);
  }
}

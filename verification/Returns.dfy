/**
 Which calls can still return: in every reachable state, each call that has not given
 up can be answered and wake, whatever the servers, the poller and the other calls are at.
 */
module Returns {
  import opened UpdateProtocol

  // ---------- What may come later ----------

  ghost predicate PathTo(states: seq<State>, steps: seq<Step>, s: State, s': State) {
    Path(states, steps) && states[0] == s && states[|steps|] == s'
  }

  /** s' can come to pass from s. */
  ghost predicate Leads(s: State, s': State) {
    exists states, steps :: PathTo(states, steps, s, s')
  }

  lemma Stays(s: State)
    ensures Leads(s, s)
  {
    assert PathTo([s], [], s, s);
  }

  /** Paths can be put together. */
  lemma Then(s: State, s': State, s'': State)
    requires Leads(s, s') && Leads(s', s'')
    ensures Leads(s, s'')
  {
    var a, x :| PathTo(a, x, s, s');
    var b, y :| PathTo(b, y, s', s'');
    var states, steps := a + b[1..], x + y;
    forall i | 0 <= i < |steps|
      ensures Follows(states[i], steps[i], states[i + 1])
    {
      if i < |x| {
        assert states[i] == a[i] && states[i + 1] == a[i + 1] && steps[i] == x[i];
      } else {
        var k := i - |x|;
        assert states[i] == b[k] && states[i + 1] == b[k + 1] && steps[i] == y[k];
      }
    }
    assert PathTo(states, steps, s, s'');
  }

  /** The invariant, with some server, and no call waits for an index that is not there. */
  ghost predicate Good(s: State) {
    && Inv(s) && s.servers != []
    && forall e | 0 <= e < |s.execs| && (s.execs[e].Waiting? || s.execs[e].Blocked?) :: s.execs[e].idx <= IndexOf(s.log, |s.log|)
  }

  lemma StepGood(s: State, step: Step)
    requires Good(s) && Enabled(s, step)
    ensures Good(Next(s, step))
  {
    StepKeeps(s, step);
    if step.Respond? {
      IndexMonotone(s.log, |s.log|, s.servers[s.execs[step.e].server].applied);
    }
  }

  lemma {:induction false} RunGood(states: seq<State>, steps: seq<Step>, i: nat)
    requires IsRun(states, steps) && i < |states|
    ensures Good(states[i])
  {
    RunInv(states, steps, i);
    if i > 0 {
      RunGood(states, steps, i - 1);
      StepGood(states[i - 1], steps[i - 1]);
    }
  }

  /** One step more. */
  lemma AndStep(s: State, s': State, step: Step)
    requires Leads(s, s') && Good(s') && Enabled(s', step)
    ensures Leads(s, Next(s', step)) && Good(Next(s', step))
  {
    StepGood(s', step);
    assert PathTo([s', Next(s', step)], [step], s', Next(s', step));
    Then(s, s', Next(s', step));
  }

  // ---------- The servers ----------

  /** s' is s with server i caught up and nothing else changed. */
  ghost predicate CatchesUp(s: State, i: nat, s': State)
    requires i < |s.servers|
  {
    && s' == s.(servers := s'.servers) && |s'.servers| == |s.servers|
    && s'.servers[i].applied == |s.log|
    && s'.servers[i].channel >= s.servers[i].channel + (if s.servers[i].applied < |s.log| then 1 else 0)
  }

  lemma {:induction false} CatchUp(s: State, i: nat) returns (s': State)
    requires Good(s) && i < |s.servers|
    ensures Leads(s, s') && Good(s') && CatchesUp(s, i, s')
    decreases |s.log| - s.servers[i].applied
  {
    Stays(s);
    s' := s;
    if s.servers[i].applied < |s.log| {
      AndStep(s, s, Apply(i));
      var next := Next(s, Apply(i));
      s' := CatchUp(next, i);
      Then(s, next, s');
    }
  }

  // ---------- The poller ----------

  /** The answer on its way arrives. */
  lemma AnswerArrives(s: State) returns (s': State)
    requires Good(s) && s.poller.Serving?
    ensures Leads(s, s') && Good(s') && s'.poller.Idle? && s'.execs == s.execs
    ensures s'.cache == s.servers[s.poller.server].applied && s'.log == s.log
    ensures s'.servers == s.servers && s'.channel >= s.channel
  {
    Stays(s);
    AndStep(s, s, Snapshot);
    var s1 := Next(s, Snapshot);
    AndStep(s, s1, Update);
    s' := Next(s1, Update);
  }

  /** A held poll is answered once its server applies another entry. */
  lemma HeldIsServed(s: State) returns (s': State)
    requires Good(s) && s.poller.Held?
    ensures Leads(s, s') && Good(s') && s'.poller.Serving? && s'.execs == s.execs
  {
    Stays(s);
    var index := IndexOf(s.log, |s.log|) + 1;
    AndStep(s, s, Commit(index));
    var s1 := Next(s, Commit(index));
    var s2 := CatchUp(s1, s.poller.server);
    Then(s, s1, s2);
    AndStep(s, s2, WakePoll);
    s' := Next(s2, WakePoll);
  }

  /** Whatever it is at, the poller can come to ask anew. */
  lemma PollerComesBack(s: State) returns (s': State)
    requires Good(s)
    ensures Leads(s, s') && Good(s') && s'.poller.Idle? && s'.execs == s.execs
  {
    Stays(s);
    s' := s;
    if s'.poller.Asked? {
      AndStep(s, s', After);
      s' := Next(s', After);
    }
    if s'.poller.Held? {
      var s2 := HeldIsServed(s');
      Then(s, s', s2);
      s' := s2;
    }
    if s'.poller.Serving? {
      var s3 := AnswerArrives(s');
      Then(s, s', s3);
      s' := s3;
    } else if s'.poller.Received? {
      AndStep(s, s', Update);
      s' := Next(s', Update);
    }
  }

  /** A poller that asks a server that is caught up brings the whole log. */
  lemma Refreshes(s: State) returns (s': State)
    requires Good(s) && s.poller.Idle?
    ensures Leads(s, s') && Good(s') && s'.cache == |s'.log| && s'.execs == s.execs
  {
    Stays(s);
    s' := s;
    if s.cache < |s.log| {
      var s1 := CatchUp(s, 0);
      AndStep(s, s1, Ask(0));
      var s2 := Next(s1, Ask(0));
      IndexMonotone(s.log, s.cache, |s.log|);
      AndStep(s, s2, After);
      var s3 := Next(s2, After);
      s' := AnswerArrives(s3);
      Then(s, s3, s');
    }
  }

  // ---------- A call ----------

  ghost predicate CanReturn(s: State, e: nat) {
    exists s' :: Leads(s, s') && e < |s'.execs| && s'.execs[e].Done?
  }

  lemma CanReturnLater(s: State, s': State, e: nat)
    requires Leads(s, s') && CanReturn(s', e)
    ensures CanReturn(s, e)
  {
    var s'' :| Leads(s', s'') && e < |s''.execs| && s''.execs[e].Done?;
    Then(s, s', s'');
  }

  /** A call that sleeps wakes up and returns. */
  lemma BlockedReturns(s: State, e: nat)
    requires Good(s) && e < |s.execs| && s.execs[e].Blocked?
    ensures CanReturn(s, e)
  {
    var s1 := PollerComesBack(s);
    var s2 := Refreshes(s1);
    Then(s, s1, s2);
    assert ExecOK(s2.log, s2.cache, s2.channel, s2.execs[e]);
    AndStep(s, s2, Wake(e));
    var s3 := Next(s2, Wake(e));
    AndStep(s, s3, Check(e));
    assert Next(s3, Check(e)).execs[e].Done?;
  }

  lemma WaitingReturns(s: State, e: nat)
    requires Good(s) && e < |s.execs| && s.execs[e].Waiting?
    ensures CanReturn(s, e)
  {
    Stays(s);
    AndStep(s, s, Check(e));
    var s1 := Next(s, Check(e));
    if s1.execs[e].Blocked? {
      BlockedReturns(s1, e);
      CanReturnLater(s, s1, e);
    }
  }

  lemma CommittedReturns(s: State, e: nat)
    requires Good(s) && e < |s.execs| && s.execs[e].Committed?
    ensures CanReturn(s, e)
  {
    assert ExecOK(s.log, s.cache, s.channel, s.execs[e]);
    var s1 := CatchUp(s, s.execs[e].server);
    AndStep(s, s1, Respond(e));
    WaitingReturns(Next(s1, Respond(e)), e);
    CanReturnLater(s, Next(s1, Respond(e)), e);
  }

  lemma PostedReturns(s: State, e: nat)
    requires Good(s) && e < |s.execs| && s.execs[e].Posted?
    ensures CanReturn(s, e)
  {
    Stays(s);
    var step := CommitOwn(e, IndexOf(s.log, |s.log|) + 1);
    AndStep(s, s, step);
    CommittedReturns(Next(s, step), e);
    CanReturnLater(s, Next(s, step), e);
  }

  lemma ReadyReturns(s: State, e: nat)
    requires Good(s) && e < |s.execs| && s.execs[e].Ready?
    ensures CanReturn(s, e)
  {
    Stays(s);
    AndStep(s, s, Post(e, 0));
    PostedReturns(Next(s, Post(e, 0)), e);
    CanReturnLater(s, Next(s, Post(e, 0)), e);
  }

  predicate Answered(x: Exec) {
    x.Waiting? || x.Blocked? || x.Done?
  }

  /** A call that has given up, or has its answer, stays so. */
  lemma {:induction false} SettledOnPath(states: seq<State>, steps: seq<Step>, k: nat, e: nat)
    requires Path(states, steps) && k < |states| && e < |states[0].execs|
    ensures e < |states[k].execs|
    ensures states[0].execs[e].Failed? ==> states[k].execs[e].Failed?
    ensures Answered(states[0].execs[e]) ==> Answered(states[k].execs[e])
  {
    if k > 0 {
      SettledOnPath(states, steps, k - 1, e);
      assert Follows(states[k - 1], steps[k - 1], states[k]);
    }
  }

  /** In every reachable state a call can return success if and only if it has not given up. */
  lemma ReturnsExactly(states: seq<State>, steps: seq<Step>, i: nat, e: nat)
    requires IsRun(states, steps) && i < |states| && e < |states[i].execs|
    ensures CanReturn(states[i], e) <==> !states[i].execs[e].Failed?
  {
    RunGood(states, steps, i);
    GoodReturns(states[i], e);
  }

  lemma GoodReturns(s: State, e: nat)
    requires Good(s) && e < |s.execs|
    ensures CanReturn(s, e) <==> !s.execs[e].Failed?
  {
    match s.execs[e]
    case Ready => ReadyReturns(s, e);
    case Posted(_) => PostedReturns(s, e);
    case Committed(_, _) => CommittedReturns(s, e);
    case Waiting(_, _) => WaitingReturns(s, e);
    case Blocked(_, _, _) => BlockedReturns(s, e);
    case Done(_, _) => Stays(s);
    case Failed =>
      if CanReturn(s, e) {
        var s' :| Leads(s, s') && e < |s'.execs| && s'.execs[e].Done?;
        var states, steps :| PathTo(states, steps, s, s');
        SettledOnPath(states, steps, |steps|, e);
      }
  }

  /** The only step that takes this away is the call giving up: a lost answer does not. */
  lemma OnlyFailEnds(s: State, step: Step, e: nat)
    requires Good(s) && Enabled(s, step) && e < |s.execs| && CanReturn(s, e)
    ensures CanReturn(Next(s, step), e) <==> step != Fail(e)
  {
    GoodReturns(s, e);
    StepGood(s, step);
    GoodReturns(Next(s, step), e);
  }

  ghost predicate CanFail(s: State, e: nat) {
    exists s' :: Leads(s, s') && e < |s'.execs| && s'.execs[e].Failed?
  }

  /** A call can still give up if and only if it has no answer yet: while it waits for the
      cache it cannot. */
  lemma FailsExactly(states: seq<State>, steps: seq<Step>, i: nat, e: nat)
    requires IsRun(states, steps) && i < |states| && e < |states[i].execs|
    ensures CanFail(states[i], e) <==> !Answered(states[i].execs[e])
  {
    var s := states[i];
    RunGood(states, steps, i);
    Stays(s);
    if Answered(s.execs[e]) {
      if CanFail(s, e) {
        var s' :| Leads(s, s') && e < |s'.execs| && s'.execs[e].Failed?;
        var more, moreSteps :| PathTo(more, moreSteps, s, s');
        SettledOnPath(more, moreSteps, |moreSteps|, e);
      }
    } else if !s.execs[e].Failed? {
      var s1 := s;
      if s.execs[e].Ready? {
        AndStep(s, s, Post(e, 0));
        s1 := Next(s, Post(e, 0));
      }
      AndStep(s, s1, Fail(e));
      assert Next(s1, Fail(e)).execs[e].Failed?;
    }
  }
}

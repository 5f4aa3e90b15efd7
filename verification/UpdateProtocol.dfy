/**
 How a client of the metadata service learns of changes: it posts a command,
 gets an index back, and waits until the cache that its poller refreshes has
 reached that index. Waiters on the client, and held polls on a server, sleep on
 a channel that is closed and replaced whenever the index moves; a channel is
 modelled by its number, and it is open while it is the current one.

 A copy of the metadata is named by the number of log entries it reflects.
 */
module UpdateProtocol {

  datatype Server = Server(applied: nat, channel: nat)

  /** One call of retryUntilExec; `pos` is the position of its entry in the log. */
  datatype Exec =
    | Ready
    | Posted(server: nat)
    | Committed(server: nat, pos: nat)
    | Waiting(pos: nat, idx: nat)
    | Blocked(pos: nat, idx: nat, channel: nat)
    | Done(pos: nat, idx: nat)
    | Failed

  /** pollForUpdates with the request it has under way; `idx` is the index it asked with. */
  datatype Poller =
    | Idle
    | Asked(idx: nat, server: nat)
    | Held(idx: nat, server: nat, channel: nat)
    | Serving(idx: nat, server: nat)
    | Received(idx: nat, server: nat, prefix: nat)

  datatype State = State(log: seq<nat>, servers: seq<Server>, cache: nat, channel: nat, execs: seq<Exec>, poller: Poller)

  /** The index of a copy: a fresh store has index one, later ones that of the last entry. */
  function IndexOf(log: seq<nat>, prefix: nat): (i: nat)
    requires prefix <= |log|
  {
    if prefix == 0 then 1 else log[prefix - 1]
  }

  datatype Step =
    | Commit(index: nat)
    | Apply(server: nat)
    | Post(e: nat, server: nat)
    | Reject(e: nat)
    | CommitOwn(e: nat, index: nat)
    | Respond(e: nat)
    | Lose(e: nat)
    | Fail(e: nat)
    | Check(e: nat)
    | Wake(e: nat)
    | Ask(server: nat)
    | After
    | WakePoll
    | Snapshot
    | Redial(server: nat)
    | Update

  /** Every number in the state is within its range. */
  predicate InRange(s: State) {
    && s.cache <= |s.log|
    && (forall i | 0 <= i < |s.servers| :: s.servers[i].applied <= |s.log|)
    && (forall e | 0 <= e < |s.execs| && (s.execs[e].Posted? || s.execs[e].Committed?) :: s.execs[e].server < |s.servers|)
    && (!s.poller.Idle? ==> s.poller.server < |s.servers|)
    && (s.poller.Received? ==> s.poller.prefix <= |s.log|)
  }

  /** Entries are numbered upwards from beyond the index of a fresh store. */
  predicate NextIndex(s: State, index: nat)
    requires InRange(s)
  {
    index > IndexOf(s.log, |s.log|)
  }

  predicate Enabled(s: State, step: Step)
    requires InRange(s)
  {
    match step
    case Commit(index) => NextIndex(s, index)
    case Apply(i) => i < |s.servers| && s.servers[i].applied < |s.log|
    case Post(e, i) => e < |s.execs| && s.execs[e].Ready? && i < |s.servers|
    case Reject(e) => e < |s.execs| && s.execs[e].Posted?
    case CommitOwn(e, index) => e < |s.execs| && s.execs[e].Posted? && NextIndex(s, index)
    case Respond(e) => e < |s.execs| && s.execs[e].Committed? && s.servers[s.execs[e].server].applied > s.execs[e].pos
    case Lose(e) => e < |s.execs| && s.execs[e].Committed?
    case Fail(e) => e < |s.execs| && (s.execs[e].Posted? || s.execs[e].Committed?)
    case Check(e) => e < |s.execs| && s.execs[e].Waiting?
    case Wake(e) => e < |s.execs| && s.execs[e].Blocked? && s.execs[e].channel < s.channel
    case Ask(i) => s.poller.Idle? && i < |s.servers|
    case After => s.poller.Asked?
    case WakePoll => s.poller.Held? && s.poller.channel < s.servers[s.poller.server].channel
    case Snapshot => s.poller.Serving?
    case Redial(i) => (s.poller.Asked? || s.poller.Held? || s.poller.Serving?) && i < |s.servers|
    case Update => s.poller.Received?
  }

  function SetExec(s: State, e: nat, x: Exec): (s': State)
    requires e < |s.execs|
  {
    s.(execs := s.execs[e := x])
  }

  /** waitForIndex under the lock: return, or take the current channel and sleep on it. */
  function AfterCheck(s: State, x: Exec): (x': Exec)
    requires InRange(s) && x.Waiting?
  {
    if IndexOf(s.log, s.cache) >= x.idx then Done(x.pos, x.idx) else Blocked(x.pos, x.idx, s.channel)
  }

  /** afterIndex under the lock: an old index is answered, another is held on the current channel. */
  function AfterIndex(s: State, p: Poller): (p': Poller)
    requires InRange(s) && p.Asked? && p.server < |s.servers|
  {
    if p.idx < IndexOf(s.log, s.servers[p.server].applied) then Serving(p.idx, p.server)
    else Held(p.idx, p.server, s.servers[p.server].channel)
  }

  function Next(s: State, step: Step): (s': State)
    requires InRange(s) && Enabled(s, step)
  {
    match step
    case Commit(index) => s.(log := s.log + [index])
    case Apply(i) => s.(servers := s.servers[i := Server(s.servers[i].applied + 1, s.servers[i].channel + 1)])
    case Post(e, i) => SetExec(s, e, Posted(i))
    case Reject(e) => SetExec(s, e, Ready)
    case CommitOwn(e, index) => SetExec(s, e, Committed(s.execs[e].server, |s.log|)).(log := s.log + [index])
    case Respond(e) =>
      var x := s.execs[e];
      SetExec(s, e, Waiting(x.pos, IndexOf(s.log, s.servers[x.server].applied)))
    case Lose(e) => SetExec(s, e, Ready)
    case Fail(e) => SetExec(s, e, Failed)
    case Check(e) => SetExec(s, e, AfterCheck(s, s.execs[e]))
    case Wake(e) => SetExec(s, e, Waiting(s.execs[e].pos, s.execs[e].idx))
    case Ask(i) => s.(poller := Asked(IndexOf(s.log, s.cache), i))
    case After => s.(poller := AfterIndex(s, s.poller))
    case WakePoll => s.(poller := Serving(s.poller.idx, s.poller.server))
    case Snapshot => s.(poller := Received(s.poller.idx, s.poller.server, s.servers[s.poller.server].applied))
    case Redial(i) => s.(poller := Asked(s.poller.idx, i))
    case Update =>
      var grew := IndexOf(s.log, s.cache) < IndexOf(s.log, s.poller.prefix);
      s.(cache := s.poller.prefix, channel := if grew then s.channel + 1 else s.channel, poller := Idle)
  }

  // ---------- What every reachable state satisfies ----------

  ghost predicate Increasing(log: seq<nat>) {
    && (forall i | 0 <= i < |log| :: log[i] > 1)
    && forall i, j | 0 <= i < j < |log| :: log[i] < log[j]
  }

  lemma IndexMonotone(log: seq<nat>, a: nat, b: nat)
    requires Increasing(log) && a <= |log| && b <= |log|
    ensures IndexOf(log, a) < IndexOf(log, b) <==> a < b
  {
  }

  /** An answered call knows an index no smaller than its entry's. A blocked one
      whose channel is still open needs a later index than the cache has. */
  ghost predicate ExecOK(log: seq<nat>, cache: nat, channel: nat, x: Exec)
    requires cache <= |log|
  {
    match x
    case Committed(_, pos) => pos < |log|
    case Waiting(pos, idx) => pos < |log| && log[pos] <= idx
    case Done(pos, idx) => pos < |log| && log[pos] <= idx
    case Blocked(pos, idx, ch) =>
      && pos < |log| && log[pos] <= idx
      && ch <= channel && (ch == channel ==> IndexOf(log, cache) < idx)
    case _ => true
  }

  /** A held poll whose channel is still open asked for something later than the
      server has. */
  ghost predicate PollerOK(log: seq<nat>, servers: seq<Server>, p: Poller)
    requires forall i | 0 <= i < |servers| :: servers[i].applied <= |log|
    requires !p.Idle? ==> p.server < |servers|
  {
    p.Held? ==>
      var server := servers[p.server];
      p.channel <= server.channel && (p.channel == server.channel ==> IndexOf(log, server.applied) <= p.idx)
  }

  ghost predicate Inv(s: State) {
    && InRange(s) && Increasing(s.log)
    && (!s.poller.Idle? ==> s.poller.idx == IndexOf(s.log, s.cache))
    && (forall e | 0 <= e < |s.execs| :: ExecOK(s.log, s.cache, s.channel, s.execs[e]))
    && PollerOK(s.log, s.servers, s.poller)
  }

  /** A client that has taken a first snapshot from some server, with nothing under way. */
  ghost predicate Initial(s: State) {
    && InRange(s) && Increasing(s.log) && s.poller.Idle? && s.channel == 0
    && (exists i | 0 <= i < |s.servers| :: s.cache <= s.servers[i].applied)
    && forall e | 0 <= e < |s.execs| :: s.execs[e].Ready?
  }

  lemma CommitKeeps(s: State, index: nat)
    requires Inv(s) && NextIndex(s, index)
    ensures Inv(s.(log := s.log + [index]))
  {
  }

  lemma SetExecKeeps(s: State, e: nat, x: Exec)
    requires Inv(s) && e < |s.execs| && ExecOK(s.log, s.cache, s.channel, x)
    requires x.Posted? || x.Committed? ==> x.server < |s.servers|
    ensures Inv(SetExec(s, e, x))
  {
  }

  lemma UpdateKeeps(s: State)
    requires Inv(s) && s.poller.Received?
    ensures Inv(Next(s, Update))
  {
  }

  lemma StepKeeps(s: State, step: Step)
    requires Inv(s) && Enabled(s, step)
    ensures Inv(Next(s, step))
  {
    match step
    case Commit(index) => CommitKeeps(s, index);
    case CommitOwn(e, index) =>
      CommitKeeps(s, index);
      SetExecKeeps(s.(log := s.log + [index]), e, Committed(s.execs[e].server, |s.log|));
    case Apply(i) =>
    case Post(e, i) => SetExecKeeps(s, e, Posted(i));
    case Reject(e) => SetExecKeeps(s, e, Ready);
    case Respond(e) =>
      var x := s.execs[e];
      assert ExecOK(s.log, s.cache, s.channel, x);
      SetExecKeeps(s, e, Waiting(x.pos, IndexOf(s.log, s.servers[x.server].applied)));
    case Lose(e) => SetExecKeeps(s, e, Ready);
    case Fail(e) => SetExecKeeps(s, e, Failed);
    case Check(e) =>
      assert ExecOK(s.log, s.cache, s.channel, s.execs[e]);
      SetExecKeeps(s, e, AfterCheck(s, s.execs[e]));
    case Wake(e) =>
      assert ExecOK(s.log, s.cache, s.channel, s.execs[e]);
      SetExecKeeps(s, e, Waiting(s.execs[e].pos, s.execs[e].idx));
    case Update => UpdateKeeps(s);
    case _ =>
  }

  ghost predicate Follows(s: State, step: Step, s': State) {
    InRange(s) && Enabled(s, step) && s' == Next(s, step)
  }

  ghost predicate Path(states: seq<State>, steps: seq<Step>) {
    && |states| == |steps| + 1
    && forall i {:trigger steps[i]} | 0 <= i < |steps| :: Follows(states[i], steps[i], states[i + 1])
  }

  ghost predicate IsRun(states: seq<State>, steps: seq<Step>) {
    Path(states, steps) && Initial(states[0])
  }

  lemma {:induction false} RunInv(states: seq<State>, steps: seq<Step>, i: nat)
    requires IsRun(states, steps) && i < |states|
    ensures Inv(states[i])
  {
    if i > 0 {
      RunInv(states, steps, i - 1);
      StepKeeps(states[i - 1], steps[i - 1]);
    }
  }

  // ---------- Read your writes ----------

  /** The copy reflects entry `pos` and every entry up to the index `idx`. */
  ghost predicate Reflects(log: seq<nat>, prefix: nat, pos: nat, idx: nat) {
    pos < prefix <= |log| && forall k | 0 <= k < |log| && log[k] <= idx :: k < prefix
  }

  /** Whenever, in any run with any number of servers, a call returns success, the
      cache reflects the caller's own entry and every entry up to the index it was given. */
  lemma ReadYourWrites(states: seq<State>, steps: seq<Step>, i: nat, e: nat)
    requires IsRun(states, steps) && i < |steps| && e < |states[i].execs|
    requires !states[i].execs[e].Done? && e < |states[i + 1].execs| && states[i + 1].execs[e].Done?
    ensures var s, x := states[i + 1], states[i + 1].execs[e];
            Reflects(s.log, s.cache, x.pos, x.idx)
  {
    RunInv(states, steps, i);
    var s := states[i];
    assert states[i + 1] == Next(s, steps[i]);
    assert steps[i] == Check(e);
    var x := s.execs[e];
    assert ExecOK(s.log, s.cache, s.channel, x);
    forall k | 0 <= k < |s.log| && s.log[k] <= x.idx
      ensures k < s.cache
    {
      IndexMonotone(s.log, s.cache, k + 1);
    }
  }

  // ---------- No wake-up is lost ----------

  /** In every reachable state, a caller asleep on the open channel needs a later
      index than the cache has, and a held poll on the open channel of a server
      needs a later index than that server has. */
  lemma NoLostWakeUp(states: seq<State>, steps: seq<Step>, i: nat)
    requires IsRun(states, steps) && i < |states|
    ensures var s := states[i];
            && InRange(s)
            && (forall e | 0 <= e < |s.execs| && s.execs[e].Blocked? && s.execs[e].channel == s.channel ::
                  IndexOf(s.log, s.cache) < s.execs[e].idx)
            && (s.poller.Held? && s.poller.channel == s.servers[s.poller.server].channel ==>
                  IndexOf(s.log, s.servers[s.poller.server].applied) <= s.poller.idx)
  {
    RunInv(states, steps, i);
    forall e | 0 <= e < |states[i].execs| && states[i].execs[e].Blocked?
      ensures ExecOK(states[i].log, states[i].cache, states[i].channel, states[i].execs[e])
    {
    }
  }

  lemma OnlyUpdateMovesCache(s: State, step: Step)
    requires Inv(s) && Enabled(s, step)
    ensures InRange(Next(s, step))
    ensures !step.Update? ==> Next(s, step).cache == s.cache && IndexOf(Next(s, step).log, s.cache) == IndexOf(s.log, s.cache)
  {
  }

  /** Every increase of the cached index wakes every sleeping caller, and every
      entry a server applies wakes the poll it holds. */
  lemma IncreaseWakesAll(states: seq<State>, steps: seq<Step>, i: nat)
    requires IsRun(states, steps) && i < |steps|
    ensures InRange(states[i]) && InRange(states[i + 1])
    ensures IndexOf(states[i].log, states[i].cache) < IndexOf(states[i + 1].log, states[i + 1].cache) ==>
              forall e | 0 <= e < |states[i].execs| && states[i].execs[e].Blocked? :: Enabled(states[i + 1], Wake(e))
    ensures steps[i].Apply? && states[i].poller.Held? && states[i].poller.server == steps[i].server ==>
              Enabled(states[i + 1], WakePoll)
  {
    RunInv(states, steps, i);
    RunInv(states, steps, i + 1);
    var s, s' := states[i], states[i + 1];
    OnlyUpdateMovesCache(s, steps[i]);
    if IndexOf(s.log, s.cache) < IndexOf(s'.log, s'.cache) {
      forall e | 0 <= e < |s.execs| && s.execs[e].Blocked?
        ensures Enabled(s', Wake(e))
      {
        assert ExecOK(s.log, s.cache, s.channel, s.execs[e]);
      }
    }
  }

  /** The cached index of s' is not below that of s. */
  ghost predicate NoFall(s: State, s': State) {
    InRange(s) && InRange(s') && IndexOf(s.log, s.cache) <= IndexOf(s'.log, s'.cache)
  }

  /** A caller asleep on the open channel stays asleep until the cached index rises. */
  lemma SleepStep(s: State, step: Step, e: nat)
    requires Inv(s) && Enabled(s, step) && e < |s.execs| && s.execs[e].Blocked? && s.execs[e].channel == s.channel
    requires var s' := Next(s, step); InRange(s') && IndexOf(s'.log, s'.cache) <= IndexOf(s.log, s.cache)
    ensures Next(s, step).execs[e] == s.execs[e] && Next(s, step).channel == s.channel
  {
    if step.Update? { IndexMonotone(s.log, s.cache, s.poller.prefix); }
  }

  lemma {:induction false} SleepsUntilIncrease(states: seq<State>, steps: seq<Step>, i: nat, j: nat, e: nat)
    requires IsRun(states, steps) && i <= j < |states| && e < |states[i].execs|
    requires states[i].execs[e].Blocked? && states[i].execs[e].channel == states[i].channel
    requires forall k | i <= k < j :: NoFall(states[k + 1], states[k])
    ensures InRange(states[j]) && e < |states[j].execs| && states[j].execs[e] == states[i].execs[e]
    ensures states[j].channel == states[i].channel && !Enabled(states[j], Wake(e))
    decreases j
  {
    RunInv(states, steps, j);
    if i < j {
      SleepsUntilIncrease(states, steps, i, j - 1, e);
      RunInv(states, steps, j - 1);
      assert NoFall(states[j - 1 + 1], states[j - 1]);
      assert states[j] == Next(states[j - 1], steps[j - 1]);
      SleepStep(states[j - 1], steps[j - 1], e);
    }
  }

  // ---------- When the cache only moves forward ----------

  /** The server that is asked has at least what the client has. */
  predicate CaughtUp(s: State) {
    s.poller.Asked? && s.poller.server < |s.servers| ==> s.cache <= s.servers[s.poller.server].applied
  }

  /** The answer under way is newer than the cache, or will be once the held poll wakes. */
  ghost predicate FreshPoll(s: State)
    requires InRange(s)
  {
    match s.poller
    case Held(_, i, ch) =>
      s.cache <= s.servers[i].applied && (ch < s.servers[i].channel ==> s.cache < s.servers[i].applied)
    case Serving(_, i) => s.cache < s.servers[i].applied
    case Received(_, _, n) => s.cache < n
    case _ => true
  }

  lemma StepFresh(s: State, step: Step)
    requires Inv(s) && Enabled(s, step) && FreshPoll(s) && (step.After? ==> CaughtUp(s))
    ensures InRange(Next(s, step)) && FreshPoll(Next(s, step))
  {
  }

  ghost predicate AlwaysCaughtUp(states: seq<State>, steps: seq<Step>)
    requires |states| == |steps| + 1
  {
    forall i {:trigger steps[i]} | 0 <= i < |steps| && steps[i].After? :: CaughtUp(states[i])
  }

  lemma {:induction false} RunFresh(states: seq<State>, steps: seq<Step>, i: nat)
    requires IsRun(states, steps) && AlwaysCaughtUp(states, steps) && i < |states|
    ensures Inv(states[i]) && FreshPoll(states[i])
  {
    RunInv(states, steps, i);
    if i > 0 {
      RunFresh(states, steps, i - 1);
      StepFresh(states[i - 1], steps[i - 1]);
    }
  }

  /** In a run where every server that answers a poll had reached the cache when
      it was asked, each update strictly raises the cached index. */
  lemma EachPollRaises(states: seq<State>, steps: seq<Step>, i: nat)
    requires IsRun(states, steps) && AlwaysCaughtUp(states, steps) && i < |steps| && steps[i].Update?
    ensures InRange(states[i]) && InRange(states[i + 1])
    ensures IndexOf(states[i].log, states[i].cache) < IndexOf(states[i + 1].log, states[i + 1].cache)
  {
    RunFresh(states, steps, i);
    RunInv(states, steps, i + 1);
    IndexMonotone(states[i].log, states[i].cache, states[i].poller.prefix);
  }

  lemma CacheStep(states: seq<State>, steps: seq<Step>, i: nat)
    requires IsRun(states, steps) && AlwaysCaughtUp(states, steps) && i < |steps|
    ensures NoFall(states[i], states[i + 1])
  {
    RunInv(states, steps, i);
    OnlyUpdateMovesCache(states[i], steps[i]);
    if steps[i].Update? { EachPollRaises(states, steps, i); }
  }

  /** So the cached index never falls in such a run. */
  lemma {:induction false} CacheMonotone(states: seq<State>, steps: seq<Step>, i: nat, j: nat)
    requires IsRun(states, steps) && AlwaysCaughtUp(states, steps) && i <= j < |states|
    ensures NoFall(states[i], states[j])
    decreases j
  {
    RunInv(states, steps, i);
    if i < j {
      CacheMonotone(states, steps, i, j - 1);
      CacheStep(states, steps, j - 1);
    }
  }

  /** What the only server has given out it has itself. */
  ghost predicate OneServer(s: State) {
    && |s.servers| == 1 && s.cache <= s.servers[0].applied
    && (s.poller.Received? ==> s.poller.prefix <= s.servers[0].applied)
  }

  lemma OneServerStep(s: State, step: Step)
    requires InRange(s) && Enabled(s, step) && OneServer(s)
    ensures OneServer(Next(s, step))
  {
  }

  lemma {:induction false} OneServerRun(states: seq<State>, steps: seq<Step>, i: nat)
    requires IsRun(states, steps) && i < |states| && |states[0].servers| == 1
    ensures OneServer(states[i])
  {
    if i > 0 {
      OneServerRun(states, steps, i - 1);
      OneServerStep(states[i - 1], steps[i - 1]);
    }
  }

  /** With one server every poll is answered by a server that is caught up. */
  lemma OneServerCaughtUp(states: seq<State>, steps: seq<Step>)
    requires IsRun(states, steps) && |states[0].servers| == 1
    ensures AlwaysCaughtUp(states, steps)
  {
    forall i | 0 <= i < |steps| && steps[i].After?
      ensures CaughtUp(states[i])
    {
      OneServerRun(states, steps, i);
      RunInv(states, steps, i);
    }
  }
}

/**
 Writing to one shard: every owner reports one result, and the writer counts
 acknowledgements against the consistency level until it can decide.
 */
module ShardWrite {
  import opened Basics

  datatype Consistency = Any | One | Quorum | All

  function Required(c: Consistency, owners: nat): (r: nat) {
    match c
    case Any => 1
    case One => 1
    case Quorum => owners / 2 + 1
    case All => owners
  }

  // ---------- What an owner reports ----------

  const CONFLICT: string := "field type conflict"

  predicate OccursAt(s: string, sub: string, i: nat) {
    i + |sub| <= |s| && s[i..i + |sub|] == sub
  }

  predicate HasSubstring(s: string, sub: string) {
    exists i | 0 <= i <= |s| :: OccursAt(s, sub, i)
  }

  predicate IsRetryable(err: Option<string>) {
    err.None? || !HasSubstring(err.value, CONFLICT)
  }

  /** How the writes for one owner go: on this node, to a remote node, and into the
      hinted-handoff queue for it. */
  datatype Attempt = Attempt(isLocal: bool, localErr: Option<string>, remoteErr: Option<string>, handoffErr: Option<string>)

  /** The results sent by the goroutine for the local write. */
  function LocalSends(a: Attempt): (r: seq<Option<string>>) {
    if !a.isLocal then [] else [a.localErr]
  }

  /** The results sent by the goroutine for the remote write. */
  function RemoteSends(a: Attempt, c: Consistency): (r: seq<Option<string>>) {
    if a.isLocal then []
    else if a.remoteErr.Some? && IsRetryable(a.remoteErr) then
      if a.handoffErr.Some? then [a.handoffErr]
      else if c.Any? then [None]
      else [a.remoteErr]
    else [a.remoteErr]
  }

  /** The one result of an owner. */
  function Report(a: Attempt, c: Consistency): (r: Option<string>) {
    if a.isLocal then a.localErr
    else if a.remoteErr.None? || !IsRetryable(a.remoteErr) then a.remoteErr
    else if a.handoffErr.Some? then a.handoffErr
    else if c.Any? then None
    else a.remoteErr
  }

  /** The text is part of the error. */
  ghost predicate Mentions(err: string, sub: string) {
    exists a, b :: err == a + sub + b
  }

  lemma MentionsExactly(err: string, sub: string)
    ensures HasSubstring(err, sub) <==> Mentions(err, sub)
  {
    if HasSubstring(err, sub) {
      var i :| 0 <= i <= |err| && OccursAt(err, sub, i);
      assert err == err[..i] + sub + err[i + |sub|..];
    }
    if Mentions(err, sub) {
      var a, b :| err == a + sub + b;
      assert OccursAt(err, sub, |a|);
    }
  }

  /** Between them, the two goroutines of an owner send exactly one result. An owner
      that acknowledges has the points, or its queue does and the level is Any. */
  lemma OneResultEach(a: Attempt, c: Consistency)
    ensures LocalSends(a) + RemoteSends(a, c) == [Report(a, c)]
    ensures Report(a, c).None? <==>
              || (a.isLocal && a.localErr.None?)
              || (!a.isLocal && a.remoteErr.None?)
              || (!a.isLocal && a.remoteErr.Some? && IsRetryable(a.remoteErr) && a.handoffErr.None? && c.Any?)
  {
  }

  /** The error of a remote write is reported as it is when it is about a field type
      conflict, whatever the queue would say. Every other one is queued: if the queue
      fails, that is reported; if not, the error is, except at level Any, where the
      write counts as done. */
  lemma RemoteErrorsExactly(a: Attempt, c: Consistency)
    requires !a.isLocal && a.remoteErr.Some?
    ensures Report(a, c) ==
              if Mentions(a.remoteErr.value, "field type conflict") then a.remoteErr
              else if a.handoffErr.Some? then a.handoffErr
              else if c == Any then None
              else a.remoteErr
  {
    MentionsExactly(a.remoteErr.value, "field type conflict");
  }

  /** Everything the goroutines of all owners ever send, with the owner it is from. */
  function AllSends(attempts: seq<Attempt>, c: Consistency): (r: seq<(nat, Option<string>)>) {
    if attempts == [] then []
    else
      var k := |attempts| - 1;
      var sends := LocalSends(attempts[k]) + RemoteSends(attempts[k], c);
      AllSends(attempts[..k], c) + seq(|sends|, i requires 0 <= i < |sends| => (k, sends[i]))
  }

  function Reports(attempts: seq<Attempt>, c: Consistency): (r: seq<Option<string>>) {
    seq(|attempts|, i requires 0 <= i < |attempts| => Report(attempts[i], c))
  }

  lemma SendsOneMore(attempts: seq<Attempt>, c: Consistency)
    requires attempts != []
    ensures var k := |attempts| - 1;
            AllSends(attempts, c) == AllSends(attempts[..k], c) + [(k, Report(attempts[k], c))]
  {
    OneResultEach(attempts[|attempts| - 1], c);
  }

  /** The channel has room for one result per owner, so no sender ever blocks, and
      what it is sent is each owner's own report, once. */
  lemma {:induction false} ChannelHasRoom(attempts: seq<Attempt>, c: Consistency)
    ensures |AllSends(attempts, c)| == |attempts|
    ensures forall i | 0 <= i < |attempts| :: AllSends(attempts, c)[i] == (i, Report(attempts[i], c))
  {
    if attempts != [] {
      ChannelHasRoom(attempts[..|attempts| - 1], c);
      SendsOneMore(attempts, c);
    }
  }

  // ---------- What the writer waits for ----------

  /** What each round of the loop takes from its select; the timeout makes sure that
      there is something to take. */
  datatype Event = Closing | TimedOut | Arrived(owner: nat, err: Option<string>)

  datatype Outcome = Success | Partial | Timeout | WriteFailed(reason: Option<string>)

  /** The number of leading arrivals. */
  function Uninterrupted(events: seq<Event>): (i: nat)
    ensures i <= |events|
    ensures forall k | 0 <= k < i :: events[k].Arrived?
    ensures i < |events| ==> !events[i].Arrived?
  {
    if events == [] || !events[0].Arrived? then 0 else 1 + Uninterrupted(events[1..])
  }

  predicate IsAck(e: Event) {
    e.Arrived? && e.err.None?
  }

  function Acks(events: seq<Event>): (n: nat) {
    if events == [] then 0 else Acks(events[..|events| - 1]) + if IsAck(events[|events| - 1]) then 1 else 0
  }

  /** The first error that arrived. */
  function FirstError(events: seq<Event>): (r: Option<string>) {
    match Find(events, (e: Event) => e.Arrived? && e.err.Some?)
    case None => None
    case Some(i) => events[i].err
  }

  /** The outcome, from what the select took in up to one round for each owner:
      enough acknowledgements before any interruption decide for success. */
  function Decide(owners: nat, c: Consistency, events: seq<Event>): (r: Outcome)
    requires |events| >= owners
  {
    var i := Uninterrupted(events[..owners]);
    var acks := Acks(events[..i]);
    if owners > 0 && acks >= Required(c, owners) then Success
    else if i < owners then (if events[i].Closing? then WriteFailed(None) else Timeout)
    else if acks > 0 then Partial
    else WriteFailed(FirstError(events[..owners]))
  }

  lemma AcksOneMore(events: seq<Event>, i: nat)
    requires i < |events|
    ensures Acks(events[..i + 1]) == Acks(events[..i]) + if IsAck(events[i]) then 1 else 0
  {
    assert events[..i + 1][..i] == events[..i];
  }

  lemma {:induction false} AcksGrow(events: seq<Event>, i: nat, j: nat)
    requires i <= j <= |events|
    ensures Acks(events[..i]) <= Acks(events[..j])
    decreases j
  {
    if i < j {
      AcksGrow(events, i, j - 1);
      AcksOneMore(events, j - 1);
    }
  }

  lemma {:induction false} UninterruptedIs(events: seq<Event>, i: nat)
    requires i <= |events| && (forall k | 0 <= k < i :: events[k].Arrived?) && (i < |events| ==> !events[i].Arrived?)
    ensures Uninterrupted(events) == i
  {
  }

  lemma {:induction false} UninterruptedAtLeast(events: seq<Event>, i: nat)
    requires i <= |events| && forall k | 0 <= k < i :: events[k].Arrived?
    ensures Uninterrupted(events) >= i
  {
  }

  /** The error kept so far is the first one that arrived. */
  lemma FirstErrorOneMore(events: seq<Event>, i: nat)
    requires i < |events|
    ensures FirstError(events[..i + 1]) ==
            if FirstError(events[..i]).Some? then FirstError(events[..i])
            else if events[i].Arrived? then events[i].err else None
  {
    assert events[..i + 1] == events[..i] + [events[i]];
    FindOneMore(events[..i], events[i], (e: Event) => e.Arrived? && e.err.Some?);
  }

  // ---------- The outcome in plain terms ----------

  /** The positions of the first `i` events that are acknowledgements. */
  ghost function AckPositions(events: seq<Event>, i: nat): (r: set<nat>)
    requires i <= |events|
  {
    set k: nat | k < i && events[k].Arrived? && events[k].err.None?
  }

  lemma {:induction false} AcksAreCounted(events: seq<Event>, i: nat)
    requires i <= |events|
    ensures Acks(events[..i]) == |AckPositions(events, i)|
  {
    if i > 0 {
      AcksAreCounted(events, i - 1);
      AcksOneMore(events, i - 1);
      OnePositionMore(events, i - 1);
    }
  }

  lemma OnePositionMore(events: seq<Event>, i: nat)
    requires i < |events|
    ensures |AckPositions(events, i + 1)| == |AckPositions(events, i)| + if IsAck(events[i]) then 1 else 0
  {
    assert AckPositions(events, i + 1) == AckPositions(events, i) + if IsAck(events[i]) then {i} else {};
  }

  /** `acks` acknowledgements are enough for the level: one at Any and One, more than half
      of the owners at Quorum, all of them at All. */
  predicate Satisfies(c: Consistency, owners: nat, acks: nat) {
    match c
    case Any => acks >= 1
    case One => acks >= 1
    case Quorum => 2 * acks > owners
    case All => acks >= owners
  }

  /** The outcome, for every sequence of events: `i` is the first interruption among one
      event per owner, or the number of owners, and the acknowledgements before it decide. */
  lemma OutcomeExactly(owners: nat, c: Consistency, events: seq<Event>, i: nat)
    requires i <= owners <= |events| && (forall k | 0 <= k < i :: events[k].Arrived?) && (i < owners ==> !events[i].Arrived?)
    ensures var r, acks := Decide(owners, c, events), |AckPositions(events, i)|;
            var enough := owners > 0 && Satisfies(c, owners, acks);
            && (r == Success <==> enough)
            && (r == Timeout <==> !enough && i < owners && events[i] == TimedOut)
            && (r == Partial <==> !enough && i == owners && acks > 0)
            && (r == WriteFailed(None) <==> !enough && (if i < owners then events[i] == Closing else owners == 0))
            && (!enough && i == owners > 0 && acks == 0 ==> r == WriteFailed(events[0].err))
  {
    UninterruptedIs(events[..owners], i);
    AcksAreCounted(events, i);
    if i == owners > 0 && |AckPositions(events, i)| == 0 {
      assert 0 !in AckPositions(events, i);
      FirstIsError(events[..owners]);
    }
  }

  lemma FirstIsError(events: seq<Event>)
    requires events != [] && events[0].Arrived? && events[0].err.Some?
    ensures FirstError(events) == events[0].err
  {
  }

  // ---------- The loop ----------

  /** After `k` arrivals there is no decision yet. */
  ghost predicate Undecided(owners: nat, c: Consistency, events: seq<Event>, k: nat)
    requires k <= owners <= |events|
  {
    (forall m | 0 <= m < k :: events[m].Arrived?) && (owners > 0 ==> Acks(events[..k]) < Required(c, owners))
  }

  lemma Interrupted(owners: nat, c: Consistency, events: seq<Event>, k: nat)
    requires k < owners <= |events| && Undecided(owners, c, events, k) && !events[k].Arrived?
    ensures Decide(owners, c, events) == if events[k].Closing? then WriteFailed(None) else Timeout
  {
  }

  lemma EnoughAcks(owners: nat, c: Consistency, events: seq<Event>, k: nat)
    requires 0 < k <= owners <= |events| && Acks(events[..k]) >= Required(c, owners)
    requires forall m | 0 <= m < k :: events[m].Arrived?
    ensures Decide(owners, c, events) == Success
  {
    UninterruptedAtLeast(events[..owners], k);
    AcksGrow(events, k, Uninterrupted(events[..owners]));
  }

  lemma AllIn(owners: nat, c: Consistency, events: seq<Event>)
    requires owners <= |events| && Undecided(owners, c, events, owners)
    ensures Decide(owners, c, events) ==
            if Acks(events[..owners]) > 0 then Partial else WriteFailed(FirstError(events[..owners]))
  {
  }

  /** The loop of writeToShard over what its select takes. */
  method WriteToShard(owners: nat, c: Consistency, events: seq<Event>) returns (r: Outcome)
    requires |events| >= owners
    ensures r == Decide(owners, c, events)
  {
    var required := owners;
    match c {
      case Any => required := 1;
      case One => required := 1;
      case Quorum => required := required / 2 + 1;
      case All =>
    }
    var wrote, writeError, k := 0, None, 0;
    while k < owners
      invariant 0 <= k <= owners && Undecided(owners, c, events, k)
      invariant wrote == Acks(events[..k])
      invariant writeError == FirstError(events[..k])
    {
      match events[k] {
        case Closing =>
          Interrupted(owners, c, events, k);
          return WriteFailed(None);
        case TimedOut =>
          Interrupted(owners, c, events, k);
          return Timeout;
        case Arrived(_, err) =>
          AcksOneMore(events, k);
          FirstErrorOneMore(events, k);
          if err.Some? {
            if writeError.None? {
              writeError := err;
            }
          } else {
            wrote := wrote + 1;
            if wrote >= required {
              EnoughAcks(owners, c, events, k + 1);
              return Success;
            }
          }
      }
      k := k + 1;
    }
    AllIn(owners, c, events);
    if wrote > 0 {
      return Partial;
    }
    return WriteFailed(writeError);
  }

  // ---------- Different owners ----------

  /** Each owner's result arrives at most once, as the owner reported it. */
  ghost predicate Delivered(events: seq<Event>, reports: seq<Option<string>>) {
    && (forall k | 0 <= k < |events| && events[k].Arrived? :: events[k].owner < |reports| && events[k].err == reports[events[k].owner])
    && (forall j, k | 0 <= j < k < |events| && events[j].Arrived? && events[k].Arrived? :: events[j].owner != events[k].owner)
  }

  /** What was taken from the channel. */
  ghost function Arrivals(events: seq<Event>): (r: multiset<(nat, Option<string>)>) {
    if events == [] then multiset{}
    else
      var k := |events| - 1;
      Arrivals(events[..k]) + if events[k].Arrived? then multiset{(events[k].owner, events[k].err)} else multiset{}
  }

  lemma {:induction false} ArrivalAt(events: seq<Event>, k: nat)
    requires k < |events| && events[k].Arrived?
    ensures (events[k].owner, events[k].err) in Arrivals(events)
  {
    if k < |events| - 1 { ArrivalAt(events[..|events| - 1], k); }
  }

  lemma {:induction false} ArrivalTwice(events: seq<Event>, j: nat, k: nat)
    requires j < k < |events| && events[j] == events[k] && events[j].Arrived?
    ensures Arrivals(events)[(events[j].owner, events[j].err)] >= 2
  {
    var n := |events| - 1;
    if k < n {
      ArrivalTwice(events[..n], j, k);
    } else {
      ArrivalAt(events[..n], j);
    }
  }

  lemma {:induction false} SentOnce(sends: seq<(nat, Option<string>)>, x: (nat, Option<string>))
    requires forall i | 0 <= i < |sends| :: sends[i].0 == i
    ensures multiset(sends)[x] <= 1
  {
    if sends != [] {
      var k := |sends| - 1;
      assert sends == sends[..k] + [sends[k]];
      SentOnce(sends[..k], x);
      assert sends[k] !in sends[..k];
    }
  }

  lemma ArrivedReport(events: seq<Event>, attempts: seq<Attempt>, c: Consistency, k: nat)
    requires Arrivals(events) <= multiset(AllSends(attempts, c)) && k < |events| && events[k].Arrived?
    ensures events[k].owner < |attempts| && events[k].err == Report(attempts[events[k].owner], c)
  {
    ChannelHasRoom(attempts, c);
    ArrivalAt(events, k);
    assert (events[k].owner, events[k].err) in multiset(AllSends(attempts, c));
  }

  lemma ArrivedOnce(events: seq<Event>, attempts: seq<Attempt>, c: Consistency, j: nat, k: nat)
    requires Arrivals(events) <= multiset(AllSends(attempts, c))
    requires j < k < |events| && events[j].Arrived?
    ensures events[j] != events[k]
  {
    ChannelHasRoom(attempts, c);
    var x := (events[j].owner, events[j].err);
    SentOnce(AllSends(attempts, c), x);
    assert Arrivals(events)[x] <= multiset(AllSends(attempts, c))[x];
    if events[j] == events[k] { ArrivalTwice(events, j, k); }
  }

  /** What comes out of the channel went in, so each owner's own report arrives, at most once. */
  lemma DeliveredFromChannel(events: seq<Event>, attempts: seq<Attempt>, c: Consistency)
    requires Arrivals(events) <= multiset(AllSends(attempts, c))
    ensures Delivered(events, Reports(attempts, c))
  {
    forall k | 0 <= k < |events| && events[k].Arrived?
      ensures events[k].owner < |attempts| && events[k].err == Report(attempts[events[k].owner], c)
    {
      ArrivedReport(events, attempts, c, k);
    }
    forall j, k | 0 <= j < k < |events| && events[j].Arrived? && events[k].Arrived?
      ensures events[j].owner != events[k].owner
    {
      ArrivedOnce(events, attempts, c, j, k);
    }
  }

  /** The owners whose acknowledgement arrived. */
  ghost function AckedBy(events: seq<Event>): (r: set<nat>) {
    set k | 0 <= k < |events| && IsAck(events[k]) :: events[k].owner
  }

  lemma AckedByOneMore(events: seq<Event>, e: Event)
    ensures AckedBy(events + [e]) == AckedBy(events) + if IsAck(e) then {e.owner} else {}
  {
    var after := events + [e];
    assert after[|events|] == e;
    assert forall k | 0 <= k < |events| :: after[k] == events[k];
  }

  /** As many acknowledgements as owners that acknowledged. */
  lemma {:induction false} AcksAreOwners(events: seq<Event>, reports: seq<Option<string>>)
    requires Delivered(events, reports)
    ensures |AckedBy(events)| == Acks(events)
  {
    if events != [] {
      var k := |events| - 1;
      AcksAreOwners(events[..k], reports);
      assert events == events[..k] + [events[k]];
      AckedByOneMore(events[..k], events[k]);
    }
  }

  lemma SubsetSmaller<T>(a: set<T>, b: set<T>)
    requires a <= b
    ensures |a| <= |b|
  {
    assert b == a + (b - a);
  }

  /** The number of events after which there are `n` acknowledgements. */
  function Enough(events: seq<Event>, n: nat): (k: nat)
    requires Acks(events) >= n
    ensures k <= |events| && Acks(events[..k]) == n
    decreases |events|
  {
    if Acks(events) == n then
      assert events[..|events|] == events;
      |events|
    else
      var front := events[..|events| - 1];
      assert front[..Enough(front, n)] == events[..Enough(front, n)];
      Enough(front, n)
  }

  /** What a successful write has taken from its select: arrivals only, up to the one that
      was enough. */
  ghost function Taken(owners: nat, c: Consistency, events: seq<Event>): (r: seq<Event>)
    requires |events| >= owners && Decide(owners, c, events).Success?
    ensures r <= events && Acks(r) == Required(c, owners) && forall e <- r :: e.Arrived?
  {
    var i := Uninterrupted(events[..owners]);
    assert events[..i][..Enough(events[..i], Required(c, owners))] == events[..Enough(events[..i], Required(c, owners))];
    events[..Enough(events[..i], Required(c, owners))]
  }

  /** Success means that exactly as many different owners as the level asks for had
      acknowledged when it was reported, each of which reports success; one less would not
      have been enough. */
  lemma SuccessMeansAcknowledged(owners: nat, c: Consistency, events: seq<Event>, reports: seq<Option<string>>)
    requires |events| >= owners && |reports| == owners && Delivered(events, reports)
    requires Decide(owners, c, events).Success?
    ensures var acks := |AckedBy(Taken(owners, c, events))|;
            acks >= 1 && Satisfies(c, owners, acks) && (acks == 1 || !Satisfies(c, owners, acks - 1))
    ensures forall n <- AckedBy(Taken(owners, c, events)) :: n < owners && reports[n].None?
  {
    AcksAreOwners(Taken(owners, c, events), reports);
  }

  ghost function Range(n: nat): (r: set<nat>)
    ensures |r| == n && forall i: nat :: i in r <==> i < n
  {
    if n == 0 then {} else Range(n - 1) + {n - 1}
  }

  /** Success at level All means that every owner had acknowledged. */
  lemma AllMeansEveryone(owners: nat, events: seq<Event>, reports: seq<Option<string>>)
    requires |events| >= owners && |reports| == owners && Delivered(events, reports)
    requires Decide(owners, All, events).Success?
    ensures forall n | 0 <= n < owners :: n in AckedBy(Taken(owners, All, events)) && reports[n].None?
  {
    SuccessMeansAcknowledged(owners, All, events, reports);
    SameSize(AckedBy(Taken(owners, All, events)), Range(owners));
  }

  /** Two quorums of the same owners have an owner in common. */
  lemma QuorumsMeet(n: nat, a: set<nat>, b: set<nat>)
    requires a <= Range(n) && b <= Range(n) && |a| >= n / 2 + 1 && |b| >= n / 2 + 1
    ensures a * b != {}
  {
    SubsetSmaller(a + b, Range(n));
  }

  /** Two writes at level Quorum that succeed on a shard with the same owners had both
      been acknowledged by some owner when they returned. */
  lemma QuorumWritesShareANode(nodes: seq<nat>, events: seq<Event>, reports: seq<Option<string>>, events': seq<Event>, reports': seq<Option<string>>)
      returns (k: nat)
    requires |events| >= |nodes| && |events'| >= |nodes| && |reports| == |nodes| == |reports'|
    requires Delivered(events, reports) && Delivered(events', reports')
    requires Decide(|nodes|, Quorum, events).Success? && Decide(|nodes|, Quorum, events').Success?
    ensures k < |nodes| && reports[k].None? && reports'[k].None?
    ensures k in AckedBy(Taken(|nodes|, Quorum, events)) && k in AckedBy(Taken(|nodes|, Quorum, events'))
  {
    SuccessMeansAcknowledged(|nodes|, Quorum, events, reports);
    SuccessMeansAcknowledged(|nodes|, Quorum, events', reports');
    var a, b := AckedBy(Taken(|nodes|, Quorum, events)), AckedBy(Taken(|nodes|, Quorum, events'));
    QuorumsMeet(|nodes|, a, b);
    k :| k in a * b;
  }

  // ---------- Any order of arrival ----------

  datatype Class = Done | Part | Bad

  /** Success, partial success or failure, without the reason. */
  function ClassOf(r: Outcome): (c: Class) {
    if r.Success? then Done else if r.Partial? then Part else Bad
  }

  ghost function Willing(reports: seq<Option<string>>): (r: set<nat>) {
    set n | 0 <= n < |reports| && reports[n].None?
  }

  ghost function Senders(events: seq<Event>): (r: set<nat>) {
    set k | 0 <= k < |events| && events[k].Arrived? :: events[k].owner
  }

  lemma {:induction false} SendersCount(events: seq<Event>, reports: seq<Option<string>>)
    requires Delivered(events, reports) && forall e <- events :: e.Arrived?
    ensures |Senders(events)| == |events|
  {
    if events != [] {
      var k := |events| - 1;
      var front := events[..k];
      SendersCount(front, reports);
      assert forall j | 0 <= j < k :: front[j] == events[j];
      assert Senders(events) == Senders(front) + {events[k].owner};
      assert events[k].owner !in Senders(front);
    }
  }

  lemma SameSize<T>(a: set<T>, b: set<T>)
    requires a <= b && |a| == |b|
    ensures a == b
  {
    assert b == a + (b - a);
  }

  /** When every owner's result arrives, those who acknowledged are those who are willing. */
  lemma AllArrive(events: seq<Event>, reports: seq<Option<string>>)
    requires Delivered(events, reports) && |events| == |reports| && forall e <- events :: e.Arrived?
    ensures AckedBy(events) == Willing(reports)
  {
    SendersCount(events, reports);
    SameSize(Senders(events), Range(|reports|));
    forall n <- Willing(reports)
      ensures n in AckedBy(events)
    {
      assert n in Range(|reports|);
      var k :| 0 <= k < |events| && events[k].Arrived? && events[k].owner == n;
      assert IsAck(events[k]);
    }
  }

  /** With every result in, without timeout or closing, the class of the outcome is
      decided by how many owners are willing, whatever the order of arrival. */
  lemma OrderDoesNotMatter(owners: nat, c: Consistency, events: seq<Event>, reports: seq<Option<string>>)
    requires Delivered(events, reports) && |events| == |reports| == owners && forall e <- events :: e.Arrived?
    ensures var n := |Willing(reports)|;
            ClassOf(Decide(owners, c, events)) ==
              if owners > 0 && Satisfies(c, owners, n) then Done else if n > 0 then Part else Bad
  {
    AllArrive(events, reports);
    AcksAreOwners(events, reports);
    assert events[..owners] == events;
    UninterruptedIs(events, owners);
  }

  /** A shard without owners is never written, whatever the level. */
  lemma NoOwnersFail(c: Consistency, events: seq<Event>)
    ensures Decide(0, c, events) == WriteFailed(None)
  {
  }
}

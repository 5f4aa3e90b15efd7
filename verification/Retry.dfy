/**
 Posting a command to the meta servers until one of them accepts it: which server
 each try goes to, and how the call ends.
 */
module Retry {
  import opened Basics

  const MAX_RETRIES: nat := 10

  datatype Reply = Accepted(idx: nat) | Redirect(host: string) | CommandError | Unreachable

  datatype Outcome = Success(idx: nat) | Closed | GaveUp(reply: Reply)

  /** A reply after which the command is posted again, if there is a try left. */
  predicate Retried(r: Reply) {
    r.Redirect? || r.Unreachable?
  }

  /** Try `k` follows a redirect. */
  predicate Redirected(reply: nat -> Reply, k: nat) {
    k > 0 && reply(k - 1).Redirect? && reply(k - 1).host != ""
  }

  /** The server of the list that try `k` goes to, if it follows no redirect. */
  ghost function ServerAt(n: nat, reply: nat -> Reply, k: nat): (i: nat)
    requires n > 0
    ensures !Redirected(reply, k) ==> i < n
  {
    var next := if k == 0 then 0 else ServerAt(n, reply, k - 1) + 1;
    if Redirected(reply, k) || next < n then next else 0
  }

  /** Between two tries that follow no redirect the list is gone through by as many
      servers as there were tries, and behind its end it starts again. */
  lemma {:induction false} NextServer(n: nat, reply: nat -> Reply, j: nat, k: nat)
    requires n > 0 && j < k && !Redirected(reply, j) && !Redirected(reply, k)
    requires forall m | j < m < k :: Redirected(reply, m)
    ensures ServerAt(n, reply, k) == if ServerAt(n, reply, j) + (k - j) < n then ServerAt(n, reply, j) + (k - j) else 0
  {
    Counting(n, reply, j, k - 1);
  }

  lemma {:induction false} Counting(n: nat, reply: nat -> Reply, j: nat, k: nat)
    requires n > 0 && j <= k && forall m | j < m <= k :: Redirected(reply, m)
    ensures ServerAt(n, reply, k) == ServerAt(n, reply, j) + (k - j)
  {
    if j < k { Counting(n, reply, j, k - 1); }
  }

  /** So neighbouring tries that follow no redirect go to neighbouring servers, cyclically. */
  lemma NeighbouringServers(n: nat, reply: nat -> Reply, k: nat)
    requires n > 0 && !Redirected(reply, k) && !Redirected(reply, k + 1)
    ensures ServerAt(n, reply, k + 1) == (ServerAt(n, reply, k) + 1) % n
  {
    NextServer(n, reply, k, k + 1);
    SmallMod(ServerAt(n, reply, k), n);
    ModNext(ServerAt(n, reply, k), n);
  }

  /** Without redirects the servers are tried in turn. */
  lemma {:induction false} InTurn(n: nat, reply: nat -> Reply, k: nat)
    requires n > 0 && forall m | 0 <= m <= k :: !Redirected(reply, m)
    ensures ServerAt(n, reply, k) == k % n
  {
    if k == 0 {
      SmallMod(0, n);
    } else {
      InTurn(n, reply, k - 1);
      NextServer(n, reply, k - 1, k);
      ModNext(k - 1, n);
    }
  }

  /** Where try `k` is posted: to the address of a redirect, or to the server whose turn it is. */
  ghost function Target(servers: seq<string>, reply: nat -> Reply, k: nat): (url: string)
    requires servers != []
  {
    if Redirected(reply, k) then reply(k - 1).host else servers[ServerAt(|servers|, reply, k)]
  }

  ghost predicate Posted(servers: seq<string>, reply: nat -> Reply, posts: seq<string>)
    requires servers != []
  {
    forall k | 0 <= k < |posts| :: posts[k] == Target(servers, reply, k)
  }

  /** Without redirects try `k` goes to server `k`, cyclically, and a list of at most as
      many servers as there were tries is tried to the end. */
  lemma PostedInTurn(servers: seq<string>, reply: nat -> Reply, posts: seq<string>)
    requires servers != [] && Posted(servers, reply, posts) && forall k | 0 <= k < |posts| :: !Redirected(reply, k)
    ensures forall k | 0 <= k < |posts| :: posts[k] == servers[k % |servers|]
    ensures |servers| <= |posts| ==> forall s <- servers :: s in posts
  {
    forall k | 0 <= k < |posts|
      ensures posts[k] == servers[k % |servers|]
    {
      InTurn(|servers|, reply, k);
    }
    forall i | 0 <= i < |servers| <= |posts|
      ensures servers[i] in posts
    {
      SmallMod(i, |servers|);
      assert posts[i] == servers[i];
    }
  }

  /** The loop of retryUntilExec. The client is found closed before try `k` when
      `closed(k)`, and try `k` is answered by `reply(k)`. */
  method RetryUntilExec(servers: seq<string>, closed: nat -> bool, reply: nat -> Reply) returns (r: Outcome, posts: seq<string>)
    requires servers != []
    ensures |posts| <= 11
    // Every try but the last was answered by a redirect or not at all.
    ensures forall k | 0 <= k < |posts| :: !closed(k) && (k < |posts| - 1 ==> Retried(reply(k)))
    // A redirect with an address is followed, and every other try goes to the server whose turn it is.
    ensures Posted(servers, reply, posts)
    ensures match r
            case Success(idx) => posts != [] && reply(|posts| - 1) == Accepted(idx)
            case Closed => closed(|posts|) && (posts != [] ==> Retried(reply(|posts| - 1)))
            case GaveUp(last) =>
              && posts != [] && last == reply(|posts| - 1) && !last.Accepted?
              && (last.CommandError? || |posts| == 11)
  {
    posts := [];
    var tries, currentServer, redirectServer := 0, 0, "";
    while true
      invariant tries == |posts| <= MAX_RETRIES
      invariant currentServer == if tries == 0 then 0 else ServerAt(|servers|, reply, tries - 1) + 1
      invariant forall k | 0 <= k < |posts| :: !closed(k) && Retried(reply(k))
      invariant redirectServer == if Redirected(reply, tries) then reply(tries - 1).host else ""
      invariant Posted(servers, reply, posts)
      decreases MAX_RETRIES - tries
    {
      if closed(tries) {
        return Closed, posts;
      }
      var url;
      if redirectServer != "" {
        url, redirectServer := redirectServer, "";
      } else {
        if currentServer >= |servers| {
          currentServer := 0;
        }
        url := servers[currentServer];
      }
      assert url == Target(servers, reply, tries);
      var answer := reply(tries);
      posts := posts + [url];
      tries := tries + 1;
      currentServer := currentServer + 1;
      if answer.Accepted? {
        return Success(answer.idx), posts;
      }
      if tries > MAX_RETRIES {
        return GaveUp(answer), posts;
      }
      if answer.Redirect? {
        redirectServer := answer.host;
      } else if answer.CommandError? {
        return GaveUp(answer), posts;
      }
    }
  }
}

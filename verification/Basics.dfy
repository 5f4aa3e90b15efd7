/** Options, and a few facts about sequences and division. */
module Basics {

  datatype Option<+T> = None | Some(value: T)

  function Without<T>(s: seq<T>, i: nat): (r: seq<T>)
    requires i < |s|
    ensures |r| == |s| - 1
  {
    s[..i] + s[i + 1..]
  }

  lemma WithoutMultiset<T>(s: seq<T>, i: nat)
    requires i < |s|
    ensures multiset(Without(s, i)) == multiset(s) - multiset{s[i]}
  {
    assert s == s[..i] + [s[i]] + s[i + 1..];
  }

  lemma TakeOneMore<T>(s: seq<T>, i: nat)
    requires i < |s|
    ensures s[..i + 1] == s[..i] + [s[i]]
  {
  }

  /** The index of the first element with the property. */
  function Find<T>(s: seq<T>, p: T -> bool): (r: Option<nat>)
    ensures r.Some? ==> r.value < |s| && p(s[r.value]) && forall x <- s[..r.value] :: !p(x)
    ensures r.None? ==> forall x <- s :: !p(x)
  {
    if s == [] then None
    else if p(s[0]) then Some(0)
    else
      match Find(s[1..], p)
      case None => None
      case Some(i) => Some(i + 1)
  }

  lemma FindFirst<T>(s: seq<T>, f: T -> bool, i: nat)
    requires i < |s| && f(s[i]) && forall y <- s[..i] :: !f(y)
    ensures Find(s, f) == Some(i)
  {
  }

  lemma {:induction false} FindOneMore<T>(s: seq<T>, x: T, f: T -> bool)
    ensures Find(s + [x], f) == if Find(s, f).Some? then Find(s, f) else if f(x) then Some(|s|) else None
  {
    if s != [] {
      FindOneMore(s[1..], x, f);
      assert (s + [x])[1..] == s[1..] + [x];
    }
  }

  /** Changing an element into one that answers alike does not move the first one. */
  lemma {:induction false} FindUpdated<T>(s: seq<T>, f: T -> bool, k: nat, x: T)
    requires k < |s| && f(x) == f(s[k])
    ensures Find(s[k := x], f) == Find(s, f)
  {
    if k > 0 && !f(s[0]) {
      FindUpdated(s[1..], f, k - 1, x);
      assert s[k := x][1..] == s[1..][k - 1 := x];
    } else {
      assert k == 0 ==> s[k := x][1..] == s[1..];
    }
  }

  // ---------- Division ----------

  lemma MulAtLeast(d: int, k: int)
    requires d > 0 && k >= 1
    ensures d * k >= d
  {
  }

  lemma Division(x: int, d: int)
    requires d > 0
    ensures x == d * (x / d) + x % d
  {
  }

  lemma Distribute(d: int, a: int, b: int)
    ensures d * a - d * b == d * (a - b)
  {
  }

  lemma ModIs(x: int, n: int, q: int, r: int)
    requires 0 <= r < n && x == n * q + r
    ensures x % n == r
  {
    Division(x, n);
    Distribute(n, x / n, q);
    Distribute(n, q, x / n);
    if x / n > q { MulAtLeast(n, x / n - q); }
    if x / n < q { MulAtLeast(n, q - x / n); }
  }

  lemma DivIs(x: int, n: int, q: int, r: int)
    requires 0 <= r < n && x == n * q + r
    ensures x / n == q
  {
    Division(x, n);
    Distribute(n, x / n, q);
    Distribute(n, q, x / n);
    if x / n > q { MulAtLeast(n, x / n - q); }
    if x / n < q { MulAtLeast(n, q - x / n); }
  }

  lemma ModAdd(a: nat, b: nat, n: nat)
    requires n > 0
    ensures (a % n + b) % n == (a + b) % n
  {
    Division(a, n);
    Division(a % n + b, n);
    Division(a + b, n);
    var q, q1, q2 := a / n, (a % n + b) / n, (a + b) / n;
    Distribute(n, q2 - q, q1);
    Distribute(n, q1, q2 - q);
    Distribute(n, q2, q);
    if q2 - q > q1 { MulAtLeast(n, q2 - q - q1); }
    if q2 - q < q1 { MulAtLeast(n, q1 - (q2 - q)); }
  }

  lemma ModNext(k: nat, n: nat)
    requires n > 0
    ensures (k + 1) % n == if k % n + 1 < n then k % n + 1 else 0
  {
    Division(k, n);
    if k % n + 1 < n {
      ModIs(k + 1, n, k / n, k % n + 1);
    } else {
      assert n * (k / n + 1) == n * (k / n) + n;
      ModIs(k + 1, n, k / n + 1, 0);
    }
  }

  lemma SmallMod(k: nat, n: nat)
    requires k < n
    ensures k % n == k
  {
  }
}

/** Big-endian unsigned integers, the number format of every segment file. */
module Bytes {
  import opened Basics

  type byte = b: int | 0 <= b < 256

  const TWO_TO_63: nat := 0x8000_0000_0000_0000

  /** The `width` low-order bytes of `n`, most significant first. */
  function ToBytes(n: nat, width: nat): (s: seq<byte>)
    ensures |s| == width
  {
    if width == 0 then [] else ToBytes(n / 256, width - 1) + [n % 256]
  }

  /** The number a big-endian byte string denotes. */
  function FromBytes(s: seq<byte>): (n: nat)
  {
    if s == [] then 0 else FromBytes(s[..|s| - 1]) * 256 + s[|s| - 1]
  }

  function Pow256(width: nat): (p: nat)
    ensures p > 0
  {
    if width == 0 then 1 else 256 * Pow256(width - 1)
  }

  lemma {:induction false} FromToBytes(n: nat, width: nat)
    requires n < Pow256(width)
    ensures FromBytes(ToBytes(n, width)) == n
  {
    if width > 0 {
      FromToBytes(n / 256, width - 1);
      var s := ToBytes(n, width);
      assert s[..|s| - 1] == ToBytes(n / 256, width - 1);
    }
  }

  lemma DivTwice(n: nat, p: nat)
    requires p > 0
    ensures n / 256 / p == n / (256 * p)
  {
    var q, r, s := n / 256 / p, n / 256 % p, n % 256;
    Division(n / 256, p);
    assert 256 * (p * q) == (256 * p) * q;
    assert n == (256 * p) * q + (256 * r + s);
    DivIs(n, 256 * p, q, 256 * r + s);
  }

  /** The most significant byte comes first: byte `k` of `width` counts as many powers of
      256 as there are bytes behind it. */
  lemma {:induction false} ByteAt(n: nat, width: nat, k: nat)
    requires k < width
    ensures ToBytes(n, width)[k] == n / Pow256(width - 1 - k) % 256
  {
    if k < width - 1 {
      ByteAt(n / 256, width - 1, k);
      DivTwice(n, Pow256(width - 2 - k));
    }
  }

  function U64(n: nat): (s: seq<byte>)
    ensures |s| == 8
  {
    ToBytes(n, 8)
  }

  /** Reading back what was written gives the number that was written. */
  lemma U64RoundTrip(n: nat)
    requires n < 2 * TWO_TO_63
    ensures FromBytes(U64(n)) == n
  {
    assert Pow256(8) == 2 * TWO_TO_63 by {
      assert Pow256(4) == 0x1_0000_0000;
      assert Pow256(8) == 256 * (256 * (256 * (256 * Pow256(4))));
    }
    FromToBytes(n, 8);
  }
}

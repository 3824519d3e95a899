/** Big-endian words over bytes. */
module Words {

  newtype byte = x: int | 0 <= x < 256

  /** `n` can be written in `w` bytes. */
  predicate FitsIn(n: nat, w: nat)
  {
    if w == 0 then n == 0 else FitsIn(n / 256, w - 1)
  }

  function Pow256(w: nat): nat
  {
    if w == 0 then 1 else 256 * Pow256(w - 1)
  }

  lemma {:induction false} FitsInIffBelow(n: nat, w: nat)
    ensures FitsIn(n, w) <==> n < Pow256(w)
  {
    if w > 0 {
      FitsInIffBelow(n / 256, w - 1);
    }
  }

  lemma {:induction false} FitsInMore(n: nat, v: nat, w: nat)
    requires v <= w && FitsIn(n, v)
    ensures FitsIn(n, w)
  {
    if v > 0 {
      FitsInMore(n / 256, v - 1, w - 1);
    } else if w > 0 {
      FitsInMore(0, 0, w - 1);
    }
  }

  /** The number the first `n` bytes spell, big-endian. */
  function Prefix(s: seq<byte>, n: nat): nat
    requires n <= |s|
  {
    if n == 0 then 0 else Prefix(s, n - 1) * 256 + s[n - 1] as int
  }

  /** The number a big-endian byte string spells. */
  function FromBig(s: seq<byte>): nat
  {
    Prefix(s, |s|)
  }

  /** `n` in `w` big-endian bytes. */
  function ToBig(n: nat, w: nat): (s: seq<byte>)
    requires FitsIn(n, w)
    ensures |s| == w
  {
    if w == 0 then [] else ToBig(n / 256, w - 1) + [(n % 256) as byte]
  }

  lemma {:induction false} PrefixBound(s: seq<byte>, n: nat)
    requires n <= |s|
    ensures FitsIn(Prefix(s, n), n)
  {
    if n > 0 {
      PrefixBound(s, n - 1);
    }
  }

  lemma {:induction false} PrefixCongruent(s: seq<byte>, t: seq<byte>, n: nat)
    requires n <= |s| && n <= |t| && s[..n] == t[..n]
    ensures Prefix(s, n) == Prefix(t, n)
  {
    if n > 0 {
      assert s[..n][n - 1] == t[..n][n - 1];
      assert s[..n - 1] == s[..n][..n - 1] && t[..n - 1] == t[..n][..n - 1];
      PrefixCongruent(s, t, n - 1);
    }
  }

  lemma {:induction false} PrefixToBig(n: nat, w: nat)
    requires FitsIn(n, w)
    ensures Prefix(ToBig(n, w), w) == n
  {
    if w > 0 {
      PrefixToBig(n / 256, w - 1);
      PrefixCongruent(ToBig(n, w), ToBig(n / 256, w - 1), w - 1);
    }
  }

  lemma {:induction false} ToBigPrefix(s: seq<byte>, n: nat)
    requires n <= |s|
    ensures FitsIn(Prefix(s, n), n) && ToBig(Prefix(s, n), n) == s[..n]
  {
    PrefixBound(s, n);
    if n > 0 {
      ToBigPrefix(s, n - 1);
      assert s[..n] == s[..n - 1] + [s[n - 1]];
    }
  }

  lemma FromBigBound(s: seq<byte>)
    ensures FitsIn(FromBig(s), |s|)
  {
    PrefixBound(s, |s|);
  }

  lemma FromToBig(n: nat, w: nat)
    requires FitsIn(n, w)
    ensures FromBig(ToBig(n, w)) == n
  {
    PrefixToBig(n, w);
  }

  lemma ToFromBig(s: seq<byte>)
    ensures FitsIn(FromBig(s), |s|) && ToBig(FromBig(s), |s|) == s
  {
    ToBigPrefix(s, |s|);
    assert s[..|s|] == s;
  }

  // ---- what a word says ------------------------------------------------------------------

  /** The bytes of `s`, each times its power of 256: the first one weighs most. */
  function ByteSum(s: seq<byte>): nat
  {
    if s == [] then 0 else s[0] as int * Pow256(|s| - 1) + ByteSum(s[1..])
  }

  lemma {:induction false} PrefixStep(b: byte, rest: seq<byte>, n: nat)
    requires n <= |rest|
    ensures Prefix([b] + rest, n + 1) == b as int * Pow256(n) + Prefix(rest, n)
  {
    if n > 0 {
      PrefixStep(b, rest, n - 1);
      assert ([b] + rest)[n] == rest[n - 1];
    } else {
      assert Prefix([b] + rest, 0) == 0;
    }
  }

  /** A byte in front weighs a power of 256. */
  lemma FromBigStep(b: byte, rest: seq<byte>)
    ensures FromBig([b] + rest) == b as int * Pow256(|rest|) + FromBig(rest)
  {
    PrefixStep(b, rest, |rest|);
  }

  /** The first byte is the most significant one. */
  lemma {:induction false} FromBigIsSum(s: seq<byte>)
    ensures FromBig(s) == ByteSum(s)
  {
    if s != [] {
      assert s == [s[0]] + s[1..];
      FromBigStep(s[0], s[1..]);
      FromBigIsSum(s[1..]);
    }
  }

  /** Behind leading zeros the last byte is the number. */
  lemma {:induction false} LastByte(s: seq<byte>)
    requires s != [] && forall k :: 0 <= k < |s| - 1 ==> s[k] == 0
    ensures FromBig(s) == s[|s| - 1] as int
  {
    assert s == [s[0]] + s[1..];
    FromBigStep(s[0], s[1..]);
    if |s| > 1 {
      LastByte(s[1..]);
    }
  }

  /** And the bytes a number is written in sum to it. */
  lemma ToBigSums(n: nat, w: nat)
    requires FitsIn(n, w)
    ensures ByteSum(ToBig(n, w)) == n
  {
    FromToBig(n, w);
    FromBigIsSum(ToBig(n, w));
  }

  lemma PowersOf256()
    ensures Pow256(2) == 0x1_0000 && Pow256(8) == 0x1_0000_0000_0000_0000
  {
    assert Pow256(4) == 0x1_0000_0000;
  }

  function Zeros(n: nat): (s: seq<byte>)
    ensures |s| == n && forall k :: 0 <= k < n ==> s[k] == 0
  {
    seq(n, k => 0)
  }

  /** `n` rounded up to a whole number of words. */
  function PaddedLength(n: nat): (p: nat)
    ensures n <= p < n + 32 && p % 32 == 0
  {
    (n + 32 - 1) / 32 * 32
  }
}

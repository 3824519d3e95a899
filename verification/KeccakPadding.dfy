/** The padding of the sponge: one byte 0x01, zeros up to the rate, and the top bit of the last byte. */
module KeccakPadding {
  import opened KeccakLanes

  function ZeroByte(): Byte
  {
    [false, false, false, false, false, false, false, false]
  }

  function PadByte(): Byte
  {
    [true, false, false, false, false, false, false, false]
  }

  /** `b |= 0x80`. */
  function TopBitSet(b: Byte): Byte
  {
    if |b| == 8 then b[..7] + [true] else b
  }

  function ZeroBytes(n: nat): (r: seq<Byte>)
    ensures |r| == n && forall k :: 0 <= k < n ==> r[k] == ZeroByte()
  {
    seq(n, k => ZeroByte())
  }

  /** How many bytes a message of length `n` is padded by. */
  function PadLength(n: nat): (q: nat)
    ensures 1 <= q <= 136 && (n + q) % 136 == 0
  {
    PadToMultiple(n);
    136 - n % 136
  }

  lemma PadToMultiple(n: nat)
    ensures (n + (136 - n % 136)) % 136 == 0
  {
    assert n + (136 - n % 136) == 136 * (n / 136 + 1);
    MultipleOf136(n / 136 + 1);
  }

  lemma MultipleOf136(k: nat)
    ensures 136 * k % 136 == 0
  {
  }

  function Padded(data: seq<Byte>): (r: seq<Byte>)
    ensures |r| == |data| + PadLength(|data|)
  {
    var q := PadLength(|data|);
    if q == 1 then data + [TopBitSet(PadByte())]
    else data + [PadByte()] + ZeroBytes(q - 2) + [TopBitSet(ZeroByte())]
  }

  // ---- the bits --------------------------------------------------------------------------

  /** pad10*1 of section 5.1 of FIPS 202: a one, `j` zeros and a one, up to a multiple of 1088. */
  ghost predicate TenOne(message: seq<bool>, padded: seq<bool>, j: nat)
  {
    && |padded| == |message| + j + 2 && |padded| % 1088 == 0
    && (forall k :: 0 <= k < |message| ==> padded[k] == message[k])
    && padded[|message|] && padded[|message| + j + 1]
    && (forall k :: |message| < k <= |message| + j ==> !padded[k])
  }

  function Zeros(n: nat): (r: seq<bool>)
    ensures |r| == n && forall k :: 0 <= k < n ==> !r[k]
  {
    seq(n, k => false)
  }

  lemma {:induction false} JoinedZeros(n: nat)
    ensures Joined(ZeroBytes(n)) == Zeros(8 * n)
  {
    if n > 0 {
      assert ZeroBytes(n) == [ZeroByte()] + ZeroBytes(n - 1);
      JoinedZeros(n - 1);
      JoinedAppend([ZeroByte()], ZeroBytes(n - 1));
      JoinedOne(ZeroByte());
      assert Zeros(8 * n) == ZeroByte() + Zeros(8 * (n - 1));
    }
  }

  /** Past the message the padding is a one, zeros and a one. */
  lemma TailBits(q: nat)
    requires q >= 1
    ensures Joined(PadTail(q)) == [true] + Zeros(8 * q - 2) + [true]
  {
    if q == 1 {
      JoinedOne(TopBitSet(PadByte()));
      assert TopBitSet(PadByte()) == [true] + Zeros(6) + [true];
    } else {
      var first, last := [PadByte()], [TopBitSet(ZeroByte())];
      JoinedOne(PadByte());
      JoinedOne(TopBitSet(ZeroByte()));
      JoinedZeros(q - 2);
      JoinedAppend(first + ZeroBytes(q - 2), last);
      JoinedAppend(first, ZeroBytes(q - 2));
      assert PadByte() + Zeros(8 * (q - 2)) + TopBitSet(ZeroByte()) == [true] + Zeros(8 * q - 2) + [true];
    }
  }

  function PadTail(q: nat): seq<Byte>
    requires q >= 1
  {
    if q == 1 then [TopBitSet(PadByte())] else [PadByte()] + ZeroBytes(q - 2) + [TopBitSet(ZeroByte())]
  }

  lemma PaddedTail(data: seq<Byte>) returns (q: nat)
    ensures 1 <= q <= 136 && (|data| + q) % 136 == 0 && Padded(data) == data + PadTail(q)
  {
    q := PadLength(|data|);
  }

  /** The padded bytes are the padded bits. */
  lemma PaddedBits(data: seq<Byte>) returns (q: nat)
    requires AreBytes(data)
    ensures 1 <= q <= 136 && (|data| + q) % 136 == 0
    ensures Joined(Padded(data)) == Joined(data) + ([true] + Zeros(8 * q - 2) + [true])
    ensures TenOne(Joined(data), Joined(Padded(data)), 8 * q - 2)
  {
    q := PaddedTail(data);
    TailBits(q);
    JoinedTail(data, PadTail(q), q);
  }

  lemma JoinedTail(data: seq<Byte>, tail: seq<Byte>, q: nat)
    requires AreBytes(data) && q >= 1 && (|data| + q) % 136 == 0
    requires Joined(tail) == [true] + Zeros(8 * q - 2) + [true]
    ensures Joined(data + tail) == Joined(data) + ([true] + Zeros(8 * q - 2) + [true])
    ensures TenOne(Joined(data), Joined(data + tail), 8 * q - 2)
  {
    JoinedAppend(data, tail);
    JoinedLength(data);
    MultipleOf1088(|data| + q);
    TenOneIs(Joined(data), Joined(data + tail), 8 * q - 2);
  }

  lemma TenOneIs(message: seq<bool>, padded: seq<bool>, j: nat)
    requires padded == message + ([true] + Zeros(j) + [true]) && (|message| + j + 2) % 1088 == 0
    ensures TenOne(message, padded, j)
  {
  }

  lemma MultipleOf1088(n: nat)
    requires n % 136 == 0
    ensures 8 * n % 1088 == 0
  {
    assert 8 * n == 1088 * (n / 136);
  }

  /** Two multiples of the rate less than a rate apart are one. */
  lemma SameMultiple(a: nat, b: nat)
    requires a % 136 == 0 && b % 136 == 0 && a <= b < a + 136
    ensures a == b
  {
    assert a == 136 * (a / 136) && b == 136 * (b / 136);
  }

  /** The buffer of the source: appended to, filled up to the rate, its last byte changed. */
  method Pad(data: seq<Byte>) returns (padded: seq<Byte>)
    ensures padded == Padded(data)
    ensures AreBytes(data) ==> exists j: nat :: j < 1088 && TenOne(Joined(data), Joined(padded), j)
  {
    if AreBytes(data) {
      var j := PaddedBits(data);
    }
    ghost var q := PadLength(|data|);
    padded := data + [PadByte()];
    ghost var zeros := 0;
    while |padded| % 136 != 0
      invariant zeros <= q - 1
      invariant padded == data + [PadByte()] + ZeroBytes(zeros)
      decreases q - zeros
    {
      Short(|data|, zeros);
      padded := padded + [ZeroByte()];
      assert ZeroBytes(zeros) + [ZeroByte()] == ZeroBytes(zeros + 1);
      zeros := zeros + 1;
    }
    SameMultiple(|data| + 1 + zeros, |data| + q);
    assert zeros == q - 1;
    var last := |padded| - 1;
    if zeros == 0 {
      assert padded[..last] == data && padded[last] == PadByte();
    } else {
      assert ZeroBytes(zeros) == ZeroBytes(zeros - 1) + [ZeroByte()];
      assert padded[..last] == data + [PadByte()] + ZeroBytes(zeros - 1) && padded[last] == ZeroByte();
    }
    padded := padded[..last] + [TopBitSet(padded[last])];
  }

  lemma Short(n: nat, zeros: nat)
    requires zeros <= PadLength(n) - 1 && (n + 1 + zeros) % 136 != 0
    ensures zeros < PadLength(n) - 1
  {
  }

  // ---- reading the message back ----------------------------------------------------------

  function TopBitCleared(b: Byte): Byte
  {
    if |b| == 8 then b[..7] + [false] else b
  }

  /** Drops zero bytes from the end, and the byte before them. */
  function Stripped(p: seq<Byte>): seq<Byte>
  {
    if p == [] then []
    else if p[|p| - 1] == ZeroByte() then Stripped(p[..|p| - 1])
    else p[..|p| - 1]
  }

  function Unpadded(p: seq<Byte>): seq<Byte>
  {
    if p == [] then [] else Stripped(p[..|p| - 1] + [TopBitCleared(p[|p| - 1])])
  }

  lemma {:induction false} StripZeros(data: seq<Byte>, n: nat)
    ensures Stripped(data + [PadByte()] + ZeroBytes(n)) == data
  {
    var p := data + [PadByte()] + ZeroBytes(n);
    assert PadByte()[0] != ZeroByte()[0];
    if n == 0 {
      assert p[..|p| - 1] == data && p[|p| - 1] == PadByte();
    } else {
      assert ZeroBytes(n) == ZeroBytes(n - 1) + [ZeroByte()];
      assert p[..|p| - 1] == data + [PadByte()] + ZeroBytes(n - 1);
      StripZeros(data, n - 1);
    }
  }

  function Cleared(p: seq<Byte>): seq<Byte>
    requires p != []
  {
    p[..|p| - 1] + [TopBitCleared(p[|p| - 1])]
  }

  lemma ClearedTail(q: nat)
    requires q >= 1
    ensures Cleared(PadTail(q)) == [PadByte()] + ZeroBytes(q - 1)
  {
    assert TopBitCleared(TopBitSet(PadByte())) == PadByte();
    assert TopBitCleared(TopBitSet(ZeroByte())) == ZeroByte();
    if q == 1 {
      assert ZeroBytes(0) == [];
    } else {
      assert ZeroBytes(q - 1) == ZeroBytes(q - 2) + [ZeroByte()];
    }
  }

  lemma ClearedAfter(data: seq<Byte>, tail: seq<Byte>)
    requires tail != []
    ensures Cleared(data + tail) == data + Cleared(tail)
  {
  }

  /** The message can be read back off its padding. */
  lemma UnpadPad(data: seq<Byte>)
    ensures Unpadded(Padded(data)) == data
  {
    var q := PaddedTail(data);
    ClearedAfter(data, PadTail(q));
    ClearedTail(q);
    StripZeros(data, q - 1);
    assert data + ([PadByte()] + ZeroBytes(q - 1)) == data + [PadByte()] + ZeroBytes(q - 1);
  }

  /**
   * The padding is injective over all byte strings, keeps the message as a prefix, and ends at
   * the least multiple of the rate above the message's length.
   */
  lemma PaddingInjective(a: seq<Byte>, b: seq<Byte>)
    ensures Padded(a) == Padded(b) <==> a == b
  {
    UnpadPad(a);
    UnpadPad(b);
  }

  lemma PaddedLeast(data: seq<Byte>, n: nat)
    ensures data <= Padded(data) && |Padded(data)| % 136 == 0 && |data| < |Padded(data)|
    ensures n % 136 == 0 && n > |data| ==> n >= |Padded(data)|
  {
    if n % 136 == 0 && |data| < n < |Padded(data)| {
      SameMultiple(n, |Padded(data)|);
    }
  }

  lemma PaddedBytes(data: seq<Byte>)
    requires AreBytes(data)
    ensures AreBytes(Padded(data))
  {
  }
}

/** Keccak-256 as coded is the sponge of FIPS 202 over bits, from the padding to the digest. */
module KeccakDigest {
  import Std = KeccakStandard
  import opened KeccakF
  import opened KeccakInjective
  import opened KeccakLanes
  import opened KeccakPadding
  import opened KeccakRefines
  import opened KeccakSponge

  /** The padding of a whole number of bytes in the standard's terms. */
  lemma PadIs(data: seq<Byte>)
    requires AreBytes(data)
    ensures Joined(Padded(data)) == Joined(data) + Std.Pad(|Joined(data)|)
  {
    var q := PaddedBits(data);
    PadBitsAre(data, q);
  }

  lemma PadBitsAre(data: seq<Byte>, q: nat)
    requires AreBytes(data) && 1 <= q <= 136 && (|data| + q) % 136 == 0
    ensures Std.Pad(|Joined(data)|) == [true] + Zeros(8 * q - 2) + [true]
  {
    JoinedLength(data);
    Remaining(|data|, q);
    StandardPad(|Joined(data)|, 8 * q - 2);
  }

  lemma StandardPad(m: nat, j: nat)
    requires (-2 - m) % 1088 == j
    ensures Std.Pad(m) == [true] + Zeros(j) + [true]
  {
    assert Zeros(j) == Std.Zeros(j);
  }

  lemma Remaining(n: nat, q: nat)
    requires 1 <= q <= 136 && (n + q) % 136 == 0
    ensures (-2 - 8 * n) % 1088 == 8 * q - 2
  {
    var t := (n + q) / 136;
    assert n + q == 136 * t;
    assert -2 - 8 * n == 8 * q - 2 - 1088 * t;
    Dropped(8 * q - 2, t);
  }

  lemma Dropped(r: nat, t: nat)
    requires r < 1088
    ensures (r - 1088 * t) % 1088 == r
  {
  }

  // ---- absorbing -------------------------------------------------------------------------

  lemma LaneBits(block: seq<Byte>, i: nat, z: nat)
    requires IsBlock(block) && i < 17 && z < 64
    ensures |Joined(block)| == 1088 && 64 * i + z < 1088
    ensures Joined(block)[64 * i + z] == KeccakLanes.Bit(LaneAt(block, i), z)
  {
    JoinedSlice(block, 8 * i, 8 * i + 8);
    JoinedLength(block[8 * i..8 * i + 8]);
    assert Joined(block)[64 * i..64 * i + 64][z] == Joined(block)[64 * i + z];
  }

  lemma AbsorbedBit(s: State, block: seq<Byte>, k: nat)
    requires Full(s) && IsBlock(block) && k < 1600
    ensures |Joined(block)| == 1088
    ensures Flat(Absorbed(s, block))[k] == (Flat(s)[k] != (Joined(block) + Std.Zeros(512))[k])
  {
    PlaceOf(k);
    var x, y, z := k / 64 % 5, k / 320, k % 64;
    LaneBits(block, 0, 0);
    assert At(Absorbed(s, block), x, y) == AbsorbCell(s, block, x, y);
    if x + 5 * y < 17 {
      LaneBits(block, x + 5 * y, z);
    }
  }

  lemma AbsorbedIs(s: State, block: seq<Byte>)
    requires Full(s) && IsBlock(block)
    ensures |Joined(block)| == 1088
    ensures Flat(Absorbed(s, block)) == Std.Xor(Flat(s), Joined(block) + Std.Zeros(512))
  {
    JoinedLength(block);
    forall k | 0 <= k < 1600
      ensures Flat(Absorbed(s, block))[k] == (Flat(s)[k] != (Joined(block) + Std.Zeros(512))[k])
    {
      AbsorbedBit(s, block, k);
    }
  }

  /** One step of the sponge, in both terms. */
  ghost predicate StepsLike(step: (State, seq<Byte>) -> State, rounds: nat)
  {
    forall s, b :: Full(s) && IsBlock(b) ==> StepLike(step, rounds, s, b)
  }

  ghost predicate StepLike(step: (State, seq<Byte>) -> State, rounds: nat, s: State, b: seq<Byte>)
  {
    && Full(step(s, b)) && |Joined(b)| == 1088
    && Flat(step(s, b)) == Std.Rounds(Std.Xor(Flat(s), Joined(b) + Std.Zeros(512)), rounds)
  }

  lemma AbsorbStepLike(rounds: nat)
    requires rounds == 24
    ensures StepsLike(AbsorbStep, rounds)
  {
    forall s, b | Full(s) && IsBlock(b) ensures StepLike(AbsorbStep, rounds, s, b) {
      AbsorbedFull(s, b);
      AbsorbStepFull(s, b);
      AbsorbedIs(s, b);
      PermuteIs(Absorbed(s, b), rounds);
    }
  }

  lemma BlankIs()
    ensures Full(Blank()) && Flat(Blank()) == Std.Zeros(1600)
  {
    BlankFull();
    forall k | 0 <= k < 1600 ensures !Flat(Blank())[k] {
      PlaceOf(k);
    }
  }

  lemma BlockOf(p: seq<Byte>, n: nat)
    requires AreBytes(p) && 136 * n + 136 <= |p|
    ensures IsBlock(p[136 * n..136 * n + 136]) && |Joined(p)| == 8 * |p|
    ensures Joined(p)[1088 * n..1088 * n + 1088] == Joined(p[136 * n..136 * n + 136])
  {
    JoinedSlice(p, 136 * n, 136 * n + 136);
  }

  lemma {:induction false} AbsorbIs(step: (State, seq<Byte>) -> State, p: seq<Byte>, n: nat, rounds: nat)
    requires AreBytes(p) && 136 * n <= |p| && StepsLike(step, rounds) && |Joined(p)| == 8 * |p|
    ensures Full(Fold(step, Blank(), p, n))
    ensures Flat(Fold(step, Blank(), p, n)) == Std.Absorb(Joined(p), n, rounds)
  {
    if n == 0 {
      BlankIs();
    } else {
      var m := n - 1;
      AbsorbIs(step, p, m, rounds);
      FoldedIs(step, p, m, rounds);
      assert m + 1 == n;
    }
  }

  lemma FoldedIs(step: (State, seq<Byte>) -> State, p: seq<Byte>, n: nat, rounds: nat)
    requires AreBytes(p) && 136 * n + 136 <= |p| && StepsLike(step, rounds) && |Joined(p)| == 8 * |p|
    requires Full(Fold(step, Blank(), p, n)) && Flat(Fold(step, Blank(), p, n)) == Std.Absorb(Joined(p), n, rounds)
    ensures Full(Fold(step, Blank(), p, n + 1))
    ensures Flat(Fold(step, Blank(), p, n + 1)) == Std.Absorb(Joined(p), n + 1, rounds)
  {
    FoldStep(step, Blank(), p, n);
    NextIs(step, Fold(step, Blank(), p, n), p, n, rounds);
  }

  lemma NextIs(step: (State, seq<Byte>) -> State, s: State, p: seq<Byte>, n: nat, rounds: nat)
    requires AreBytes(p) && 136 * n + 136 <= |p| && StepsLike(step, rounds) && |Joined(p)| == 8 * |p|
    requires Full(s) && Flat(s) == Std.Absorb(Joined(p), n, rounds)
    ensures var next := step(s, p[136 * n..136 * n + 136]);
            Full(next) && Flat(next) == Std.Absorb(Joined(p), n + 1, rounds)
  {
    BlockOf(p, n);
    var block := p[136 * n..136 * n + 136];
    assert StepLike(step, rounds, s, block);
    AbsorbOne(Joined(p), Joined(block), n, rounds);
  }

  lemma AbsorbOne(p: BitString, block: BitString, n: nat, rounds: nat)
    requires 1088 * n + 1088 <= |p| && block == p[1088 * n..1088 * n + 1088]
    ensures Std.Absorb(p, n + 1, rounds)
            == Std.Rounds(Std.Xor(Std.Absorb(p, n, rounds), block + Std.Zeros(512)), rounds)
  {
  }

  // ---- squeezing -------------------------------------------------------------------------

  lemma BytesJoin(v: Lane)
    requires |v| == 64
    ensures Joined(BytesOf(v)) == v
  {
    var b := BytesOf(v);
    EightBytes(b);
    assert v == v[0..8] + v[8..16] + v[16..24] + v[24..32] + v[32..40] + v[40..48] + v[48..56] + v[56..64];
  }

  lemma EightBytes(b: seq<Byte>)
    requires |b| == 8
    ensures Joined(b) == b[0] + b[1] + b[2] + b[3] + b[4] + b[5] + b[6] + b[7]
  {
    JoinedFront(b, 8);
  }

  lemma {:induction false} JoinedFront(b: seq<Byte>, n: nat)
    requires n == |b| == 8
    ensures Joined(b) == b[0] + b[1] + b[2] + b[3] + b[4] + b[5] + b[6] + b[7]
  {
    assert b == [b[0]] + [b[1]] + [b[2]] + [b[3]] + [b[4]] + [b[5]] + [b[6]] + [b[7]];
    JoinedAppend([b[0]] + [b[1]] + [b[2]] + [b[3]] + [b[4]] + [b[5]] + [b[6]], [b[7]]);
    JoinedAppend([b[0]] + [b[1]] + [b[2]] + [b[3]] + [b[4]] + [b[5]], [b[6]]);
    JoinedAppend([b[0]] + [b[1]] + [b[2]] + [b[3]] + [b[4]], [b[5]]);
    JoinedAppend([b[0]] + [b[1]] + [b[2]] + [b[3]], [b[4]]);
    JoinedAppend([b[0]] + [b[1]] + [b[2]], [b[3]]);
    JoinedAppend([b[0]] + [b[1]], [b[2]]);
    JoinedAppend([b[0]], [b[1]]);
    forall k | 0 <= k < 8 ensures Joined([b[k]]) == b[k] {
      JoinedOne(b[k]);
    }
  }

  lemma SqueezedIs(s: State)
    requires Full(s)
    ensures Joined(Squeezed(s)) == Flat(s)[..256]
  {
    var l0, l1, l2, l3 := At(s, 0, 0), At(s, 1, 0), At(s, 2, 0), At(s, 3, 0);
    BytesJoin(l0);
    BytesJoin(l1);
    BytesJoin(l2);
    BytesJoin(l3);
    JoinedAppend(BytesOf(l0), BytesOf(l1));
    JoinedAppend(BytesOf(l0) + BytesOf(l1), BytesOf(l2));
    JoinedAppend(BytesOf(l0) + BytesOf(l1) + BytesOf(l2), BytesOf(l3));
    FlatLane(s, 0);
    FlatLane(s, 1);
    FlatLane(s, 2);
    FlatLane(s, 3);
    FourParts(Flat(s));
  }

  lemma FourParts(b: BitString)
    requires |b| >= 256
    ensures b[..256] == b[0..64] + b[64..128] + b[128..192] + b[192..256]
  {
  }

  lemma FlatLane(s: State, x: nat)
    requires Full(s) && x < 5
    ensures Flat(s)[64 * x..64 * x + 64] == At(s, x, 0)
  {
    var part, lane := Flat(s)[64 * x..64 * x + 64], At(s, x, 0);
    forall z | 0 <= z < 64 ensures part[z] == lane[z] {
      LaneBit(s, x, z);
    }
  }

  lemma LaneBit(s: State, x: nat, z: nat)
    requires Full(s) && x < 5 && z < 64
    ensures Flat(s)[64 * x + z] == At(s, x, 0)[z]
  {
    Split(x, 0, z);
  }

  // ---- the digest ------------------------------------------------------------------------

  lemma BlocksOf(p: seq<Byte>)
    requires |p| % 136 == 0
    ensures 8 * |p| / 1088 == Blocks(p)
  {
  }

  /** The digest's bits are the first 256 bits the standard's sponge squeezes out. */
  lemma DigestIs(data: seq<Byte>, rounds: nat)
    requires AreBytes(data) && rounds == 24
    ensures Joined(Digest(data)) == Std.Sponge(Joined(data), rounds)
  {
    var p := Padded(data);
    PadIs(data);
    PaddedBytes(data);
    PaddedLeast(data, 0);
    BlocksOf(p);
    JoinedLength(p);
    AbsorbStepLike(rounds);
    AbsorbIs(AbsorbStep, p, Blocks(p), rounds);
    SqueezedIs(Absorb(p, Blocks(p)));
  }

  /** The whole digest, with the state kept in one array. */
  method Keccak256(data: seq<Byte>) returns (digest: seq<Byte>)
    ensures digest == Digest(data) && |digest| == 32
    ensures AreBytes(data) ==> Joined(digest) == Std.Sponge(Joined(data), 24)
  {
    var padded := Pad(data);
    PaddedLeast(data, 0);
    var state := new Lane[5, 5]((_, _) => Zero());
    BlankCells(state);
    AbsorbAll(state, padded, Blocks(padded), AbsorbStep);
    DigestFull(data);
    digest := Squeeze(state);
    if AreBytes(data) {
      DigestIs(data, 24);
    }
  }
}

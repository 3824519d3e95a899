/** The permutation as coded is Keccak-f[1600] of FIPS 202, bit for bit. */
module KeccakRefines {
  import Std = KeccakStandard
  import opened KeccakConstants
  import opened KeccakF
  import opened KeccakInjective
  import opened KeccakLanes

  type BitString = Std.BitString

  function BitAt(s: State, x: nat, y: nat, z: nat): bool
  {
    KeccakLanes.Bit(At(s, x, y), z)
  }

  /** The lanes as one string, in the order of section 3.1.2. */
  function Flat(s: State): (b: BitString)
    ensures |b| == 1600
  {
    Std.Make((x: nat, y: nat, z: nat) => BitAt(s, x, y, z))
  }

  lemma Split(x: nat, y: nat, z: nat)
    requires x < 5 && y < 5 && z < 64
    ensures var k := 64 * (5 * y + x) + z;
            k < 1600 && k / 64 % 5 == x && k / 320 == y && k % 64 == z
  {
    var k := 64 * (5 * y + x) + z;
    assert k / 64 == 5 * y + x;
  }

  lemma PlaceOf(k: nat)
    requires k < 1600
    ensures var x, y, z := k / 64 % 5, k / 320, k % 64;
            x < 5 && y < 5 && z < 64 && k == 64 * (5 * y + x) + z
  {
    var i := k / 64;
    assert k == 64 * i + k % 64;
    assert k / 320 == i / 5;
  }

  lemma MadeAt(f: (nat, nat, nat) -> bool, x: nat, y: nat, z: nat)
    requires x < 5 && y < 5 && z < 64
    ensures Std.A(Std.Make(f), x, y, z) == f(x, y, z)
  {
    Split(x, y, z);
  }

  lemma FlatAt(s: State, x: nat, y: nat, z: nat)
    requires x < 5 && y < 5 && z < 64
    ensures Std.A(Flat(s), x, y, z) == BitAt(s, x, y, z)
  {
    MadeAt((x: nat, y: nat, z: nat) => BitAt(s, x, y, z), x, y, z);
  }

  /** A state's string is the made one when the bits agree. */
  lemma FlatIs(s: State, f: (nat, nat, nat) -> bool)
    requires forall x: nat, y: nat, z: nat :: x < 5 && y < 5 && z < 64 ==> BitAt(s, x, y, z) == f(x, y, z)
    ensures Flat(s) == Std.Make(f)
  {
    forall k | 0 <= k < 1600 ensures Flat(s)[k] == Std.Make(f)[k] {
      PlaceOf(k);
    }
  }

  // ---- the step mappings -----------------------------------------------------------------

  lemma ColumnIs(s: State, x: nat, z: nat)
    requires x < 5 && z < 64
    ensures KeccakLanes.Bit(Column(s, x), z) == Std.C(Flat(s), x, z)
  {
    ColumnBit(s, x, z);
    FlatAt(s, x, 0, z);
    FlatAt(s, x, 1, z);
    FlatAt(s, x, 2, z);
    FlatAt(s, x, 3, z);
    FlatAt(s, x, 4, z);
  }

  lemma EffectIs(s: State, x: nat, z: nat)
    requires x < 5 && z < 64
    ensures KeccakLanes.Bit(Effect(s, x), z)
            == (Std.C(Flat(s), (x + 4) % 5, z) != Std.C(Flat(s), (x + 1) % 5, (z + 63) % 64))
  {
    XorRolBit(Column(s, (x + 4) % 5), Column(s, (x + 1) % 5), z);
    LaneDropped(z + 63, 1);
    ColumnIs(s, (x + 4) % 5, z);
    ColumnIs(s, (x + 1) % 5, (z + 63) % 64);
  }

  lemma ThetaIs(s: State)
    ensures Flat(Theta(s)) == Std.Theta(Flat(s))
  {
    var b := Flat(s);
    forall x: nat, y: nat, z: nat | x < 5 && y < 5 && z < 64
      ensures BitAt(Theta(s), x, y, z) == Std.ThetaBit(b, x, y, z)
    {
      ThetaBit(s, x, y, z);
      EffectIs(s, x, z);
      FlatAt(s, x, y, z);
    }
    FlatIs(Theta(s), (x: nat, y: nat, z: nat) => Std.ThetaBit(b, x, y, z));
  }

  lemma OffsetIsStandard(x: nat, y: nat)
    requires x < 5 && y < 5
    ensures Std.RhoOffset(x, y) % 64 == Offset(x, y)
  {
  }

  lemma RolBit(v: Lane, shift: nat, z: nat)
    requires |v| == 64 && z < 64
    ensures KeccakLanes.Bit(Rol(v, shift), z) == KeccakLanes.Bit(v, (z - shift) % 64)
  {
    RolMoves(v, shift, z);
    var q := shift / 64;
    assert z + 64 - shift % 64 == z - shift + 64 * (q + 1);
    LaneDropped(z - shift + 64 * (q + 1), q + 1);
  }

  lemma SameShift(z: nat, a: nat, b: nat)
    requires a % 64 == b % 64
    ensures (z - a) % 64 == (z - b) % 64
  {
    var p, q := a / 64, b / 64;
    assert z - a == z - a % 64 - 64 * p && z - b == z - b % 64 - 64 * q;
    LaneDropped(z - a % 64, p);
    LaneDropped(z - b % 64, q);
  }

  lemma RhoAt(b: BitString, x: nat, y: nat, z: nat)
    requires x < 5 && y < 5 && z < 64
    ensures Std.A(Std.Rho(b), x, y, z) == Std.RhoBit(b, x, y, z)
  {
    MadeAt((x: nat, y: nat, z: nat) => Std.RhoBit(b, x, y, z), x, y, z);
  }

  lemma TurnedBit(s: State, x: nat, y: nat, z: nat, standard: nat)
    requires Full(s) && x < 5 && y < 5 && z < 64 && standard % 64 == Offset(x, y)
    ensures KeccakLanes.Bit(Rotated(s, x, y), z) == Std.A(Flat(s), x, y, (z - standard) % 64)
  {
    RolBit(At(s, x, y), Offset(x, y), z);
    TurnSmall(x, y);
    SameShift(z, standard, Offset(x, y));
    FlatAt(s, x, y, (z - standard) % 64);
  }

  lemma RotatedBit(s: State, x: nat, y: nat, z: nat)
    requires Full(s) && x < 5 && y < 5 && z < 64
    ensures KeccakLanes.Bit(Rotated(s, x, y), z) == Std.RhoBit(Flat(s), x, y, z)
  {
    OffsetIsStandard(x, y);
    TurnedBit(s, x, y, z, Std.RhoOffset(x, y));
  }

  lemma TurnSmall(x: nat, y: nat)
    requires x < 5 && y < 5
    ensures Offset(x, y) < 64 && Offset(x, y) % 64 == Offset(x, y)
  {
  }

  /** One bit of rho followed by pi. */
  lemma RhoPiBit(s: State, x: nat, y: nat, z: nat)
    requires Full(s) && x < 5 && y < 5 && z < 64
    ensures BitAt(RhoPi(s), x, y, z) == Std.PiBit(Std.Rho(Flat(s)), x, y, z)
  {
    var from := (x + 3 * y) % 5;
    assert At(RhoPi(s), x, y) == Rotated(s, ComesFromColumn(x, y), x);
    RotatedBit(s, from, x, z);
    RhoAt(Flat(s), from, x, z);
  }

  lemma RhoPiIs(s: State)
    requires Full(s)
    ensures Flat(RhoPi(s)) == Std.Pi(Std.Rho(Flat(s)))
  {
    var r := Std.Rho(Flat(s));
    forall x: nat, y: nat, z: nat | x < 5 && y < 5 && z < 64 ensures BitAt(RhoPi(s), x, y, z) == Std.PiBit(r, x, y, z) {
      RhoPiBit(s, x, y, z);
    }
    FlatIs(RhoPi(s), (x: nat, y: nat, z: nat) => Std.PiBit(r, x, y, z));
  }

  lemma ChiIs(s: State)
    ensures Flat(Chi(s)) == Std.Chi(Flat(s))
  {
    var b := Flat(s);
    forall x: nat, y: nat, z: nat | x < 5 && y < 5 && z < 64 ensures BitAt(Chi(s), x, y, z) == Std.ChiBit(b, x, y, z) {
      ChiBitAt(s, x, (x + 1) % 5, (x + 2) % 5, y, z);
      FlatAt(s, x, y, z);
      FlatAt(s, (x + 1) % 5, y, z);
      FlatAt(s, (x + 2) % 5, y, z);
    }
    FlatIs(Chi(s), (x: nat, y: nat, z: nat) => Std.ChiBit(b, x, y, z));
  }

  // ---- the round constants ---------------------------------------------------------------

  function Pow2(g: nat): (p: nat)
    ensures p > 0
  {
    if g == 0 then 1 else 2 * Pow2(g - 1)
  }

  /** A number with zeros below: its bits come behind that many zero bits. */
  lemma {:induction false} BitsBehind(v: nat, g: nat, n: nat)
    requires g <= n
    ensures Bits(Pow2(g) * v, n) == Std.Zeros(g) + Bits(v, n - g)
  {
    if g > 0 {
      BitsBehind(v, g - 1, n - 1);
      assert Pow2(g) * v == 2 * (Pow2(g - 1) * v);
      LowBit(false, Pow2(g - 1) * v, n);
      assert Std.Zeros(g) == [false] + Std.Zeros(g - 1);
    } else {
      assert Std.Zeros(0) == [];
    }
  }

  lemma LowBit(b: bool, v: nat, n: nat)
    requires n > 0
    ensures Bits((if b then 1 else 0) + 2 * v, n) == [b] + Bits(v, n - 1)
  {
  }

  /** One bit, then `g` zeros, then the bits of `v`. */
  function Above(b: bool, g: nat, v: nat): nat
  {
    (if b then 1 else 0) + 2 * (Pow2(g) * v)
  }

  function Sparse(b: bool, g: nat, t: BitString): BitString
  {
    [b] + Std.Zeros(g) + t
  }

  lemma AboveBits(b: bool, g: nat, v: nat, n: nat, t: BitString)
    requires g + 1 <= n && Bits(v, n - 1 - g) == t
    ensures Bits(Above(b, g, v), n) == Sparse(b, g, t)
  {
    BitsBehind(v, g, n - 1);
    LowBits(b, Pow2(g) * v, n, Std.Zeros(g), t);
  }

  lemma LowBits(b: bool, w: nat, n: nat, zeros: BitString, t: BitString)
    requires n > 0 && Bits(w, n - 1) == zeros + t
    ensures Bits((if b then 1 else 0) + 2 * w, n) == [b] + zeros + t
  {
    LowBit(b, w, n);
    assert [b] + (zeros + t) == [b] + zeros + t;
  }

  lemma SparseAt(b: bool, g: nat, t: BitString, z: nat)
    requires z < 1 + g + |t|
    ensures |Sparse(b, g, t)| == 1 + g + |t|
    ensures Sparse(b, g, t)[z] == if z == 0 then b else if z <= g then false else t[z - 1 - g]
  {
  }

  lemma OneBit(b: bool)
    ensures Bits(if b then 1 else 0, 1) == [b]
  {
  }

  function FourAbove(b: seq<bool>): nat
    requires |b| == 7
  {
    Above(b[3], 7, Above(b[4], 15, Above(b[5], 31, if b[6] then 1 else 0)))
  }

  function FourSpread(b: seq<bool>): BitString
    requires |b| == 7
  {
    Sparse(b[3], 7, Sparse(b[4], 15, Sparse(b[5], 31, [b[6]])))
  }

  /** Seven bits at the places 2^j - 1. */
  function Seven(b: seq<bool>): nat
    requires |b| == 7
  {
    Above(b[0], 0, Above(b[1], 1, Above(b[2], 3, FourAbove(b))))
  }

  function SevenSpread(b: seq<bool>): BitString
    requires |b| == 7
  {
    Sparse(b[0], 0, Sparse(b[1], 1, Sparse(b[2], 3, FourSpread(b))))
  }

  lemma FourBits(b: seq<bool>, n: nat)
    requires |b| == 7 && n == 64
    ensures Bits(FourAbove(b), n - 7) == FourSpread(b)
  {
    var v6: nat := if b[6] then 1 else 0;
    var v5 := Above(b[5], 31, v6);
    OneBit(b[6]);
    AboveBits(b[5], 31, v6, n - 31, [b[6]]);
    AboveBits(b[4], 15, v5, n - 15, Sparse(b[5], 31, [b[6]]));
    AboveBits(b[3], 7, Above(b[4], 15, v5), n - 7, Sparse(b[4], 15, Sparse(b[5], 31, [b[6]])));
  }

  lemma ThreeBits(b: seq<bool>, v3: nat, t3: BitString, n: nat)
    requires |b| == 7 && n == 64 && Bits(v3, n - 7) == t3
    ensures Bits(Above(b[0], 0, Above(b[1], 1, Above(b[2], 3, v3))), n)
            == Sparse(b[0], 0, Sparse(b[1], 1, Sparse(b[2], 3, t3)))
  {
    var v2, t2 := Above(b[2], 3, v3), Sparse(b[2], 3, t3);
    AboveBits(b[2], 3, v3, n - 3, t3);
    AboveBits(b[1], 1, v2, n - 1, t2);
    AboveBits(b[0], 0, Above(b[1], 1, v2), n, Sparse(b[1], 1, t2));
  }

  lemma SevenBits(b: seq<bool>, n: nat)
    requires |b| == 7 && n == 64
    ensures Bits(Seven(b), n) == SevenSpread(b)
  {
    FourBits(b, n);
    ThreeBits(b, FourAbove(b), FourSpread(b), n);
  }

  lemma SpreadAt(b: seq<bool>, z: nat)
    requires |b| == 7 && z < 64
    ensures |SevenSpread(b)| == 64
    ensures SevenSpread(b)[z]
            == (|| (z == 0 && b[0]) || (z == 1 && b[1]) || (z == 3 && b[2]) || (z == 7 && b[3])
                || (z == 15 && b[4]) || (z == 31 && b[5]) || (z == 63 && b[6]))
  {
    var t5 := Sparse(b[5], 31, [b[6]]);
    var t4 := Sparse(b[4], 15, t5);
    var t3 := Sparse(b[3], 7, t4);
    var t2 := Sparse(b[2], 3, t3);
    var t1 := Sparse(b[1], 1, t2);
    SparseAt(b[5], 31, [b[6]], if z < 31 then 0 else z - 31);
    SparseAt(b[4], 15, t5, if z < 15 then 0 else z - 15);
    SparseAt(b[3], 7, t4, if z < 7 then 0 else z - 7);
    SparseAt(b[2], 3, t3, if z < 3 then 0 else z - 3);
    SparseAt(b[1], 1, t2, if z < 1 then 0 else z - 1);
    SparseAt(b[0], 0, t1, z);
  }

  lemma Powers()
    ensures Pow2(0) == 1 && Pow2(1) == 2 && Pow2(3) == 8 && Pow2(7) == 128
    ensures Pow2(15) == 0x8000 && Pow2(31) == 0x8000_0000
  {
    assert Pow2(11) == 2048 && Pow2(19) == 0x8_0000 && Pow2(23) == 0x80_0000 && Pow2(27) == 0x800_0000;
  }

  lemma SevenIs(b: seq<bool>)
    requires |b| == 7
    ensures Seven(b)
            == KeccakConstants.Bit(b[0], 0x1) + KeccakConstants.Bit(b[1], 0x2) + KeccakConstants.Bit(b[2], 0x8)
               + KeccakConstants.Bit(b[3], 0x80) + KeccakConstants.Bit(b[4], 0x8000)
               + KeccakConstants.Bit(b[5], 0x8000_0000) + KeccakConstants.Bit(b[6], 0x8000_0000_0000_0000)
  {
    Powers();
  }

  /** The bits of a round constant are the shift register's. */
  ghost predicate Matches(constant: Lane, round: nat)
  {
    |constant| == 64 && forall z :: 0 <= z < 64 ==> constant[z] == Std.RC(round, z)
  }

  function Outputs(round: nat): (b: seq<bool>)
    ensures |b| == 7
  {
    [RegisterAt(7 * round).r0, RegisterAt(7 * round + 1).r0, RegisterAt(7 * round + 2).r0, RegisterAt(7 * round + 3).r0,
     RegisterAt(7 * round + 4).r0, RegisterAt(7 * round + 5).r0, RegisterAt(7 * round + 6).r0]
  }

  lemma OutputsMatch(round: nat, constant: Lane)
    requires constant == SevenSpread(Outputs(round))
    ensures Matches(constant, round)
  {
    SpreadAt(Outputs(round), 0);
    forall z | 0 <= z < 64 ensures constant[z] == Std.RC(round, z) {
      SpreadAt(Outputs(round), z);
    }
  }

  lemma ConstantMatches(round: nat, n: nat)
    requires round < 24 && n == 64
    ensures Matches(Bits(RoundConstants()[round], n), round)
  {
    ConstantIs(round);
    SevenMatch(round, Outputs(round), RoundConstants()[round], n);
  }

  lemma ConstantIs(round: nat)
    requires round < 24
    ensures RoundConstants()[round] == Seven(Outputs(round))
  {
    ConstantsAreStandard(round);
    SevenIs(Outputs(round));
  }

  lemma SevenMatch(round: nat, b: seq<bool>, value: nat, n: nat)
    requires b == Outputs(round) && value == Seven(b) && n == 64
    ensures Matches(Bits(value, n), round)
  {
    SevenBits(b, n);
    OutputsMatch(round, Bits(value, n));
  }

  lemma IotaIs(s: State, constant: Lane, round: nat)
    requires Matches(constant, round)
    ensures Flat(Iota(s, constant)) == Std.Iota(Flat(s), round)
  {
    var b, t := Flat(s), Iota(s, constant);
    forall x: nat, y: nat, z: nat | x < 5 && y < 5 && z < 64
      ensures BitAt(t, x, y, z) == Std.IotaBit(b, round, x, y, z)
    {
      assert At(t, x, y) == IotaCell(s, constant, x, y);
      FlatAt(s, x, y, z);
    }
    FlatIs(t, (x: nat, y: nat, z: nat) => Std.IotaBit(b, round, x, y, z));
  }

  lemma RoundIs(s: State, constant: Lane, round: nat)
    requires Full(s) && Matches(constant, round)
    ensures Flat(Round(s, constant)) == Std.Round(Flat(s), round)
  {
    ThetaFull(s);
    ThetaIs(s);
    RhoPiIs(Theta(s));
    ChiIs(RhoPi(Theta(s)));
    IotaIs(Chi(RhoPi(Theta(s))), constant, round);
  }

  lemma {:induction false} RoundsAre(s: State, constants: seq<nat>, n: nat)
    requires Full(s) && n <= |constants|
    requires forall k :: 0 <= k < |constants| ==> Matches(Bits(constants[k], 64), k)
    ensures Flat(Rounds(s, constants[..n])) == Std.Rounds(Flat(s), n)
  {
    if n > 0 {
      RoundsAre(s, constants, n - 1);
      RoundsStep(s, constants, n - 1);
      RoundsFull(s, constants[..n - 1]);
      RoundIs(Rounds(s, constants[..n - 1]), Bits(constants[n - 1], 64), n - 1);
    } else {
      assert constants[..0] == [];
    }
  }

  /** Twenty-four rounds of the code are Keccak-f[1600]. */
  lemma PermuteIs(s: State, rounds: nat)
    requires Full(s) && rounds == 24
    ensures Flat(Permute(s)) == Std.Rounds(Flat(s), rounds)
  {
    var constants := RoundConstants();
    assert constants[..rounds] == constants;
    forall k | 0 <= k < |constants| ensures Matches(Bits(constants[k], 64), k) {
      ConstantMatches(k, 64);
    }
    RoundsAre(s, constants, rounds);
  }
}

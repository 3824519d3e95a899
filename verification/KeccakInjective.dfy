/** Keccak-f[1600] as coded loses nothing: it is injective on states, step by step. */
module KeccakInjective {
  import opened KeccakF
  import opened KeccakLanes

  /** Twenty-five full lanes. */
  ghost predicate Full(s: State)
  {
    IsState(s) && forall x, y :: 0 <= x < 5 && 0 <= y < 5 ==> |At(s, x, y)| == 64
  }

  lemma SameLane(v: Lane, w: Lane)
    requires |v| == |w| == 64 && forall z :: 0 <= z < 64 ==> Bit(v, z) == Bit(w, z)
    ensures v == w
  {
    forall z | 0 <= z < 64 ensures v[z] == w[z] {
      assert Bit(v, z) == Bit(w, z);
    }
  }

  lemma XorCancels(v: Lane, w: Lane, mask: Lane)
    requires |v| == |w| == 64 && Xor(v, mask) == Xor(w, mask)
    ensures v == w
  {
    forall z | 0 <= z < 64 ensures Bit(v, z) == Bit(w, z) {
      assert Xor(v, mask)[z] == Xor(w, mask)[z];
    }
    SameLane(v, w);
  }

  // ---- theta -----------------------------------------------------------------------------

  /** A plane of bits, continued round in both directions. */
  type Plane = (int, int) -> bool

  /** One bit plus the one `m` columns back and the one `m` columns on, `m` places down. */
  predicate SpreadBit(c: Plane, m: int, x: int, z: int)
  {
    (c(x, z) != c(x - m, z)) != c(x + m, z - m)
  }

  ghost predicate SpreadsAgree(c: Plane, d: Plane, m: int)
  {
    forall x, z :: SpreadBit(c, m, x, z) == SpreadBit(d, m, x, z)
  }

  /** Spreading twice by `m` is spreading once by `2 * m`: the cross terms cancel. */
  lemma SpreadTwice(c: Plane, m: int, x: int, z: int)
    ensures SpreadBit(c, 2 * m, x, z)
            == ((SpreadBit(c, m, x, z) != SpreadBit(c, m, x - m, z)) != SpreadBit(c, m, x + m, z - m))
  {
    assert x - m - m == x - 2 * m && x - m + m == x && x + m - m == x && x + m + m == x + 2 * m;
    assert z - m - m == z - 2 * m;
  }

  lemma AgreeDoubles(c: Plane, d: Plane, m: int)
    requires SpreadsAgree(c, d, m)
    ensures SpreadsAgree(c, d, 2 * m)
  {
    forall x, z ensures SpreadBit(c, 2 * m, x, z) == SpreadBit(d, 2 * m, x, z) {
      SpreadTwice(c, m, x, z);
      SpreadTwice(d, m, x, z);
    }
  }

  ghost predicate Periodic(c: Plane)
  {
    forall x, z :: PeriodicAt(c, x, z)
  }

  predicate PeriodicAt(c: Plane, x: int, z: int)
  {
    c(x, z) == c(x + 5, z) == c(x, z + 64)
  }

  lemma {:induction false} ColumnsRound(c: Plane, x: int, z: int, n: int)
    requires Periodic(c)
    ensures c(x + 5 * n, z) == c(x, z)
    decreases if n < 0 then -n else n
  {
    if n > 0 {
      ColumnsRound(c, x, z, n - 1);
      assert PeriodicAt(c, x + 5 * (n - 1), z);
    } else if n < 0 {
      ColumnsRound(c, x, z, n + 1);
      assert PeriodicAt(c, x + 5 * n, z);
    }
  }

  lemma {:induction false} PlacesRound(c: Plane, x: int, z: int, n: int)
    requires Periodic(c)
    ensures c(x, z + 64 * n) == c(x, z)
    decreases if n < 0 then -n else n
  {
    if n > 0 {
      PlacesRound(c, x, z, n - 1);
      assert PeriodicAt(c, x, z + 64 * (n - 1));
    } else if n < 0 {
      PlacesRound(c, x, z, n + 1);
      assert PeriodicAt(c, x, z + 64 * n);
    }
  }

  lemma RoundBack(c: Plane, x: int, z: int, n: int, k: int)
    requires Periodic(c)
    ensures c(x + 5 * n, z + 64 * k) == c(x, z)
  {
    ColumnsRound(c, x, z + 64 * k, n);
    PlacesRound(c, x, z, k);
  }

  lemma SpreadRoundBack(c: Plane, x: int, z: int, n: int, k: int)
    requires Periodic(c)
    ensures SpreadBit(c, 1, x + 5 * n, z + 64 * k) == SpreadBit(c, 1, x, z)
  {
    RoundBack(c, x, z, n, k);
    RoundBack(c, x - 1, z, n, k);
    RoundBack(c, x + 1, z - 1, n, k);
    assert x - 1 + 5 * n == x + 5 * n - 1 && x + 1 + 5 * n == x + 5 * n + 1;
    assert z - 1 + 64 * k == z + 64 * k - 1;
  }

  /** Six doublings lead round the lane: what is left adds a bit and its two neighbours in the row. */
  lemma SpreadRound(c: Plane, x: int, z: int)
    requires Periodic(c)
    ensures SpreadBit(c, 64, x, z) == ((c(x, z) != c(x + 1, z)) != c(x + 4, z))
  {
    ColumnsRound(c, x - 64, z, 13);
    ColumnsRound(c, x + 4, z, 12);
    assert PeriodicAt(c, x + 64, z - 64);
  }

  /** The neighbours of three places give the one bit back. */
  lemma BitFromRows(c: Plane, x: int, z: int)
    requires Periodic(c)
    ensures c(x, z) == ((SpreadBit(c, 64, x, z) != SpreadBit(c, 64, x + 2, z)) != SpreadBit(c, 64, x + 3, z))
  {
    SpreadRound(c, x, z);
    SpreadRound(c, x + 2, z);
    SpreadRound(c, x + 3, z);
    assert PeriodicAt(c, x + 1, z) && PeriodicAt(c, x + 2, z);
  }

  lemma SpreadInjective(c: Plane, d: Plane)
    requires Periodic(c) && Periodic(d) && SpreadsAgree(c, d, 1)
    ensures forall x, z :: c(x, z) == d(x, z)
  {
    AgreeDoubles(c, d, 1);
    AgreeDoubles(c, d, 2);
    AgreeDoubles(c, d, 4);
    AgreeDoubles(c, d, 8);
    AgreeDoubles(c, d, 16);
    AgreeDoubles(c, d, 32);
    forall x, z ensures c(x, z) == d(x, z) {
      BitFromRows(c, x, z);
      BitFromRows(d, x, z);
    }
  }

  /** The column parities of a state, continued. */
  function Parities(s: State): Plane
  {
    (x: int, z: int) => Bit(Column(s, x % 5), z % 64)
  }

  lemma ParitiesPeriodic(s: State)
    ensures Periodic(Parities(s))
  {
    forall x, z ensures PeriodicAt(Parities(s), x, z) {
      assert (x + 5) % 5 == x % 5 && (z + 64) % 64 == z % 64;
    }
  }

  lemma XorRolBit(p: Lane, q: Lane, z: nat)
    requires |q| == 64 && z < 64
    ensures Bit(Xor(p, Rol(q, 1)), z) == (Bit(p, z) != Bit(q, (z - 1) % 64))
  {
    RolMoves(q, 1, z);
    LaneDropped(z + 63, 1);
  }

  lemma EffectBit(s: State, x: nat, z: nat)
    requires x < 5 && z < 64
    ensures Bit(Effect(s, x), z) == (Parities(s)(x - 1, z) != Parities(s)(x + 1, z - 1))
  {
    XorRolBit(Column(s, (x + 4) % 5), Column(s, (x + 1) % 5), z);
    ParityBefore(s, x, z);
    ParityAfter(s, x, z);
  }

  lemma ParityBefore(s: State, x: nat, z: nat)
    requires z < 64
    ensures Parities(s)(x - 1, z) == Bit(Column(s, (x + 4) % 5), z)
  {
    FiveDropped(x + 4, 1);
    ParitiesOf(s, x - 1, z, (x + 4) % 5, z);
  }

  lemma ParityAfter(s: State, x: nat, z: nat)
    ensures Parities(s)(x + 1, z - 1) == Bit(Column(s, (x + 1) % 5), (z - 1) % 64)
  {
    ParitiesOf(s, x + 1, z - 1, (x + 1) % 5, (z - 1) % 64);
  }

  lemma ParitiesOf(s: State, x: int, z: int, column: nat, place: nat)
    requires x % 5 == column && z % 64 == place
    ensures Parities(s)(x, z) == Bit(Column(s, column), place)
  {
  }

  lemma FiveDropped(n: int, q: int)
    ensures (n - 5 * q) % 5 == n % 5
  {
  }

  lemma LaneDropped(n: int, q: int)
    ensures (n - 64 * q) % 64 == n % 64
  {
  }

  lemma ThetaAt(s: State, x: nat, y: nat)
    requires x < 5 && y < 5
    ensures At(Theta(s), x, y) == Xor(At(s, x, y), Effect(s, x))
  {
    assert At(Theta(s), x, y) == ThetaCell(s, x, y);
  }

  lemma ColumnBit(s: State, x: nat, z: nat)
    requires x < 5 && z < 64
    ensures Bit(Column(s, x), z)
            == ((((Bit(At(s, x, 0), z) != Bit(At(s, x, 1), z)) != Bit(At(s, x, 2), z)) != Bit(At(s, x, 3), z))
                != Bit(At(s, x, 4), z))
  {
  }

  lemma ThetaBit(s: State, x: nat, y: nat, z: nat)
    requires x < 5 && y < 5 && z < 64
    ensures Bit(At(Theta(s), x, y), z) == (Bit(At(s, x, y), z) != Bit(Effect(s, x), z))
  {
    ThetaAt(s, x, y);
  }

  /** An odd number of equal terms leaves one of them. */
  lemma FiveEffects(b0: bool, b1: bool, b2: bool, b3: bool, b4: bool, e: bool)
    ensures (((((b0 != e) != (b1 != e)) != (b2 != e)) != (b3 != e)) != (b4 != e))
            == (((((b0 != b1) != b2) != b3) != b4) != e)
  {
  }

  lemma ColumnAfterTheta(s: State, x: nat, z: nat)
    requires x < 5 && z < 64
    ensures Bit(Column(Theta(s), x), z) == (Bit(Column(s, x), z) != Bit(Effect(s, x), z))
  {
    var t, e := Theta(s), Bit(Effect(s, x), z);
    ThetaBit(s, x, 0, z);
    ThetaBit(s, x, 1, z);
    ThetaBit(s, x, 2, z);
    ThetaBit(s, x, 3, z);
    ThetaBit(s, x, 4, z);
    ColumnBit(s, x, z);
    ColumnBit(t, x, z);
    FiveEffects(Bit(At(s, x, 0), z), Bit(At(s, x, 1), z), Bit(At(s, x, 2), z), Bit(At(s, x, 3), z),
                Bit(At(s, x, 4), z), e);
  }

  lemma ParitiesAt(s: State, x: nat, z: nat)
    requires x < 5 && z < 64
    ensures Parities(s)(x, z) == Bit(Column(s, x), z)
  {
  }

  lemma SpreadFrom(c: Plane, x: int, z: int, here: bool, effect: bool)
    requires here == c(x, z) && effect == (c(x - 1, z) != c(x + 1, z - 1))
    ensures SpreadBit(c, 1, x, z) == (here != effect)
  {
  }

  /** Theta spreads the column parities. */
  lemma ThetaParity(s: State, x: nat, z: nat)
    requires x < 5 && z < 64
    ensures Bit(Column(Theta(s), x), z) == SpreadBit(Parities(s), 1, x, z)
  {
    var here, effect := Bit(Column(s, x), z), Bit(Effect(s, x), z);
    ColumnAfterTheta(s, x, z);
    ParitiesAt(s, x, z);
    EffectBit(s, x, z);
    SpreadFrom(Parities(s), x, z, here, effect);
  }

  /** Agreement on one period is agreement. */
  lemma AgreeEverywhere(c: Plane, d: Plane)
    requires Periodic(c) && Periodic(d)
    requires forall x, z :: 0 <= x < 5 && 0 <= z < 64 ==> SpreadBit(c, 1, x, z) == SpreadBit(d, 1, x, z)
    ensures SpreadsAgree(c, d, 1)
  {
    forall x, z ensures SpreadBit(c, 1, x, z) == SpreadBit(d, 1, x, z) {
      SpreadRoundBack(c, x % 5, z % 64, x / 5, z / 64);
      SpreadRoundBack(d, x % 5, z % 64, x / 5, z / 64);
    }
  }

  lemma ColumnsRecovered(s: State, t: State, x: nat)
    requires Theta(s) == Theta(t) && x < 5
    ensures Column(s, x) == Column(t, x)
  {
    forall i, z | 0 <= i < 5 && 0 <= z < 64
      ensures SpreadBit(Parities(s), 1, i, z) == SpreadBit(Parities(t), 1, i, z)
    {
      ThetaParity(s, i, z);
      ThetaParity(t, i, z);
    }
    ParitiesPeriodic(s);
    ParitiesPeriodic(t);
    AgreeEverywhere(Parities(s), Parities(t));
    SpreadInjective(Parities(s), Parities(t));
    forall z | 0 <= z < 64 ensures Bit(Column(s, x), z) == Bit(Column(t, x), z) {
      ParitiesAt(s, x, z);
      ParitiesAt(t, x, z);
    }
    SameLane(Column(s, x), Column(t, x));
  }

  /** Theta is injective: the parities after it determine the parities before it. */
  lemma ThetaInjective(s: State, t: State)
    requires Full(s) && Full(t) && Theta(s) == Theta(t)
    ensures s == t
  {
    forall x, y | 0 <= x < 5 && 0 <= y < 5 ensures At(s, x, y) == At(t, x, y) {
      ColumnsRecovered(s, t, (x + 4) % 5);
      ColumnsRecovered(s, t, (x + 1) % 5);
      ThetaAt(s, x, y);
      ThetaAt(t, x, y);
      XorCancels(At(s, x, y), At(t, x, y), Effect(s, x));
    }
    SameState(s, t);
  }

  // ---- rho and pi, chi, iota -------------------------------------------------------------

  lemma RhoPiInjective(s: State, t: State)
    requires Full(s) && Full(t) && RhoPi(s) == RhoPi(t)
    ensures s == t
  {
    forall x, y | 0 <= x < 5 && 0 <= y < 5 ensures At(s, x, y) == At(t, x, y) {
      PiBijective(x, y);
      assert At(RhoPi(s), y, GoesToRow(x, y)) == Rotated(s, x, y);
      assert At(RhoPi(t), y, GoesToRow(x, y)) == Rotated(t, x, y);
      RolInjective(At(s, x, y), At(t, x, y), Offset(x, y));
    }
    SameState(s, t);
  }

  predicate ChiBit(a: bool, b: bool, c: bool)
  {
    a != (!b && c)
  }

  /** A row of five bits can be read back from what chi makes of it. */
  lemma RowInjective(a0: bool, a1: bool, a2: bool, a3: bool, a4: bool, b0: bool, b1: bool, b2: bool, b3: bool, b4: bool)
    requires ChiBit(a0, a1, a2) == ChiBit(b0, b1, b2)
    requires ChiBit(a1, a2, a3) == ChiBit(b1, b2, b3)
    requires ChiBit(a2, a3, a4) == ChiBit(b2, b3, b4)
    requires ChiBit(a3, a4, a0) == ChiBit(b3, b4, b0)
    requires ChiBit(a4, a0, a1) == ChiBit(b4, b0, b1)
    ensures a0 == b0
  {
  }

  lemma ChiBitAt(s: State, x: nat, next: nat, last: nat, y: nat, z: nat)
    requires x < 5 && y < 5 && z < 64 && next == (x + 1) % 5 && last == (x + 2) % 5
    ensures Bit(At(Chi(s), x, y), z) == ChiBit(Bit(At(s, x, y), z), Bit(At(s, next, y), z), Bit(At(s, last, y), z))
  {
    assert At(Chi(s), x, y) == ChiCell(s, x, y);
  }

  function Next(x: nat): nat
  {
    if x >= 4 then 0 else x + 1
  }

  lemma NextIs(x: nat)
    requires x < 5
    ensures Next(x) == (x + 1) % 5 && Next(Next(x)) == (x + 2) % 5
  {
  }

  /** The equations of a whole row, read from column `x` on. */
  lemma ChiBitRecovered(s: State, t: State, x: nat, y: nat, z: nat)
    requires Chi(s) == Chi(t) && x < 5 && y < 5 && z < 64
    ensures Bit(At(s, x, y), z) == Bit(At(t, x, y), z)
  {
    var x1, x2, x3, x4 := Next(x), Next(Next(x)), Next(Next(Next(x))), Next(Next(Next(Next(x))));
    ChiBitsEqual(s, t, x, y, z);
    ChiBitsEqual(s, t, x1, y, z);
    ChiBitsEqual(s, t, x2, y, z);
    ChiBitsEqual(s, t, x3, y, z);
    ChiBitsEqual(s, t, x4, y, z);
    RowInjective(Bit(At(s, x, y), z), Bit(At(s, x1, y), z), Bit(At(s, x2, y), z), Bit(At(s, x3, y), z),
                 Bit(At(s, x4, y), z),
                 Bit(At(t, x, y), z), Bit(At(t, x1, y), z), Bit(At(t, x2, y), z), Bit(At(t, x3, y), z),
                 Bit(At(t, x4, y), z));
  }

  lemma ChiBitsEqual(s: State, t: State, x: nat, y: nat, z: nat)
    requires Chi(s) == Chi(t) && x < 5 && y < 5 && z < 64
    ensures ChiBit(Bit(At(s, x, y), z), Bit(At(s, Next(x), y), z), Bit(At(s, Next(Next(x)), y), z))
            == ChiBit(Bit(At(t, x, y), z), Bit(At(t, Next(x), y), z), Bit(At(t, Next(Next(x)), y), z))
  {
    NextIs(x);
    ChiBitAt(s, x, Next(x), Next(Next(x)), y, z);
    ChiBitAt(t, x, Next(x), Next(Next(x)), y, z);
  }

  lemma ChiInjective(s: State, t: State)
    requires Full(s) && Full(t) && Chi(s) == Chi(t)
    ensures s == t
  {
    forall x, y | 0 <= x < 5 && 0 <= y < 5 ensures At(s, x, y) == At(t, x, y) {
      forall z | 0 <= z < 64 ensures Bit(At(s, x, y), z) == Bit(At(t, x, y), z) {
        ChiBitRecovered(s, t, x, y, z);
      }
      SameLane(At(s, x, y), At(t, x, y));
    }
    SameState(s, t);
  }

  lemma IotaInjective(s: State, t: State, constant: Lane)
    requires Full(s) && Full(t) && Iota(s, constant) == Iota(t, constant)
    ensures s == t
  {
    forall x, y | 0 <= x < 5 && 0 <= y < 5 ensures At(s, x, y) == At(t, x, y) {
      assert At(Iota(s, constant), x, y) == IotaCell(s, constant, x, y);
      assert At(Iota(t, constant), x, y) == IotaCell(t, constant, x, y);
      if x == 0 && y == 0 {
        XorCancels(At(s, 0, 0), At(t, 0, 0), constant);
      }
    }
    SameState(s, t);
  }

  // ---- all rounds ------------------------------------------------------------------------

  lemma ThetaFull(s: State)
    ensures Full(Theta(s))
  {
    forall x, y | 0 <= x < 5 && 0 <= y < 5 ensures |At(Theta(s), x, y)| == 64 {
      ThetaAt(s, x, y);
    }
  }

  lemma RhoPiFull(s: State)
    ensures Full(RhoPi(s))
  {
    forall x, y | 0 <= x < 5 && 0 <= y < 5 ensures |At(RhoPi(s), x, y)| == 64 {
      assert At(RhoPi(s), x, y) == Rotated(s, ComesFromColumn(x, y), x);
    }
  }

  lemma ChiFull(s: State)
    ensures Full(Chi(s))
  {
    forall x, y | 0 <= x < 5 && 0 <= y < 5 ensures |At(Chi(s), x, y)| == 64 {
      assert At(Chi(s), x, y) == ChiCell(s, x, y);
    }
  }

  lemma IotaFull(s: State, constant: Lane)
    requires Full(s)
    ensures Full(Iota(s, constant))
  {
    forall x, y | 0 <= x < 5 && 0 <= y < 5 ensures |At(Iota(s, constant), x, y)| == 64 {
      assert At(Iota(s, constant), x, y) == IotaCell(s, constant, x, y);
    }
  }

  lemma RoundInjective(s: State, t: State, constant: Lane)
    requires Full(s) && Full(t) && Round(s, constant) == Round(t, constant)
    ensures s == t
  {
    var u, v := Theta(s), Theta(t);
    ThetaFull(s);
    ThetaFull(t);
    RhoPiFull(u);
    RhoPiFull(v);
    ChiFull(RhoPi(u));
    ChiFull(RhoPi(v));
    IotaInjective(Chi(RhoPi(u)), Chi(RhoPi(v)), constant);
    ChiInjective(RhoPi(u), RhoPi(v));
    RhoPiInjective(u, v);
    ThetaInjective(s, t);
  }

  lemma RoundFull(s: State, constant: Lane)
    ensures Full(Round(s, constant))
  {
    ChiFull(RhoPi(Theta(s)));
    IotaFull(Chi(RhoPi(Theta(s))), constant);
  }

  lemma RoundsFull(s: State, constants: seq<nat>)
    requires Full(s)
    ensures Full(Rounds(s, constants))
  {
    if constants != [] {
      var last := |constants| - 1;
      RoundFull(Rounds(s, constants[..last]), Bits(constants[last], 64));
    }
  }

  lemma BackOneRound(s: State, t: State, constants: seq<nat>)
    requires Full(s) && Full(t) && constants != [] && Rounds(s, constants) == Rounds(t, constants)
    ensures Rounds(s, constants[..|constants| - 1]) == Rounds(t, constants[..|constants| - 1])
  {
    var earlier := constants[..|constants| - 1];
    RoundsFull(s, earlier);
    RoundsFull(t, earlier);
    RoundInjective(Rounds(s, earlier), Rounds(t, earlier), Bits(constants[|constants| - 1], 64));
  }

  lemma {:induction false} RoundsInjective(s: State, t: State, constants: seq<nat>)
    requires Full(s) && Full(t) && Rounds(s, constants) == Rounds(t, constants)
    ensures s == t
    decreases |constants|
  {
    if constants != [] {
      BackOneRound(s, t, constants);
      RoundsInjective(s, t, constants[..|constants| - 1]);
    }
  }

  /** Keccak-f[1600] takes different states to different states. */
  lemma PermuteInjective(s: State, t: State)
    requires Full(s) && Full(t)
    ensures Permute(s) == Permute(t) <==> s == t
  {
    if Permute(s) == Permute(t) {
      RoundsInjective(s, t, RoundConstants());
    }
  }

  lemma PermuteFull(s: State)
    requires Full(s)
    ensures Full(Permute(s))
  {
    RoundsFull(s, RoundConstants());
  }
}

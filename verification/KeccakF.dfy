/** The permutation Keccak-f[1600] as it is computed in place, against its step mappings. */
module KeccakF {
  import opened KeccakLanes

  /** Columns of lanes, indexed [x][y] as in section 3.1.2 of FIPS 202. */
  type State = seq<seq<Lane>>

  ghost predicate IsState(s: State)
  {
    |s| == 5 && forall x :: 0 <= x < 5 ==> |s[x]| == 5
  }

  function At(s: State, x: nat, y: nat): Lane
  {
    if x < |s| && y < |s[x]| then s[x][y] else []
  }

  function Grid(f: (nat, nat) -> Lane): (s: State)
    ensures IsState(s)
    ensures forall x, y :: 0 <= x < 5 && 0 <= y < 5 ==> At(s, x, y) == f(x, y)
  {
    seq(5, x requires 0 <= x => seq(5, y requires 0 <= y => f(x, y)))
  }

  lemma SameState(s: State, t: State)
    requires IsState(s) && IsState(t)
    requires forall x, y :: 0 <= x < 5 && 0 <= y < 5 ==> At(s, x, y) == At(t, x, y)
    ensures s == t
  {
    forall x | 0 <= x < 5 ensures s[x] == t[x] {
      forall y | 0 <= y < 5 ensures s[x][y] == t[x][y] {
        assert At(s, x, y) == At(t, x, y);
      }
    }
  }

  // ---- the step mappings -----------------------------------------------------------------

  function Column(s: State, x: nat): Lane
  {
    Xor(Xor(Xor(Xor(At(s, x, 0), At(s, x, 1)), At(s, x, 2)), At(s, x, 3)), At(s, x, 4))
  }

  function Effect(s: State, x: nat): Lane
  {
    Xor(Column(s, (x + 4) % 5), Rol(Column(s, (x + 1) % 5), 1))
  }

  function ThetaCell(s: State, x: nat, y: nat): Lane
  {
    Xor(At(s, x, y), Effect(s, x))
  }

  function Theta(s: State): State
  {
    Grid((x: nat, y: nat) => ThetaCell(s, x, y))
  }

  function Offset(x: nat, y: nat): nat
    requires x < 5 && y < 5
  {
    [[0, 36, 3, 41, 18],
     [1, 44, 10, 45, 2],
     [62, 6, 43, 15, 61],
     [28, 55, 25, 21, 56],
     [27, 20, 39, 8, 14]][x][y]
  }

  /** The row the scatter loop puts lane (x, y) in; the column is y. */
  function GoesToRow(x: nat, y: nat): nat
  {
    (2 * x + 3 * y) % 5
  }

  /** The column place (x, y) is filled from; the row is x. */
  function ComesFromColumn(x: nat, y: nat): nat
  {
    (x + 3 * y) % 5
  }

  /** Lane (x, y) as rho turns it. */
  function Rotated(s: State, x: nat, y: nat): Lane
  {
    if x < 5 && y < 5 then Rol(At(s, x, y), Offset(x, y)) else []
  }

  /** Rho and pi together: each place gets the one rotated lane that belongs there. */
  function RhoPi(s: State): State
  {
    Grid((x: nat, y: nat) => Rotated(s, ComesFromColumn(x, y), x))
  }

  function ChiCell(s: State, x: nat, y: nat): Lane
  {
    Xor(At(s, x, y), And(Not(At(s, (x + 1) % 5, y)), At(s, (x + 2) % 5, y)))
  }

  function Chi(s: State): State
  {
    Grid((x: nat, y: nat) => ChiCell(s, x, y))
  }

  function RoundConstants(): (r: seq<nat>)
    ensures |r| == 24
  {
    [0x0000000000000001, 0x0000000000008082, 0x800000000000808A, 0x8000000080008000,
     0x000000000000808B, 0x0000000080000001, 0x8000000080008081, 0x8000000000008009,
     0x000000000000008A, 0x0000000000000088, 0x0000000080008009, 0x000000008000000A,
     0x000000008000808B, 0x800000000000008B, 0x8000000000008089, 0x8000000000008003,
     0x8000000000008002, 0x8000000000000080, 0x000000000000800A, 0x800000008000000A,
     0x8000000080008081, 0x8000000000008080, 0x0000000080000001, 0x8000000080008008]
  }

  function IotaCell(s: State, constant: Lane, x: nat, y: nat): Lane
  {
    if x == 0 && y == 0 then Xor(At(s, 0, 0), constant) else At(s, x, y)
  }

  function Iota(s: State, constant: Lane): State
  {
    Grid((x: nat, y: nat) => IotaCell(s, constant, x, y))
  }

  function Round(s: State, constant: Lane): State
  {
    Iota(Chi(RhoPi(Theta(s))), constant)
  }

  /** A round for each of the constants, in order. */
  function Rounds(s: State, constants: seq<nat>): State
  {
    if constants == [] then s
    else
      var last := |constants| - 1;
      Round(Rounds(s, constants[..last]), Bits(constants[last], 64))
  }

  function Permute(s: State): State
  {
    Rounds(s, RoundConstants())
  }

  // ---- rho and pi move each lane to one place --------------------------------------------

  lemma ModFive(t: int, r: nat)
    requires r < 5
    ensures (5 * t + r) % 5 == r
  {
  }

  /** Each of the 25 places is filled from exactly one lane, and each lane fills exactly one. */
  lemma PiBijective(x: nat, y: nat)
    requires x < 5 && y < 5
    ensures GoesToRow(ComesFromColumn(x, y), x) == y
    ensures ComesFromColumn(y, GoesToRow(x, y)) == x
  {
    FilledFrom(x, y);
    FilledBy(x, y);
  }

  lemma FilledFrom(x: nat, y: nat)
    requires x < 5 && y < 5
    ensures GoesToRow(ComesFromColumn(x, y), x) == y
  {
    var q := (x + 3 * y) / 5;
    assert (x + 3 * y) % 5 == x + 3 * y - 5 * q;
    assert 2 * ((x + 3 * y) % 5) + 3 * x == 5 * (x + y - 2 * q) + y;
    ModFive(x + y - 2 * q, y);
  }

  lemma FilledBy(x: nat, y: nat)
    requires x < 5 && y < 5
    ensures ComesFromColumn(y, GoesToRow(x, y)) == x
  {
    var q := (2 * x + 3 * y) / 5;
    assert (2 * x + 3 * y) % 5 == 2 * x + 3 * y - 5 * q;
    assert y + 3 * ((2 * x + 3 * y) % 5) == 5 * (x + 2 * y - 3 * q) + x;
    ModFive(x + 2 * y - 3 * q, x);
  }

  // ---- in place --------------------------------------------------------------------------

  predicate Square(a: array2<Lane>)
  {
    a.Length0 == 5 && a.Length1 == 5
  }

  ghost function View(a: array2<Lane>): (s: State)
    requires Square(a)
    reads a
    ensures IsState(s)
    ensures forall x, y :: 0 <= x < 5 && 0 <= y < 5 ==> At(s, x, y) == a[x, y]
  {
    seq(5, x requires 0 <= x < 5 && Square(a) reads a => seq(5, y requires 0 <= y < 5 && Square(a) reads a => a[x, y]))
  }

  lemma ViewIs(a: array2<Lane>, t: State)
    requires Square(a) && IsState(t)
    requires forall x, y :: 0 <= x < 5 && 0 <= y < 5 ==> a[x, y] == At(t, x, y)
    ensures View(a) == t
  {
    SameState(View(a), t);
  }

  /** The theta loop proper: column `x` takes its effect in every lane. */
  method XorColumns(a: array2<Lane>, d: seq<Lane>)
    requires Square(a) && |d| == 5
    modifies a
    ensures forall i, j :: 0 <= i < 5 && 0 <= j < 5 ==> a[i, j] == Xor(old(a[i, j]), d[i])
  {
    for x := 0 to 5
      invariant forall i, j :: 0 <= i < x && 0 <= j < 5 ==> a[i, j] == Xor(old(a[i, j]), d[i])
      invariant forall i, j :: x <= i < 5 && 0 <= j < 5 ==> a[i, j] == old(a[i, j])
    {
      for y := 0 to 5
        invariant forall i, j :: 0 <= i < x && 0 <= j < 5 ==> a[i, j] == Xor(old(a[i, j]), d[i])
        invariant forall i, j :: x < i < 5 && 0 <= j < 5 ==> a[i, j] == old(a[i, j])
        invariant forall j :: 0 <= j < y ==> a[x, j] == Xor(old(a[x, j]), d[x])
        invariant forall j :: y <= j < 5 ==> a[x, j] == old(a[x, j])
      {
        a[x, y] := Xor(a[x, y], d[x]);
      }
    }
  }

  function CellColumn(a: array2<Lane>, x: nat): Lane
    requires Square(a) && x < 5
    reads a
  {
    Xor(Xor(Xor(Xor(a[x, 0], a[x, 1]), a[x, 2]), a[x, 3]), a[x, 4])
  }

  function EffectOf(c: seq<Lane>, x: nat): Lane
    requires |c| == 5
  {
    Xor(c[(x + 4) % 5], Rol(c[(x + 1) % 5], 1))
  }

  lemma ColumnOf(a: array2<Lane>, x: nat)
    requires Square(a) && x < 5
    ensures CellColumn(a, x) == Column(View(a), x)
  {
  }

  /** The two list comprehensions of theta. */
  method ColumnEffects(a: array2<Lane>) returns (d: seq<Lane>)
    requires Square(a)
    ensures |d| == 5 && forall x :: 0 <= x < 5 ==> d[x] == Effect(View(a), x)
  {
    var c := seq(5, x requires 0 <= x < 5 && Square(a) reads a => CellColumn(a, x));
    forall x | 0 <= x < 5 ensures c[x] == Column(View(a), x) {
      ColumnOf(a, x);
    }
    d := seq(5, x requires 0 <= x < 5 => EffectOf(c, x));
  }

  method ThetaInPlace(a: array2<Lane>)
    requires Square(a)
    modifies a
    ensures View(a) == Theta(old(View(a)))
  {
    ghost var s := View(a);
    var d := ColumnEffects(a);
    XorColumns(a, d);
    ThetaCells(a, s, d);
  }

  lemma ThetaCells(a: array2<Lane>, s: State, d: seq<Lane>)
    requires Square(a) && |d| == 5 && forall x :: 0 <= x < 5 ==> d[x] == Effect(s, x)
    requires forall i, j :: 0 <= i < 5 && 0 <= j < 5 ==> a[i, j] == Xor(At(s, i, j), d[i])
    ensures View(a) == Theta(s)
  {
    var t := Theta(s);
    forall x, y | 0 <= x < 5 && 0 <= y < 5 ensures a[x, y] == At(t, x, y) {
      assert At(t, x, y) == ThetaCell(s, x, y);
    }
    ViewIs(a, t);
  }

  /** The scatter loop; that no lane overwrites another is `PiBijective`. */
  method RhoPiScatter(a: array2<Lane>) returns (b: array2<Lane>)
    requires Square(a)
    ensures fresh(b) && Square(b) && View(b) == RhoPi(View(a))
  {
    b := new Lane[5, 5]((_, _) => Zero());
    for x := 0 to 5
      invariant fresh(b) && Square(b)
      invariant forall i, j :: 0 <= i < x && 0 <= j < 5 ==> b[j, GoesToRow(i, j)] == Rol(a[i, j], Offset(i, j))
    {
      for y := 0 to 5
        invariant fresh(b) && Square(b)
        invariant forall i, j :: 0 <= i < x && 0 <= j < 5 ==> b[j, GoesToRow(i, j)] == Rol(a[i, j], Offset(i, j))
        invariant forall j :: 0 <= j < y ==> b[j, GoesToRow(x, j)] == Rol(a[x, j], Offset(x, j))
      {
        var row := (2 * x + 3 * y) % 5;
        ScatterApart(x, y);
        b[y, row] := Rol(a[x, y], Offset(x, y));
      }
    }
    GatherAll(a, b);
  }

  lemma ScatterApart(x: nat, y: nat)
    requires x < 5 && y < 5
    ensures GoesToRow(x, y) == (2 * x + 3 * y) % 5
    ensures forall i, j :: 0 <= i < 5 && 0 <= j < 5 && j == y && GoesToRow(i, j) == GoesToRow(x, y) ==> i == x
  {
    forall i, j | 0 <= i < 5 && 0 <= j < 5 && j == y && GoesToRow(i, j) == GoesToRow(x, y) ensures i == x {
      FilledBy(i, y);
      FilledBy(x, y);
    }
  }

  lemma GatherAll(a: array2<Lane>, b: array2<Lane>)
    requires Square(a) && Square(b)
    requires forall i, j :: 0 <= i < 5 && 0 <= j < 5 ==> b[j, GoesToRow(i, j)] == Rol(a[i, j], Offset(i, j))
    ensures View(b) == RhoPi(View(a))
  {
    var s, t := View(a), RhoPi(View(a));
    forall x, y | 0 <= x < 5 && 0 <= y < 5 ensures b[x, y] == At(t, x, y) {
      FilledFrom(x, y);
      assert b[x, GoesToRow(ComesFromColumn(x, y), x)] == b[x, y];
      assert At(t, x, y) == Rotated(s, ComesFromColumn(x, y), x);
    }
    ViewIs(b, t);
  }

  function ChiOf(b: array2<Lane>, x: nat, y: nat): Lane
    requires Square(b) && x < 5 && y < 5
    reads b
  {
    Xor(b[x, y], And(Not(b[(x + 1) % 5, y]), b[(x + 2) % 5, y]))
  }

  /** The chi loop reads the scattered lanes and writes the state. */
  method ChiBack(a: array2<Lane>, b: array2<Lane>)
    requires Square(a) && Square(b) && a != b
    modifies a
    ensures View(a) == Chi(View(b))
  {
    for x := 0 to 5
      invariant forall i, j :: 0 <= i < x && 0 <= j < 5 ==> a[i, j] == ChiOf(b, i, j)
    {
      for y := 0 to 5
        invariant forall i, j :: 0 <= i < x && 0 <= j < 5 ==> a[i, j] == ChiOf(b, i, j)
        invariant forall j :: 0 <= j < y ==> a[x, j] == ChiOf(b, x, j)
      {
        a[x, y] := Xor(b[x, y], And(Not(b[(x + 1) % 5, y]), b[(x + 2) % 5, y]));
      }
    }
    ChiCells(a, b);
  }

  lemma ChiCells(a: array2<Lane>, b: array2<Lane>)
    requires Square(a) && Square(b)
    requires forall i, j :: 0 <= i < 5 && 0 <= j < 5 ==> a[i, j] == ChiOf(b, i, j)
    ensures View(a) == Chi(View(b))
  {
    var s, t := View(b), Chi(View(b));
    forall x, y | 0 <= x < 5 && 0 <= y < 5 ensures a[x, y] == At(t, x, y) {
      assert At(t, x, y) == ChiCell(s, x, y);
    }
    ViewIs(a, t);
  }

  method IotaInPlace(a: array2<Lane>, constant: Lane)
    requires Square(a)
    modifies a
    ensures View(a) == Iota(old(View(a)), constant)
  {
    ghost var s := View(a);
    a[0, 0] := Xor(a[0, 0], constant);
    ghost var t := Iota(s, constant);
    forall x, y | 0 <= x < 5 && 0 <= y < 5 ensures a[x, y] == At(t, x, y) {
      assert At(t, x, y) == IotaCell(s, constant, x, y);
    }
    ViewIs(a, t);
  }

  method RoundInPlace(a: array2<Lane>, constant: Lane)
    requires Square(a)
    modifies a
    ensures View(a) == Round(old(View(a)), constant)
  {
    ThetaInPlace(a);
    var b := RhoPiScatter(a);
    ChiBack(a, b);
    IotaInPlace(a, constant);
  }

  /** Round after round in the one array. */
  method RoundsInPlace(a: array2<Lane>, constants: seq<nat>)
    requires Square(a)
    modifies a
    ensures View(a) == Rounds(old(View(a)), constants)
  {
    ghost var s := View(a);
    assert constants[..0] == [];
    for round := 0 to |constants|
      invariant View(a) == Rounds(s, constants[..round])
    {
      RoundInPlace(a, Bits(constants[round], 64));
      RoundsStep(s, constants, round);
    }
    assert constants[..|constants|] == constants;
  }

  lemma RoundsStep(s: State, constants: seq<nat>, k: nat)
    requires k < |constants|
    ensures Rounds(s, constants[..k + 1]) == Round(Rounds(s, constants[..k]), Bits(constants[k], 64))
  {
    assert constants[..k + 1][..k] == constants[..k];
  }

  method PermuteInPlace(a: array2<Lane>)
    requires Square(a)
    modifies a
    ensures View(a) == Permute(old(View(a)))
  {
    RoundsInPlace(a, RoundConstants());
  }
}

/** The rho offsets of the table are those of section 3.2.2 of FIPS 202. */
module KeccakOffsets {
  import opened KeccakF

  function Onward(p: (nat, nat)): (nat, nat)
  {
    (p.1, GoesToRow(p.0, p.1))
  }

  /** The walk over the lanes that section 3.2.2 of FIPS 202 gives the offsets along. */
  function Walk(t: nat): (nat, nat)
  {
    if t == 0 then (1, 0) else Onward(Walk(t - 1))
  }

  /** The places of the walk, written out. */
  function Place(t: nat): (nat, nat)
  {
    match t
    case 0 => (1, 0)
    case 1 => (0, 2)
    case 2 => (2, 1)
    case 3 => (1, 2)
    case 4 => (2, 3)
    case 5 => (3, 3)
    case 6 => (3, 0)
    case 7 => (0, 1)
    case 8 => (1, 3)
    case 9 => (3, 1)
    case 10 => (1, 4)
    case 11 => (4, 4)
    case 12 => (4, 0)
    case 13 => (0, 3)
    case 14 => (3, 4)
    case 15 => (4, 3)
    case 16 => (3, 2)
    case 17 => (2, 2)
    case 18 => (2, 0)
    case 19 => (0, 4)
    case 20 => (4, 2)
    case 21 => (2, 4)
    case 22 => (4, 1)
    case _ => (1, 1)
  }

  /** The step between two listed places, without the remainder. */
  lemma PlaceLinear(t: nat) returns (k: nat)
    requires t < 23
    ensures Place(t + 1).0 == Place(t).1 && Place(t + 1).1 < 5
    ensures 2 * Place(t).0 + 3 * Place(t).1 == 5 * k + Place(t + 1).1
  {
    var d := 2 * Place(t).0 + 3 * Place(t).1 - Place(t + 1).1;
    assert d == 0 || d == 5 || d == 10 || d == 15 || d == 20;
    k := if d == 0 then 0 else if d == 5 then 1 else if d == 10 then 2 else if d == 15 then 3 else 4;
  }

  lemma StepFrom(p: (nat, nat), q: (nat, nat), k: nat)
    requires q.0 == p.1 && q.1 < 5 && 2 * p.0 + 3 * p.1 == 5 * k + q.1
    ensures q == Onward(p)
  {
    ModFive(k, q.1);
  }

  lemma PlaceStep(t: nat)
    requires t < 23
    ensures Place(t + 1) == Onward(Place(t))
  {
    var k := PlaceLinear(t);
    StepFrom(Place(t), Place(t + 1), k);
  }

  lemma {:induction false} WalkIs(place: nat -> (nat, nat), t: nat)
    requires place(0) == (1, 0)
    requires forall k: nat :: k < t ==> place(k + 1) == Onward(place(k))
    ensures Walk(t) == place(t)
  {
    if t > 0 {
      WalkIs(place, t - 1);
      assert place(t - 1 + 1) == Onward(place(t - 1));
    }
  }

  lemma WalkPlace(t: nat)
    requires t < 24
    ensures Walk(t) == Place(t)
  {
    forall k: nat | k < t ensures Place(k + 1) == Onward(Place(k)) {
      PlaceStep(k);
    }
    WalkIs(Place, t);
  }

  /** The sum of 1 to t + 1, which is (t + 1)(t + 2) / 2. */
  function Triangular(t: nat): nat
  {
    if t == 0 then 1 else Triangular(t - 1) + t + 1
  }

  lemma {:induction false} TriangularClosed(t: nat)
    ensures 2 * Triangular(t) == (t + 1) * (t + 2)
  {
    if t > 0 {
      TriangularClosed(t - 1);
    }
  }

  function OffsetHere(t: nat): nat
  {
    if Place(t).0 < 5 && Place(t).1 < 5 then Offset(Place(t).0, Place(t).1) else 0
  }

  function Wrapped(n: nat): nat
  {
    if n < 64 then n else n - 64
  }

  lemma OffsetStep(t: nat)
    requires t < 23
    ensures OffsetHere(t + 1) == Wrapped(OffsetHere(t) + t + 2)
  {
  }

  lemma {:induction false} OffsetIs(offset: nat -> nat, t: nat)
    requires t < 24 && offset(0) == 1
    requires forall k: nat :: k < t ==> offset(k + 1) == Wrapped(offset(k) + k + 2)
    ensures offset(t) == Triangular(t) % 64
  {
    if t > 0 {
      OffsetIs(offset, t - 1);
      assert offset(t - 1 + 1) == Wrapped(offset(t - 1) + t + 1);
      ModStep(Triangular(t - 1), t + 1);
    }
  }

  lemma OffsetAtPlace(t: nat)
    requires t < 24
    ensures OffsetHere(t) == Triangular(t) % 64
  {
    forall k: nat | k < t ensures OffsetHere(k + 1) == Wrapped(OffsetHere(k) + k + 2) {
      OffsetStep(k);
    }
    OffsetIs(OffsetHere, t);
  }

  lemma PlaceInside(t: nat)
    ensures Place(t).0 < 5 && Place(t).1 < 5
  {
  }

  lemma ModStep(n: nat, d: nat)
    requires d < 64
    ensures (n + d) % 64 == if n % 64 + d < 64 then n % 64 + d else n % 64 + d - 64
  {
    assert n == 64 * (n / 64) + n % 64;
  }

  /** The table has the standard's offsets: (t + 1)(t + 2) / 2 modulo 64 at the walk's place t, and 0 at (0, 0). */
  lemma OffsetsAreTriangular(t: nat)
    requires t < 24
    ensures Walk(t).0 < 5 && Walk(t).1 < 5
    ensures Offset(Walk(t).0, Walk(t).1) == Triangular(t) % 64 && 2 * Triangular(t) == (t + 1) * (t + 2)
  {
    WalkPlace(t);
    PlaceInside(t);
    OffsetAtPlace(t);
    TriangularClosed(t);
  }
}

/**
 * The transition artifact's `byte_length`: a number that states the length of the canonical
 * bytes it is itself written in.
 */
module ByteLength {
  import opened Decimals
  import opened Outcomes

  const MAX_DIGITS := 20

  function Pow10(d: nat): nat
  {
    if d == 0 then 1 else 10 * Pow10(d - 1)
  }

  /** An artifact seen from its `byte_length` field: the canonical text on either side of it. */
  datatype Document = Document(before: string, after: string, byteLength: nat) {
    function CanonicalBytes(): string
    {
      before + Decimal(byteLength) + after
    }

    /** The length of everything but the number. */
    function Constant(): nat
    {
      |before| + |after|
    }
  }

  /** The number states the length of the bytes that hold it. */
  predicate FixedPoint(doc: Document, n: nat)
  {
    |doc.(byteLength := n).CanonicalBytes()| == n
  }

  /** The validator's check of a document against the bytes it was served as. */
  predicate ServedLengthOk(doc: Document, served: string)
  {
    served == doc.CanonicalBytes() && doc.byteLength > 0 && doc.byteLength == |served|
  }

  /** `c + d` is written with exactly `d` digits. */
  predicate Solves(c: nat, d: nat)
  {
    d >= 1 && Pow10(d - 1) <= c + d < Pow10(d)
  }

  /** The boundary below which lengths take `d` digits and above which they take `d + 1`. */
  predicate Boundary(c: nat, d: nat)
  {
    d >= 1 && c == Pow10(d) - 1 - d
  }

  // ---- digits ----------------------------------------------------------------------------

  lemma {:induction false} DecimalLength(n: nat, d: nat)
    requires d >= 1 && n >= 1
    ensures |Decimal(n)| == d <==> Pow10(d - 1) <= n < Pow10(d)
    decreases n
  {
    if n >= 10 {
      if d >= 2 {
        DecimalLength(n / 10, d - 1);
        assert Pow10(d - 1) == 10 * Pow10(d - 2);
      } else {
        assert Pow10(1) == 10 * Pow10(0);
        assert |Decimal(n / 10)| >= 1 by {
          DecimalNonEmpty(n / 10);
        }
      }
    } else if d == 1 {
      assert Pow10(1) == 10 * Pow10(0);
    } else {
      assert Pow10(d - 1) == 10 * Pow10(d - 2);
      PowPositive(d - 2);
    }
  }

  lemma DecimalNonEmpty(n: nat)
    ensures |Decimal(n)| >= 1
  {
  }

  lemma {:induction false} PowPositive(d: nat)
    ensures Pow10(d) >= d + 1
  {
    if d > 0 {
      PowPositive(d - 1);
    }
  }

  lemma {:induction false} PowGap(d: nat, k: nat)
    ensures Pow10(d + k) >= Pow10(d) + 9 * k
    decreases k
  {
    if k > 0 {
      PowGap(d, k - 1);
      PowPositive(d);
    }
  }

  // ---- how many solutions n = C + digits(n) has ------------------------------------------

  /** The solutions are the numbers `C + d` that take `d` digits. */
  lemma FixedPointIffSolves(doc: Document, n: nat)
    ensures FixedPoint(doc, n) <==> n > doc.Constant() && Solves(doc.Constant(), n - doc.Constant())
  {
    DecimalNonEmpty(n);
    if n > doc.Constant() {
      DecimalLength(n, n - doc.Constant());
    }
  }

  /** The least digit count whose numbers are long enough; it always solves. */
  function LeastDigits(c: nat, d: nat): (r: nat)
    requires d >= 1 && Pow10(d - 1) <= c + d
    ensures r >= d && Solves(c, r)
    ensures r > d ==> c + r - 1 >= Pow10(r - 1)
    decreases c + 2 - d
  {
    PowPositive(d - 1);
    if c + d < Pow10(d) then d
    else
      PowPositive(d);
      LeastDigits(c, d + 1)
  }

  /** Two digit counts solve only when they are adjacent and `C` is `10^d - 1 - d`. */
  lemma TwoSolutions(c: nat, d: nat, e: nat)
    requires d < e && Solves(c, d) && Solves(c, e)
    ensures e == d + 1 && Boundary(c, d)
  {
    PowGap(d, e - 1 - d);
  }

  lemma AmbiguousSolves(c: nat, d: nat)
    requires Boundary(c, d)
    ensures Solves(c, d) && Solves(c, d + 1)
  {
    assert Pow10(d) == 10 * Pow10(d - 1) && Pow10(d + 1) == 10 * Pow10(d);
    PowPositive(d - 1);
  }

  lemma TwoFixedPoints(doc: Document, m: nat, n: nat)
    requires FixedPoint(doc, m) && FixedPoint(doc, n) && m < n
    ensures n == m + 1 && exists d :: Boundary(doc.Constant(), d) && m == Pow10(d) - 1
  {
    var c := doc.Constant();
    FixedPointIffSolves(doc, m);
    FixedPointIffSolves(doc, n);
    TwoSolutions(c, m - c, n - c);
    assert Boundary(c, m - c);
  }

  lemma BoundaryHasTwo(doc: Document, d: nat)
    requires Boundary(doc.Constant(), d)
    ensures FixedPoint(doc, Pow10(d) - 1) && FixedPoint(doc, Pow10(d))
  {
    AmbiguousSolves(doc.Constant(), d);
    FixedPointIffSolves(doc, Pow10(d) - 1);
    FixedPointIffSolves(doc, Pow10(d));
  }

  /** At least one length fits every document, at most two, and two only on a boundary. */
  lemma SolutionCount(doc: Document)
    ensures exists n :: FixedPoint(doc, n)
    ensures forall m, n :: FixedPoint(doc, m) && FixedPoint(doc, n) && m < n ==> n == m + 1
    ensures (exists m, n :: m < n && FixedPoint(doc, m) && FixedPoint(doc, n))
            <==> exists d :: Boundary(doc.Constant(), d)
  {
    var c := doc.Constant();
    var d := LeastDigits(c, 1);
    FixedPointIffSolves(doc, c + d);
    forall m, n | FixedPoint(doc, m) && FixedPoint(doc, n) && m < n
      ensures n == m + 1 && exists d :: Boundary(c, d)
    {
      TwoFixedPoints(doc, m, n);
    }
    if exists d :: Boundary(c, d) {
      var e :| Boundary(c, e);
      BoundaryHasTwo(doc, e);
    }
  }

  // ---- the search ------------------------------------------------------------------------

  /** What the search collects over digit counts 1 .. k. */
  function SolutionsUpTo(c: nat, k: nat): seq<nat>
  {
    if k == 0 then [] else SolutionsUpTo(c, k - 1) + if Solves(c, k) then [c + k] else []
  }

  /** Some digit count within the search solves. */
  predicate Covered(c: nat)
  {
    c + MAX_DIGITS < Pow10(MAX_DIGITS)
  }

  /** `C` sits on one of the boundaries the search can see. */
  predicate Ambiguous(c: nat)
  {
    exists d | 1 <= d < MAX_DIGITS :: Boundary(c, d)
  }

  lemma {:induction false} SolutionsShape(c: nat, k: nat)
    ensures forall n :: n in SolutionsUpTo(c, k) <==> n > c && n - c <= k && Solves(c, n - c)
    ensures forall i, j :: 0 <= i < j < |SolutionsUpTo(c, k)| ==> SolutionsUpTo(c, k)[i] < SolutionsUpTo(c, k)[j]
  {
    if k > 0 {
      SolutionsShape(c, k - 1);
      var front := SolutionsUpTo(c, k - 1);
      if Solves(c, k) {
        assert SolutionsUpTo(c, k) == front + [c + k];
        forall i | 0 <= i < |front| ensures front[i] < c + k {
          assert front[i] in front;
        }
      } else {
        assert SolutionsUpTo(c, k) == front;
      }
    }
  }

  lemma {:induction false} CoveredUpwards(c: nat, d: nat, e: nat)
    requires d <= e && c + d < Pow10(d)
    ensures c + e < Pow10(e)
  {
    PowGap(d, e - d);
  }

  /** The search finds exactly one length precisely off the boundaries and within its range. */
  lemma SearchIsDecisive(c: nat)
    ensures |SolutionsUpTo(c, MAX_DIGITS)| == 1 <==> Covered(c) && !Ambiguous(c)
  {
    var found := SolutionsUpTo(c, MAX_DIGITS);
    SolutionsShape(c, MAX_DIGITS);
    var d := LeastDigits(c, 1);
    if Covered(c) {
      if d > MAX_DIGITS {
        CoveredUpwards(c, MAX_DIGITS, d - 1);
        assert false;
      }
      assert c + d in found;
      if |found| >= 2 {
        TwoSolutionsFound(c, found);
      }
      if Ambiguous(c) {
        var e :| 1 <= e < MAX_DIGITS && Boundary(c, e);
        AmbiguousSolves(c, e);
        assert c + e in found && c + e + 1 in found;
      }
    } else if found != [] {
      assert found[0] in found;
      CoveredUpwards(c, found[0] - c, MAX_DIGITS);
    }
  }

  lemma TwoSolutionsFound(c: nat, found: seq<nat>)
    requires found == SolutionsUpTo(c, MAX_DIGITS) && |found| >= 2
    ensures Ambiguous(c)
  {
    SolutionsShape(c, MAX_DIGITS);
    assert found[0] in found && found[1] in found;
    TwoSolutions(c, found[0] - c, found[1] - c);
    assert Boundary(c, found[0] - c);
  }

  /**
   * The producer's half: the field is rewritten for every digit count, each fit is collected,
   * and anything but one fit is refused.
   */
  method Finalize(artifact: Document) returns (r: Result<Document, seq<nat>>)
    ensures r.Accepted? <==> Covered(artifact.Constant()) && !Ambiguous(artifact.Constant())
    ensures r.Accepted? ==>
            && r.value == artifact.(byteLength := r.value.byteLength)
            && FixedPoint(artifact, r.value.byteLength)
            && ServedLengthOk(r.value, r.value.CanonicalBytes())
    ensures r.Refused? ==> forall n :: n in r.error ==> FixedPoint(artifact, n)
  {
    var document := artifact.(byteLength := 1);
    var solutions: seq<nat> := [];
    var seed := |document.CanonicalBytes()| - 1;
    assert seed == artifact.Constant();
    for digits := 1 to MAX_DIGITS + 1
      invariant document.before == artifact.before && document.after == artifact.after
      invariant solutions == SolutionsUpTo(seed, digits - 1)
    {
      var candidate := seed + digits;
      DecimalLength(candidate, digits);
      if |Decimal(candidate)| == digits {
        document := document.(byteLength := candidate);
        if |document.CanonicalBytes()| == candidate {
          solutions := solutions + [candidate];
        }
      }
    }
    SearchIsDecisive(seed);
    SolutionsShape(seed, MAX_DIGITS);
    forall n | n in solutions ensures FixedPoint(artifact, n) {
      FixedPointIffSolves(artifact, n);
    }
    if |solutions| != 1 {
      return Refused(solutions);
    }
    assert solutions[0] in solutions;
    return Accepted(document.(byteLength := solutions[0]));
  }

  /**
   * The one boundary the search cannot see: at `C = 10^20 - 21` both `10^20 - 1` and `10^20` fit,
   * but only the first has a digit count the search tries, so the document is accepted.
   */
  lemma BlindSpot(doc: Document)
    requires Boundary(doc.Constant(), MAX_DIGITS)
    ensures FixedPoint(doc, Pow10(MAX_DIGITS) - 1) && FixedPoint(doc, Pow10(MAX_DIGITS))
    ensures Covered(doc.Constant()) && !Ambiguous(doc.Constant())
  {
    var c := doc.Constant();
    BoundaryHasTwo(doc, MAX_DIGITS);
    forall d | 1 <= d < MAX_DIGITS ensures !Boundary(c, d) {
      PowGap(d, MAX_DIGITS - d);
    }
  }

  /** A finalized document has one spelling exactly when it is not in the blind spot. */
  lemma FinalizedUniqueIff(doc: Document)
    requires Covered(doc.Constant()) && !Ambiguous(doc.Constant())
    ensures (forall m, n :: FixedPoint(doc, m) && FixedPoint(doc, n) ==> m == n)
            <==> !Boundary(doc.Constant(), MAX_DIGITS)
  {
    var c := doc.Constant();
    if Boundary(c, MAX_DIGITS) {
      BlindSpot(doc);
    } else {
      forall m, n | FixedPoint(doc, m) && FixedPoint(doc, n) ensures m == n {
        FixedPointIffSolves(doc, m);
        FixedPointIffSolves(doc, n);
        if m < n {
          TwoSolutions(c, m - c, n - c);
          BoundaryInRange(c, m - c);
        } else if n < m {
          TwoSolutions(c, n - c, m - c);
          BoundaryInRange(c, n - c);
        }
      }
    }
  }

  lemma BoundaryInRange(c: nat, d: nat)
    requires Boundary(c, d) && Covered(c)
    ensures d <= MAX_DIGITS
  {
    if d > MAX_DIGITS {
      PowGap(MAX_DIGITS, d - MAX_DIGITS);
      assert false;
    }
  }
}

/** Which vectors and hard gates have a passing dominance block at all. */
module AdmissionCompleteness {
  import opened AdmissionGain
  import opened AdmissionLaw
  import opened Limits
  import opened Names
  import opened Outcomes
  import opened Sums

  /** Every earned gain fits the schema's range. */
  lemma WantGainInRange(c: Vector, i: Vector, floor: Vector)
    requires Comparable(c, i) && Comparable(c, floor)
    requires EarnedClass(c, i, floor).Some?
    ensures 1 <= WantGain(c, i, EarnedClass(c, i, floor).value) <= MICRO
  {
    EfficiencyGainIsGreatestDrop(i.measured, c.measured);
  }

  lemma SortingMembers(s: seq<string>, m: multiset<string>, x: string)
    requires IsSorting(s, m)
    ensures x in s <==> x in m
    ensures s == [] <==> m == multiset{}
  {
    assert x in s <==> x in multiset(s);
    if s != [] {
      assert s[0] in multiset(s);
    }
  }

  lemma DerivedListsNamed(c: Vector, i: Vector, floor: Vector, declared: set<string>, hard: map<string, bool>)
    requires Admissible(c, i, floor, declared)
    ensures var p := Derive(c, i, floor, hard);
            && NameList(p.regressedObjectives) && NameList(p.regressedAxes) && NameList(p.floorRegressions)
            && (p.regressedAxes == [] <==> OverEnvelope(c, i) == {})
            && (p.floorRegressions == [] <==> FloorRegressions(c, floor) == multiset{})
  {
    var p := Derive(c, i, floor, hard);
    SortingMembers(p.regressedObjectives, multiset(Regressed(c, i)), "");
    SortingMembers(p.regressedAxes, multiset(OverEnvelope(c, i)), "");
    SortingMembers(p.floorRegressions, FloorRegressions(c, floor), "");
  }

  lemma DerivedSchemaOk(c: Vector, i: Vector, floor: Vector, declared: set<string>, hard: map<string, bool>)
    requires Admissible(c, i, floor, declared) && hard.Keys == HARD_GATES
    ensures SchemaOk(Derive(c, i, floor, hard), i, floor, declared)
  {
    DerivedListsNamed(c, i, floor, declared, hard);
    if EarnedClass(c, i, floor).Some? {
      WantGainInRange(c, i, floor);
    }
  }

  lemma DerivedDominanceIff(c: Vector, i: Vector, floor: Vector, declared: set<string>, hard: map<string, bool>)
    requires Admissible(c, i, floor, declared)
    ensures DominanceOk(Derive(c, i, floor, hard), floor) <==> AllHold(hard) || EarnedClass(c, i, floor) == None
  {
  }

  /**
   * The derived block passes exactly when no hard gate failed or no class was earned. With a
   * failed gate and an earned class no block passes: a reject may not state the class the
   * recomputation insists on.
   */
  lemma DerivedVerifiedIff(c: Vector, i: Vector, floor: Vector, declared: set<string>,
                           hard: map<string, bool>)
    requires Admissible(c, i, floor, declared)
    requires hard.Keys == HARD_GATES
    ensures Verified(Derive(c, i, floor, hard), i, floor, declared)
            <==> AllHold(hard) || EarnedClass(c, i, floor) == None
  {
    DerivedSchemaOk(c, i, floor, declared, hard);
    DerivedDominanceIff(c, i, floor, declared, hard);
  }

  /** Which vectors and gates have a passing block at all. */
  lemma VerifiedExistsIff(c: Vector, i: Vector, floor: Vector, declared: set<string>,
                          hard: map<string, bool>)
    requires ValidVector(floor, declared)
    ensures (exists p: Partition :: p.candidate == c && p.hard == hard && Verified(p, i, floor, declared))
            <==> (&& Admissible(c, i, floor, declared) && hard.Keys == HARD_GATES
                  && (AllHold(hard) || EarnedClass(c, i, floor) == None))
  {
    if exists p: Partition :: p.candidate == c && p.hard == hard && Verified(p, i, floor, declared) {
      var p: Partition :| p.candidate == c && p.hard == hard && Verified(p, i, floor, declared);
      VerifiedIsDerived(p, i, floor, declared);
      DerivedVerifiedIff(c, i, floor, declared, hard);
    }
    if Admissible(c, i, floor, declared) && hard.Keys == HARD_GATES
       && (AllHold(hard) || EarnedClass(c, i, floor) == None) {
      DerivedVerifiedIff(c, i, floor, declared, hard);
      var p := Derive(c, i, floor, hard);
      assert p.candidate == c && p.hard == hard && Verified(p, i, floor, declared);
    }
  }

  /** A plain vector: one objective, every resource at half its cap. */
  function PlainVector(ppm: nat): Vector
  {
    Vector(100 * ppm, map["recall" := 7], Resources(5, 5, 5), Resources(10, 10, 10), 0)
  }

  lemma PlainVectorsEarnQuality()
    ensures Admissible(PlainVector(2), PlainVector(1), PlainVector(1), {"recall"})
    ensures EarnedClass(PlainVector(2), PlainVector(1), PlainVector(1)) == Some(Quality)
  {
    var c, i := PlainVector(2), PlainVector(1);
    assert Regressed(c, i) == {} && FloorMissed(c, i) == {} && OverEnvelope(c, i) == {};
    assert ToleranceRegressed(c, i) == {};
    assert Dips(i.objectives, c.objectives) == map[];
    GainsAndDipsNonNegative(i.objectives, c.objectives);
  }

  /** A concrete refusal: the quality class is earned, one gate failed, and no block passes. */
  lemma EarnedClassWithFailedGateRefused(hard: map<string, bool>)
    requires hard == (map g | g in HARD_GATES :: true)["validity" := false]
    ensures !exists p: Partition :: p.candidate == PlainVector(2) && p.hard == hard
                                    && Verified(p, PlainVector(1), PlainVector(1), {"recall"})
  {
    PlainVectorsEarnQuality();
    assert "validity" in hard && !hard["validity"];
    VerifiedExistsIff(PlainVector(2), PlainVector(1), PlainVector(1), {"recall"}, hard);
  }
}

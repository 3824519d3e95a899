/**
 * What the admission rule comes to in numbers: over the fields of a block and its two vectors,
 * without the rule's own helpers.
 */
module AdmissionMeaning {
  import opened AdmissionCompleteness
  import opened AdmissionGain
  import opened AdmissionLaw
  import opened AdmissionLineage
  import opened Names
  import opened Outcomes
  import opened Sums

  /** No resource above its cap, composite ppm not below genesis, no objective 2.5 points below it. */
  ghost predicate Bounded(c: Vector, i: Vector, floor: Vector)
  {
    && c.measured.rendered <= i.envelope.rendered && c.measured.fuel <= i.envelope.fuel
    && c.measured.durable <= i.envelope.durable
    && c.composite / 100 >= floor.composite / 100
    && forall o :: o in c.objectives && o in floor.objectives ==>
         c.objectives[o] + 2_500_000 >= floor.objectives[o]
  }

  /** No objective more than 2.5 points below the parent's, and all losses gained back twice. */
  ghost predicate Traded(c: Vector, i: Vector)
  {
    && (forall o :: o in c.objectives && o in i.objectives ==> c.objectives[o] + 2_500_000 >= i.objectives[o])
    && Total(map o | o in c.objectives && o in i.objectives :: Max(0, c.objectives[o] as int - i.objectives[o] as int))
       >= 2 * Total(map o | o in c.objectives && o in i.objectives && c.objectives[o] < i.objectives[o]
                      :: i.objectives[o] - c.objectives[o])
  }

  /** No resource above the parent's, and some below. */
  predicate Cheaper(c: Resources, i: Resources)
  {
    && c.rendered <= i.rendered && c.fuel <= i.fuel && c.durable <= i.durable
    && (c.rendered < i.rendered || c.fuel < i.fuel || c.durable < i.durable)
  }

  /** How far a resource fell, in ppm of the parent's value. */
  function Fall(parent: nat, cand: nat): nat
  {
    if cand < parent then (parent - cand) * 1_000_000 / parent else 0
  }

  lemma EarnedMeans(c: Vector, i: Vector, floor: Vector)
    requires Comparable(c, i) && Comparable(c, floor)
    ensures EarnedClass(c, i, floor) == Some(Quality) <==>
              Bounded(c, i, floor) && Traded(c, i) && c.composite / 100 > i.composite / 100
    ensures EarnedClass(c, i, floor) == Some(Efficiency) <==>
              && Bounded(c, i, floor) && Traded(c, i) && c.composite / 100 == i.composite / 100
              && Cheaper(c.measured, i.measured)
  {
    BoundedMeans(c, i, floor);
    TradedMeans(c, i);
    CheaperMeans(c, i);
  }

  lemma BoundedMeans(c: Vector, i: Vector, floor: Vector)
    requires Comparable(c, i) && Comparable(c, floor)
    ensures Bounded(c, i, floor) <==> OverEnvelope(c, i) == {} && FloorRegressions(c, floor) == multiset{}
  {
    var missed := FloorMissed(c, floor);
    assert multiset(missed) == multiset{} <==> missed == {} by {
      if o :| o in missed {
        assert o in multiset(missed);
      }
    }
    assert "composite_ppm" in multiset{"composite_ppm"};
    assert Bounded(c, i, floor) ==> missed == {};
    assert missed == {} ==> forall o :: o in c.objectives ==> o !in missed;
    assert AxisName(DurableBytes) in OverEnvelope(c, i) <== c.measured.durable > i.envelope.durable;
    assert AxisName(RenderedCost) in OverEnvelope(c, i) <== c.measured.rendered > i.envelope.rendered;
    assert AxisName(WorkFuel) in OverEnvelope(c, i) <== c.measured.fuel > i.envelope.fuel;
  }

  lemma TradedMeans(c: Vector, i: Vector)
    requires Comparable(c, i)
    ensures Traded(c, i) <==> TradeOk(c, i)
  {
    assert (map o | o in c.objectives && o in i.objectives :: Max(0, c.objectives[o] as int - i.objectives[o] as int))
           == Gains(i.objectives, c.objectives);
    assert (map o | o in c.objectives && o in i.objectives && c.objectives[o] < i.objectives[o]
              :: i.objectives[o] - c.objectives[o]) == Dips(i.objectives, c.objectives);
    var low := ToleranceRegressed(c, i);
    assert low == {} <==> forall o :: o in c.objectives ==> o !in low;
  }

  lemma CheaperMeans(c: Vector, i: Vector)
    ensures Cheaper(c.measured, i.measured) <==> !RaisesSome(c, i) && DropsSome(c, i)
  {
    assert c.measured.At(RenderedCost) == c.measured.rendered && c.measured.At(WorkFuel) == c.measured.fuel;
    assert c.measured.At(DurableBytes) == c.measured.durable;
    assert i.measured.At(RenderedCost) == i.measured.rendered && i.measured.At(WorkFuel) == i.measured.fuel;
    assert i.measured.At(DurableBytes) == i.measured.durable;
  }

  lemma EfficiencyGainMeans(c: Vector, i: Vector)
    ensures EfficiencyGain(i.measured, c.measured)
            == Max(1, Max(Max(Fall(i.measured.rendered, c.measured.rendered), Fall(i.measured.fuel, c.measured.fuel)),
                          Fall(i.measured.durable, c.measured.durable)))
  {
    var g := EfficiencyGain(i.measured, c.measured);
    EfficiencyGainIsGreatestDrop(i.measured, c.measured);
    assert DropPpm(i.measured.At(RenderedCost), c.measured.At(RenderedCost)) <= g;
    assert DropPpm(i.measured.At(WorkFuel), c.measured.At(WorkFuel)) <= g;
    assert DropPpm(i.measured.At(DurableBytes), c.measured.At(DurableBytes)) <= g;
  }

  /** The class of a passing block, and what it is admitted with. */
  lemma VerifiedMeans(p: Partition, stored: Vector, floor: Vector, declared: set<string>)
    requires Verified(p, stored, floor, declared)
    ensures p.incumbent == stored
    ensures p.compositeAfter == p.candidate.composite / 100 && p.compositeBefore == p.incumbent.composite / 100
    ensures p.compositeGain == p.compositeAfter - p.compositeBefore
    ensures p.hard.Keys == {"canonical_event_integrity", "declared_resource_limits", "deterministic_replay",
                            "host_portability_matrix", "profile_floors", "provenance", "validity",
                            "zero_stale_retracted_disclosure"}
    ensures p.hardOk <==> forall g :: g in p.hard ==> p.hard[g]
    ensures p.admit <==> p.progressClass.Some?
    ensures p.admit <==> p.admissionGain.Some?
    ensures p.admit ==> p.hardOk
    ensures p.progressClass == Some(Quality) <==>
              Bounded(p.candidate, stored, floor) && Traded(p.candidate, stored) && p.compositeGain >= 1
    ensures p.progressClass == Some(Efficiency) <==>
              && Bounded(p.candidate, stored, floor) && Traded(p.candidate, stored) && p.compositeGain == 0
              && Cheaper(p.candidate.measured, stored.measured)
    ensures p.progressClass == Some(Quality) ==>
              p.admissionGain == Some(Min(1_000_000, p.compositeAfter - p.compositeBefore))
    ensures p.progressClass == Some(Efficiency) ==>
              var c, i := p.candidate.measured, p.incumbent.measured;
              p.admissionGain == Some(Max(1, Max(Max(Fall(i.rendered, c.rendered), Fall(i.fuel, c.fuel)),
                                                 Fall(i.durable, c.durable))))
  {
    EarnedMeans(p.candidate, stored, floor);
    EfficiencyGainMeans(p.candidate, stored);
  }

  /** The three lists of a passing block name exactly what fell short. */
  lemma VerifiedLists(p: Partition, stored: Vector, floor: Vector, declared: set<string>, x: string)
    requires Verified(p, stored, floor, declared)
    ensures x in p.regressedObjectives <==>
              x in p.candidate.objectives && x in stored.objectives && p.candidate.objectives[x] < stored.objectives[x]
    ensures x in p.regressedAxes <==>
              || (x == "rendered_cost" && p.candidate.measured.rendered > stored.envelope.rendered)
              || (x == "work_fuel" && p.candidate.measured.fuel > stored.envelope.fuel)
              || (x == "logical_durable_storage_bytes" && p.candidate.measured.durable > stored.envelope.durable)
    ensures x in p.floorRegressions <==>
              || (x == "composite_ppm" && p.candidate.composite / 100 < floor.composite / 100)
              || (&& x in p.candidate.objectives && x in floor.objectives
                  && p.candidate.objectives[x] + 2_500_000 < floor.objectives[x])
    ensures Sorted(p.regressedObjectives) && Sorted(p.regressedAxes) && Sorted(p.floorRegressions)
  {
    var c := p.candidate;
    SortingMembers(p.regressedObjectives, multiset(Regressed(c, stored)), x);
    SortingMembers(p.regressedAxes, multiset(OverEnvelope(c, stored)), x);
    SortingMembers(p.floorRegressions, FloorRegressions(c, floor), x);
    assert x in multiset(FloorMissed(c, floor)) <==> x in FloorMissed(c, floor);
  }

  /** Two vectors that may stand in one block. */
  ghost predicate Sealed(c: Vector, i: Vector, floor: Vector, declared: set<string>)
  {
    && ValidVector(c, declared) && ValidVector(i, declared) && ValidVector(floor, declared)
    && c.envelope == i.envelope == floor.envelope && c.block == i.block == floor.block
    && c.composite / 100 <= 0xFFFF_FFFF && i.composite / 100 <= 0xFFFF_FFFF
  }

  /**
   * Which candidates are admitted: those within bounds whose trade is paid, and that raise the
   * composite, or keep it and are cheaper; and no others. What they are admitted with follows.
   */
  lemma AdmittedIff(c: Vector, i: Vector, floor: Vector, declared: set<string>, hard: map<string, bool>)
    requires Sealed(c, i, floor, declared) && hard.Keys == HARD_GATES && forall g :: g in hard ==> hard[g]
    ensures (exists p: Partition ::
               p.candidate == c && p.hard == hard && Verified(p, i, floor, declared) && p.admit) <==>
              && Bounded(c, i, floor) && Traded(c, i)
              && (|| c.composite / 100 > i.composite / 100
                  || (c.composite / 100 == i.composite / 100 && Cheaper(c.measured, i.measured)))
  {
    EarnedMeans(c, i, floor);
    DerivedVerifiedIff(c, i, floor, declared, hard);
    var d := Derive(c, i, floor, hard);
    assert d.candidate == c && d.hard == hard && Verified(d, i, floor, declared);
    if p: Partition :| p.candidate == c && p.hard == hard && Verified(p, i, floor, declared) && p.admit {
      VerifiedMeans(p, i, floor, declared);
    }
  }

  /** What an artifact as a whole reports: on acceptance the confirm partition's class and gain. */
  lemma ArtifactMeans(law: Law, a: Artifact)
    requires ArtifactVerified(law, a)
    ensures a.admit <==> a.gate.admit && a.confirm.admit
    ensures a.projection.scoreBefore == 0
    ensures !a.admit ==> a.projection.progressClass == None && a.projection.scoreAfter == None
    ensures a.admit ==>
              && a.projection.progressClass == a.confirm.progressClass
              && a.projection.scoreAfter == a.confirm.admissionGain
  {
  }

  /** The gain of an admitted block, in numbers. */
  function Gain(class_: Option<Class>, c: Vector, i: Vector): int
  {
    if class_ == Some(Quality) then Min(1_000_000, c.composite / 100 - i.composite / 100)
    else Max(1, Max(Max(Fall(i.measured.rendered, c.measured.rendered), Fall(i.measured.fuel, c.measured.fuel)),
                    Fall(i.measured.durable, c.measured.durable)))
  }

  lemma AdmittedGain(p: Partition, stored: Vector, floor: Vector, declared: set<string>)
    requires Verified(p, stored, floor, declared) && p.admit
    ensures p.admissionGain == Some(Gain(p.progressClass, p.candidate, stored))
  {
    VerifiedMeans(p, stored, floor, declared);
  }

  lemma ArtifactScore(law: Law, a: Artifact)
    requires ArtifactVerified(law, a) && a.admit
    ensures a.projection.scoreAfter
            == Some(Gain(a.projection.progressClass, a.confirm.candidate, a.stored.confirm))
  {
    ArtifactMeans(law, a);
    AdmittedGain(a.confirm, a.stored.confirm, law.floor.confirm, law.declared);
  }
}

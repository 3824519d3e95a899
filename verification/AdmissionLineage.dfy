/**
 * Whole lineages of accepted eval artifacts: each one's candidate vectors are the stored parent
 * vectors of the next.
 */
module AdmissionLineage {
  import opened Outcomes
  import opened Limits
  import opened Sums
  import opened AdmissionCompleteness
  import opened AdmissionGain
  import opened AdmissionLaw
  import opened Arith

  datatype Pair = Pair(gate: Vector, confirm: Vector)

  /** The sealed law: the protected objectives and the genesis floor of each partition. */
  datatype Law = Law(declared: set<string>, floor: Pair)

  datatype Projection = Projection(progressClass: Option<Class>, scoreAfter: Option<int>, scoreBefore: int)

  datatype Artifact = Artifact(gate: Partition, confirm: Partition, admit: bool,
                               projection: Projection, stored: Pair)
  {
    function Candidates(): Pair
    {
      Pair(gate.candidate, confirm.candidate)
    }
  }

  /** Both partitions verify, the decision is their conjunction, and the projection follows. */
  ghost predicate ArtifactVerified(law: Law, a: Artifact)
  {
    && Verified(a.gate, a.stored.gate, law.floor.gate, law.declared)
    && Verified(a.confirm, a.stored.confirm, law.floor.confirm, law.declared)
    && a.admit == (a.gate.admit && a.confirm.admit)
    && a.projection == (if a.admit then Projection(a.confirm.progressClass, a.confirm.admissionGain, 0)
                        else Projection(None, None, 0))
  }

  /** Vectors and gate maps leave the artifact's whole decision no freedom. */
  lemma ArtifactUnique(law: Law, a: Artifact, b: Artifact)
    requires ArtifactVerified(law, a) && ArtifactVerified(law, b)
    requires a.stored == b.stored && a.Candidates() == b.Candidates()
    requires a.gate.hard == b.gate.hard && a.confirm.hard == b.confirm.hard
    ensures a == b
  {
    VerifiedUnique(a.gate, b.gate, a.stored.gate, law.floor.gate, law.declared);
    VerifiedUnique(a.confirm, b.confirm, a.stored.confirm, law.floor.confirm, law.declared);
  }

  function StoredAt(genesis: Pair, arts: seq<Artifact>, k: nat): Pair
    requires k <= |arts|
  {
    if k == 0 then genesis else arts[k - 1].Candidates()
  }

  /** A lineage: accepted artifacts, each witnessed by its predecessor's candidate vectors. */
  ghost predicate Lineage(law: Law, genesis: Pair, arts: seq<Artifact>)
  {
    forall k :: 0 <= k < |arts| ==> Link(law, genesis, arts, k)
  }

  ghost predicate Link(law: Law, genesis: Pair, arts: seq<Artifact>, k: nat)
    requires k < |arts|
  {
    ArtifactVerified(law, arts[k]) && arts[k].admit && arts[k].stored == StoredAt(genesis, arts, k)
  }

  // ---- one partition of a lineage --------------------------------------------------------

  /** The vectors of one accepted step: comparable, and some class is earned. */
  ghost predicate Advances(c: Vector, i: Vector, floor: Vector, declared: set<string>)
  {
    Admissible(c, i, floor, declared) && EarnedClass(c, i, floor).Some?
  }

  /** The vectors one partition runs through. */
  ghost predicate Run(vs: seq<Vector>, floor: Vector, declared: set<string>)
  {
    vs != [] && forall k :: 1 <= k < |vs| ==> AdvancesAt(vs, k, floor, declared)
  }

  ghost predicate AdvancesAt(vs: seq<Vector>, k: nat, floor: Vector, declared: set<string>)
    requires 1 <= k < |vs|
  {
    Advances(vs[k], vs[k - 1], floor, declared)
  }

  lemma PrefixRuns(vs: seq<Vector>, n: nat, floor: Vector, declared: set<string>)
    requires Run(vs, floor, declared) && 1 <= n < |vs|
    ensures Run(vs[..n], floor, declared) && vs[..n][n - 1] == vs[n - 1]
    ensures Advances(vs[n], vs[n - 1], floor, declared)
  {
    forall k | 1 <= k < n ensures AdvancesAt(vs[..n], k, floor, declared) {
      assert AdvancesAt(vs, k, floor, declared);
    }
    assert AdvancesAt(vs, n, floor, declared);
  }

  function GateVectors(genesis: Pair, arts: seq<Artifact>): (vs: seq<Vector>)
  {
    seq(|arts| + 1, k requires 0 <= k <= |arts| => StoredAt(genesis, arts, k).gate)
  }

  function ConfirmVectors(genesis: Pair, arts: seq<Artifact>): (vs: seq<Vector>)
  {
    seq(|arts| + 1, k requires 0 <= k <= |arts| => StoredAt(genesis, arts, k).confirm)
  }

  lemma AdmittedAdvances(p: Partition, stored: Vector, floor: Vector, declared: set<string>)
    requires Verified(p, stored, floor, declared) && p.admit && ValidVector(floor, declared)
    ensures Advances(p.candidate, stored, floor, declared)
  {
  }

  lemma ArtifactAdvances(law: Law, a: Artifact)
    requires ArtifactVerified(law, a) && a.admit
    requires ValidVector(law.floor.gate, law.declared) && ValidVector(law.floor.confirm, law.declared)
    ensures Advances(a.Candidates().gate, a.stored.gate, law.floor.gate, law.declared)
    ensures Advances(a.Candidates().confirm, a.stored.confirm, law.floor.confirm, law.declared)
  {
    AdmittedAdvances(a.gate, a.stored.gate, law.floor.gate, law.declared);
    AdmittedAdvances(a.confirm, a.stored.confirm, law.floor.confirm, law.declared);
  }

  lemma LineageStep(law: Law, genesis: Pair, arts: seq<Artifact>, k: nat)
    requires Lineage(law, genesis, arts) && k < |arts|
    requires ValidVector(law.floor.gate, law.declared) && ValidVector(law.floor.confirm, law.declared)
    ensures Advances(StoredAt(genesis, arts, k + 1).gate, StoredAt(genesis, arts, k).gate, law.floor.gate, law.declared)
    ensures Advances(StoredAt(genesis, arts, k + 1).confirm, StoredAt(genesis, arts, k).confirm,
                     law.floor.confirm, law.declared)
  {
    assert Link(law, genesis, arts, k);
    ArtifactAdvances(law, arts[k]);
  }

  lemma LineageAdvances(law: Law, genesis: Pair, arts: seq<Artifact>, k: nat)
    requires Lineage(law, genesis, arts) && 1 <= k <= |arts|
    requires ValidVector(law.floor.gate, law.declared) && ValidVector(law.floor.confirm, law.declared)
    ensures AdvancesAt(GateVectors(genesis, arts), k, law.floor.gate, law.declared)
    ensures AdvancesAt(ConfirmVectors(genesis, arts), k, law.floor.confirm, law.declared)
  {
    LineageStep(law, genesis, arts, k - 1);
  }

  /** Each partition of a lineage is a run. */
  lemma LineageRuns(law: Law, genesis: Pair, arts: seq<Artifact>)
    requires Lineage(law, genesis, arts)
    requires ValidVector(law.floor.gate, law.declared) && ValidVector(law.floor.confirm, law.declared)
    ensures Run(GateVectors(genesis, arts), law.floor.gate, law.declared)
    ensures Run(ConfirmVectors(genesis, arts), law.floor.confirm, law.declared)
  {
    var gs, cs := GateVectors(genesis, arts), ConfirmVectors(genesis, arts);
    forall k | 1 <= k < |gs| ensures AdvancesAt(gs, k, law.floor.gate, law.declared) {
      LineageAdvances(law, genesis, arts, k);
    }
    forall k | 1 <= k < |cs| ensures AdvancesAt(cs, k, law.floor.confirm, law.declared) {
      LineageAdvances(law, genesis, arts, k);
    }
  }

  /** The block that accepts an earned class under passing gates. */
  ghost function AcceptedPartition(c: Vector, i: Vector, floor: Vector, declared: set<string>): (p: Partition)
    requires Advances(c, i, floor, declared)
    ensures Verified(p, i, floor, declared) && p.admit && p.candidate == c
  {
    var hard := map g | g in HARD_GATES :: true;
    DerivedVerifiedIff(c, i, floor, declared, hard);
    Derive(c, i, floor, hard)
  }

  /** The artifact that accepts step `k` of two runs. */
  ghost function ArtifactFor(law: Law, gs: seq<Vector>, cs: seq<Vector>, k: nat): (a: Artifact)
    requires k + 1 < |gs| == |cs|
    requires Run(gs, law.floor.gate, law.declared) && Run(cs, law.floor.confirm, law.declared)
    ensures ArtifactVerified(law, a) && a.admit
    ensures a.stored == Pair(gs[k], cs[k]) && a.Candidates() == Pair(gs[k + 1], cs[k + 1])
  {
    assert AdvancesAt(gs, k + 1, law.floor.gate, law.declared);
    assert AdvancesAt(cs, k + 1, law.floor.confirm, law.declared);
    var g := AcceptedPartition(gs[k + 1], gs[k], law.floor.gate, law.declared);
    var c := AcceptedPartition(cs[k + 1], cs[k], law.floor.confirm, law.declared);
    Artifact(g, c, true, Projection(c.progressClass, c.admissionGain, 0), Pair(gs[k], cs[k]))
  }

  ghost function ArtifactsFor(law: Law, gs: seq<Vector>, cs: seq<Vector>): (arts: seq<Artifact>)
    requires |gs| == |cs|
    requires Run(gs, law.floor.gate, law.declared) && Run(cs, law.floor.confirm, law.declared)
    ensures |arts| == |gs| - 1
    ensures forall k :: 0 <= k < |arts| ==> arts[k] == ArtifactFor(law, gs, cs, k)
  {
    seq(|gs| - 1, k requires 0 <= k < |gs| - 1 => ArtifactFor(law, gs, cs, k))
  }

  lemma StoredFor(law: Law, gs: seq<Vector>, cs: seq<Vector>, k: nat)
    requires k < |gs| == |cs|
    requires Run(gs, law.floor.gate, law.declared) && Run(cs, law.floor.confirm, law.declared)
    ensures StoredAt(Pair(gs[0], cs[0]), ArtifactsFor(law, gs, cs), k) == Pair(gs[k], cs[k])
  {
    if k > 0 {
      assert ArtifactsFor(law, gs, cs)[k - 1] == ArtifactFor(law, gs, cs, k - 1);
    }
  }

  /** Every two runs of one length are the partitions of a lineage: the law asks no more. */
  lemma RunsAreLineages(law: Law, gs: seq<Vector>, cs: seq<Vector>)
    requires |gs| == |cs|
    requires Run(gs, law.floor.gate, law.declared) && Run(cs, law.floor.confirm, law.declared)
    ensures Lineage(law, Pair(gs[0], cs[0]), ArtifactsFor(law, gs, cs))
    ensures GateVectors(Pair(gs[0], cs[0]), ArtifactsFor(law, gs, cs)) == gs
    ensures ConfirmVectors(Pair(gs[0], cs[0]), ArtifactsFor(law, gs, cs)) == cs
  {
    var genesis, arts := Pair(gs[0], cs[0]), ArtifactsFor(law, gs, cs);
    forall k | 0 <= k < |arts| ensures Link(law, genesis, arts, k) {
      assert arts[k] == ArtifactFor(law, gs, cs, k);
      StoredFor(law, gs, cs, k);
    }
    forall k | 0 <= k <= |arts|
      ensures GateVectors(genesis, arts)[k] == gs[k] && ConfirmVectors(genesis, arts)[k] == cs[k]
    {
      StoredFor(law, gs, cs, k);
    }
  }

  // ---- termination: a strict lexicographic descent ---------------------------------------

  /** The pair (uint32 maximum less composite ppm, total resources), compared in that order. */
  predicate Below(c: Vector, i: Vector)
  {
    MAX_UINT32 - c.Ppm() < MAX_UINT32 - i.Ppm()
    || (c.Ppm() == i.Ppm() && c.measured.Sum() < i.measured.Sum())
  }

  lemma AdvanceDescends(c: Vector, i: Vector, floor: Vector, declared: set<string>)
    requires Advances(c, i, floor, declared)
    ensures Below(c, i)
    ensures EarnedClass(c, i, floor) == Some(Efficiency) ==> c.Ppm() == i.Ppm()
  {
    if EarnedClass(c, i, floor) == Some(Efficiency) {
      forall a: Axis ensures c.measured.At(a) <= i.measured.At(a) {
      }
      assert c.measured.rendered == c.measured.At(RenderedCost) <= i.measured.At(RenderedCost);
      assert c.measured.fuel == c.measured.At(WorkFuel) <= i.measured.At(WorkFuel);
      assert c.measured.durable == c.measured.At(DurableBytes) <= i.measured.At(DurableBytes);
      var a: Axis :| c.measured.At(a) < i.measured.At(a);
    }
  }

  lemma {:induction false} RunDescends(vs: seq<Vector>, floor: Vector, declared: set<string>, j: nat, k: nat)
    requires Run(vs, floor, declared) && j < k < |vs|
    ensures Below(vs[k], vs[j])
    decreases k
  {
    assert AdvancesAt(vs, k, floor, declared);
    AdvanceDescends(vs[k], vs[k - 1], floor, declared);
    if j < k - 1 {
      RunDescends(vs, floor, declared, j, k - 1);
    }
  }

  /** No vector ever returns. */
  lemma RunNeverRepeats(vs: seq<Vector>, floor: Vector, declared: set<string>)
    requires Run(vs, floor, declared)
    ensures forall j, k :: 0 <= j < k < |vs| ==> vs[j] != vs[k]
  {
    forall j, k | 0 <= j < k < |vs| ensures vs[j] != vs[k] {
      RunDescends(vs, floor, declared, j, k);
    }
  }

  /** The descent as one number: how many steps could still follow. */
  function Rank(v: Vector, cap: Resources): int
  {
    (MAX_UINT32 - v.Ppm()) * (cap.Sum() + 1) + v.measured.Sum()
  }

  lemma AdvanceWithin(c: Vector, i: Vector, floor: Vector, declared: set<string>)
    requires Advances(c, i, floor, declared)
    ensures c.measured.Within(floor.envelope)
  {
    assert OverEnvelope(c, i) == {};
    assert AxisName(DurableBytes) !in OverEnvelope(c, i);
    assert AxisName(RenderedCost) !in OverEnvelope(c, i);
    assert AxisName(WorkFuel) !in OverEnvelope(c, i);
  }

  lemma WithinSum(r: Resources, cap: Resources)
    requires r.Within(cap)
    ensures r.Sum() <= cap.Sum()
  {
    assert r.At(RenderedCost) <= cap.At(RenderedCost);
    assert r.At(WorkFuel) <= cap.At(WorkFuel);
    assert r.At(DurableBytes) <= cap.At(DurableBytes);
  }

  lemma RankDrops(c: Vector, i: Vector, cap: Resources)
    requires Below(c, i) && c.measured.Sum() <= cap.Sum()
    ensures Rank(c, cap) < Rank(i, cap)
  {
    if c.Ppm() > i.Ppm() {
      MulGap(MAX_UINT32 - i.Ppm(), MAX_UINT32 - c.Ppm(), cap.Sum() + 1);
    }
  }

  lemma {:induction false} RunLength(vs: seq<Vector>, floor: Vector, declared: set<string>)
    requires Run(vs, floor, declared) && vs[0].measured.Within(floor.envelope)
    ensures vs[|vs| - 1].measured.Within(floor.envelope)
    ensures Rank(vs[|vs| - 1], floor.envelope) + |vs| - 1 <= Rank(vs[0], floor.envelope)
    decreases |vs|
  {
    var n := |vs| - 1;
    if n > 0 {
      PrefixRuns(vs, n, floor, declared);
      RunLength(vs[..n], floor, declared);
      AdvanceDescends(vs[n], vs[n - 1], floor, declared);
      AdvanceWithin(vs[n], vs[n - 1], floor, declared);
      WithinSum(vs[n].measured, floor.envelope);
      RankDrops(vs[n], vs[n - 1], floor.envelope);
    }
  }

  /** Every lineage is finite: the sealed caps bound its length. */
  lemma LineageFinite(law: Law, genesis: Pair, arts: seq<Artifact>)
    requires Lineage(law, genesis, arts)
    requires ValidVector(law.floor.gate, law.declared) && ValidVector(law.floor.confirm, law.declared)
    requires genesis.gate.measured.Within(law.floor.gate.envelope)
    requires genesis.confirm.measured.Within(law.floor.confirm.envelope)
    ensures |arts| < (MAX_UINT32 + 1) * (Min(law.floor.gate.envelope.Sum(), law.floor.confirm.envelope.Sum()) + 1)
    ensures forall j, k :: 0 <= j < k <= |arts| ==>
              && StoredAt(genesis, arts, j).gate != StoredAt(genesis, arts, k).gate
              && StoredAt(genesis, arts, j).confirm != StoredAt(genesis, arts, k).confirm
  {
    LineageRuns(law, genesis, arts);
    var gs, cs := GateVectors(genesis, arts), ConfirmVectors(genesis, arts);
    RunNeverRepeats(gs, law.floor.gate, law.declared);
    RunNeverRepeats(cs, law.floor.confirm, law.declared);
    forall j, k | 0 <= j < k <= |arts|
      ensures StoredAt(genesis, arts, j).gate != StoredAt(genesis, arts, k).gate
      ensures StoredAt(genesis, arts, j).confirm != StoredAt(genesis, arts, k).confirm
    {
      assert gs[j] != gs[k] && cs[j] != cs[k];
    }
    RunShort(gs, law.floor.gate, law.declared);
    RunShort(cs, law.floor.confirm, law.declared);
  }

  lemma RunShort(vs: seq<Vector>, floor: Vector, declared: set<string>)
    requires Run(vs, floor, declared) && vs[0].measured.Within(floor.envelope)
    ensures |vs| - 1 < (MAX_UINT32 + 1) * (floor.envelope.Sum() + 1)
  {
    var n, w := |vs| - 1, floor.envelope.Sum() + 1;
    RunLength(vs, floor, declared);
    WithinSum(vs[0].measured, floor.envelope);
    if n > 0 {
      assert AdvancesAt(vs, n, floor, declared);
      assert (MAX_UINT32 - vs[n].Ppm()) * w >= 0;
      assert (MAX_UINT32 - vs[0].Ppm()) * w <= MAX_UINT32 * w;
    }
  }

  // ---- what every accepted vector keeps --------------------------------------------------

  /** The genesis guarantees a vector carries once it has been accepted. */
  ghost predicate KeepsGenesis(v: Vector, floor: Vector)
  {
    && v.objectives.Keys == floor.objectives.Keys
    && (forall o :: o in v.objectives ==> v.objectives[o] >= floor.objectives[o] - DIP_TOLERANCE_MICRO)
    && v.Ppm() >= floor.Ppm()
    && v.measured.Within(floor.envelope)
    && v.envelope == floor.envelope
    && v.block == floor.block
  }

  lemma AdvanceKeepsGenesis(c: Vector, i: Vector, floor: Vector, declared: set<string>)
    requires Advances(c, i, floor, declared)
    ensures KeepsGenesis(c, floor)
  {
    AdvanceWithin(c, i, floor, declared);
    assert FloorRegressions(c, floor) == multiset{};
    assert "composite_ppm" !in FloorRegressions(c, floor);
    forall o | o in c.objectives ensures c.objectives[o] >= floor.objectives[o] - DIP_TOLERANCE_MICRO {
      assert o !in FloorRegressions(c, floor);
    }
  }

  /** Along a run composite ppm never falls and composite micro never ends 100 below a past value. */
  lemma {:induction false} RunKeepsComposite(vs: seq<Vector>, floor: Vector, declared: set<string>, j: nat, k: nat)
    requires Run(vs, floor, declared) && j <= k < |vs|
    ensures vs[j].Ppm() <= vs[k].Ppm()
    ensures vs[k].composite >= vs[j].composite - 99
    decreases k
  {
    if j < k {
      RunDescends(vs, floor, declared, j, k);
    }
  }

  /** The whole-lineage safety statement for one partition. */
  lemma RunSafe(vs: seq<Vector>, floor: Vector, declared: set<string>)
    requires Run(vs, floor, declared)
    ensures forall k :: 1 <= k < |vs| ==> KeepsGenesis(vs[k], floor)
    ensures forall j, k :: 0 <= j <= k < |vs| ==>
              vs[j].Ppm() <= vs[k].Ppm() && vs[k].composite >= vs[j].composite - 99
  {
    forall k | 1 <= k < |vs| ensures KeepsGenesis(vs[k], floor) {
      assert AdvancesAt(vs, k, floor, declared);
      AdvanceKeepsGenesis(vs[k], vs[k - 1], floor, declared);
    }
    forall j, k | 0 <= j <= k < |vs|
      ensures vs[j].Ppm() <= vs[k].Ppm() && vs[k].composite >= vs[j].composite - 99
    {
      RunKeepsComposite(vs, floor, declared, j, k);
    }
  }

  // ---- the trade, amortised over a run ---------------------------------------------------

  /** All vectors of `vs` name the same objectives. */
  predicate AllComparable(vs: seq<Vector>)
  {
    forall j, k :: 0 <= j < |vs| && 0 <= k < |vs| ==> Comparable(vs[j], vs[k])
  }

  lemma {:induction false} RunComparable(vs: seq<Vector>, floor: Vector, declared: set<string>)
    requires Run(vs, floor, declared)
    ensures AllComparable(vs)
  {
    if |vs| > 1 {
      forall k | 0 <= k < |vs| ensures vs[k].objectives.Keys == declared {
        assert AdvancesAt(vs, if k == 0 then 1 else k, floor, declared);
      }
    }
  }

  /** All objective points gained over a run. */
  ghost function GainedOver(vs: seq<Vector>): int
    requires AllComparable(vs)
  {
    if |vs| <= 1 then 0
    else GainedOver(vs[..|vs| - 1]) + GainTotal(vs[|vs| - 1], vs[|vs| - 2])
  }

  /** All objective points lost over a run. */
  ghost function LostOver(vs: seq<Vector>): int
    requires AllComparable(vs)
  {
    if |vs| <= 1 then 0
    else LostOver(vs[..|vs| - 1]) + DipTotal(vs[|vs| - 1], vs[|vs| - 2])
  }

  lemma OverOneMore(vs: seq<Vector>)
    requires AllComparable(vs) && |vs| > 1
    ensures var n := |vs| - 1;
            && AllComparable(vs[..n]) && Comparable(vs[n], vs[n - 1])
            && GainedOver(vs) == GainedOver(vs[..n]) + GainTotal(vs[n], vs[n - 1])
            && LostOver(vs) == LostOver(vs[..n]) + DipTotal(vs[n], vs[n - 1])
  {
  }

  /** One advance pays twice for what it loses, and moves the objective sum by the difference. */
  lemma AdvanceAmortises(c: Vector, i: Vector, floor: Vector, declared: set<string>)
    requires Advances(c, i, floor, declared) && Comparable(c, i)
    ensures GainTotal(c, i) >= 2 * DipTotal(c, i) >= 0
    ensures Total(c.objectives) - Total(i.objectives) == GainTotal(c, i) - DipTotal(c, i)
  {
    assert TradeOk(c, i);
    GainsAndDips(i.objectives, c.objectives);
    GainsAndDipsNonNegative(i.objectives, c.objectives);
  }

  /** Losses stay paid twice over, and the objective sum rises by at least all that was lost. */
  lemma RunAmortises(vs: seq<Vector>, floor: Vector, declared: set<string>)
    requires Run(vs, floor, declared)
    ensures AllComparable(vs)
    ensures GainedOver(vs) >= DIP_PAYMENT_RATIO * LostOver(vs)
    ensures LostOver(vs) >= 0
    ensures Total(vs[|vs| - 1].objectives) - Total(vs[0].objectives) == GainedOver(vs) - LostOver(vs) >= LostOver(vs)
  {
    RunComparable(vs, floor, declared);
    ComparableAmortises(vs, floor, declared);
  }

  lemma {:induction false} ComparableAmortises(vs: seq<Vector>, floor: Vector, declared: set<string>)
    requires Run(vs, floor, declared) && AllComparable(vs)
    ensures GainedOver(vs) >= 2 * LostOver(vs) >= 0
    ensures Total(vs[|vs| - 1].objectives) - Total(vs[0].objectives) == GainedOver(vs) - LostOver(vs)
    decreases |vs|
  {
    var n := |vs| - 1;
    if n > 0 {
      var front := vs[..n];
      OverOneMore(vs);
      PrefixRuns(vs, n, floor, declared);
      assert front[0] == vs[0] && front[|front| - 1] == vs[n - 1];
      ComparableAmortises(front, floor, declared);
      AdvanceAmortises(vs[n], vs[n - 1], floor, declared);
      calc {
        Total(vs[n].objectives) - Total(vs[0].objectives);
        Total(vs[n].objectives) - Total(vs[n - 1].objectives) + GainedOver(front) - LostOver(front);
        GainedOver(vs) - LostOver(vs);
      }
    }
  }

  // ---- the same, said of artifacts -------------------------------------------------------

  /** Every artifact of a lineage keeps the genesis guarantees, in both partitions. */
  lemma LineageKeepsGenesis(law: Law, genesis: Pair, arts: seq<Artifact>, k: nat)
    requires Lineage(law, genesis, arts) && k < |arts|
    requires ValidVector(law.floor.gate, law.declared) && ValidVector(law.floor.confirm, law.declared)
    ensures KeepsGenesis(arts[k].gate.candidate, law.floor.gate)
    ensures KeepsGenesis(arts[k].confirm.candidate, law.floor.confirm)
  {
    LineageStep(law, genesis, arts, k);
    AdvanceKeepsGenesis(StoredAt(genesis, arts, k + 1).gate, StoredAt(genesis, arts, k).gate,
                        law.floor.gate, law.declared);
    AdvanceKeepsGenesis(StoredAt(genesis, arts, k + 1).confirm, StoredAt(genesis, arts, k).confirm,
                        law.floor.confirm, law.declared);
  }

  /** From any accepted artifact to any later one, quality holds in both partitions. */
  lemma LineageKeepsComposite(law: Law, genesis: Pair, arts: seq<Artifact>, j: nat, k: nat)
    requires Lineage(law, genesis, arts) && j <= k <= |arts|
    requires ValidVector(law.floor.gate, law.declared) && ValidVector(law.floor.confirm, law.declared)
    ensures var a, b := StoredAt(genesis, arts, j), StoredAt(genesis, arts, k);
            && a.gate.Ppm() <= b.gate.Ppm() && a.confirm.Ppm() <= b.confirm.Ppm()
            && b.gate.composite >= a.gate.composite - 99 && b.confirm.composite >= a.confirm.composite - 99
  {
    LineageRuns(law, genesis, arts);
    RunKeepsComposite(GateVectors(genesis, arts), law.floor.gate, law.declared, j, k);
    RunKeepsComposite(ConfirmVectors(genesis, arts), law.floor.confirm, law.declared, j, k);
  }

  /** The objective sums never end below genesis. */
  lemma LineageKeepsObjectiveSum(law: Law, genesis: Pair, arts: seq<Artifact>)
    requires Lineage(law, genesis, arts)
    requires ValidVector(law.floor.gate, law.declared) && ValidVector(law.floor.confirm, law.declared)
    ensures var last := StoredAt(genesis, arts, |arts|);
            && Total(last.gate.objectives) >= Total(genesis.gate.objectives)
            && Total(last.confirm.objectives) >= Total(genesis.confirm.objectives)
  {
    LineageRuns(law, genesis, arts);
    RunAmortises(GateVectors(genesis, arts), law.floor.gate, law.declared);
    RunAmortises(ConfirmVectors(genesis, arts), law.floor.confirm, law.declared);
  }
}

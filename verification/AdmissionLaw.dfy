/**
 * The componentwise admission rule of the eval artifact: what one partition block must say
 * about the candidate and incumbent vectors it carries, and why nothing else passes.
 */
module AdmissionLaw {
  import opened AdmissionGain
  import opened Outcomes
  import opened Limits
  import opened Names
  import opened Sums

  const DIP_TOLERANCE_MICRO := 2_500_000
  const DIP_PAYMENT_RATIO := 2

  /** The closed vocabulary of hard gates. */
  const HARD_GATES: set<string> := {
    "canonical_event_integrity", "declared_resource_limits", "deterministic_replay",
    "host_portability_matrix", "profile_floors", "provenance", "validity",
    "zero_stale_retracted_disclosure"
  }

  function AxisName(a: Axis): string
  {
    match a
    case RenderedCost => "rendered_cost"
    case WorkFuel => "work_fuel"
    case DurableBytes => "logical_durable_storage_bytes"
  }

  /** One absolute vector: measured quality and resources, and the envelope it is held to. */
  datatype Vector = Vector(composite: nat, objectives: map<string, nat>, measured: Resources,
                           envelope: Resources, block: nat)
  {
    function Ppm(): nat
    {
      composite / 100
    }
  }

  datatype Class = Quality | Efficiency

  /** One partition of the dominance block. A rejected partition has neither class nor gain. */
  datatype Partition = Partition(
    candidate: Vector,
    incumbent: Vector,
    hard: map<string, bool>,
    hardOk: bool,
    compositeAfter: int,
    compositeBefore: int,
    compositeGain: int,
    regressedObjectives: seq<string>,
    regressedAxes: seq<string>,
    floorRegressions: seq<string>,
    admit: bool,
    progressClass: Option<Class>,
    admissionGain: Option<int>)

  // ---- the schema layer ------------------------------------------------------------------

  predicate Uint64(n: int)
  {
    0 <= n <= MAX_UINT64
  }

  predicate ResourcesInRange(r: Resources)
  {
    Uint64(r.rendered) && Uint64(r.fuel) && Uint64(r.durable)
  }

  /** A vector covers exactly the objectives the profile protects. */
  predicate ValidVector(v: Vector, declared: set<string>)
  {
    && Uint64(v.composite) && Uint64(v.block)
    && ResourcesInRange(v.measured) && ResourcesInRange(v.envelope)
    && v.objectives.Keys == declared && declared != {} && "" !in declared
    && forall o :: o in v.objectives ==> Uint64(v.objectives[o])
  }

  predicate AllHold(hard: map<string, bool>)
  {
    forall g :: g in hard ==> hard[g]
  }

  ghost predicate NameList(s: seq<string>)
  {
    Sorted(s) && "" !in s
  }

  /** What the closed schema asks of one partition, given the stored parent vector. */
  ghost predicate SchemaOk(p: Partition, stored: Vector, floor: Vector, declared: set<string>)
  {
    && p.admit == p.progressClass.Some? == p.admissionGain.Some?
    && p.hard.Keys == HARD_GATES
    && 0 <= p.compositeAfter <= MAX_UINT32 && 0 <= p.compositeBefore <= MAX_UINT32
    && p.compositeGain == p.compositeAfter - p.compositeBefore
    && (p.admit ==> 1 <= p.admissionGain.value <= MICRO)
    && NameList(p.floorRegressions) && NameList(p.regressedObjectives) && NameList(p.regressedAxes)
    && ValidVector(p.candidate, declared) && ValidVector(p.incumbent, declared)
    && p.hardOk == AllHold(p.hard)
    && (p.admit ==> p.regressedAxes == [] && p.floorRegressions == [] && p.hardOk)
    && stored.block == floor.block && stored.envelope == floor.envelope
    && p.incumbent == stored
  }

  // ---- the recomputed rule ---------------------------------------------------------------

  predicate Comparable(v: Vector, w: Vector)
  {
    v.objectives.Keys == w.objectives.Keys
  }

  function Regressed(c: Vector, i: Vector): set<string>
    requires Comparable(c, i)
  {
    set o | o in c.objectives && c.objectives[o] < i.objectives[o]
  }

  function ToleranceRegressed(c: Vector, i: Vector): set<string>
    requires Comparable(c, i)
  {
    set o | o in Regressed(c, i) && c.objectives[o] < i.objectives[o] - DIP_TOLERANCE_MICRO
  }

  ghost function DipTotal(c: Vector, i: Vector): int
    requires Comparable(c, i)
  {
    Total(Dips(i.objectives, c.objectives))
  }

  ghost function GainTotal(c: Vector, i: Vector): int
    requires Comparable(c, i)
  {
    Total(Gains(i.objectives, c.objectives))
  }

  /** The bounded trade: every dip inside the tolerance, and paid for twice over. */
  ghost predicate TradeOk(c: Vector, i: Vector)
    requires Comparable(c, i)
  {
    ToleranceRegressed(c, i) == {} && GainTotal(c, i) >= DIP_PAYMENT_RATIO * DipTotal(c, i)
  }

  function OverEnvelope(c: Vector, i: Vector): set<string>
  {
    (if c.measured.durable > i.envelope.durable then {AxisName(DurableBytes)} else {})
    + (if c.measured.rendered > i.envelope.rendered then {AxisName(RenderedCost)} else {})
    + (if c.measured.fuel > i.envelope.fuel then {AxisName(WorkFuel)} else {})
  }

  function FloorMissed(c: Vector, floor: Vector): set<string>
    requires Comparable(c, floor)
  {
    set o | o in c.objectives && c.objectives[o] < floor.objectives[o] - DIP_TOLERANCE_MICRO
  }

  function FloorRegressions(c: Vector, floor: Vector): multiset<string>
    requires Comparable(c, floor)
  {
    (if c.Ppm() < floor.Ppm() then multiset{"composite_ppm"} else multiset{})
    + multiset(FloorMissed(c, floor))
  }

  predicate RaisesSome(c: Vector, i: Vector)
  {
    exists a: Axis :: c.measured.At(a) > i.measured.At(a)
  }

  predicate DropsSome(c: Vector, i: Vector)
  {
    exists a: Axis :: c.measured.At(a) < i.measured.At(a)
  }

  /** The class the two vectors earn, before the hard gates have their say. */
  ghost function EarnedClass(c: Vector, i: Vector, floor: Vector): Option<Class>
    requires Comparable(c, i) && Comparable(c, floor)
  {
    var gain := c.Ppm() - i.Ppm();
    if OverEnvelope(c, i) != {} || FloorRegressions(c, floor) != multiset{} then None
    else if gain >= 1 && TradeOk(c, i) then Some(Quality)
    else if gain >= 0 && TradeOk(c, i) && !RaisesSome(c, i) && DropsSome(c, i) then Some(Efficiency)
    else None
  }

  // ---- the admission gain ----------------------------------------------------------------

  function WantGain(c: Vector, i: Vector, class_: Class): int
  {
    match class_
    case Quality => Min(MICRO, c.Ppm() - i.Ppm())
    case Efficiency => EfficiencyGain(i.measured, c.measured)
  }

  // ---- verification of one partition -----------------------------------------------------

  /** `verify_dominance_block` on one partition, against the law's floor vector. */
  ghost predicate DominanceOk(p: Partition, floor: Vector)
  {
    var c, i := p.candidate, p.incumbent;
    && i.envelope == floor.envelope && c.envelope == floor.envelope
    && c.Ppm() == p.compositeAfter && i.Ppm() == p.compositeBefore
    && p.hardOk == AllHold(p.hard)
    && Comparable(c, i)
    && IsSorting(p.regressedObjectives, multiset(Regressed(c, i)))
    && IsSorting(p.regressedAxes, multiset(OverEnvelope(c, i)))
    && Comparable(c, floor)
    && IsSorting(p.floorRegressions, FloorRegressions(c, floor))
    && c.block == i.block
    && p.admit == (p.hardOk && EarnedClass(c, i, floor).Some?)
    && p.progressClass == EarnedClass(c, i, floor)
    && (p.admit ==> p.admissionGain == Some(WantGain(c, i, EarnedClass(c, i, floor).value)))
  }

  /** One partition passes both layers. */
  ghost predicate Verified(p: Partition, stored: Vector, floor: Vector, declared: set<string>)
  {
    SchemaOk(p, stored, floor, declared) && DominanceOk(p, floor)
  }

  // ---- the block the vectors determine ---------------------------------------------------

  /** The one partition block that can describe these vectors and gates. */
  ghost function Derive(c: Vector, i: Vector, floor: Vector, hard: map<string, bool>): Partition
    requires Comparable(c, i) && Comparable(c, floor)
  {
    var earned := EarnedClass(c, i, floor);
    var admit := AllHold(hard) && earned.Some?;
    Partition(c, i, hard, AllHold(hard), c.Ppm(), i.Ppm(), c.Ppm() - i.Ppm(),
              SortingOf(multiset(Regressed(c, i))), SortingOf(multiset(OverEnvelope(c, i))),
              SortingOf(FloorRegressions(c, floor)), admit,
              if admit then earned else None,
              if admit then Some(WantGain(c, i, earned.value)) else None)
  }

  /** Two vectors that can be compared under the law at all. */
  ghost predicate Admissible(c: Vector, i: Vector, floor: Vector, declared: set<string>)
  {
    && ValidVector(c, declared) && ValidVector(i, declared) && ValidVector(floor, declared)
    && c.envelope == floor.envelope && i.envelope == floor.envelope
    && c.block == i.block == floor.block
    && c.Ppm() <= MAX_UINT32 && i.Ppm() <= MAX_UINT32
  }

  /** A verified block leaves nothing to choose: flags, class, gain and lists all follow. */
  lemma VerifiedIsDerived(p: Partition, stored: Vector, floor: Vector, declared: set<string>)
    requires Verified(p, stored, floor, declared)
    ensures p == Derive(p.candidate, p.incumbent, floor, p.hard)
  {
    var c, i := p.candidate, p.incumbent;
    SortingUnique(p.regressedObjectives, SortingOf(multiset(Regressed(c, i))), multiset(Regressed(c, i)));
    SortingUnique(p.regressedAxes, SortingOf(multiset(OverEnvelope(c, i))), multiset(OverEnvelope(c, i)));
    SortingUnique(p.floorRegressions, SortingOf(FloorRegressions(c, floor)), FloorRegressions(c, floor));
  }

  lemma VerifiedUnique(p: Partition, q: Partition, stored: Vector, floor: Vector, declared: set<string>)
    requires Verified(p, stored, floor, declared) && Verified(q, stored, floor, declared)
    requires p.candidate == q.candidate && p.hard == q.hard
    ensures p == q
  {
    VerifiedIsDerived(p, stored, floor, declared);
    VerifiedIsDerived(q, stored, floor, declared);
  }
}

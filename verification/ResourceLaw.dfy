/**
 * The counter-resource law: measured sides turned into ppm of the fixed product cap, in exact
 * integer arithmetic with one floor per axis.
 */
module ResourceLaw {
  import opened Arith
  import opened Limits
  import opened Outcomes
  import opened Sums

  const LAW_FORMAT := "coretex.counter-resource-law.v1"
  const NORMALIZER := "fixed_product_cap_c"
  const OVERFLOW_POLICY := "saturate_at_resource_ppm_max"

  /** Where an axis reads: `rendered_cost`, `resource.<key>`, or some source the law does not know. */
  datatype Source = RenderedCost | Resource(key: string) | Unknown(text: string)

  datatype ResourceAxis = ResourceAxis(id: string, source: Source, unitName: string, weight: int)

  datatype CounterLaw = CounterLaw(format: string, branch: string, normalizer: string, overflow: string,
                                   resourceMax: int, utilityMax: int, utilitySource: string, scaleMax: int,
                                   axes: seq<ResourceAxis>)

  datatype LawError =
    | MissingAxis | MissingCap | CapNotPositive | UnknownSource | OutOfRange | OverCeiling | NotCanonical

  datatype LawRefusal =
    | BadFormat | BadBranch | BadNormalizer | BadPolicy | BadCeiling | BadUtility | BadScale
    | NoAxes | BadText | BadWeight | DuplicateId | WeightsDoNotSum

  datatype EvalError = BadLaw(why: LawRefusal) | Failed(what: LawError)

  datatype Ppm = Ppm(utilityBefore: int, utilityAfter: int, resourceBefore: int, resourceAfter: int)

  /** One measured side: its composite, its rendered cost, and its counters by name. */
  datatype Side = Side(composite: int, rendered: int, counters: map<string, int>)

  /** The fixed product cap `C`: `envelopes[k]` is the document's `envelope_<k>`. */
  datatype FixedCap = FixedCap(rendered: int, envelopes: map<string, int>)

  /** The part of a metric vector that the accounting holds against the canonical one. */
  datatype CapVector = CapVector(block: string, cap: FixedCap)

  /** One axis once both its readings are known. */
  datatype Reading = Reading(weight: int, amount: nat, cap: nat)

  predicate InRange(n: int)
  {
    0 <= n <= MAX_UINT64
  }

  // ---- validation of the law document ----------------------------------------------------

  function WeightSum(axes: seq<ResourceAxis>): int
  {
    if axes == [] then 0 else WeightSum(axes[..|axes| - 1]) + axes[|axes| - 1].weight
  }

  predicate GoodAxis(axis: ResourceAxis)
  {
    axis.id != "" && axis.source != Unknown("") && axis.unitName != "" && 0 <= axis.weight <= MICRO
  }

  /** What the document must satisfy for its ppm to mean a share of the cap. */
  ghost predicate LawHolds(law: CounterLaw)
  {
    && law.format == LAW_FORMAT && (law.branch == "gate" || law.branch == "confirm")
    && law.normalizer == NORMALIZER && law.overflow == OVERFLOW_POLICY
    && 1 <= law.resourceMax <= MAX_UINT32 && 1 <= law.utilityMax <= MAX_UINT32
    && law.utilitySource != "" && 1 <= law.scaleMax <= MAX_UINT64
    && law.axes != []
    && (forall k :: 0 <= k < |law.axes| ==> GoodAxis(law.axes[k]))
    && (forall j, k :: 0 <= j < k < |law.axes| ==> law.axes[j].id != law.axes[k].id)
    && WeightSum(law.axes) == MICRO
  }

  /** The scan over the axes, with its running total and its set of seen ids. */
  method ValidateLaw(law: CounterLaw) returns (r: Result<CounterLaw, LawRefusal>)
    ensures r.Accepted? <==> LawHolds(law)
    ensures r.Accepted? ==> r.value == law
  {
    if law.format != LAW_FORMAT {
      return Refused(BadFormat);
    }
    if law.branch != "gate" && law.branch != "confirm" {
      return Refused(BadBranch);
    }
    if law.normalizer != NORMALIZER {
      return Refused(BadNormalizer);
    }
    if law.overflow != OVERFLOW_POLICY {
      return Refused(BadPolicy);
    }
    if !(1 <= law.resourceMax <= MAX_UINT32 && 1 <= law.utilityMax <= MAX_UINT32) {
      return Refused(BadCeiling);
    }
    if law.utilitySource == "" {
      return Refused(BadUtility);
    }
    if !(1 <= law.scaleMax <= MAX_UINT64) {
      return Refused(BadScale);
    }
    if law.axes == [] {
      return Refused(NoAxes);
    }
    var total := 0;
    var seen: set<string> := {};
    for k := 0 to |law.axes|
      invariant total == WeightSum(law.axes[..k])
      invariant seen == set j | 0 <= j < k :: law.axes[j].id
      invariant forall j :: 0 <= j < k ==> GoodAxis(law.axes[j])
      invariant forall i, j :: 0 <= i < j < k ==> law.axes[i].id != law.axes[j].id
    {
      var axis := law.axes[k];
      assert law.axes[..k + 1][..k] == law.axes[..k];
      if axis.id == "" || axis.source == Unknown("") || axis.unitName == "" {
        return Refused(BadText);
      }
      if !(0 <= axis.weight <= MICRO) {
        return Refused(BadWeight);
      }
      total := total + axis.weight;
      if axis.id in seen {
        return Refused(DuplicateId);
      }
      seen := seen + {axis.id};
    }
    assert law.axes[..|law.axes|] == law.axes;
    if total != MICRO {
      return Refused(WeightsDoNotSum);
    }
    return Accepted(law);
  }

  // ---- one axis --------------------------------------------------------------------------

  /** The micro-unit value of one axis on one measured side. */
  function AxisMicro(side: Side, axis: ResourceAxis): Result<nat, LawError>
  {
    match axis.source
    case RenderedCost => if InRange(side.rendered) then Accepted(side.rendered) else Refused(OutOfRange)
    case Resource(key) =>
      if key !in side.counters then Refused(MissingAxis)
      else if InRange(side.counters[key]) then Accepted(side.counters[key] * MICRO)
      else Refused(OutOfRange)
    case Unknown(_) => Refused(UnknownSource)
  }

  /** The positive cap of one axis, in the same micro units. */
  function AxisCapMicro(cap: FixedCap, axis: ResourceAxis): (r: Result<nat, LawError>)
    ensures r.Accepted? ==> r.value > 0
  {
    match axis.source
    case RenderedCost => PositiveCap(cap.rendered, 1)
    case Resource(key) =>
      if key !in cap.envelopes then Refused(MissingCap) else PositiveCap(cap.envelopes[key], MICRO)
    case Unknown(_) => Refused(UnknownSource)
  }

  function PositiveCap(value: int, scale: nat): (r: Result<nat, LawError>)
    requires scale > 0
    ensures r.Accepted? ==> r.value > 0
  {
    if !InRange(value) then Refused(OutOfRange)
    else if value == 0 then Refused(CapNotPositive)
    else Accepted(value * scale)
  }

  /** One axis read on one side, cap first. */
  function ReadAxis(axis: ResourceAxis, side: Side, cap: FixedCap): (r: Result<Reading, LawError>)
    ensures r.Accepted? ==> r.value.weight == axis.weight && r.value.cap > 0
  {
    var base := AxisCapMicro(cap, axis);
    if base.Refused? then Refused(base.error)
    else
      var amount := AxisMicro(side, axis);
      if amount.Refused? then Refused(amount.error)
      else Accepted(Reading(axis.weight, amount.value, base.value))
  }

  /** All readings of one side, or the first that fails. */
  function Readings(axes: seq<ResourceAxis>, side: Side, cap: FixedCap): (r: Result<seq<Reading>, LawError>)
    ensures r.Accepted? ==> |r.value| == |axes|
  {
    if axes == [] then Accepted([])
    else
      var front := Readings(axes[..|axes| - 1], side, cap);
      if front.Refused? then front
      else
        var last := ReadAxis(axes[|axes| - 1], side, cap);
        if last.Refused? then Refused(last.error) else Accepted(front.value + [last.value])
  }

  /** The raw aggregate: one floor per axis against its own cap. */
  function RawTotal(rs: seq<Reading>): int
    requires forall k :: 0 <= k < |rs| ==> rs[k].cap > 0
  {
    if rs == [] then 0
    else
      var last := rs[|rs| - 1];
      RawTotal(rs[..|rs| - 1]) + last.weight * last.amount / last.cap
  }

  lemma {:induction false} ReadingsCarry(axes: seq<ResourceAxis>, side: Side, cap: FixedCap)
    requires Readings(axes, side, cap).Accepted?
    ensures var rs := Readings(axes, side, cap).value;
            forall k :: 0 <= k < |rs| ==> ReadAxis(axes[k], side, cap) == Accepted(rs[k])
  {
    if axes != [] {
      ReadingsCarry(axes[..|axes| - 1], side, cap);
    }
  }

  lemma {:induction false} PrefixRefusal(axes: seq<ResourceAxis>, k: nat, side: Side, cap: FixedCap)
    requires k <= |axes| && Readings(axes[..k], side, cap).Refused?
    ensures Readings(axes, side, cap) == Readings(axes[..k], side, cap)
    decreases |axes|
  {
    if k < |axes| {
      assert axes[..|axes| - 1][..k] == axes[..k];
      PrefixRefusal(axes[..|axes| - 1], k, side, cap);
    } else {
      assert axes[..k] == axes;
    }
  }

  /** The ppm of one side: the aggregate, saturated at the ceiling. */
  function SidePpm(law: CounterLaw, side: Side, cap: FixedCap): Result<int, LawError>
  {
    var rs := Readings(law.axes, side, cap);
    if rs.Refused? then Refused(rs.error)
    else
      ReadingsCarry(law.axes, side, cap);
      Accepted(Min(RawTotal(rs.value), law.resourceMax))
  }

  lemma ReadOneMore(axes: seq<ResourceAxis>, k: nat, side: Side, cap: FixedCap)
    requires k < |axes| && Readings(axes[..k], side, cap).Accepted?
    ensures var front, next := Readings(axes[..k], side, cap).value, ReadAxis(axes[k], side, cap);
            Readings(axes[..k + 1], side, cap)
            == if next.Refused? then Refused(next.error) else Accepted(front + [next.value])
  {
    assert axes[..k + 1][..k] == axes[..k];
  }

  lemma TotalOneMore(rs: seq<Reading>, r: Reading)
    requires (forall k :: 0 <= k < |rs| ==> rs[k].cap > 0) && r.cap > 0
    ensures RawTotal(rs + [r]) == RawTotal(rs) + r.weight * r.amount / r.cap
  {
    assert (rs + [r])[..|rs|] == rs;
  }

  /** The accumulating loop over the axes of one side. */
  method EvaluateSide(law: CounterLaw, side: Side, cap: FixedCap) returns (r: Result<int, LawError>)
    ensures r == SidePpm(law, side, cap)
  {
    var total := 0;
    ghost var read: seq<Reading> := [];
    for k := 0 to |law.axes|
      invariant Readings(law.axes[..k], side, cap) == Accepted(read)
      invariant forall j :: 0 <= j < |read| ==> read[j].cap > 0
      invariant total == RawTotal(read)
    {
      var axis := law.axes[k];
      ReadOneMore(law.axes, k, side, cap);
      var base := AxisCapMicro(cap, axis);
      if base.Refused? {
        PrefixRefusal(law.axes, k + 1, side, cap);
        return Refused(base.error);
      }
      var amount := AxisMicro(side, axis);
      if amount.Refused? {
        PrefixRefusal(law.axes, k + 1, side, cap);
        return Refused(amount.error);
      }
      TotalOneMore(read, Reading(axis.weight, amount.value, base.value));
      read := read + [Reading(axis.weight, amount.value, base.value)];
      total := total + axis.weight * amount.value / base.value;
    }
    assert law.axes[..|law.axes|] == law.axes;
    return Accepted(Min(total, law.resourceMax));
  }

  /** Why a pair of sides is refused once the vectors are canonical: the first check that fails. */
  function FirstRefusal(law: CounterLaw, candidate: Side, incumbent: Side, cap: FixedCap): Option<LawError>
    requires law.scaleMax > 0
  {
    var before, after := SidePpm(law, incumbent, cap), SidePpm(law, candidate, cap);
    if !InRange(incumbent.composite) || !InRange(candidate.composite) then Some(OutOfRange)
    else if before.Refused? then Some(before.error)
    else if after.Refused? then Some(after.error)
    else if incumbent.composite / law.scaleMax > law.utilityMax then Some(OverCeiling)
    else if candidate.composite / law.scaleMax > law.utilityMax then Some(OverCeiling)
    else None
  }

  /**
   * The whole evaluation: the law, the canonical cap in both vectors, utilities, both resource
   * sides, then the pinned ceilings. A validated law's own ceilings never refuse a resource side.
   */
  method Evaluate(law: CounterLaw, candidate: Side, incumbent: Side, candidateVector: CapVector,
                  incumbentVector: CapVector, canonical: CapVector)
    returns (r: Result<Ppm, EvalError>)
    ensures (r.Refused? && r.error.BadLaw?) <==> !LawHolds(law)
    ensures LawHolds(law) && (candidateVector != canonical || incumbentVector != canonical) ==>
              r == Refused(Failed(NotCanonical))
    ensures LawHolds(law) && candidateVector == incumbentVector == canonical ==>
              var why := FirstRefusal(law, candidate, incumbent, canonical.cap);
              && (why.Some? ==> r == Refused(Failed(why.value)))
              && (why.None? ==>
                    r == Accepted(Ppm(incumbent.composite / law.scaleMax, candidate.composite / law.scaleMax,
                                      SidePpm(law, incumbent, canonical.cap).value,
                                      SidePpm(law, candidate, canonical.cap).value)))
  {
    var valid := ValidateLaw(law);
    if valid.Refused? {
      return Refused(BadLaw(valid.error));
    }
    if candidateVector != canonical || incumbentVector != canonical {
      return Refused(Failed(NotCanonical));
    }
    if !InRange(incumbent.composite) || !InRange(candidate.composite) {
      return Refused(Failed(OutOfRange));
    }
    var before, after := incumbent.composite / law.scaleMax, candidate.composite / law.scaleMax;
    var resourceBefore := EvaluateSide(law, incumbent, canonical.cap);
    if resourceBefore.Refused? {
      return Refused(Failed(resourceBefore.error));
    }
    var resourceAfter := EvaluateSide(law, candidate, canonical.cap);
    if resourceAfter.Refused? {
      return Refused(Failed(resourceAfter.error));
    }
    if before > law.utilityMax || after > law.utilityMax {
      return Refused(Failed(OverCeiling));
    }
    return Accepted(Ppm(before, after, resourceBefore.value, resourceAfter.value));
  }

  // ---- what the aggregate means ----------------------------------------------------------

  predicate Sound(rs: seq<Reading>)
  {
    forall k :: 0 <= k < |rs| ==> rs[k].weight >= 0 && rs[k].cap > 0
  }

  function Weights(rs: seq<Reading>): int
  {
    if rs == [] then 0 else Weights(rs[..|rs| - 1]) + rs[|rs| - 1].weight
  }

  /** The same axes and caps, with no axis of `rs` above the same axis of `ts`. */
  predicate AtMost(rs: seq<Reading>, ts: seq<Reading>)
  {
    && |rs| == |ts|
    && forall k :: 0 <= k < |rs| ==>
         rs[k].weight == ts[k].weight && rs[k].cap == ts[k].cap && rs[k].amount <= ts[k].amount
  }

  predicate WithinCap(rs: seq<Reading>)
  {
    forall k :: 0 <= k < |rs| ==> rs[k].amount <= rs[k].cap
  }

  predicate AtCap(rs: seq<Reading>)
  {
    forall k :: 0 <= k < |rs| ==> rs[k].amount == rs[k].cap
  }

  lemma FloorExact(w: int, c: nat)
    requires c > 0
    ensures w * c / c == w
  {
    DivUnique(w * c, c, w, 0);
  }

  /** The aggregate never falls when no axis falls. */
  lemma {:induction false} RawTotalMonotone(rs: seq<Reading>, ts: seq<Reading>)
    requires Sound(rs) && Sound(ts) && AtMost(rs, ts)
    ensures 0 <= RawTotal(rs) <= RawTotal(ts)
  {
    if rs != [] {
      var n := |rs| - 1;
      RawTotalMonotone(rs[..n], ts[..n]);
      MulMonotone(rs[n].weight, 0, rs[n].amount);
      MulMonotone(rs[n].weight, rs[n].amount, ts[n].amount);
      DivMonotone(rs[n].weight * rs[n].amount, ts[n].weight * ts[n].amount, rs[n].cap);
      DivMonotone(0, rs[n].weight * rs[n].amount, rs[n].cap);
    }
  }

  lemma {:induction false} RawTotalWithinCap(rs: seq<Reading>)
    requires Sound(rs) && WithinCap(rs)
    ensures RawTotal(rs) <= Weights(rs)
    ensures AtCap(rs) ==> RawTotal(rs) == Weights(rs)
  {
    if rs != [] {
      var n := |rs| - 1;
      RawTotalWithinCap(rs[..n]);
      MulMonotone(rs[n].weight, rs[n].amount, rs[n].cap);
      DivMonotone(rs[n].weight * rs[n].amount, rs[n].weight * rs[n].cap, rs[n].cap);
      FloorExact(rs[n].weight, rs[n].cap);
    }
  }

  /** The exact weighted sum the floors approximate. */
  ghost function ExactSum(rs: seq<Reading>): real
    requires Sound(rs)
  {
    if rs == [] then 0.0
    else
      var last := rs[|rs| - 1];
      ExactSum(rs[..|rs| - 1]) + (last.weight * last.amount) as real / last.cap as real
  }

  lemma RealCancel(x: real, y: real, e: real)
    requires e > 0.0
    ensures x * e <= y * e ==> x <= y
    ensures x * e < y * e ==> x < y
  {
    assert (y - x) * e == y * e - x * e;
  }

  lemma FloorLoss(n: int, d: nat)
    requires d > 0
    ensures (n / d) as real <= n as real / d as real < (n / d) as real + 1.0
  {
    var q, e := (n / d) as real, d as real;
    var x := n as real / e;
    FloorBracket(n, d);
    assert x * e == n as real;
    RealCancel(q, x, e);
    RealCancel(x, q + 1.0, e);
  }

  lemma FloorBracket(n: int, d: nat)
    requires d > 0
    ensures (n / d) as real * d as real <= n as real < ((n / d) as real + 1.0) * d as real
  {
    var q := n / d;
    assert n == q * d + n % d;
    assert q * d <= n < (q + 1) * d;
    assert (q * d) as real == q as real * d as real;
    assert ((q + 1) * d) as real == (q as real + 1.0) * d as real;
  }

  /** Before saturation each axis loses less than one ppm against the exact sum. */
  lemma {:induction false} RawTotalPrecision(rs: seq<Reading>)
    requires Sound(rs)
    ensures RawTotal(rs) as real <= ExactSum(rs)
    ensures rs != [] ==> ExactSum(rs) < (RawTotal(rs) + |rs|) as real
  {
    if rs != [] {
      var n := |rs| - 1;
      RawTotalPrecision(rs[..n]);
      FloorLoss(rs[n].weight * rs[n].amount, rs[n].cap);
    }
  }

  lemma {:induction false} WeightsOfReadings(axes: seq<ResourceAxis>, rs: seq<Reading>)
    requires |axes| == |rs| && forall k :: 0 <= k < |rs| ==> rs[k].weight == axes[k].weight
    ensures Weights(rs) == WeightSum(axes)
  {
    if rs != [] {
      WeightsOfReadings(axes[..|rs| - 1], rs[..|rs| - 1]);
    }
  }

  lemma LawReadingsSound(law: CounterLaw, side: Side, cap: FixedCap)
    requires LawHolds(law) && Readings(law.axes, side, cap).Accepted?
    ensures var rs := Readings(law.axes, side, cap).value;
            Sound(rs) && rs != [] && Weights(rs) == MICRO
  {
    var rs := Readings(law.axes, side, cap).value;
    ReadingsCarry(law.axes, side, cap);
    forall k | 0 <= k < |rs| ensures rs[k].weight == law.axes[k].weight >= 0 && rs[k].cap > 0 {
      assert ReadAxis(law.axes[k], side, cap) == Accepted(rs[k]);
      assert GoodAxis(law.axes[k]);
    }
    WeightsOfReadings(law.axes, rs);
  }

  /**
   * The law's promises about one evaluated side: within the cap it lies in 0..1,000,000, at the
   * cap it is 1,000,000 unless the ceiling is lower, it is monotone in every axis, and below the
   * ceiling it is the exact weighted sum less than one ppm per axis short.
   */
  lemma SidePpmMeaning(law: CounterLaw, side: Side, other: Side, cap: FixedCap)
    requires LawHolds(law)
    requires Readings(law.axes, side, cap).Accepted? && Readings(law.axes, other, cap).Accepted?
    ensures Sound(Readings(law.axes, side, cap).value)
    ensures var ppm, rs := SidePpm(law, side, cap).value, Readings(law.axes, side, cap).value;
            && 0 <= ppm <= law.resourceMax
            && (WithinCap(rs) ==> ppm <= MICRO)
            && (AtCap(rs) ==> ppm == Min(MICRO, law.resourceMax))
            && (AtMost(rs, Readings(law.axes, other, cap).value) ==> ppm <= SidePpm(law, other, cap).value)
            && (ppm < law.resourceMax ==> ppm as real <= ExactSum(rs) < (ppm + |law.axes|) as real)
  {
    var rs, ts := Readings(law.axes, side, cap).value, Readings(law.axes, other, cap).value;
    LawReadingsSound(law, side, cap);
    LawReadingsSound(law, other, cap);
    RawTotalMonotone(rs, rs);
    if WithinCap(rs) {
      RawTotalWithinCap(rs);
    }
    if AtMost(rs, ts) {
      RawTotalMonotone(rs, ts);
    }
    RawTotalPrecision(rs);
  }
}

/** What the resource evaluation comes to over a side's own counters and the cap's own entries. */
module ResourceMeaning {
  import opened Arith
  import opened Outcomes
  import opened ResourceLaw
  import opened Sums

  /** Counter and cap entry are there and in range, and the entry is positive. */
  predicate Metered(axis: ResourceAxis, side: Side, cap: FixedCap)
  {
    match axis.source
    case RenderedCost =>
      1 <= cap.rendered <= 0xFFFF_FFFF_FFFF_FFFF && 0 <= side.rendered <= 0xFFFF_FFFF_FFFF_FFFF
    case Resource(key) =>
      && key in cap.envelopes && 1 <= cap.envelopes[key] <= 0xFFFF_FFFF_FFFF_FFFF
      && key in side.counters && 0 <= side.counters[key] <= 0xFFFF_FFFF_FFFF_FFFF
    case Unknown(_) => false
  }

  ghost predicate AllMetered(axes: seq<ResourceAxis>, side: Side, cap: FixedCap)
  {
    forall k :: 0 <= k < |axes| ==> Metered(axes[k], side, cap)
  }

  /** The axis's weight times its counter over its cap entry, rounded down. */
  function Share(axis: ResourceAxis, side: Side, cap: FixedCap): int
    requires Metered(axis, side, cap)
  {
    match axis.source
    case RenderedCost => axis.weight * side.rendered / cap.rendered
    case Resource(key) => axis.weight * side.counters[key] / cap.envelopes[key]
    case Unknown(_) => 0
  }

  function ShareSum(axes: seq<ResourceAxis>, side: Side, cap: FixedCap): int
    requires AllMetered(axes, side, cap)
  {
    if axes == [] then 0
    else ShareSum(axes[..|axes| - 1], side, cap) + Share(axes[|axes| - 1], side, cap)
  }

  /** The same without rounding. */
  ghost function ExactShare(axis: ResourceAxis, side: Side, cap: FixedCap): real
    requires Metered(axis, side, cap)
  {
    match axis.source
    case RenderedCost => (axis.weight * side.rendered) as real / cap.rendered as real
    case Resource(key) => (axis.weight * side.counters[key]) as real / cap.envelopes[key] as real
    case Unknown(_) => 0.0
  }

  ghost function ExactShares(axes: seq<ResourceAxis>, side: Side, cap: FixedCap): real
    requires AllMetered(axes, side, cap)
  {
    if axes == [] then 0.0
    else ExactShares(axes[..|axes| - 1], side, cap) + ExactShare(axes[|axes| - 1], side, cap)
  }

  // ---- readings are shares ---------------------------------------------------------------

  lemma Cancelled(w: int, n: nat, d: nat)
    requires d > 0
    ensures w * (n * 1_000_000) / (d * 1_000_000) == w * n / d
  {
    var a := w * n;
    assert w * (n * 1_000_000) == a * 1_000_000;
    assert a == a / d * d + a % d;
    Regrouped(a / d, d, a % d);
    DivUnique(a * 1_000_000, d * 1_000_000, a / d, a % d * 1_000_000);
  }

  lemma Regrouped(q: int, d: nat, r: int)
    ensures (q * d + r) * 1_000_000 == q * (d * 1_000_000) + r * 1_000_000
  {
  }

  lemma AxisRead(axis: ResourceAxis, side: Side, cap: FixedCap)
    ensures ReadAxis(axis, side, cap).Accepted? <==> Metered(axis, side, cap)
    ensures Metered(axis, side, cap) ==>
              var r := ReadAxis(axis, side, cap).value;
              r.cap > 0 && r.weight * r.amount / r.cap == Share(axis, side, cap)
  {
    if Metered(axis, side, cap) && axis.source.Resource? {
      Cancelled(axis.weight, side.counters[axis.source.key], cap.envelopes[axis.source.key]);
    }
  }

  lemma {:induction false} ReadingsAre(axes: seq<ResourceAxis>, side: Side, cap: FixedCap)
    ensures Readings(axes, side, cap).Accepted? <==> AllMetered(axes, side, cap)
    ensures AllMetered(axes, side, cap) ==>
              var rs := Readings(axes, side, cap).value;
              && (forall k :: 0 <= k < |rs| ==> rs[k].cap > 0)
              && RawTotal(rs) == ShareSum(axes, side, cap)
  {
    if axes != [] {
      var front, last := axes[..|axes| - 1], axes[|axes| - 1];
      ReadingsAre(front, side, cap);
      AxisRead(last, side, cap);
      if AllMetered(axes, side, cap) {
        var rs, r := Readings(front, side, cap).value, ReadAxis(last, side, cap).value;
        assert (rs + [r])[..|rs|] == rs;
      } else if AllMetered(front, side, cap) {
        assert !Metered(last, side, cap);
      }
    }
  }

  /** A side's ppm is the sum of its shares, saturated; it is refused when an axis is not metered. */
  lemma SidePpmIs(law: CounterLaw, side: Side, cap: FixedCap)
    ensures SidePpm(law, side, cap).Accepted? <==> AllMetered(law.axes, side, cap)
    ensures AllMetered(law.axes, side, cap) ==>
              SidePpm(law, side, cap) == Accepted(Min(ShareSum(law.axes, side, cap), law.resourceMax))
  {
    ReadingsAre(law.axes, side, cap);
  }

  // ---- the promises over counters and entries --------------------------------------------

  /** Every metered counter is exactly its cap entry. */
  ghost predicate AtCapEntries(axes: seq<ResourceAxis>, side: Side, cap: FixedCap)
    requires AllMetered(axes, side, cap)
  {
    forall k :: 0 <= k < |axes| ==>
      match axes[k].source
      case RenderedCost => side.rendered == cap.rendered
      case Resource(key) => Metered(axes[k], side, cap) && side.counters[key] == cap.envelopes[key]
      case Unknown(_) => true
  }

  ghost predicate WithinEntries(axes: seq<ResourceAxis>, side: Side, cap: FixedCap)
    requires AllMetered(axes, side, cap)
  {
    forall k :: 0 <= k < |axes| ==>
      match axes[k].source
      case RenderedCost => side.rendered <= cap.rendered
      case Resource(key) => Metered(axes[k], side, cap) && side.counters[key] <= cap.envelopes[key]
      case Unknown(_) => true
  }

  /** No metered counter of `side` is above the same one of `other`. */
  ghost predicate NoneAbove(axes: seq<ResourceAxis>, side: Side, other: Side, cap: FixedCap)
    requires AllMetered(axes, side, cap) && AllMetered(axes, other, cap)
  {
    forall k :: 0 <= k < |axes| ==>
      match axes[k].source
      case RenderedCost => side.rendered <= other.rendered
      case Resource(key) => Metered(axes[k], side, cap) && Metered(axes[k], other, cap)
                            && side.counters[key] <= other.counters[key]
      case Unknown(_) => true
  }

  ghost predicate Weighted(axes: seq<ResourceAxis>)
  {
    forall k :: 0 <= k < |axes| ==> axes[k].weight >= 0
  }

  lemma FullShare(w: nat, n: nat, d: nat)
    requires d > 0
    ensures 0 <= w * n / d
    ensures n <= d ==> w * n / d <= w
    ensures n == d ==> w * n / d == w
  {
    DivMonotone(0, w * n, d);
    FloorExact(w, d);
    if n <= d {
      MulMonotone(w, n, d);
      DivMonotone(w * n, w * d, d);
    }
  }

  lemma AxisShare(axis: ResourceAxis, side: Side, other: Side, cap: FixedCap)
    requires axis.weight >= 0 && Metered(axis, side, cap) && Metered(axis, other, cap)
    ensures AllMetered([axis], side, cap) && AllMetered([axis], other, cap)
    ensures 0 <= Share(axis, side, cap)
    ensures WithinEntries([axis], side, cap) ==> Share(axis, side, cap) <= axis.weight
    ensures AtCapEntries([axis], side, cap) ==> Share(axis, side, cap) == axis.weight
    ensures NoneAbove([axis], side, other, cap) ==> Share(axis, side, cap) <= Share(axis, other, cap)
  {
    match axis.source {
      case RenderedCost =>
        FullShare(axis.weight, side.rendered, cap.rendered);
        if side.rendered <= other.rendered {
          MulMonotone(axis.weight, side.rendered, other.rendered);
          DivMonotone(axis.weight * side.rendered, axis.weight * other.rendered, cap.rendered);
        }
        assert [axis][0].source == RenderedCost;
      case Resource(key) =>
        FullShare(axis.weight, side.counters[key], cap.envelopes[key]);
        if side.counters[key] <= other.counters[key] {
          MulMonotone(axis.weight, side.counters[key], other.counters[key]);
          DivMonotone(axis.weight * side.counters[key], axis.weight * other.counters[key], cap.envelopes[key]);
        }
        assert [axis][0].source == Resource(key);
    }
  }

  lemma {:induction false} SharesOrdered(axes: seq<ResourceAxis>, side: Side, other: Side, cap: FixedCap)
    requires Weighted(axes) && AllMetered(axes, side, cap) && AllMetered(axes, other, cap)
    ensures 0 <= ShareSum(axes, side, cap)
    ensures WithinEntries(axes, side, cap) ==> ShareSum(axes, side, cap) <= WeightSum(axes)
    ensures AtCapEntries(axes, side, cap) ==> ShareSum(axes, side, cap) == WeightSum(axes)
    ensures NoneAbove(axes, side, other, cap) ==> ShareSum(axes, side, cap) <= ShareSum(axes, other, cap)
  {
    if axes != [] {
      var front, last := axes[..|axes| - 1], axes[|axes| - 1];
      assert forall k :: 0 <= k < |front| ==> front[k] == axes[k];
      SharesOrdered(front, side, other, cap);
      AxisShare(last, side, other, cap);
      assert [last][0] == axes[|axes| - 1];
    }
  }

  lemma AxisExact(axis: ResourceAxis, side: Side, cap: FixedCap)
    requires Metered(axis, side, cap)
    ensures Share(axis, side, cap) as real <= ExactShare(axis, side, cap) < Share(axis, side, cap) as real + 1.0
  {
    match axis.source {
      case RenderedCost => FloorLoss(axis.weight * side.rendered, cap.rendered);
      case Resource(key) => FloorLoss(axis.weight * side.counters[key], cap.envelopes[key]);
    }
  }

  lemma {:induction false} SharesExact(axes: seq<ResourceAxis>, side: Side, cap: FixedCap)
    requires AllMetered(axes, side, cap)
    ensures ShareSum(axes, side, cap) as real <= ExactShares(axes, side, cap)
    ensures axes != [] ==> ExactShares(axes, side, cap) < (ShareSum(axes, side, cap) + |axes|) as real
  {
    if axes != [] {
      SharesExact(axes[..|axes| - 1], side, cap);
      AxisExact(axes[|axes| - 1], side, cap);
    }
  }

  /**
   * The law's promises about one side, over its own counters: at the cap's entries it is
   * 1,000,000 unless the ceiling is lower, within them never more, it never falls when no counter
   * falls, and below the ceiling it is the exact sum of weight times counter over entry, less
   * than one ppm per axis short.
   */
  lemma SidePpmPromises(law: CounterLaw, side: Side, other: Side, cap: FixedCap)
    requires LawHolds(law) && AllMetered(law.axes, side, cap) && AllMetered(law.axes, other, cap)
    ensures SidePpm(law, side, cap).Accepted? && SidePpm(law, other, cap).Accepted?
    ensures var ppm := SidePpm(law, side, cap).value;
            && 0 <= ppm <= law.resourceMax
            && (AtCapEntries(law.axes, side, cap) ==> ppm == Min(1_000_000, law.resourceMax))
            && (WithinEntries(law.axes, side, cap) ==> ppm <= 1_000_000)
            && (NoneAbove(law.axes, side, other, cap) ==> ppm <= SidePpm(law, other, cap).value)
            && (ppm < law.resourceMax ==>
                  ppm as real <= ExactShares(law.axes, side, cap) < (ppm + |law.axes|) as real)
  {
    SidePpmIs(law, side, cap);
    SidePpmIs(law, other, cap);
    assert Weighted(law.axes) by {
      forall k | 0 <= k < |law.axes| ensures law.axes[k].weight >= 0 {
        assert GoodAxis(law.axes[k]);
      }
    }
    SharesOrdered(law.axes, side, other, cap);
    SharesExact(law.axes, side, cap);
  }

  // ---- refusals --------------------------------------------------------------------------

  /** Why an axis is not metered: the cap entry is looked at first. */
  function Why(axis: ResourceAxis, side: Side, cap: FixedCap): LawError
  {
    match axis.source
    case RenderedCost =>
      if !(0 <= cap.rendered <= 0xFFFF_FFFF_FFFF_FFFF) then OutOfRange
      else if cap.rendered == 0 then CapNotPositive
      else OutOfRange
    case Resource(key) =>
      if key !in cap.envelopes then MissingCap
      else if !(0 <= cap.envelopes[key] <= 0xFFFF_FFFF_FFFF_FFFF) then OutOfRange
      else if cap.envelopes[key] == 0 then CapNotPositive
      else if key !in side.counters then MissingAxis
      else OutOfRange
    case Unknown(_) => UnknownSource
  }

  lemma {:induction false} FirstUnmetered(axes: seq<ResourceAxis>, side: Side, cap: FixedCap, k: nat)
    requires k < |axes| && AllMetered(axes[..k], side, cap) && !Metered(axes[k], side, cap)
    ensures Readings(axes, side, cap) == Refused(Why(axes[k], side, cap))
    decreases |axes|
  {
    var last := |axes| - 1;
    if k < last {
      assert axes[..last][..k] == axes[..k];
      FirstUnmetered(axes[..last], side, cap, k);
    } else {
      ReadingsAre(axes[..k], side, cap);
    }
  }

  /** A side is refused for its first axis that is not metered. */
  lemma SideRefused(law: CounterLaw, side: Side, cap: FixedCap, k: nat)
    requires k < |law.axes| && AllMetered(law.axes[..k], side, cap) && !Metered(law.axes[k], side, cap)
    ensures SidePpm(law, side, cap) == Refused(Why(law.axes[k], side, cap))
  {
    FirstUnmetered(law.axes, side, cap, k);
  }

  /** When nothing is refused, and what is refused first. */
  lemma RefusalMeans(law: CounterLaw, candidate: Side, incumbent: Side, cap: FixedCap)
    requires law.scaleMax > 0
    ensures var why := FirstRefusal(law, candidate, incumbent, cap);
            var ranged := && 0 <= incumbent.composite <= 0xFFFF_FFFF_FFFF_FFFF
                          && 0 <= candidate.composite <= 0xFFFF_FFFF_FFFF_FFFF;
            && (!ranged ==> why == Some(OutOfRange))
            && (ranged && !AllMetered(law.axes, incumbent, cap) ==>
                  SidePpm(law, incumbent, cap).Refused? && why == Some(SidePpm(law, incumbent, cap).error))
            && (ranged && AllMetered(law.axes, incumbent, cap) && !AllMetered(law.axes, candidate, cap) ==>
                  SidePpm(law, candidate, cap).Refused? && why == Some(SidePpm(law, candidate, cap).error))
            && (ranged && AllMetered(law.axes, incumbent, cap) && AllMetered(law.axes, candidate, cap) ==>
                  why == if incumbent.composite / law.scaleMax > law.utilityMax
                            || candidate.composite / law.scaleMax > law.utilityMax then Some(OverCeiling) else None)
  {
    SidePpmIs(law, incumbent, cap);
    SidePpmIs(law, candidate, cap);
  }
}

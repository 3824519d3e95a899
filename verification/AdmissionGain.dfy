/** The protected resource axes, and the gain an efficiency accept is worth. */
module AdmissionGain {
  import opened Limits
  import opened Sums

  datatype Axis = RenderedCost | WorkFuel | DurableBytes

  /** The three protected axes in the order the gain loop visits them. */
  const ENVELOPE_AXES: seq<Axis> := [RenderedCost, WorkFuel, DurableBytes]

  datatype Resources = Resources(rendered: nat, fuel: nat, durable: nat) {
    function At(a: Axis): nat
    {
      match a
      case RenderedCost => rendered
      case WorkFuel => fuel
      case DurableBytes => durable
    }

    function Sum(): nat
    {
      rendered + fuel + durable
    }

    predicate Within(cap: Resources)
    {
      forall a: Axis :: At(a) <= cap.At(a)
    }
  }

  /** How far one axis fell, in ppm of the parent's value. */
  function DropPpm(parent: nat, cand: nat): (r: nat)
    ensures r <= MICRO
  {
    if cand >= parent then 0
    else
      DropRange(parent, cand);
      (parent - cand) * 1_000_000 / parent
  }

  lemma DropRange(parent: nat, cand: nat)
    requires cand < parent
    ensures 0 <= (parent - cand) * 1_000_000 / parent <= MICRO
  {
    QuotientAtMost((parent - cand) * 1_000_000, parent, 1_000_000);
  }

  lemma QuotientAtMost(n: nat, d: nat, q: nat)
    requires d > 0 && n <= q * d
    ensures n / d <= q
  {
    assert n == (n / d) * d + n % d;
    if n / d > q {
      assert false;
    }
  }

  function BestDrop(parent: Resources, cand: Resources, axes: seq<Axis>): (r: nat)
    ensures r <= MICRO
  {
    if axes == [] then 0
    else
      var a := axes[|axes| - 1];
      Max(BestDrop(parent, cand, axes[..|axes| - 1]), DropPpm(parent.At(a), cand.At(a)))
  }

  function EfficiencyGain(parent: Resources, cand: Resources): int
  {
    Max(1, Min(MICRO, BestDrop(parent, cand, ENVELOPE_AXES)))
  }

  /** The gain is the greatest relative drop on any axis, and never below one ppm. */
  lemma EfficiencyGainIsGreatestDrop(parent: Resources, cand: Resources)
    ensures var g := EfficiencyGain(parent, cand);
            && 1 <= g <= MICRO
            && (forall a: Axis :: DropPpm(parent.At(a), cand.At(a)) <= g)
            && (g == 1 || exists a: Axis :: g == DropPpm(parent.At(a), cand.At(a)))
  {
    var d := a => DropPpm(parent.At(a), cand.At(a));
    var all := ENVELOPE_AXES;
    assert all[..2][..1][..0] == [] && all[..2][..1] == [RenderedCost] && all[..2] == [RenderedCost, WorkFuel];
    assert BestDrop(parent, cand, [RenderedCost]) == Max(0, d(RenderedCost)) by {
      assert [RenderedCost][..0] == [];
    }
    assert BestDrop(parent, cand, all[..2]) == Max(Max(0, d(RenderedCost)), d(WorkFuel)) by {
      assert all[..2][..1] == [RenderedCost];
    }
    assert BestDrop(parent, cand, all) == Max(Max(Max(0, d(RenderedCost)), d(WorkFuel)), d(DurableBytes));
    forall a: Axis ensures DropPpm(parent.At(a), cand.At(a)) <= EfficiencyGain(parent, cand) {
      match a
      case RenderedCost =>
      case WorkFuel =>
      case DurableBytes =>
    }
  }

  /** The loop of the source over the envelope axes. */
  method ComputeEfficiencyGain(parent: Resources, cand: Resources) returns (gain: int)
    ensures gain == EfficiencyGain(parent, cand)
  {
    var best := 0;
    for k := 0 to |ENVELOPE_AXES|
      invariant best == BestDrop(parent, cand, ENVELOPE_AXES[..k])
    {
      var parentVal, candVal := parent.At(ENVELOPE_AXES[k]), cand.At(ENVELOPE_AXES[k]);
      assert ENVELOPE_AXES[..k + 1][..k] == ENVELOPE_AXES[..k];
      if candVal < parentVal {
        var delta := parentVal - candVal;
        if parentVal == 0 {
          assert false;  // the source's zero-parent branch: nothing is below zero
        } else {
          best := Max(best, delta * 1_000_000 / parentVal);
        }
      }
    }
    assert ENVELOPE_AXES[..|ENVELOPE_AXES|] == ENVELOPE_AXES;
    gain := Max(1, Min(MICRO, best));
  }
}

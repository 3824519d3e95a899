/** Whole histories of replayed artifacts, from a genesis manifest. */
module TransitionLineage {
  import opened Outcomes
  import opened TransitionReplay

  /** One artifact with the context it is replayed under. */
  datatype Edge = Edge(artifact: Artifact, refs: References, pins: Option<EpochPins>)

  /** `states[k + 1]` is the replay of `edges[k]` on `states[k]`. */
  ghost predicate History(root: Manifest -> Root, states: seq<Manifest>, edges: seq<Edge>)
  {
    && |states| == |edges| + 1 && ValidManifest(states[0])
    && forall k :: 0 <= k < |edges| ==> StepAt(root, states, edges, k)
  }

  ghost predicate StepAt(root: Manifest -> Root, states: seq<Manifest>, edges: seq<Edge>, k: nat)
    requires k < |edges| && |states| == |edges| + 1
  {
    Outcome(root, states[k], edges[k].artifact, edges[k].refs, edges[k].pins) == Accepted(states[k + 1])
  }

  /** What one step of a history does. */
  lemma HistoryStep(root: Manifest -> Root, states: seq<Manifest>, edges: seq<Edge>, k: nat)
    requires History(root, states, edges) && k < |edges|
    ensures var m, n, e := states[k], states[k + 1], edges[k];
            && m.epoch <= n.epoch && n.parentRoot == root(m) != root(n)
            && m.profiles.Keys == n.profiles.Keys
            && (forall p :: p in n.profiles && p !in e.artifact.releases ==> n.profiles[p] == m.profiles[p])
            && (forall p :: p in e.artifact.releases ==>
                  p in n.profiles && m.profiles[p] == e.artifact.releases[p].expectedPrior
                  && n.profiles[p] == e.artifact.releases[p].newRelease)
            && (n.pins != m.pins ==>
                  m.epoch < n.epoch && e.pins.Some? && e.pins.value.epoch == n.epoch && n.pins == e.pins.value.pins)
  {
    var e := edges[k];
    assert StepAt(root, states, edges, k);
    ReplayFrame(root, states[k], e.artifact, e.refs, e.pins);
  }

  lemma {:induction false} EpochsNonDecreasing(root: Manifest -> Root, states: seq<Manifest>, edges: seq<Edge>,
                                               j: nat, k: nat)
    requires History(root, states, edges) && j <= k < |states|
    ensures states[j].epoch <= states[k].epoch
    decreases k
  {
    if j < k {
      EpochsNonDecreasing(root, states, edges, j, k - 1);
      HistoryStep(root, states, edges, k - 1);
    }
  }

  /** Within one epoch the law pins never move. */
  lemma {:induction false} PinsConstantWithinEpoch(root: Manifest -> Root, states: seq<Manifest>,
                                                   edges: seq<Edge>, j: nat, k: nat)
    requires History(root, states, edges) && j <= k < |states|
    requires states[j].epoch == states[k].epoch
    ensures states[j].pins == states[k].pins
    decreases k
  {
    if j < k {
      EpochsNonDecreasing(root, states, edges, j, k - 1);
      HistoryStep(root, states, edges, k - 1);
      PinsConstantWithinEpoch(root, states, edges, j, k - 1);
    }
  }

  lemma {:induction false} ReleaseKept(root: Manifest -> Root, states: seq<Manifest>, edges: seq<Edge>,
                                       p: string, j: nat, k: nat)
    requires History(root, states, edges) && j <= k < |states|
    requires p in states[j].profiles
    requires forall i :: j <= i < k ==> p !in edges[i].artifact.releases
    ensures p in states[k].profiles && states[k].profiles[p] == states[j].profiles[p]
    decreases k
  {
    if j < k {
      ReleaseKept(root, states, edges, p, j, k - 1);
      HistoryStep(root, states, edges, k - 1);
    }
  }

  /** Edge `j` is the last before `k` to move profile `p`. */
  predicate LastMoverBefore(edges: seq<Edge>, p: string, j: int, k: int)
    requires k <= |edges|
  {
    0 <= j < k && p in edges[j].artifact.releases && forall i :: j < i < k ==> p !in edges[i].artifact.releases
  }

  /**
   * A profile's releases are one unbroken chain: a move expects what the previous move of that
   * profile installed, and the first one expects the genesis release.
   */
  lemma ReleaseChain(root: Manifest -> Root, states: seq<Manifest>, edges: seq<Edge>, p: string, k: nat)
    requires History(root, states, edges) && k < |edges|
    requires p in edges[k].artifact.releases
    ensures (forall i :: 0 <= i < k ==> p !in edges[i].artifact.releases) ==>
              p in states[0].profiles && edges[k].artifact.releases[p].expectedPrior == states[0].profiles[p]
    ensures forall j :: LastMoverBefore(edges, p, j, k) ==>
              edges[k].artifact.releases[p].expectedPrior == edges[j].artifact.releases[p].newRelease
  {
    HistoryStep(root, states, edges, k);
    if forall i :: 0 <= i < k ==> p !in edges[i].artifact.releases {
      KeysKept(root, states, edges, k);
      ReleaseKept(root, states, edges, p, 0, k);
    }
    forall j | LastMoverBefore(edges, p, j, k)
      ensures edges[k].artifact.releases[p].expectedPrior == edges[j].artifact.releases[p].newRelease
    {
      HistoryStep(root, states, edges, j);
      ReleaseKept(root, states, edges, p, j + 1, k);
    }
  }

  lemma {:induction false} KeysKept(root: Manifest -> Root, states: seq<Manifest>, edges: seq<Edge>, k: nat)
    requires History(root, states, edges) && k < |states|
    ensures states[k].profiles.Keys == states[0].profiles.Keys
    decreases k
  {
    if k > 0 {
      KeysKept(root, states, edges, k - 1);
      HistoryStep(root, states, edges, k - 1);
    }
  }

  /**
   * A head determines its past: where two histories end in one manifest, they agree backwards as
   * far as the shorter reaches.
   */
  lemma {:induction false} HeadDeterminesHistory(root: Manifest -> Root, s: seq<Manifest>, es: seq<Edge>,
                                                 t: seq<Manifest>, et: seq<Edge>, i: nat)
    requires Injective(root) && History(root, s, es) && History(root, t, et)
    requires s[|s| - 1] == t[|t| - 1]
    requires i < |s| && i < |t|
    ensures s[|s| - 1 - i] == t[|t| - 1 - i]
    decreases i
  {
    if i > 0 {
      HeadDeterminesHistory(root, s, es, t, et, i - 1);
      HistoryStep(root, s, es, |s| - 1 - i);
      HistoryStep(root, t, et, |t| - 1 - i);
      assert root(s[|s| - 1 - i]) == root(t[|t| - 1 - i]);
    }
  }

  /** With an injective address the states of a history are the manifests the artifacts state. */
  lemma HistoryIsStated(root: Manifest -> Root, states: seq<Manifest>, edges: seq<Edge>, k: nat)
    requires Injective(root) && History(root, states, edges) && k < |edges|
    ensures states[k + 1] == edges[k].artifact.resulting
  {
    var e := edges[k];
    assert StepAt(root, states, edges, k);
    ReplayExact(root, states[k], e.artifact, e.refs, e.pins);
  }
}

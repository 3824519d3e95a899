/**
 * Corpus continuity over whole runs: a completed pass records the corpus its epoch's delta leads
 * to, and the next one has to start from there.
 */
module SyncCorpus {
  import opened EvalBacklog
  import opened SyncChain
  import opened SyncProgress
  import opened SyncRuns
  import opened SyncSafety
  import opened TrustedStaging

  /** The epoch's delta changes the corpus. */
  predicate Rotates(c: Chain, e: nat)
  {
    c.deltas(e).previousRoot != c.deltas(e).nextRoot
  }

  /**
   * After a completed pass of an epoch that changes the corpus, a second pass of it is refused,
   * whatever the head and whether or not the snapshot is there.
   */
  lemma SecondPassRefused(c: Chain, w: World, p: Pass)
    requires ChainOk(c) && Sound(c, w) && SavedOn(w.disk).Some?
    requires SavedOn(w.disk).value.epoch == p.epoch && Rotates(c, p.epoch) && p.override.None?
    ensures Aborted(c, w.disk, p)
  {
  }

  /** A pass of epoch `e` without an override, or the loss of the snapshot. */
  predicate SameEpoch(ev: Event, e: nat)
  {
    match ev
    case Synced(p, _, _) => p.epoch == e && p.override.None?
    case SubstrateLost => true
    case DirectoryLost => false
  }

  /** So it stays: passes of that epoch, with any losses of the snapshot between, change nothing. */
  lemma {:induction false} RotatedStays(c: Chain, w: World, es: seq<Event>, e: nat)
    requires ChainOk(c) && Sound(c, w) && PossibleRun(c, w, es) && Rotates(c, e)
    requires SavedOn(w.disk).Some? && SavedOn(w.disk).value.epoch == e
    requires forall n :: 0 <= n < |es| ==> SameEpoch(es[n], e)
    ensures var after := ApplyAll(c, w, es);
            after.disk - {SubstrateFile} == w.disk - {SubstrateFile} && after.passed == w.passed
    decreases |es|
  {
    if es != [] {
      assert SameEpoch(es[0], e);
      if es[0].Synced? {
        SecondPassRefused(c, w, es[0].pass);
      }
      StepKeepsSound(c, w, es[0]);
      var next := Apply(c, w, es[0]);
      assert next.disk - {SubstrateFile} == w.disk - {SubstrateFile};
      RotatedStays(c, next, es[1..], e);
    }
  }

  /** A completed pass of such an epoch is the last of it, with the snapshot or without. */
  lemma RotatedForGood(c: Chain, w: World, first: Event, es: seq<Event>, p: Pass)
    requires ChainOk(c) && Sound(c, w) && Possible(c, w, first) && Completes(c, w.disk, first)
    requires Rotates(c, first.pass.epoch) && p.epoch == first.pass.epoch && p.override.None?
    requires PossibleRun(c, Apply(c, w, first), es)
    requires forall n :: 0 <= n < |es| ==> SameEpoch(es[n], first.pass.epoch)
    ensures var after := ApplyAll(c, Apply(c, w, first), es);
            Aborted(c, after.disk, p) && Aborted(c, after.disk - {SubstrateFile}, p)
  {
    var next := Apply(c, w, first);
    CompletedNext(c, w, first);
    RotatedStays(c, next, es, first.pass.epoch);
    RunKeepsSound(c, next, es);
    var after := ApplyAll(c, next, es);
    assert SavedOn(after.disk - {SubstrateFile}) == SavedOn(next.disk - {SubstrateFile});
    SecondPassRefused(c, after, p);
    SubstrateLossKeepsSound(c, after);
    SecondPassRefused(c, Apply(c, after, SubstrateLost), p);
  }

  // ---- the epochs of completed passes ------------------------------------------------------

  /** The epochs of the passes of a run that complete, in their order. */
  ghost function Completed(c: Chain, w: World, es: seq<Event>): seq<nat>
    requires PossibleRun(c, w, es)
    decreases |es|
  {
    if es == [] then []
    else
      var rest := Completed(c, Apply(c, w, es[0]), es[1..]);
      if Completes(c, w.disk, es[0]) then [es[0].pass.epoch] + rest else rest
  }

  /** Each epoch's delta leads to its corpus, from the corpus of the epoch before it in the list. */
  ghost predicate FollowsAt(c: Chain, epochs: seq<nat>, k: nat)
    requires k < |epochs|
  {
    && c.deltas(epochs[k]).nextRoot == c.context(epochs[k]).corpusRoot
    && (k > 0 ==> c.deltas(epochs[k]).previousRoot == c.deltas(epochs[k - 1]).nextRoot)
  }

  ghost predicate Follows(c: Chain, epochs: seq<nat>)
  {
    forall k :: 0 <= k < |epochs| ==> FollowsAt(c, epochs, k)
  }

  /** No override and no loss of the directory: crashes, losses of the snapshot and all else may be. */
  predicate Undisturbed(ev: Event)
  {
    match ev
    case Synced(p, _, _) => p.override.None?
    case SubstrateLost => true
    case DirectoryLost => false
  }

  lemma FollowsCons(c: Chain, e: nat, epochs: seq<nat>)
    requires Follows(c, epochs) && c.deltas(e).nextRoot == c.context(e).corpusRoot
    requires epochs != [] ==> c.deltas(epochs[0]).previousRoot == c.deltas(e).nextRoot
    ensures Follows(c, [e] + epochs)
  {
    forall k | 0 <= k < |epochs| + 1 ensures FollowsAt(c, [e] + epochs, k) {
      if k > 0 {
        assert FollowsAt(c, epochs, k - 1);
      }
    }
  }

  /** What an undisturbed event does to the recorded corpus: a completed pass moves it on. */
  lemma CorpusStep(c: Chain, w: World, ev: Event)
    requires ChainOk(c) && Sound(c, w) && Possible(c, w, ev) && Undisturbed(ev)
    ensures var before, after := SavedOn(w.disk), SavedOn(Apply(c, w, ev).disk);
            if Completes(c, w.disk, ev) then
              && c.deltas(ev.pass.epoch).nextRoot == c.context(ev.pass.epoch).corpusRoot
              && (before.Some? ==> c.deltas(ev.pass.epoch).previousRoot == before.value.corpusRoot)
              && after.Some? && after.value.corpusRoot == c.deltas(ev.pass.epoch).nextRoot
            else after == before
  {
    if Completes(c, w.disk, ev) {
      CompletedLeaves(c, w, ev);
    } else if ev.Synced? && !Aborted(c, w.disk, ev.pass) && !ev.pass.readOnly {
      StateFileLast(c, w.disk, ev.pass, ev.renames);
      assert Apply(c, w, ev).disk == Committed(w.disk, Staged(c, w.disk, ev.pass), ev.renames);
    }
  }

  /** Over every undisturbed run the completed passes follow the corpus deltas. */
  lemma {:induction false} CompletedFollow(c: Chain, w: World, es: seq<Event>)
    requires ChainOk(c) && Sound(c, w) && PossibleRun(c, w, es)
    requires forall n :: 0 <= n < |es| ==> Undisturbed(es[n])
    ensures Follows(c, Completed(c, w, es))
    ensures SavedOn(w.disk).Some? && Completed(c, w, es) != [] ==>
              c.deltas(Completed(c, w, es)[0]).previousRoot == SavedOn(w.disk).value.corpusRoot
    decreases |es|
  {
    if es != [] {
      var next := Apply(c, w, es[0]);
      assert Undisturbed(es[0]);
      CorpusStep(c, w, es[0]);
      StepKeepsSound(c, w, es[0]);
      CompletedFollow(c, next, es[1..]);
      if Completes(c, w.disk, es[0]) {
        FollowsCons(c, es[0].pass.epoch, Completed(c, next, es[1..]));
      }
    }
  }

  // ---- a linear corpus ---------------------------------------------------------------------

  /** The corpus before epoch `n`'s delta. */
  function CorpusBefore(c: Chain, n: nat): Root
  {
    if n == 0 then c.deltas(0).previousRoot else c.deltas(n - 1).nextRoot
  }

  predicate DeltaAt(c: Chain, e: nat)
  {
    c.deltas(e).previousRoot == CorpusBefore(c, e)
  }

  /** The published deltas chain epoch by epoch, and a corpus once left does not come back. */
  ghost predicate Linear(c: Chain)
  {
    && (forall e :: DeltaAt(c, e))
    && (forall a, b, d :: a <= b <= d ==> StaysBetween(c, a, b, d))
  }

  predicate StaysBetween(c: Chain, a: nat, b: nat, d: nat)
  {
    CorpusBefore(c, a) == CorpusBefore(c, d) ==> CorpusBefore(c, a) == CorpusBefore(c, b)
  }

  /** How often the corpus has changed before epoch `n`'s delta. */
  function Rank(c: Chain, n: nat): nat
  {
    if n == 0 then 0 else Rank(c, n - 1) + if CorpusBefore(c, n) != CorpusBefore(c, n - 1) then 1 else 0
  }

  lemma {:induction false} RankGrows(c: Chain, a: nat, b: nat)
    requires a <= b
    ensures Rank(c, a) <= Rank(c, b)
  {
    if a < b {
      RankGrows(c, a, b - 1);
    }
  }

  /** The rank tells corpora apart. */
  lemma {:induction false} SameRank(c: Chain, a: nat, b: nat)
    requires Linear(c) && a <= b && CorpusBefore(c, a) == CorpusBefore(c, b)
    ensures Rank(c, a) == Rank(c, b)
  {
    if a < b {
      assert StaysBetween(c, a, b - 1, b);
      SameRank(c, a, b - 1);
    }
  }

  lemma RankOf(c: Chain, a: nat, b: nat)
    requires Linear(c) && CorpusBefore(c, a) == CorpusBefore(c, b)
    ensures Rank(c, a) == Rank(c, b)
  {
    if a <= b {
      SameRank(c, a, b);
    } else {
      SameRank(c, b, a);
    }
  }

  lemma RankStep(c: Chain, e: nat)
    requires Linear(c)
    ensures Rank(c, e + 1) == Rank(c, e) + if Rotates(c, e) then 1 else 0
  {
    assert DeltaAt(c, e);
  }

  lemma FollowRank(c: Chain, epochs: seq<nat>, k: nat)
    requires Linear(c) && Follows(c, epochs) && 1 <= k < |epochs|
    ensures Rank(c, epochs[k]) == Rank(c, epochs[k - 1] + 1)
  {
    assert FollowsAt(c, epochs, k) && DeltaAt(c, epochs[k]);
    RankOf(c, epochs[k], epochs[k - 1] + 1);
  }

  lemma {:induction false} RankAlong(c: Chain, epochs: seq<nat>, j: nat, k: nat)
    requires Linear(c) && Follows(c, epochs) && j <= k < |epochs|
    ensures Rank(c, epochs[j] + 1) <= Rank(c, epochs[k] + 1)
    ensures j < k ==> Rank(c, epochs[j] + 1) <= Rank(c, epochs[k])
  {
    if j < k {
      RankAlong(c, epochs, j, k - 1);
      FollowRank(c, epochs, k);
      RankStep(c, epochs[k]);
    }
  }

  /** At most one pass completes in an epoch that changes the corpus. */
  lemma OncePerRotation(c: Chain, epochs: seq<nat>, j: nat, k: nat)
    requires Linear(c) && Follows(c, epochs) && j < k < |epochs| && epochs[j] == epochs[k]
    ensures !Rotates(c, epochs[j])
  {
    RankAlong(c, epochs, j, k);
    RankStep(c, epochs[j]);
  }

  lemma RankApart(c: Chain, d: nat, e: nat)
    requires Linear(c) && Rotates(c, d) && d < e
    ensures Rank(c, d) < Rank(c, e)
  {
    RankStep(c, d);
    RankGrows(c, d + 1, e);
  }

  /** Two epochs that change the corpus, with as many changes before them, are the same. */
  lemma SameRotation(c: Chain, d: nat, e: nat)
    requires Linear(c) && Rotates(c, d) && Rotates(c, e) && Rank(c, d) == Rank(c, e)
    ensures d == e
  {
    if d < e {
      RankApart(c, d, e);
    } else if e < d {
      RankApart(c, e, d);
    }
  }

  /** Where a sequence of numbers first reaches a target. */
  lemma {:induction false} Crossing(ranks: seq<nat>, i: nat, j: nat, target: nat) returns (k: nat)
    requires i <= j < |ranks| && ranks[i] < target <= ranks[j]
    ensures i < k <= j && ranks[k - 1] < target <= ranks[k]
    decreases j
  {
    if target <= ranks[j - 1] {
      k := Crossing(ranks, i, j - 1, target);
    } else {
      k := j;
    }
  }

  /** And one does complete in every such epoch between two that were synced: none can be skipped. */
  lemma NoRotationSkipped(c: Chain, epochs: seq<nat>, i: nat, j: nat, e: nat) returns (k: nat)
    requires Linear(c) && Follows(c, epochs) && i <= j < |epochs| && Rotates(c, e)
    requires Rank(c, epochs[i] + 1) < Rank(c, e + 1) <= Rank(c, epochs[j] + 1)
    ensures i < k <= j && epochs[k] == e
  {
    k := Crossing(seq(|epochs|, n requires 0 <= n < |epochs| => Rank(c, epochs[n] + 1)), i, j, Rank(c, e + 1));
    FollowRank(c, epochs, k);
    RotatesHere(c, epochs[k], e);
  }

  lemma RotatesHere(c: Chain, d: nat, e: nat)
    requires Linear(c) && Rotates(c, e) && Rank(c, d) < Rank(c, e + 1) <= Rank(c, d + 1)
    ensures d == e
  {
    RankStep(c, e);
    RankStep(c, d);
    SameRotation(c, d, e);
  }

  lemma RanksBetween(c: Chain, a: nat, e: nat, b: nat)
    requires Linear(c) && Rotates(c, e) && a < e <= b
    ensures Rank(c, a + 1) < Rank(c, e + 1) <= Rank(c, b + 1)
  {
    RankGrows(c, a + 1, e);
    RankGrows(c, e + 1, b + 1);
    RankStep(c, e);
  }

  lemma OnlyOnce(c: Chain, epochs: seq<nat>, k: nat, m: nat)
    requires Linear(c) && Follows(c, epochs) && k < |epochs| && m < |epochs|
    requires epochs[k] == epochs[m] && Rotates(c, epochs[k])
    ensures m == k
  {
    if m < k {
      OncePerRotation(c, epochs, m, k);
    } else if k < m {
      OncePerRotation(c, epochs, k, m);
    }
  }

  /**
   * Over every undisturbed run: of the epochs that change the corpus, between two in which passes
   * completed, each sees exactly one completed pass.
   */
  lemma RotationsOnce(c: Chain, w: World, es: seq<Event>, i: nat, j: nat, e: nat) returns (k: nat)
    requires ChainOk(c) && Linear(c) && Sound(c, w) && PossibleRun(c, w, es)
    requires forall n :: 0 <= n < |es| ==> Undisturbed(es[n])
    requires i < j < |Completed(c, w, es)| && Rotates(c, e)
    requires Completed(c, w, es)[i] < e <= Completed(c, w, es)[j]
    ensures var epochs := Completed(c, w, es);
            && i < k <= j && epochs[k] == e
            && forall m :: 0 <= m < |epochs| && epochs[m] == e ==> m == k
  {
    var epochs := Completed(c, w, es);
    CompletedFollow(c, w, es);
    RanksBetween(c, epochs[i], e, epochs[j]);
    k := NoRotationSkipped(c, epochs, i, j, e);
    forall m | 0 <= m < |epochs| && epochs[m] == e ensures m == k {
      OnlyOnce(c, epochs, k, m);
    }
  }
}

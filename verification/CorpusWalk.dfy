/**
 * The forward walk over the published, signed corpus-delta chain, from a corpus the client holds
 * to the one an old advance pinned.
 */
module CorpusWalk {
  import opened Outcomes
  import opened Sums

  type Root = string
  type Events = string

  /** A materialised corpus and the root it claims. */
  datatype Corpus = Corpus(events: Events, root: Root)

  datatype Delta = Delta(previousRoot: Root, nextRoot: Root, change: string)

  /** What is published, the signature check, and the corpus arithmetic. */
  datatype Deps = Deps(fetch: int -> Option<Delta>, signed: Delta -> bool,
                       patch: (Events, Delta) -> Option<Events>, rootOf: Events -> Root)

  /** Applying a delta: it has to continue the corpus and to give the root it states. */
  function ApplyDelta(deps: Deps, corpus: Corpus, delta: Delta): (r: Option<Corpus>)
    ensures r.Some? ==> Honest(deps, r.value) && delta.previousRoot == corpus.root
  {
    if delta.previousRoot != corpus.root then None
    else
      var next := deps.patch(corpus.events, delta);
      if next.None? || deps.rootOf(next.value) != delta.nextRoot then None
      else Some(Corpus(next.value, delta.nextRoot))
  }

  /** The corpus's claimed root is its own. */
  predicate Honest(deps: Deps, c: Corpus)
  {
    deps.rootOf(c.events) == c.root
  }

  /** One epoch further along the chain: published, signed and applicable, or nothing. */
  function Next(deps: Deps, corpus: Corpus, epoch: int): Option<Corpus>
  {
    var delta := deps.fetch(epoch);
    if delta.None? || !deps.signed(delta.value) then None else ApplyDelta(deps, corpus, delta.value)
  }

  /** The corpus after the deltas of epochs `from` to `from + n - 1`: the plain fold. */
  function Fold(deps: Deps, base: Corpus, from: int, n: nat): Option<Corpus>
  {
    if n == 0 then Some(base)
    else if Fold(deps, base, from, n - 1).None? then None
    else Next(deps, Fold(deps, base, from, n - 1).value, from + n - 1)
  }

  /** Folding to `n` is folding to `m` and on from there. */
  lemma {:induction false} FoldSplit(deps: Deps, base: Corpus, from: int, m: nat, n: nat)
    requires m <= n && Fold(deps, base, from, m).Some?
    ensures Fold(deps, base, from, n) == Fold(deps, Fold(deps, base, from, m).value, from + m, n - m)
  {
    if m < n {
      FoldSplit(deps, base, from, m, n - 1);
      assert from + m + (n - m) - 1 == from + n - 1;
    }
  }

  lemma {:induction false} FoldShorter(deps: Deps, base: Corpus, from: int, m: nat, n: nat)
    requires m <= n && Fold(deps, base, from, n).Some?
    ensures Fold(deps, base, from, m).Some?
  {
    if m < n {
      FoldShorter(deps, base, from, m, n - 1);
    }
  }

  predicate ReachesAt(deps: Deps, base: Corpus, target: Root, from: int, n: nat)
  {
    Fold(deps, base, from, n).Some? && Fold(deps, base, from, n).value.root == target
  }

  /** The walk stops at its first corpus with the target root, `n` deltas on. */
  ghost predicate FirstHit(deps: Deps, base: Corpus, target: Root, from: int, n: nat)
  {
    && ReachesAt(deps, base, target, from, n)
    && (forall m :: 1 <= m < n ==> !ReachesAt(deps, base, target, from, m))
  }

  /** What the walk answers: the number of deltas and the corpus they lead to. */
  datatype Resolved = Resolved(corpus: Corpus, applied: nat)

  /** The whole walk. `applied == 0` means that the base is the target already. */
  ghost predicate WalkAnswers(deps: Deps, base: Corpus, target: Root, from: int, maxDeltas: int, r: Option<Resolved>)
  {
    if deps.rootOf(base.events) == target then r == Some(Resolved(base, 0))
    else if r.Some? then
      && 1 <= r.value.applied <= maxDeltas
      && FirstHit(deps, base, target, from, r.value.applied)
      && r.value.corpus == Fold(deps, base, from, r.value.applied).value
    else forall n :: 1 <= n <= maxDeltas ==> !ReachesAt(deps, base, target, from, n)
  }

  /** How many deltas a walk applies, whether or not it arrives. */
  ghost predicate Materialised(deps: Deps, base: Corpus, from: int, steps: seq<Corpus>)
  {
    forall k :: 0 <= k < |steps| ==> StepAt(deps, base, from, steps, k)
  }

  predicate StepAt(deps: Deps, base: Corpus, from: int, steps: seq<Corpus>, k: nat)
    requires k < |steps|
  {
    Fold(deps, base, from, k + 1) == Some(steps[k])
  }

  /** A walk that misses went as far as it may, or as far as the chain can be applied. */
  predicate WentAllTheWay(deps: Deps, base: Corpus, from: int, maxDeltas: int, n: nat)
  {
    n <= Max(0, maxDeltas) && (n < maxDeltas ==> Fold(deps, base, from, n + 1).None?)
  }

  /**
   * Walks at most `maxDeltas` epochs and stops at the target root. `steps` are the corpora it
   * reports as materialised, the last of them at epoch `from + |steps| - 1`.
   */
  method AutoResolveCorpusByRoot(deps: Deps, base: Corpus, target: Root, from: int, maxDeltas: int)
    returns (r: Option<Resolved>, steps: seq<Corpus>)
    ensures WalkAnswers(deps, base, target, from, maxDeltas, r)
    ensures Materialised(deps, base, from, steps)
    ensures r.Some? ==> r.value.applied == |steps|
    ensures r.None? ==> WentAllTheWay(deps, base, from, maxDeltas, |steps|)
  {
    steps := [];
    if deps.rootOf(base.events) == target {
      return Some(Resolved(base, 0)), steps;
    }
    var corpus, i := base, 0;
    while i < maxDeltas
      invariant 0 <= i == |steps| && (i > 0 ==> i <= maxDeltas)
      invariant Fold(deps, base, from, i) == Some(corpus)
      invariant Materialised(deps, base, from, steps)
      invariant forall m :: 1 <= m <= i ==> !ReachesAt(deps, base, target, from, m)
    {
      var delta := deps.fetch(from + i);
      if delta.None? || !deps.signed(delta.value) {
        StuckAt(deps, base, target, from, i, maxDeltas);
        return None, steps;
      }
      var applied := ApplyDelta(deps, corpus, delta.value);
      if applied.None? {
        StuckAt(deps, base, target, from, i, maxDeltas);
        return None, steps;
      }
      corpus := applied.value;
      MaterialisedMore(deps, base, from, steps, corpus);
      steps := steps + [corpus];
      i := i + 1;
      if corpus.root == target {
        if deps.rootOf(corpus.events) != target {
          assert false;  // the second merkleisation: applying the delta has already checked it
        }
        return Some(Resolved(corpus, i)), steps;
      }
    }
    return None, steps;
  }

  lemma MaterialisedMore(deps: Deps, base: Corpus, from: int, steps: seq<Corpus>, corpus: Corpus)
    requires Materialised(deps, base, from, steps) && Fold(deps, base, from, |steps| + 1) == Some(corpus)
    ensures Materialised(deps, base, from, steps + [corpus])
  {
    forall k | 0 <= k < |steps| + 1 ensures StepAt(deps, base, from, steps + [corpus], k) {
      assert k < |steps| ==> StepAt(deps, base, from, steps, k);
    }
  }

  /** Once an epoch cannot be applied no longer fold exists. */
  lemma StuckAt(deps: Deps, base: Corpus, target: Root, from: int, i: nat, maxDeltas: int)
    requires Fold(deps, base, from, i + 1).None?
    requires forall m :: 1 <= m <= i ==> !ReachesAt(deps, base, target, from, m)
    ensures forall n :: 1 <= n <= maxDeltas ==> !ReachesAt(deps, base, target, from, n)
  {
    forall n | 1 <= n <= maxDeltas ensures !ReachesAt(deps, base, target, from, n) {
      if n > i && ReachesAt(deps, base, target, from, n) {
        FoldShorter(deps, base, from, i + 1, n);
      }
    }
  }

  /**
   * Every success is an unbroken run: consecutive epochs from `from`, each delta published,
   * signed, continuing the corpus before it, and the result has the target root itself.
   */
  lemma SuccessIsSignedRun(deps: Deps, base: Corpus, target: Root, from: int, maxDeltas: int, r: Option<Resolved>)
    requires WalkAnswers(deps, base, target, from, maxDeltas, r) && r.Some?
    ensures deps.rootOf(r.value.corpus.events) == target
    ensures forall k :: 0 <= k < r.value.applied ==> SignedAt(deps, base, from, k)
  {
    var n := r.value.applied;
    forall k | 0 <= k < n ensures SignedAt(deps, base, from, k) {
      FoldShorter(deps, base, from, k, n);
      FoldShorter(deps, base, from, k + 1, n);
    }
  }

  predicate SignedAt(deps: Deps, base: Corpus, from: int, k: nat)
  {
    var before, delta := Fold(deps, base, from, k), deps.fetch(from + k);
    && before.Some? && delta.Some? && deps.signed(delta.value)
    && delta.value.previousRoot == before.value.root
    && Fold(deps, base, from, k + 1) == ApplyDelta(deps, before.value, delta.value)
    && Fold(deps, base, from, k + 1).Some?
  }

  // ---- choosing where to start -----------------------------------------------------------

  datatype Known = Known(corpus: Corpus, epoch: int)

  datatype WalkStart = WalkStart(start: Corpus, from: int, maxDeltas: int)

  /** The first of the candidates with the greatest epoch not above the bound. */
  predicate IsNearest(candidates: seq<Known>, bound: int, i: nat)
    requires i < |candidates|
  {
    && candidates[i].epoch <= bound
    && (forall j :: 0 <= j < |candidates| && candidates[j].epoch <= bound ==>
          candidates[j].epoch <= candidates[i].epoch)
    && (forall j :: 0 <= j < i && candidates[j].epoch <= bound ==> candidates[j].epoch < candidates[i].epoch)
  }

  /**
   * Starts from the nearest corpus at or below the bound. None when there is no such corpus, or
   * when it sits at the bound itself.
   */
  method ChooseAutoResolveWalkStart(candidates: seq<Known>, bound: int) returns (r: Option<WalkStart>)
    ensures r.None? <==>
              || (forall i :: 0 <= i < |candidates| ==> candidates[i].epoch > bound)
              || (exists i :: 0 <= i < |candidates| && candidates[i].epoch == bound)
    ensures r.Some? ==>
              exists i :: 0 <= i < |candidates| && IsNearest(candidates, bound, i)
                          && r.value == WalkStart(candidates[i].corpus, candidates[i].epoch + 1,
                                                  bound - candidates[i].epoch)
  {
    var best: Option<nat> := None;
    for i := 0 to |candidates|
      invariant best.Some? ==> best.value < i && IsNearest(candidates[..i], bound, best.value)
      invariant best.None? ==> forall j :: 0 <= j < i ==> candidates[j].epoch > bound
    {
      var c := candidates[i];
      assert candidates[..i + 1] == candidates[..i] + [c];
      if c.epoch > bound {
        continue;
      }
      if best.None? || c.epoch > candidates[best.value].epoch {
        best := Some(i);
      }
    }
    assert candidates[..|candidates|] == candidates;
    if best.None? {
      return None;
    }
    var nearest := candidates[best.value];
    if nearest.epoch >= bound {
      return None;
    }
    var steps := bound - nearest.epoch;
    return Some(WalkStart(nearest.corpus, nearest.epoch + 1, if steps < 1 then 1 else steps));
  }
}

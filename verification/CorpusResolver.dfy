/** Resolving historical corpora over a whole drain, with whatever the cache still holds. */
module CorpusResolver {
  import opened CorpusWalk
  import opened Outcomes

  /** The corpora at hand: the launch base, the loaded one, and the cache. */
  datatype Shelf = Shelf(base: Corpus, loaded: Corpus, cached: map<Root, Corpus>)

  /** The corpus offered as a start under a known root, if it is still at hand. */
  function Offered(shelf: Shelf, known: map<Root, int>, bound: int, root: Root): Option<Known>
    requires root in known
  {
    if root == shelf.base.root then Some(Known(shelf.base, known[root]))
    else if root == shelf.loaded.root then Some(Known(shelf.loaded, known[root]))
    else if root in shelf.cached && known[root] <= bound then Some(Known(shelf.cached[root], known[root]))
    else None
  }

  /** `root` offers a start, and the start may serve: it lies at or below the bound. */
  predicate Serves(shelf: Shelf, known: map<Root, int>, bound: int, root: Root)
    requires root in known
  {
    Offered(shelf, known, bound, root).Some? && known[root] <= bound
  }

  ghost predicate IsBest(shelf: Shelf, known: map<Root, int>, bound: int, root: Root)
  {
    && root in known && Serves(shelf, known, bound, root) && known[root] < bound
    && (forall r :: r in known && Serves(shelf, known, bound, r) ==> known[r] <= known[root])
  }

  ghost predicate WalkFrom(deps: Deps, shelf: Shelf, known: map<Root, int>, bound: int, target: Root,
                           root: Root, w: Option<Resolved>)
  {
    && IsBest(shelf, known, bound, root)
    && WalkAnswers(deps, Offered(shelf, known, bound, root).value.corpus, target, known[root] + 1,
                   bound - known[root], w)
  }

  function CorpusOf(w: Option<Resolved>): Option<Corpus>
  {
    if w.Some? then Some(w.value.corpus) else None
  }

  /** What a resolution answers, in terms of what was at hand before it. */
  ghost predicate Answers(deps: Deps, shelf: Shelf, known: map<Root, int>, target: Root, bound: int,
                          bundleMatches: bool, r: Option<Corpus>)
  {
    if target in shelf.cached then r == Some(shelf.cached[target])
    else if !bundleMatches then r == None
    else if exists root :: root in known && Serves(shelf, known, bound, root) && known[root] == bound then r == None
    else if forall root :: root in known ==> !Serves(shelf, known, bound, root) then r == None
    else exists root, w :: WalkFrom(deps, shelf, known, bound, target, root, w) && r == CorpusOf(w)
  }

  // ---- the linear chain ------------------------------------------------------------------

  /** `chain[e]` is the corpus of epoch `e`; its deltas, and no others, are published and signed. */
  predicate LinkAt(deps: Deps, chain: seq<Corpus>, e: int)
    requires 1 <= e < |chain|
  {
    Next(deps, chain[e - 1], e) == Some(chain[e])
  }

  predicate RootFirstAt(chain: seq<Corpus>, e: int)
    requires 0 <= e < |chain|
  {
    forall d :: 0 <= d < e ==> chain[d].root != chain[e].root
  }

  ghost predicate ChainOk(deps: Deps, chain: seq<Corpus>)
  {
    && chain != [] && Honest(deps, chain[0])
    && (forall e :: 1 <= e < |chain| ==> LinkAt(deps, chain, e))
    && (forall e :: 0 <= e < |chain| ==> RootFirstAt(chain, e))
    && (forall e :: e < 1 || |chain| <= e ==> deps.fetch(e).None?)
  }

  /** The known epochs are the chain's. */
  ghost predicate KnownOk(chain: seq<Corpus>, known: map<Root, int>)
  {
    forall r :: r in known ==> KnownAt(chain, known, r)
  }

  predicate KnownAt(chain: seq<Corpus>, known: map<Root, int>, r: Root)
    requires r in known
  {
    0 <= known[r] < |chain| && chain[known[r]].root == r
  }

  /** No two corpora have the same Merkle root. */
  ghost predicate Injective(deps: Deps)
  {
    forall x, y :: deps.rootOf(x) == deps.rootOf(y) ==> x == y
  }

  predicate HeldAt(deps: Deps, held: map<Root, Corpus>, r: Root)
    requires r in held
  {
    held[r].root == r && Honest(deps, held[r])
  }

  ghost predicate HeldHonest(deps: Deps, held: map<Root, Corpus>)
  {
    forall r :: r in held ==> HeldAt(deps, held, r)
  }

  ghost predicate ShelfHonest(deps: Deps, shelf: Shelf)
  {
    Honest(deps, shelf.base) && Honest(deps, shelf.loaded) && HeldHonest(deps, shelf.cached)
  }

  lemma DistinctRoots(deps: Deps, chain: seq<Corpus>, d: int, e: int)
    requires ChainOk(deps, chain) && 0 <= d < |chain| && 0 <= e < |chain|
    requires chain[d].root == chain[e].root
    ensures d == e
  {
    assert RootFirstAt(chain, d) && RootFirstAt(chain, e);
  }

  lemma ChainHonest(deps: Deps, chain: seq<Corpus>, e: int)
    requires ChainOk(deps, chain) && 0 <= e < |chain|
    ensures Honest(deps, chain[e])
  {
    if e > 0 {
      assert LinkAt(deps, chain, e);
    }
  }

  /** Folding from any epoch of the chain follows the chain, and stops where it stops. */
  lemma {:induction false} FoldChain(deps: Deps, chain: seq<Corpus>, s: nat, n: nat)
    requires ChainOk(deps, chain) && s < |chain|
    ensures Fold(deps, chain[s], s + 1, n) == if s + n < |chain| then Some(chain[s + n]) else None
  {
    if n > 0 {
      FoldChain(deps, chain, s, n - 1);
      if s + n < |chain| {
        assert LinkAt(deps, chain, s + n);
      }
    }
  }

  /** A start offered under a known root is the chain's corpus at its epoch. */
  lemma OfferedOnChain(deps: Deps, chain: seq<Corpus>, shelf: Shelf, known: map<Root, int>, bound: int, root: Root)
    requires ChainOk(deps, chain) && KnownOk(chain, known) && Injective(deps) && ShelfHonest(deps, shelf)
    requires root in known && Offered(shelf, known, bound, root).Some?
    ensures Offered(shelf, known, bound, root).value == Known(chain[known[root]], known[root])
  {
    assert KnownAt(chain, known, root);
    ChainHonest(deps, chain, known[root]);
    if root != shelf.base.root && root != shelf.loaded.root {
      assert HeldAt(deps, shelf.cached, root);
    }
  }

  /** A walk from epoch `s` reaches epoch `t` exactly when it does not start beyond it. */
  lemma WalkOnChain(deps: Deps, chain: seq<Corpus>, s: nat, t: nat, bound: int, w: Option<Resolved>)
    requires ChainOk(deps, chain) && s < |chain| && t < |chain| && s < bound && t <= bound
    requires WalkAnswers(deps, chain[s], chain[t].root, s + 1, bound - s, w)
    ensures w.Some? <==> s <= t
    ensures w.Some? ==> w.value.corpus == chain[t]
  {
    ChainHonest(deps, chain, s);
    if chain[s].root == chain[t].root {
      DistinctRoots(deps, chain, s, t);
    } else if w.Some? {
      FoldChain(deps, chain, s, w.value.applied);
      DistinctRoots(deps, chain, s + w.value.applied, t);
    } else if s <= t {
      FoldChain(deps, chain, s, t - s);
      assert ReachesAt(deps, chain[s], chain[t].root, s + 1, t - s);
    }
  }

  /** Some start beyond the target's own epoch is at hand. */
  ghost predicate Overshoots(shelf: Shelf, known: map<Root, int>, bound: int, t: int)
  {
    exists root :: root in known && Serves(shelf, known, bound, root) && known[root] > t
  }

  /** The situation of a drain on a linear chain with an uncached target at epoch `t`. */
  ghost predicate OnChain(deps: Deps, chain: seq<Corpus>, shelf: Shelf, known: map<Root, int>, t: nat, bound: int)
  {
    && ChainOk(deps, chain) && KnownOk(chain, known) && Injective(deps) && ShelfHonest(deps, shelf)
    && shelf.base == chain[0] && shelf.base.root in known
    && t < |chain| && t <= bound && 1 <= bound && chain[t].root != shelf.loaded.root
  }

  lemma BaseServes(deps: Deps, chain: seq<Corpus>, shelf: Shelf, known: map<Root, int>, t: nat, bound: int)
    requires OnChain(deps, chain, shelf, known, t, bound)
    ensures known[shelf.base.root] == 0 && Serves(shelf, known, bound, shelf.base.root)
  {
    assert KnownAt(chain, known, shelf.base.root);
    DistinctRoots(deps, chain, known[shelf.base.root], 0);
  }

  /** Nothing at hand sits at the target's epoch, except the base when the target is the base. */
  lemma NothingAtTarget(deps: Deps, chain: seq<Corpus>, shelf: Shelf, known: map<Root, int>, t: nat, bound: int,
                        root: Root)
    requires OnChain(deps, chain, shelf, known, t, bound) && chain[t].root !in shelf.cached
    requires root in known && Serves(shelf, known, bound, root) && known[root] == t
    ensures t == 0
  {
    assert KnownAt(chain, known, root);
    BaseServes(deps, chain, shelf, known, t, bound);
  }

  /**
   * On a linear chain an uncached target resolves exactly when no start at hand lies beyond the
   * target's own epoch; what it resolves to is the chain's corpus.
   */
  lemma ResolvesIff(deps: Deps, chain: seq<Corpus>, shelf: Shelf, known: map<Root, int>, t: nat, bound: int,
                    r: Option<Corpus>)
    requires OnChain(deps, chain, shelf, known, t, bound) && chain[t].root !in shelf.cached
    requires Answers(deps, shelf, known, chain[t].root, bound, true, r)
    ensures r.Some? <==> !Overshoots(shelf, known, bound, t)
    ensures r.Some? ==> r.value == chain[t]
  {
    BaseServes(deps, chain, shelf, known, t, bound);
    if root :| root in known && Serves(shelf, known, bound, root) && known[root] == bound {
      if bound == t {
        NothingAtTarget(deps, chain, shelf, known, t, bound, root);
      }
    } else {
      var root, w :| WalkFrom(deps, shelf, known, bound, chain[t].root, root, w) && r == CorpusOf(w);
      assert KnownAt(chain, known, root);
      OfferedOnChain(deps, chain, shelf, known, bound, root);
      WalkOnChain(deps, chain, known[root], t, bound, w);
      if known[root] <= t {
        assert !Overshoots(shelf, known, bound, t);
      }
    }
  }

  /** The epoch of the newest corpus published for epochs up to the bound. */
  function ActiveAt(chain: seq<Corpus>, bound: nat): (t: nat)
    requires chain != []
    ensures t <= bound && t < |chain|
  {
    if bound < |chain| then bound else |chain| - 1
  }

  /**
   * When the target is the newest corpus published for the entry's epoch, every resolution
   * succeeds, with the corpus that folding all deltas from the launch base gives: what the cache
   * holds makes no difference.
   */
  lemma CacheMakesNoDifference(deps: Deps, chain: seq<Corpus>, shelf: Shelf, known: map<Root, int>, bound: nat,
                               r: Option<Corpus>)
    requires ChainOk(deps, chain) && OnChain(deps, chain, shelf, known, ActiveAt(chain, bound), bound)
    requires Answers(deps, shelf, known, chain[ActiveAt(chain, bound)].root, bound, true, r)
    ensures r == Some(chain[ActiveAt(chain, bound)]) == Fold(deps, shelf.base, 1, ActiveAt(chain, bound))
  {
    var t := ActiveAt(chain, bound);
    FoldChain(deps, chain, 0, t);
    if chain[t].root in shelf.cached {
      ChainHonest(deps, chain, t);
      assert HeldAt(deps, shelf.cached, chain[t].root);
    } else {
      ResolvesIff(deps, chain, shelf, known, t, bound, r);
      forall root | root in known && Serves(shelf, known, bound, root) ensures known[root] <= t {
        assert KnownAt(chain, known, root);
      }
    }
  }

  /**
   * So a miss means that the entry pins an older corpus than the chain now has for its epoch:
   * the delta after the target's is published, for an epoch not above the entry's.
   */
  lemma MissMeansLagging(deps: Deps, chain: seq<Corpus>, shelf: Shelf, known: map<Root, int>, t: nat, bound: nat)
    requires OnChain(deps, chain, shelf, known, t, bound)
    requires Answers(deps, shelf, known, chain[t].root, bound, true, None)
    ensures t < bound && deps.fetch(t + 1).Some? && deps.signed(deps.fetch(t + 1).value)
  {
    if t == ActiveAt(chain, bound) {
      CacheMakesNoDifference(deps, chain, shelf, known, bound, None);
      assert false;
    }
    assert LinkAt(deps, chain, t + 1);
  }

  /** Whatever a resolution returns, it has the target root itself. */
  lemma AnswersAreTrue(deps: Deps, shelf: Shelf, known: map<Root, int>, target: Root, bound: int,
                       bundleMatches: bool, r: Option<Corpus>)
    requires HeldHonest(deps, shelf.cached)
    requires Answers(deps, shelf, known, target, bound, bundleMatches, r) && r.Some?
    ensures deps.rootOf(r.value.events) == target
  {
    if target in shelf.cached {
      assert HeldAt(deps, shelf.cached, target);
    } else {
      var root, w :| WalkFrom(deps, shelf, known, bound, target, root, w) && r == CorpusOf(w);
      var start := Offered(shelf, known, bound, root).value.corpus;
      if w.value.applied > 0 {
        SuccessIsSignedRun(deps, start, target, known[root] + 1, bound - known[root], w);
      }
    }
  }
}

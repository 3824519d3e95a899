/** One drain's corpus resolver: the walk, the cache it fills and the epochs it learns. */
module CorpusDrain {
  import opened CorpusCache
  import opened CorpusResolver
  import opened CorpusWalk
  import opened Names
  import opened Outcomes
  import opened Sums

  /** The epochs known once the corpora of a walk are recorded. */
  function Recorded(known: map<Root, int>, from: int, steps: seq<Corpus>): map<Root, int>
  {
    if steps == [] then known
    else Recorded(known, from, steps[..|steps| - 1])[steps[|steps| - 1].root := from + |steps| - 1]
  }

  lemma {:induction false} RecordedKeeps(known: map<Root, int>, from: int, steps: seq<Corpus>)
    ensures known.Keys <= Recorded(known, from, steps).Keys
    ensures forall k :: 0 <= k < |steps| ==> steps[k].root in Recorded(known, from, steps)
  {
    if steps != [] {
      RecordedKeeps(known, from, steps[..|steps| - 1]);
    }
  }

  lemma MaterialisedFront(deps: Deps, base: Corpus, from: int, steps: seq<Corpus>)
    requires Materialised(deps, base, from, steps) && steps != []
    ensures Materialised(deps, base, from, steps[..|steps| - 1])
  {
    var front := steps[..|steps| - 1];
    forall k | 0 <= k < |front| ensures StepAt(deps, base, from, front, k) {
      assert StepAt(deps, base, from, steps, k);
    }
  }

  /** A walk along the chain teaches true epochs. */
  lemma {:induction false} RecordedOnChain(deps: Deps, chain: seq<Corpus>, known: map<Root, int>, s: nat,
                                         steps: seq<Corpus>)
    requires ChainOk(deps, chain) && KnownOk(chain, known) && s < |chain|
    requires Materialised(deps, chain[s], s + 1, steps)
    ensures KnownOk(chain, Recorded(known, s + 1, steps))
  {
    if steps != [] {
      var last := |steps| - 1;
      MaterialisedFront(deps, chain[s], s + 1, steps);
      RecordedOnChain(deps, chain, known, s, steps[..last]);
      assert StepAt(deps, chain[s], s + 1, steps, last);
      FoldChain(deps, chain, s, last + 1);
      var front, after := Recorded(known, s + 1, steps[..last]), Recorded(known, s + 1, steps);
      forall r | r in after ensures KnownAt(chain, after, r) {
        assert r != steps[last].root ==> KnownAt(chain, front, r);
      }
    }
  }

  lemma StepHonest(deps: Deps, base: Corpus, from: int, steps: seq<Corpus>, k: nat)
    requires Materialised(deps, base, from, steps) && k < |steps|
    ensures Honest(deps, steps[k])
  {
    assert StepAt(deps, base, from, steps, k);
    FoldShorter(deps, base, from, k, k + 1);
  }

  function RootsOf(steps: seq<Corpus>): (roots: seq<Root>)
    ensures |roots| == |steps| && forall k :: 0 <= k < |steps| ==> roots[k] == steps[k].root
  {
    if steps == [] then [] else RootsOf(steps[..|steps| - 1]) + [steps[|steps| - 1].root]
  }

  lemma RecordStep(known: map<Root, int>, from: int, steps: seq<Corpus>, k: nat)
    requires k < |steps|
    ensures Recorded(known, from, steps[..k + 1]) == Recorded(known, from, steps[..k])[steps[k].root := from + k]
    ensures RootsOf(steps[..k + 1]) == RootsOf(steps[..k]) + [steps[k].root]
  {
    assert steps[..k + 1][..k] == steps[..k];
  }

  /** What a resolution adds to the uses of the cache. */
  function UsesOf(hits: seq<Root>, steps: seq<Corpus>, target: Root, r: Option<Corpus>): seq<Root>
  {
    hits + RootsOf(steps) + if r.Some? then [target] else []
  }

  lemma UsesWalk(uses: seq<Root>, steps: seq<Corpus>, target: Root, r: Option<Corpus>)
    ensures r.Some? ==> uses + RootsOf(steps) + [target] == uses + UsesOf([], steps, target, r)
    ensures r.None? ==> uses + RootsOf(steps) == uses + UsesOf([], steps, target, r)
  {
  }

  lemma UsesJoin(uses: seq<Root>, hits: seq<Root>, steps: seq<Corpus>, target: Root, r: Option<Corpus>)
    ensures uses + hits + UsesOf([], steps, target, r) == uses + UsesOf(hits, steps, target, r)
  {
  }

  /** The corpora a resolution materialises: those of its walk, if it comes to one. */
  ghost predicate Walked(deps: Deps, shelf: Shelf, known: map<Root, int>, target: Root, bound: int,
                         bundleMatches: bool, r: Option<Corpus>, steps: seq<Corpus>)
  {
    if target in shelf.cached || !bundleMatches || Stalled(shelf, known, bound) then steps == []
    else exists root, w :: WalkedFrom(deps, shelf, known, bound, target, root, w, steps) && r == CorpusOf(w)
  }

  /** Nothing at hand to start from, or the best start is at the bound. */
  ghost predicate Stalled(shelf: Shelf, known: map<Root, int>, bound: int)
  {
    || (exists root :: root in known && Serves(shelf, known, bound, root) && known[root] == bound)
    || (forall root :: root in known ==> !Serves(shelf, known, bound, root))
  }

  ghost predicate WalkedFrom(deps: Deps, shelf: Shelf, known: map<Root, int>, bound: int, target: Root, root: Root,
                             w: Option<Resolved>, steps: seq<Corpus>)
  {
    && WalkFrom(deps, shelf, known, bound, target, root, w)
    && Materialised(deps, Offered(shelf, known, bound, root).value.corpus, known[root] + 1, steps)
    && (w.Some? ==> w.value.applied == |steps|)
    && (w.None? ==> WentAllTheWay(deps, Offered(shelf, known, bound, root).value.corpus, known[root] + 1,
                                  bound - known[root], |steps|))
  }

  /** Everything at hand as a start, and nothing else. */
  ghost predicate ListsOffers(cs: seq<Known>, shelf: Shelf, known: map<Root, int>, bound: int)
  {
    && (forall r :: r in known && Offered(shelf, known, bound, r).Some? ==> OfferIn(cs, shelf, known, bound, r))
    && (forall c :: c in cs ==> exists r :: r in known && Offered(shelf, known, bound, r) == Some(c))
  }

  ghost predicate OfferIn(cs: seq<Known>, shelf: Shelf, known: map<Root, int>, bound: int, r: Root)
  {
    r in known && Offered(shelf, known, bound, r).Some? && Offered(shelf, known, bound, r).value in cs
  }

  /** `cs` are the offers of the roots in `seen`. */
  ghost predicate OffersOf(cs: seq<Known>, seen: set<Root>, shelf: Shelf, known: map<Root, int>, bound: int)
  {
    && (forall r :: r in seen ==> OfferIn(cs, shelf, known, bound, r))
    && (forall c :: c in cs ==> exists r :: r in known && Offered(shelf, known, bound, r) == Some(c))
  }

  /** Of the first `n` roots, those that offer a start have been seen. */
  ghost predicate Considered(seen: set<Root>, shelf: Shelf, known: map<Root, int>, bound: int, roots: seq<Root>, n: nat)
    requires n <= |roots|
  {
    forall r :: r in roots[..n] && r in known && Offered(shelf, known, bound, r).Some? ==> r in seen
  }

  lemma ConsideredMore(seen: set<Root>, more: set<Root>, shelf: Shelf, known: map<Root, int>, bound: int,
                       roots: seq<Root>, n: nat)
    requires n < |roots| && Considered(seen, shelf, known, bound, roots, n) && seen <= more
    requires roots[n] in known ==> roots[n] in more || Offered(shelf, known, bound, roots[n]).None?
    ensures Considered(more, shelf, known, bound, roots, n + 1)
  {
    assert roots[..n + 1] == roots[..n] + [roots[n]];
  }

  lemma AllConsidered(cs: seq<Known>, seen: set<Root>, shelf: Shelf, known: map<Root, int>, bound: int,
                      roots: seq<Root>)
    requires OffersOf(cs, seen, shelf, known, bound) && Considered(seen, shelf, known, bound, roots, |roots|)
    requires forall r :: r in roots <==> r in known
    ensures ListsOffers(cs, shelf, known, bound)
  {
    assert roots[..|roots|] == roots;
  }

  lemma OfferAdded(cs: seq<Known>, seen: set<Root>, shelf: Shelf, known: map<Root, int>, bound: int, r: Root, c: Known)
    requires OffersOf(cs, seen, shelf, known, bound)
    requires r in known && Offered(shelf, known, bound, r) == Some(c)
    ensures OffersOf(cs + [c], seen + {r}, shelf, known, bound)
  {
    forall x | x in seen + {r} ensures OfferIn(cs + [c], shelf, known, bound, x) {
      assert x != r ==> OfferIn(cs, shelf, known, bound, x);
    }
  }

  lemma WalkHonest(deps: Deps, shelf: Shelf, known: map<Root, int>, bound: int, target: Root, root: Root,
                   w: Option<Resolved>)
    requires WalkFrom(deps, shelf, known, bound, target, root, w) && w.Some? && ShelfHonest(deps, shelf)
    ensures Honest(deps, w.value.corpus) && w.value.corpus.root == target
  {
    var start := Offered(shelf, known, bound, root).value.corpus;
    if root != shelf.base.root && root != shelf.loaded.root {
      assert HeldAt(deps, shelf.cached, root);
    }
    if w.value.applied > 0 {
      SuccessIsSignedRun(deps, start, target, known[root] + 1, bound - known[root], w);
      assert ReachesAt(deps, start, target, known[root] + 1, w.value.applied);
    }
  }

  /** The epochs known after a resolution. */
  function Learned(known: map<Root, int>, from: int, steps: seq<Corpus>, w: Option<Resolved>): map<Root, int>
  {
    var recorded := Recorded(known, from, steps);
    if w.None? then recorded else recorded[w.value.corpus.root := from - 1 + w.value.applied]
  }

  /** On a linear chain they are true, whether or not the walk arrived. */
  lemma LearnedOnChain(deps: Deps, chain: seq<Corpus>, shelf: Shelf, known: map<Root, int>, bound: int, target: Root,
                       root: Root, w: Option<Resolved>, steps: seq<Corpus>)
    requires ChainOk(deps, chain) && Injective(deps) && KnownOk(chain, known) && ShelfHonest(deps, shelf)
    requires WalkFrom(deps, shelf, known, bound, target, root, w)
    requires Materialised(deps, Offered(shelf, known, bound, root).value.corpus, known[root] + 1, steps)
    ensures KnownOk(chain, Learned(known, known[root] + 1, steps, w))
  {
    var s := known[root];
    assert KnownAt(chain, known, root);
    OfferedOnChain(deps, chain, shelf, known, bound, root);
    RecordedOnChain(deps, chain, known, s, steps);
    if w.Some? {
      var recorded, after := Recorded(known, s + 1, steps), Learned(known, s + 1, steps, w);
      FoldChain(deps, chain, s, w.value.applied);
      if w.value.applied > 0 {
        assert ReachesAt(deps, chain[s], target, s + 1, w.value.applied);
      }
      forall r | r in after ensures KnownAt(chain, after, r) {
        assert r != w.value.corpus.root ==> KnownAt(chain, recorded, r);
      }
    }
  }

  /** On any linear chain on which the known epochs are right they stay right. */
  ghost predicate LearnsTrue(deps: Deps, known: map<Root, int>, after: map<Root, int>)
  {
    forall chain :: ChainOk(deps, chain) && Injective(deps) && KnownOk(chain, known) ==> KnownOk(chain, after)
  }

  lemma LearnedTrue(deps: Deps, shelf: Shelf, known: map<Root, int>, bound: int, target: Root,
                    root: Root, w: Option<Resolved>, steps: seq<Corpus>, after: map<Root, int>)
    requires ShelfHonest(deps, shelf)
    requires WalkFrom(deps, shelf, known, bound, target, root, w)
    requires Materialised(deps, Offered(shelf, known, bound, root).value.corpus, known[root] + 1, steps)
    requires after == Learned(known, known[root] + 1, steps, w)
    ensures LearnsTrue(deps, known, after)
  {
    forall chain | ChainOk(deps, chain) && Injective(deps) && KnownOk(chain, known) ensures KnownOk(chain, after) {
      LearnedOnChain(deps, chain, shelf, known, bound, target, root, w, steps);
    }
  }

  /** An entry of epoch `epochId` pins the newest corpus published for it, not the loaded one. */
  predicate PinsActive(chain: seq<Corpus>, loaded: Corpus, epochId: int, target: Root)
  {
    chain != [] && target == chain[ActiveAt(chain, Max(1, epochId))].root && target != loaded.root
  }

  class AutoResolver {
    const deps: Deps
    const base: Corpus
    const loaded: Corpus
    const cache: MaterializedCorpusCache<Corpus>
    /** A Map: chain epochs by root, and the roots in insertion order. */
    var known: map<Root, int>
    var knownOrder: seq<Root>

    ghost predicate Valid()
      reads this, cache
    {
      && cache.Valid() && HeldHonest(deps, cache.stored)
      && Honest(deps, base) && Honest(deps, loaded)
      && (forall r :: r in knownOrder <==> r in known)
      && base.root in known
    }

    ghost function AtHand(): Shelf
      reads this, cache
    {
      Shelf(base, loaded, cache.values)
    }

    constructor (deps: Deps, base: Corpus, loaded: Corpus, limit: int)
      requires Honest(deps, base) && Honest(deps, loaded)
      ensures Valid() && fresh(cache) && known == map[base.root := 0]
      ensures this.deps == deps && this.base == base && this.loaded == loaded && cache.limit == limit
      ensures cache.uses == [loaded.root, base.root] && cache.values.Keys <= {loaded.root, base.root}
    {
      var c := new MaterializedCorpusCache<Corpus>(limit);
      c.Set(loaded.root, loaded);
      c.Set(base.root, base);
      c.HeldWereUsed();
      this.deps, this.base, this.loaded, cache := deps, base, loaded, c;
      known, knownOrder := map[base.root := 0], [base.root];
    }

    /** Adds the cached corpus of a known root, unless it is above the bound or already listed. */
    method OfferCached(cs: seq<Known>, seen: set<Root>, bound: int, root: Root)
      returns (more: seq<Known>, seenMore: set<Root>)
      requires Valid() && root in known
      requires base.root in seen && (loaded.root in known ==> loaded.root in seen)
      requires OffersOf(cs, seen, AtHand(), known, bound)
      modifies cache
      ensures Valid() && AtHand() == old(AtHand()) && seen <= seenMore
      ensures cache.uses == old(cache.uses) || cache.uses == old(cache.uses) + [root]
      ensures OffersOf(more, seenMore, AtHand(), known, bound)
      ensures root in seenMore || Offered(AtHand(), known, bound, root).None?
    {
      more, seenMore := cs, seen;
      if known[root] > bound || root in seen {
        return;
      }
      ghost var shelf := AtHand();
      var hit := cache.Get(root);
      if hit.Some? {
        OfferAdded(cs, seen, shelf, known, bound, root, Known(hit.value, known[root]));
        more, seenMore := cs + [Known(hit.value, known[root])], seen + {root};
      }
    }

    /** The corpora to start from: base, loaded, then the cached ones whose epoch is known. */
    method Candidates(bound: int) returns (cs: seq<Known>, ghost hits: seq<Root>)
      requires Valid()
      modifies cache
      ensures Valid() && AtHand() == old(AtHand())
      ensures cache.uses == old(cache.uses) + hits && forall root :: root in hits ==> root in known
      ensures ListsOffers(cs, AtHand(), known, bound)
    {
      ghost var shelf := AtHand();
      var seen, none: seq<Known> := {}, [];
      OfferAdded(none, seen, shelf, known, bound, base.root, Known(base, known[base.root]));
      cs, seen := none + [Known(base, known[base.root])], seen + {base.root};
      if loaded.root in known && loaded.root !in seen {
        OfferAdded(cs, seen, shelf, known, bound, loaded.root, Known(loaded, known[loaded.root]));
        cs, seen := cs + [Known(loaded, known[loaded.root])], seen + {loaded.root};
      }
      hits := [];
      for i := 0 to |knownOrder|
        invariant Valid() && AtHand() == shelf
        invariant cache.uses == old(cache.uses) + hits && forall root :: root in hits ==> root in known
        invariant base.root in seen && (loaded.root in known ==> loaded.root in seen)
        invariant OffersOf(cs, seen, shelf, known, bound)
        invariant Considered(seen, shelf, known, bound, knownOrder, i)
      {
        assert knownOrder[i] in knownOrder;
        ghost var before := cache.uses;
        var more, seenMore := OfferCached(cs, seen, bound, knownOrder[i]);
        hits := hits + cache.uses[|before|..];
        ConsideredMore(seen, seenMore, shelf, known, bound, knownOrder, i);
        cs, seen := more, seenMore;
      }
      AllConsidered(cs, seen, shelf, known, bound, knownOrder);
    }

    /** Caches one materialised corpus and notes its epoch. */
    method OnMaterialized(corpus: Corpus, epoch: int)
      requires Valid() && Honest(deps, corpus)
      modifies this, cache
      ensures Valid() && known == old(known)[corpus.root := epoch]
      ensures cache.uses == old(cache.uses) + [corpus.root] && cache.stored == old(cache.stored)[corpus.root := corpus]
      ensures cache.limit >= 1 ==> corpus.root in cache.values && cache.values[corpus.root] == corpus
    {
      cache.Set(corpus.root, corpus);
      knownOrder := if corpus.root in known then knownOrder else knownOrder + [corpus.root];
      known := known[corpus.root := epoch];
    }

    /** The corpora a walk reported, in the order in which it reached them. */
    method RecordAll(ghost start: Corpus, from: int, steps: seq<Corpus>)
      requires Valid() && Materialised(deps, start, from, steps)
      modifies this, cache
      ensures Valid() && known == Recorded(old(known), from, steps)
      ensures cache.uses == old(cache.uses) + RootsOf(steps)
    {
      assert steps[..0] == [];
      for k := 0 to |steps|
        invariant Valid() && known == Recorded(old(known), from, steps[..k])
        invariant cache.uses == old(cache.uses) + RootsOf(steps[..k])
      {
        StepHonest(deps, start, from, steps, k);
        RecordStep(old(known), from, steps, k);
        OnMaterialized(steps[k], from + k);
      }
      assert steps[..|steps|] == steps;
    }

    /**
     * The corpus an entry pins, or none. A cached corpus is returned before the bundle is
     * compared. `hits` are the cached corpora considered as a start, `steps` those of the walk.
     */
    method AutoResolveCorpusForEntry(target: Root, epochId: int, bundleMatches: bool)
      returns (r: Option<Corpus>, ghost hits: seq<Root>, ghost steps: seq<Corpus>)
      requires Valid()
      modifies this, cache
      ensures Valid()
      ensures Answers(deps, old(AtHand()), old(known), target, Max(1, epochId), bundleMatches, r)
      ensures target in old(cache.values) ==> r == Some(old(cache.values)[target])
      ensures target !in old(cache.values) && !bundleMatches ==> r == None
      ensures Walked(deps, old(AtHand()), old(known), target, Max(1, epochId), bundleMatches, r, steps)
      ensures cache.uses == old(cache.uses) + UsesOf(hits, steps, target, r)
      ensures r.Some? && cache.limit >= 1 ==> target in cache.values && cache.values[target] == r.value
      ensures (forall root :: root in hits ==> root in old(known)) && forall c :: c in steps ==> c.root in known
      ensures LearnsTrue(deps, old(known), known) && old(known).Keys <= known.Keys
    {
      hits, steps := [], [];
      r := cache.Get(target);
      if r.Some? || !bundleMatches {
        return;
      }
      r, hits, steps := ResolveUncached(target, Max(1, epochId));
    }

    method ResolveUncached(target: Root, bound: int)
      returns (r: Option<Corpus>, ghost hits: seq<Root>, ghost steps: seq<Corpus>)
      requires Valid() && target !in cache.values
      modifies this, cache
      ensures Valid()
      ensures Answers(deps, old(AtHand()), old(known), target, bound, true, r)
      ensures Walked(deps, old(AtHand()), old(known), target, bound, true, r, steps)
      ensures cache.uses == old(cache.uses) + UsesOf(hits, steps, target, r)
      ensures r.Some? && cache.limit >= 1 ==> target in cache.values && cache.values[target] == r.value
      ensures (forall root :: root in hits ==> root in old(known)) && forall c :: c in steps ==> c.root in known
      ensures LearnsTrue(deps, old(known), known) && old(known).Keys <= known.Keys
    {
      ghost var shelf := AtHand();
      r, steps := None, [];
      var candidates;
      candidates, hits := Candidates(bound);
      var choice := ChooseAutoResolveWalkStart(candidates, bound);
      if choice.None? {
        NoStart(candidates, shelf, known, bound);
        return;
      }
      ghost var root := StartIsBest(candidates, shelf, known, bound, choice.value);
      r, steps := WalkAndRecord(target, choice.value, shelf, bound, root);
      UsesJoin(old(cache.uses), hits, steps, target, r);
    }

    /** Walks from a chosen start and keeps what the walk materialised, arrived or not. */
    method WalkAndRecord(target: Root, start: WalkStart, ghost shelf: Shelf, ghost bound: int, ghost root: Root)
      returns (r: Option<Corpus>, ghost steps: seq<Corpus>)
      requires Valid() && shelf == AtHand() && IsBest(shelf, known, bound, root)
      requires start == WalkStart(Offered(shelf, known, bound, root).value.corpus, known[root] + 1, bound - known[root])
      modifies this, cache
      ensures Valid()
      ensures exists w :: WalkedFrom(deps, shelf, old(known), bound, target, root, w, steps) && r == CorpusOf(w)
      ensures cache.uses == old(cache.uses) + UsesOf([], steps, target, r)
      ensures r.Some? && cache.limit >= 1 ==> target in cache.values && cache.values[target] == r.value
      ensures forall c :: c in steps ==> c.root in known
      ensures LearnsTrue(deps, old(known), known) && old(known).Keys <= known.Keys
    {
      ghost var before := known;
      ShelfIsHonest();
      var w, reached := AutoResolveCorpusByRoot(deps, start.start, target, start.from, start.maxDeltas);
      steps := reached;
      assert WalkedFrom(deps, shelf, before, bound, target, root, w, steps);
      if w.Some? {
        WalkHonest(deps, shelf, before, bound, target, root, w);
      }
      Keep(target, start, reached, w);
      LearnedTrue(deps, shelf, before, bound, target, root, w, steps, known);
      r := CorpusOf(w);
    }

    /** Stores the corpora of a walk and then the one it arrived at. */
    method Keep(ghost target: Root, start: WalkStart, reached: seq<Corpus>, w: Option<Resolved>)
      requires Valid() && Materialised(deps, start.start, start.from, reached)
      requires w.Some? ==> Honest(deps, w.value.corpus) && w.value.corpus.root == target
      modifies this, cache
      ensures Valid() && known == Learned(old(known), start.from, reached, w)
      ensures cache.uses == old(cache.uses) + UsesOf([], reached, target, CorpusOf(w))
      ensures w.Some? && cache.limit >= 1 ==> target in cache.values && cache.values[target] == w.value.corpus
      ensures old(known).Keys <= known.Keys && forall c :: c in reached ==> c.root in known
    {
      RecordedKeeps(known, start.from, reached);
      UsesWalk(cache.uses, reached, target, CorpusOf(w));
      RecordAll(start.start, start.from, reached);
      if w.Some? {
        OnMaterialized(w.value.corpus, start.from - 1 + w.value.applied);
      }
    }

    method ResolvePinned(epochId: int, target: Root, ghost chain: seq<Corpus>) returns (r: Option<Corpus>)
      requires Valid() && ChainOk(deps, chain) && Injective(deps) && KnownOk(chain, known)
      requires base == chain[0] && PinsActive(chain, loaded, epochId, target)
      modifies this, cache
      ensures Valid() && KnownOk(chain, known)
      ensures r == Some(chain[ActiveAt(chain, Max(1, epochId))])
    {
      ghost var shelf, before := AtHand(), known;
      ShelfIsHonest();
      var answer, hits, steps := AutoResolveCorpusForEntry(target, epochId, true);
      r := answer;
      CacheMakesNoDifference(deps, chain, shelf, before, Max(1, epochId), r);
    }

    /**
     * The entries of a drain, one after the other, each pinning the newest corpus of its epoch:
     * all resolve to the chain's corpora, whatever the walks and evictions before them left cached.
     */
    method ResolveEntries(epochs: seq<int>, targets: seq<Root>, ghost chain: seq<Corpus>)
      returns (rs: seq<Option<Corpus>>)
      requires Valid() && ChainOk(deps, chain) && Injective(deps) && KnownOk(chain, known)
      requires base == chain[0] && |epochs| == |targets|
      requires forall k :: 0 <= k < |epochs| ==> PinsActive(chain, loaded, epochs[k], targets[k])
      modifies this, cache
      ensures Valid() && KnownOk(chain, known)
      ensures |rs| == |epochs|
      ensures forall k :: 0 <= k < |epochs| ==> rs[k] == Some(chain[ActiveAt(chain, Max(1, epochs[k]))])
    {
      rs := [];
      for k := 0 to |epochs|
        invariant Valid() && KnownOk(chain, known)
        invariant |rs| == k
        invariant forall j :: 0 <= j < k ==> rs[j] == Some(chain[ActiveAt(chain, Max(1, epochs[j]))])
      {
        assert PinsActive(chain, loaded, epochs[k], targets[k]);
        var r := ResolvePinned(epochs[k], targets[k], chain);
        rs := rs + [r];
      }
    }

    /** The first resolution of a drain; it leaves the last `limit` corpora up to the target. */
    method ResolveFirst(chain: seq<Corpus>, t: nat) returns (r: Option<Corpus>)
      requires Valid() && ChainOk(deps, chain) && Injective(deps) && KnownOk(chain, known)
      requires base == chain[0] && known.Keys == {base.root} && 1 <= cache.limit <= t < |chain|
      requires chain[t].root != loaded.root && chain[t].root !in cache.values
      modifies this, cache
      ensures Valid() && KnownOk(chain, known) && chain[t].root in known
      ensures r == Some(chain[t])
      ensures HoldsExactly(cache.values.Keys, chain, t - cache.limit, t)
    {
      ghost var shelf, before, uses := AtHand(), known, cache.uses;
      ShelfIsHonest();
      assert OnChain(deps, chain, shelf, before, t, t);
      var answer, hits, steps := AutoResolveCorpusForEntry(chain[t].root, t, true);
      r := answer;
      FirstWalk(deps, chain, shelf, before, t, r, steps);
      assert steps[t - 1] == chain[t];
      FirstWalkFills(deps, chain, uses, hits, t, cache.limit, cache.values.Keys);
    }

    /** An older corpus than one at hand, pinned by an entry whose epoch has that one. */
    method ResolveOlder(chain: seq<Corpus>, older: nat, ghost lo: int, ghost t: nat, epochId: nat)
      returns (r: Option<Corpus>)
      requires Valid() && ChainOk(deps, chain) && Injective(deps) && KnownOk(chain, known)
      requires base == chain[0] && t < |chain| && older < t <= epochId && chain[older].root != loaded.root
      requires chain[t].root in known && HoldsExactly(cache.values.Keys, chain, lo, t) && older <= lo < t
      modifies this, cache
      ensures Valid() && r == None
    {
      ghost var shelf, before := AtHand(), known;
      ShelfIsHonest();
      assert chain[older].root !in shelf.cached && chain[t].root in shelf.cached;
      assert OnChain(deps, chain, shelf, before, older, epochId);
      var answer, hits, steps := AutoResolveCorpusForEntry(chain[older].root, epochId, true);
      r := answer;
      LaggingMisses(deps, chain, shelf, before, older, t, epochId, r);
    }

    lemma ShelfIsHonest()
      requires Valid()
      ensures ShelfHonest(deps, AtHand())
    {
      forall r | r in cache.values ensures HeldAt(deps, cache.values, r) {
        assert HeldAt(deps, cache.stored, r);
      }
    }
  }

  lemma NoStart(cs: seq<Known>, shelf: Shelf, known: map<Root, int>, bound: int)
    requires ListsOffers(cs, shelf, known, bound)
    requires || (forall i :: 0 <= i < |cs| ==> cs[i].epoch > bound)
             || (exists i :: 0 <= i < |cs| && cs[i].epoch == bound)
    ensures || (exists root :: root in known && Serves(shelf, known, bound, root) && known[root] == bound)
            || (forall root :: root in known ==> !Serves(shelf, known, bound, root))
  {
    if i :| 0 <= i < |cs| && cs[i].epoch == bound {
      assert cs[i] in cs;
      var root :| root in known && Offered(shelf, known, bound, root) == Some(cs[i]);
      assert Serves(shelf, known, bound, root);
    } else {
      forall root | root in known && Offered(shelf, known, bound, root).Some? ensures known[root] > bound {
        assert OfferIn(cs, shelf, known, bound, root);
        var i :| 0 <= i < |cs| && cs[i] == Offered(shelf, known, bound, root).value;
      }
    }
  }

  lemma StartIsBest(cs: seq<Known>, shelf: Shelf, known: map<Root, int>, bound: int, start: WalkStart)
    returns (root: Root)
    requires ListsOffers(cs, shelf, known, bound)
    requires forall i :: 0 <= i < |cs| ==> cs[i].epoch != bound
    requires exists i :: 0 <= i < |cs| && IsNearest(cs, bound, i)
                         && start == WalkStart(cs[i].corpus, cs[i].epoch + 1, bound - cs[i].epoch)
    ensures IsBest(shelf, known, bound, root)
    ensures start == WalkStart(Offered(shelf, known, bound, root).value.corpus, known[root] + 1, bound - known[root])
    ensures forall r :: r in known && Serves(shelf, known, bound, r) ==> known[r] != bound
  {
    var i :| 0 <= i < |cs| && IsNearest(cs, bound, i)
             && start == WalkStart(cs[i].corpus, cs[i].epoch + 1, bound - cs[i].epoch);
    assert cs[i] in cs;
    root :| root in known && Offered(shelf, known, bound, root) == Some(cs[i]);
    forall r | r in known && Serves(shelf, known, bound, r) ensures known[r] != bound && known[r] <= known[root] {
      assert OfferIn(cs, shelf, known, bound, r);
      var j :| 0 <= j < |cs| && cs[j] == Offered(shelf, known, bound, r).value;
    }
  }

  // ---- a pin that lags -------------------------------------------------------------------

  /** The walk of a first resolution: from the base through every corpus to the target. */
  lemma FirstWalk(deps: Deps, chain: seq<Corpus>, shelf: Shelf, known: map<Root, int>, t: nat, r: Option<Corpus>,
                  steps: seq<Corpus>)
    requires 1 <= t && OnChain(deps, chain, shelf, known, t, t) && chain[t].root !in shelf.cached
    requires known.Keys == {chain[0].root}
    requires Walked(deps, shelf, known, chain[t].root, t, true, r, steps)
    ensures r == Some(chain[t]) && steps == chain[1..t + 1]
  {
    BaseServes(deps, chain, shelf, known, t, t);
    assert !Stalled(shelf, known, t);
    var root, w :| WalkedFrom(deps, shelf, known, t, chain[t].root, root, w, steps) && r == CorpusOf(w);
    WalkOnChain(deps, chain, 0, t, t, w);
    WalkApplied(deps, chain, t, w);
    StepsAreChain(deps, chain, t, steps);
  }

  lemma StepsAreChain(deps: Deps, chain: seq<Corpus>, t: nat, steps: seq<Corpus>)
    requires ChainOk(deps, chain) && t < |chain| && |steps| == t && Materialised(deps, chain[0], 1, steps)
    ensures steps == chain[1..t + 1]
  {
    forall k | 0 <= k < |steps| ensures steps[k] == chain[k + 1] {
      assert StepAt(deps, chain[0], 1, steps, k);
      FoldChain(deps, chain, 0, k + 1);
    }
  }

  lemma WalkApplied(deps: Deps, chain: seq<Corpus>, t: nat, w: Option<Resolved>)
    requires ChainOk(deps, chain) && 1 <= t < |chain|
    requires WalkAnswers(deps, chain[0], chain[t].root, 1, t, w) && w.Some?
    ensures w.value.applied == t
  {
    ChainHonest(deps, chain, 0);
    FoldChain(deps, chain, 0, w.value.applied);
    DistinctRoots(deps, chain, w.value.applied, t);
  }

  lemma ChainRunOnce(deps: Deps, chain: seq<Corpus>, t: nat)
    requires ChainOk(deps, chain) && t < |chain|
    ensures Once(RootsOf(chain[1..t + 1]))
  {
    var run := RootsOf(chain[1..t + 1]);
    forall i | 0 <= i < |run| ensures FirstAt(run, i) {
      assert RootFirstAt(chain, i + 1);
    }
  }

  /** Of the chain's corpora those of epochs `lo + 1` to `hi`. */
  ghost predicate HoldsExactly(held: set<Root>, chain: seq<Corpus>, lo: int, hi: int)
  {
    forall k :: 0 <= k < |chain| ==> (chain[k].root in held <==> lo < k <= hi)
  }

  /** After it the cache holds the last `n` corpora before and at the target, and nothing else. */
  lemma FirstWalkFills(deps: Deps, chain: seq<Corpus>, uses: seq<Root>, hits: seq<Root>, t: nat, n: nat,
                       held: set<Root>)
    requires ChainOk(deps, chain) && 1 <= t < |chain| && n <= t
    requires var after := uses + UsesOf(hits, chain[1..t + 1], chain[t].root, Some(chain[t]));
             forall r :: r in held <==> r in Newest(ByLastUse(after), n)
    ensures HoldsExactly(held, chain, t - n, t)
  {
    var run := RootsOf(chain[1..t + 1]);
    var after := uses + UsesOf(hits, chain[1..t + 1], chain[t].root, Some(chain[t]));
    assert after == uses + hits + run + [chain[t].root];
    ChainRunOnce(deps, chain, t);
    RunFills(uses + hits, run, n);
    UseAgain(uses + hits + run, chain[t].root);
    LastOfRun(deps, chain, t, n);
  }

  lemma LastOfRun(deps: Deps, chain: seq<Corpus>, t: nat, n: nat)
    requires ChainOk(deps, chain) && 1 <= t < |chain| && n <= t
    ensures var last := RootsOf(chain[1..t + 1])[t - n..];
            forall k :: 0 <= k < |chain| ==> (chain[k].root in last <==> t - n < k <= t)
  {
    var run := RootsOf(chain[1..t + 1]);
    var last := run[t - n..];
    forall k | 0 <= k < |chain| ensures chain[k].root in last <==> t - n < k <= t {
      if t - n < k <= t {
        assert last[k - 1 - (t - n)] == chain[k].root;
      } else {
        forall j | t - n <= j < t ensures run[j] != chain[k].root {
          if run[j] == chain[k].root {
            DistinctRoots(deps, chain, j + 1, k);
          }
        }
      }
    }
  }

  lemma LaggingMisses(deps: Deps, chain: seq<Corpus>, shelf: Shelf, known: map<Root, int>, older: nat, t: nat,
                      bound: nat, r: Option<Corpus>)
    requires OnChain(deps, chain, shelf, known, older, bound) && older < t < |chain| && t <= bound
    requires chain[t].root in known && chain[t].root in shelf.cached && chain[older].root !in shelf.cached
    requires Answers(deps, shelf, known, chain[older].root, bound, true, r)
    ensures r == None
  {
    assert KnownAt(chain, known, chain[t].root);
    DistinctRoots(deps, chain, known[chain[t].root], t);
    assert Serves(shelf, known, bound, chain[t].root);
    ResolvesIff(deps, chain, shelf, known, older, bound, r);
  }

  /**
   * A drain that resolves the corpus of epoch `t`, and then an entry that pins an older corpus
   * although its epoch has this one: once the older corpus has been evicted again the entry stays
   * pending, in spite of a launch base from which the walk would reach it.
   */
  method ResolveLagging(deps: Deps, chain: seq<Corpus>, loaded: Corpus, limit: nat, t: nat, older: nat, epochId: nat)
    returns (first: Option<Corpus>, second: Option<Corpus>)
    requires ChainOk(deps, chain) && Injective(deps) && Honest(deps, loaded)
    requires 1 <= limit && 1 <= older && older + limit <= t < |chain| && t <= epochId
    requires loaded.root != chain[t].root && loaded.root != chain[older].root
    ensures first == Some(chain[t]) && second == None
    ensures Fold(deps, chain[0], 1, older) == Some(chain[older])
  {
    ChainHonest(deps, chain, 0);
    var resolver := new AutoResolver(deps, chain[0], loaded, limit);
    FreshResolver(deps, chain, loaded, t, resolver.known, resolver.cache.values.Keys);
    first := resolver.ResolveFirst(chain, t);
    second := resolver.ResolveOlder(chain, older, t - limit, t, epochId);
    BaseReaches(deps, chain, older);
  }

  lemma BaseReaches(deps: Deps, chain: seq<Corpus>, t: nat)
    requires ChainOk(deps, chain) && t < |chain|
    ensures Fold(deps, chain[0], 1, t) == Some(chain[t])
  {
    FoldChain(deps, chain, 0, t);
  }

  lemma FreshResolver(deps: Deps, chain: seq<Corpus>, loaded: Corpus, t: nat, known: map<Root, int>, held: set<Root>)
    requires ChainOk(deps, chain) && 1 <= t < |chain| && loaded.root != chain[t].root
    requires known == map[chain[0].root := 0] && held <= {loaded.root, chain[0].root}
    ensures KnownOk(chain, known) && known.Keys == {chain[0].root} && chain[t].root !in held
  {
    assert KnownAt(chain, known, chain[0].root);
    if chain[t].root == chain[0].root {
      DistinctRoots(deps, chain, t, 0);
    }
  }

  // ---- the input that misses -------------------------------------------------------------

  /** The corpora of epochs 0 to 6 are called a to g. */
  function Letter(e: nat): Root
    requires e < 7
  {
    "abcdefg"[e..e + 1]
  }

  function SevenEpochs(): seq<Corpus>
  {
    seq(7, e requires 0 <= e < 7 => Corpus(Letter(e), Letter(e)))
  }

  function SevenDeps(): Deps
  {
    Deps(e => if 1 <= e < 7 then Some(Delta(Letter(e - 1), Letter(e), Letter(e))) else None,
         _ => true, (_, d: Delta) => Some(d.change), x => x)
  }

  lemma SevenEpochsOk()
    ensures ChainOk(SevenDeps(), SevenEpochs()) && Injective(SevenDeps())
  {
    var deps, chain := SevenDeps(), SevenEpochs();
    forall e | 0 <= e < 7 ensures RootFirstAt(chain, e) {
      forall d | 0 <= d < e ensures chain[d].root != chain[e].root {
        assert Letter(d)[0] == "abcdefg"[d] && Letter(e)[0] == "abcdefg"[e];
      }
    }
    forall e | 1 <= e < 7 ensures LinkAt(deps, chain, e) {
      assert deps.fetch(e) == Some(Delta(Letter(e - 1), Letter(e), Letter(e)));
    }
  }

  /** With room for four corpora: epoch 6's is resolved, and a pin of epoch 1's then is not. */
  method LaggingPin() returns (first: Option<Corpus>, second: Option<Corpus>)
    ensures first == Some(Corpus("g", "g")) && second == None
    ensures Fold(SevenDeps(), Corpus("a", "a"), 1, 1) == Some(Corpus("b", "b"))
  {
    SevenEpochsOk();
    assert Letter(0) == "a" && Letter(1) == "b" && Letter(6) == "g";
    first, second := ResolveLagging(SevenDeps(), SevenEpochs(), Corpus("z", "z"), 4, 6, 1, 6);
  }
}

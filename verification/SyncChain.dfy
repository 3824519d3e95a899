/** The chain a client syncs against: its accepted advances, block windows and their replay. */
module SyncChain {
  import opened EvalBacklog
  import opened Outcomes

  /** What the registry pins for an epoch. */
  datatype EpochPins = EpochPins(coreVersion: Root, corpusRoot: Root, frontier: Root, baseline: Root)

  /** The signed corpus delta published for an epoch. */
  datatype CorpusDelta = CorpusDelta(previousRoot: Root, nextRoot: Root)

  /** An accepted advance as its event states it; `pins.patchHash` is the semantic patch hash. */
  datatype Advance = Advance(epoch: nat, index: nat, hash: string, block: int, pins: Pins, frontier: Root,
                             patch: string, literalHash: Root, newRoot: Root)
  {
    function Key(): string
    {
      KeyText(epoch, hash)
    }
  }

  /** The registry seals an epoch with its pins and the root its last advance left. */
  datatype Finalization = Finalization(epoch: nat, block: int)

  /** The patch rules of this lane; a state is named by its root. */
  datatype Lane = Lane(hash: string -> Root, otherLane: string -> bool, apply: (Root, string) -> Option<Root>)

  /**
   * Accepted advances in the order of epoch and transition index, the sealed epochs, the state
   * everything starts from, the registry's first block, and per epoch its pins and corpus delta.
   */
  datatype Chain = Chain(advances: seq<Advance>, finalizations: seq<Finalization>, blank: Root, deploy: nat,
                         context: nat -> EpochPins, deltas: nat -> CorpusDelta, lane: Lane)

  /** The live state root once the first `n` advances are in. */
  function RootAfter(c: Chain, n: nat): Root
    requires n <= |c.advances|
  {
    if n == 0 then c.blank else c.advances[n - 1].newRoot
  }

  /** How many of the advances are of epoch `e`. */
  function CountEpoch(s: seq<Advance>, e: nat): nat
  {
    if s == [] then 0
    else CountEpoch(s[..|s| - 1], e) + if s[|s| - 1].epoch == e then 1 else 0
  }

  /** What the registry enforces of one advance; indices count each epoch's advances from 0. */
  predicate LinkAt(c: Chain, i: nat)
    requires i < |c.advances|
  {
    && c.advances[i].pins.parentRoot == RootAfter(c, i)
    && c.deploy <= c.advances[i].block
    && c.advances[i].index == CountEpoch(c.advances[..i], c.advances[i].epoch)
    && (i > 0 ==> c.advances[i - 1].block <= c.advances[i].block)
    && (i > 0 ==> c.advances[i - 1].epoch <= c.advances[i].epoch)
  }

  /** A sealed epoch has no advance after its seal. */
  predicate SealAt(c: Chain, f: nat)
    requires f < |c.finalizations|
  {
    forall i :: 0 <= i < |c.advances| && c.advances[i].epoch <= c.finalizations[f].epoch ==>
      c.advances[i].block <= c.finalizations[f].block
  }

  predicate KeyFirstAt(c: Chain, i: nat)
    requires i < |c.advances|
  {
    forall j :: 0 <= j < i ==> c.advances[j].Key() != c.advances[i].Key()
  }

  ghost predicate ChainOk(c: Chain)
  {
    && (forall i :: 0 <= i < |c.advances| ==> LinkAt(c, i) && KeyFirstAt(c, i))
    && (forall f :: 0 <= f < |c.finalizations| ==> SealAt(c, f))
  }

  /** How many of the first `n` advances are in blocks up to `b`. */
  function CountUpTo(c: Chain, n: nat, b: int): (k: nat)
    requires n <= |c.advances|
    ensures k <= n
  {
    if n == 0 || c.advances[n - 1].block <= b then n else CountUpTo(c, n - 1, b)
  }

  function UpTo(c: Chain, b: int): (k: nat)
    ensures k <= |c.advances|
  {
    CountUpTo(c, |c.advances|, b)
  }

  function RootAt(c: Chain, b: int): Root
  {
    RootAfter(c, UpTo(c, b))
  }

  lemma {:induction false} BlocksOrdered(c: Chain, i: nat, j: nat)
    requires ChainOk(c) && i <= j < |c.advances|
    ensures c.advances[i].block <= c.advances[j].block
  {
    if i < j {
      BlocksOrdered(c, i, j - 1);
      assert LinkAt(c, j);
    }
  }

  lemma {:induction false} CountExact(c: Chain, n: nat, b: int, i: nat)
    requires ChainOk(c) && i < n <= |c.advances|
    ensures i < CountUpTo(c, n, b) <==> c.advances[i].block <= b
  {
    BlocksOrdered(c, i, n - 1);
    if c.advances[n - 1].block > b && i < n - 1 {
      CountExact(c, n - 1, b, i);
    }
  }

  /** Advance `i` is in blocks up to `b` exactly when it is among the first `UpTo(b)`. */
  lemma UpToExact(c: Chain, b: int, i: nat)
    requires ChainOk(c) && i < |c.advances|
    ensures i < UpTo(c, b) <==> c.advances[i].block <= b
  {
    CountExact(c, |c.advances|, b, i);
  }

  lemma UpToMonotone(c: Chain, a: int, b: int)
    requires ChainOk(c) && a <= b
    ensures UpTo(c, a) <= UpTo(c, b)
  {
    if UpTo(c, b) < UpTo(c, a) {
      UpToExact(c, a, UpTo(c, b));
      UpToExact(c, b, UpTo(c, b));
    }
  }

  lemma {:induction false} EpochsOrdered(c: Chain, i: nat, j: nat)
    requires ChainOk(c) && i <= j < |c.advances|
    ensures c.advances[i].epoch <= c.advances[j].epoch
  {
    if i < j {
      EpochsOrdered(c, i, j - 1);
      assert LinkAt(c, j);
    }
  }

  lemma {:induction false} CountGrows(s: seq<Advance>, e: nat, i: nat, j: nat)
    requires i <= j <= |s|
    ensures CountEpoch(s[..i], e) <= CountEpoch(s[..j], e)
    ensures i < j && s[i].epoch == e ==> CountEpoch(s[..i], e) < CountEpoch(s[..j], e)
    decreases j
  {
    if i < j {
      assert s[..j][..j - 1] == s[..j - 1];
      CountGrows(s, e, i, j - 1);
    }
  }

  /** The chain's order is the one a window is sorted by: epoch, then transition index. */
  lemma ChainSorted(c: Chain, i: nat, j: nat)
    requires ChainOk(c) && i < j < |c.advances|
    ensures var a, b := c.advances[i], c.advances[j];
            a.epoch < b.epoch || (a.epoch == b.epoch && a.index < b.index)
  {
    EpochsOrdered(c, i, j);
    assert LinkAt(c, i) && LinkAt(c, j);
    CountGrows(c.advances, c.advances[i].epoch, i, j);
  }

  /** How many of the first `n` advances are of epochs up to `e`. */
  function CountThrough(c: Chain, n: nat, e: nat): (k: nat)
    requires n <= |c.advances|
    ensures k <= n
  {
    if n == 0 || c.advances[n - 1].epoch <= e then n else CountThrough(c, n - 1, e)
  }

  function EpochEnd(c: Chain, e: nat): (k: nat)
    ensures k <= |c.advances|
  {
    CountThrough(c, |c.advances|, e)
  }

  lemma {:induction false} ThroughExact(c: Chain, n: nat, e: nat, i: nat)
    requires ChainOk(c) && i < n <= |c.advances|
    ensures i < CountThrough(c, n, e) <==> c.advances[i].epoch <= e
  {
    EpochsOrdered(c, i, n - 1);
    if c.advances[n - 1].epoch > e && i < n - 1 {
      ThroughExact(c, n - 1, e, i);
    }
  }

  /** The root the registry reports for epoch `e` at block `b`: later epochs do not move it. */
  function LiveRoot(c: Chain, e: nat, b: int): Root
  {
    RootAfter(c, if UpTo(c, b) < EpochEnd(c, e) then UpTo(c, b) else EpochEnd(c, e))
  }

  /** The root epoch `e` is sealed with. */
  function SealedRoot(c: Chain, e: nat): Root
  {
    RootAfter(c, EpochEnd(c, e))
  }

  /** How many advances the registry counts in epoch `e` at block `b`. */
  function TransitionCount(c: Chain, e: nat, b: int): nat
  {
    CountEpoch(c.advances[..UpTo(c, b)], e)
  }

  /** While no advance up to `b` is of a later epoch, the root of epoch `e` is the root. */
  lemma CurrentEpochLive(c: Chain, e: nat, b: int)
    requires ChainOk(c) && forall i :: 0 <= i < UpTo(c, b) ==> c.advances[i].epoch <= e
    ensures LiveRoot(c, e, b) == RootAt(c, b)
  {
    if EpochEnd(c, e) < UpTo(c, b) {
      ThroughExact(c, |c.advances|, e, EpochEnd(c, e));
    }
  }

  /** The advances in blocks `lo` to `hi`; nothing is fetched when there are no such blocks. */
  function Window(c: Chain, lo: int, hi: int): seq<Advance>
  {
    var from, to := UpTo(c, lo - 1), UpTo(c, hi);
    if lo <= hi && from <= to then c.advances[from..to] else []
  }

  lemma WindowExact(c: Chain, lo: int, hi: int, i: nat)
    requires ChainOk(c) && i < |c.advances|
    ensures lo <= c.advances[i].block <= hi ==> c.advances[i] in Window(c, lo, hi)
  {
    UpToExact(c, lo - 1, i);
    UpToExact(c, hi, i);
    if lo <= c.advances[i].block <= hi {
      var from := UpTo(c, lo - 1);
      assert Window(c, lo, hi)[i - from] == c.advances[i];
    }
  }

  lemma WindowMember(c: Chain, lo: int, hi: int, k: nat) returns (i: nat)
    requires ChainOk(c) && k < |Window(c, lo, hi)|
    ensures i < |c.advances| && c.advances[i] == Window(c, lo, hi)[k] && lo <= c.advances[i].block <= hi
  {
    i := UpTo(c, lo - 1) + k;
    UpToExact(c, lo - 1, i);
    UpToExact(c, hi, i);
  }

  lemma {:induction false} KeyDistinct(c: Chain, i: nat, j: nat)
    requires ChainOk(c) && i < |c.advances| && j < |c.advances|
    requires c.advances[i].Key() == c.advances[j].Key()
    ensures i == j
  {
    assert KeyFirstAt(c, i) && KeyFirstAt(c, j);
  }

  // ---- the canonical replay --------------------------------------------------------------

  predicate IndexAt(window: seq<Advance>, k: nat)
    requires k < |window|
  {
    window[k].index == CountEpoch(window[..k], window[k].epoch)
  }

  /** In this window every epoch's indices run from 0: the replay knows of no earlier window. */
  predicate IndicesOk(window: seq<Advance>)
  {
    forall k :: 0 <= k < |window| ==> IndexAt(window, k)
  }

  datatype ReplayCode =
    | OutOfOrder | CoreVersionMismatch | CorpusRootMismatch | FrontierMismatch | BaselineMismatch
    | ParentMismatch | NoPatchBytes | OtherLane | PatchHashMismatch | ApplyFailed | NewRootMismatch
    | FinalRootMismatch

  /** Some advance of the window is of epoch `e`. */
  predicate Present(window: seq<Advance>, e: nat)
  {
    exists k :: 0 <= k < |window| && window[k].epoch == e
  }

  /**
   * The pins an epoch is held against: its own if the caller read them, which it does for the
   * epochs of a window that has others than the synced one, and those of the synced one if not.
   */
  function ExpectedPins(c: Chain, window: seq<Advance>, synced: nat, e: nat): EpochPins
  {
    if (exists k :: 0 <= k < |window| && window[k].epoch != synced) && Present(window, e) then c.context(e)
    else c.context(synced)
  }

  /** The checks of one advance, in order: index, pins, parent, patch. */
  function AdvanceRefusal(c: Chain, want: EpochPins, a: Advance, expected: nat, root: Root): Option<ReplayCode>
  {
    if a.index != expected then Some(OutOfOrder)
    else if a.pins.coreVersion != want.coreVersion then Some(CoreVersionMismatch)
    else if a.pins.corpusRoot != want.corpusRoot then Some(CorpusRootMismatch)
    else if a.frontier != want.frontier then Some(FrontierMismatch)
    else if a.pins.parentRoot != root then Some(ParentMismatch)
    else if a.patch == "" then Some(NoPatchBytes)
    else if c.lane.otherLane(a.patch) then Some(OtherLane)
    else if c.lane.hash(a.patch) != a.literalHash then Some(PatchHashMismatch)
    else if c.lane.apply(root, a.patch).None? then Some(ApplyFailed)
    else if c.lane.apply(root, a.patch).value != a.newRoot then Some(NewRootMismatch)
    else None
  }

  /** The replay from advance `k` of the window on. */
  function ReplayFrom(c: Chain, window: seq<Advance>, synced: nat, k: nat, root: Root): Result<Root, ReplayCode>
    requires k <= |window|
    decreases |window| - k
  {
    if k == |window| then Accepted(root)
    else
      var a := window[k];
      var want := ExpectedPins(c, window, synced, a.epoch);
      var why := AdvanceRefusal(c, want, a, CountEpoch(window[..k], a.epoch), root);
      if why.Some? then Refused(why.value) else ReplayFrom(c, window, synced, k + 1, a.newRoot)
  }

  /** The checks of the last seal: its pins, then its root. */
  function SealRefusal(want: EpochPins, sealed: EpochPins, sealedRoot: Root, root: Root): Option<ReplayCode>
  {
    if sealed.coreVersion != want.coreVersion then Some(CoreVersionMismatch)
    else if sealed.corpusRoot != want.corpusRoot then Some(CorpusRootMismatch)
    else if sealed.frontier != want.frontier then Some(FrontierMismatch)
    else if sealed.baseline != want.baseline then Some(BaselineMismatch)
    else if sealedRoot != root then Some(FinalRootMismatch)
    else None
  }

  predicate IsPinCode(code: ReplayCode)
  {
    code.CoreVersionMismatch? || code.CorpusRootMismatch? || code.FrontierMismatch? || code.BaselineMismatch?
  }

  /** The whole replay of a window in which `seal` is the highest epoch sealed, if any. */
  function Replayed(c: Chain, window: seq<Advance>, synced: nat, seal: Option<nat>, root: Root)
    : Result<Root, ReplayCode>
  {
    var end := ReplayFrom(c, window, synced, 0, root);
    if end.Refused? || seal.None? then end
    else
      var why := SealRefusal(ExpectedPins(c, window, synced, seal.value), c.context(seal.value),
                             SealedRoot(c, seal.value), end.value);
      if why.Some? then Refused(why.value) else end
  }

  /** The highest epoch sealed in blocks `lo` to `hi`. */
  function HighestSealed(fs: seq<Finalization>, lo: int, hi: int): (e: Option<nat>)
    ensures e.Some? <==> exists k :: 0 <= k < |fs| && lo <= fs[k].block <= hi
    ensures e.Some? ==> exists k :: 0 <= k < |fs| && lo <= fs[k].block <= hi && fs[k].epoch == e.value
    ensures forall k :: 0 <= k < |fs| && lo <= fs[k].block <= hi ==> fs[k].epoch <= e.value
  {
    if fs == [] then None
    else
      var rest, f := HighestSealed(fs[..|fs| - 1], lo, hi), fs[|fs| - 1];
      if f.block < lo || f.block > hi || (rest.Some? && f.epoch <= rest.value) then rest else Some(f.epoch)
  }

  function LastSeal(c: Chain, lo: int, hi: int): Option<nat>
  {
    HighestSealed(c.finalizations, lo, hi)
  }

  lemma {:induction false} CountSplits(s: seq<Advance>, t: seq<Advance>, e: nat)
    ensures CountEpoch(s + t, e) == CountEpoch(s, e) + CountEpoch(t, e)
  {
    if t == [] {
      assert s + t == s;
    } else {
      CountSplits(s, t[..|t| - 1], e);
      assert (s + t)[..|s + t| - 1] == s + t[..|t| - 1];
    }
  }

  lemma {:induction false} CountPositive(s: seq<Advance>, e: nat)
    ensures CountEpoch(s, e) > 0 <==> exists k :: 0 <= k < |s| && s[k].epoch == e
  {
    if s != [] {
      var front := s[..|s| - 1];
      CountPositive(front, e);
      if k :| 0 <= k < |front| && front[k].epoch == e {
        assert s[k].epoch == e;
      }
      if k :| 0 <= k < |s| && s[k].epoch == e {
        assert k < |front| ==> front[k].epoch == e;
      }
    }
  }

  /** The epochs of two stretches of the chain have nothing in common. */
  ghost predicate Apart(c: Chain, i: nat, m: nat)
    requires i <= |c.advances| && m < |c.advances|
  {
    forall k :: 0 <= k < i ==> c.advances[k].epoch != c.advances[m].epoch
  }

  /** No epoch that has begun before position `i` goes on in positions `i` to `j`. */
  ghost predicate StartsFresh(c: Chain, i: nat, j: nat)
    requires i <= |c.advances| && j <= |c.advances|
  {
    forall m :: i <= m < j ==> Apart(c, i, m)
  }

  lemma ApartIff(c: Chain, i: nat, m: nat)
    requires i <= |c.advances| && m < |c.advances|
    ensures Apart(c, i, m) <==> CountEpoch(c.advances[..i], c.advances[m].epoch) == 0
  {
    var prefix, e := c.advances[..i], c.advances[m].epoch;
    CountPositive(prefix, e);
    if k :| 0 <= k < i && c.advances[k].epoch == e {
      assert prefix[k].epoch == e;
    }
  }

  lemma IndexInSlice(c: Chain, i: nat, j: nat, m: nat)
    requires ChainOk(c) && i <= m < j <= |c.advances|
    ensures IndexAt(c.advances[i..j], m - i) <==> Apart(c, i, m)
  {
    assert LinkAt(c, m);
    assert c.advances[..m] == c.advances[..i] + c.advances[i..m];
    CountSplits(c.advances[..i], c.advances[i..m], c.advances[m].epoch);
    assert c.advances[i..j][..m - i] == c.advances[i..m];
    ApartIff(c, i, m);
  }

  /** A stretch of the chain has its indices from 0 exactly when no epoch began before it. */
  lemma IndicesIff(c: Chain, i: nat, j: nat)
    requires ChainOk(c) && i <= j <= |c.advances|
    ensures IndicesOk(c.advances[i..j]) <==> StartsFresh(c, i, j)
  {
    var window := c.advances[i..j];
    if StartsFresh(c, i, j) {
      forall k | 0 <= k < |window| ensures IndexAt(window, k) {
        IndexInSlice(c, i, j, i + k);
        assert Apart(c, i, i + k);
      }
    }
    if IndicesOk(window) {
      forall m | i <= m < j ensures Apart(c, i, m) {
        IndexInSlice(c, i, j, m);
        assert IndexAt(window, m - i);
      }
    }
  }

  /** What that comes to: the first advance from `i` on is the first of its epoch. */
  lemma FreshIff(c: Chain, i: nat, j: nat)
    requires ChainOk(c) && i <= j <= |c.advances|
    ensures StartsFresh(c, i, j) <==> i == 0 || i == j || c.advances[i - 1].epoch != c.advances[i].epoch
  {
    if 0 < i < j {
      assert LinkAt(c, i);
      if StartsFresh(c, i, j) {
        assert Apart(c, i, i);
      }
      if c.advances[i - 1].epoch != c.advances[i].epoch {
        forall m, k | i <= m < j && 0 <= k < i ensures c.advances[k].epoch != c.advances[m].epoch {
          EpochsOrdered(c, k, i - 1);
          EpochsOrdered(c, i, m);
        }
      }
    }
  }

  /** Two advances of one epoch, one before the window and one in it. */
  lemma NotFresh(c: Chain, lo: int, hi: int, k: nat, m: nat)
    requires ChainOk(c) && k < m < |c.advances| && c.advances[k].epoch == c.advances[m].epoch
    requires c.advances[k].block < lo <= c.advances[m].block <= hi
    ensures !StartsFresh(c, UpTo(c, lo - 1), UpTo(c, hi))
  {
    UpToExact(c, lo - 1, k);
    UpToExact(c, lo - 1, m);
    UpToExact(c, hi, m);
    assert !Apart(c, UpTo(c, lo - 1), m);
  }

  /** The last seal in a window, if any, is the root at the window's end. */
  predicate Settled(c: Chain, lo: int, hi: int)
  {
    LastSeal(c, lo, hi).Some? ==> SealedRoot(c, LastSeal(c, lo, hi).value) == RootAt(c, hi)
  }

  /** It is when no advance of a later epoch has come in since. */
  lemma SettledWhenLast(c: Chain, lo: int, hi: int)
    requires ChainOk(c)
    requires var e := LastSeal(c, lo, hi);
             e.Some? && forall i :: 0 <= i < UpTo(c, hi) ==> c.advances[i].epoch <= e.value
    ensures Settled(c, lo, hi)
  {
    var e := LastSeal(c, lo, hi).value;
    var f :| 0 <= f < |c.finalizations| && lo <= c.finalizations[f].block <= hi && c.finalizations[f].epoch == e;
    assert SealAt(c, f);
    if UpTo(c, hi) < EpochEnd(c, e) {
      ThroughExact(c, |c.advances|, e, UpTo(c, hi));
      UpToExact(c, hi, UpTo(c, hi));
    } else if EpochEnd(c, e) < UpTo(c, hi) {
      ThroughExact(c, |c.advances|, e, EpochEnd(c, e));
    }
  }

  /** The last sealed epoch, if any, has an advance in the window or the synced epoch's pins. */
  predicate SealPinned(c: Chain, lo: int, hi: int, synced: nat)
  {
    var e := LastSeal(c, lo, hi);
    e.Some? ==> Present(Window(c, lo, hi), e.value) || c.context(e.value) == c.context(synced)
  }

  /** The advance carries its epoch's pins, and its patch leads from its parent root to its own. */
  predicate Genuine(c: Chain, a: Advance)
  {
    && a.pins.coreVersion == c.context(a.epoch).coreVersion
    && a.pins.corpusRoot == c.context(a.epoch).corpusRoot
    && a.frontier == c.context(a.epoch).frontier
    && a.patch != "" && !c.lane.otherLane(a.patch) && c.lane.hash(a.patch) == a.literalHash
    && c.lane.apply(a.pins.parentRoot, a.patch) == Some(a.newRoot)
  }

  ghost predicate AllGenuine(c: Chain, window: seq<Advance>)
  {
    forall k :: 0 <= k < |window| ==> Genuine(c, window[k])
  }

  /** An advance is always held against the pins of its own epoch. */
  lemma OwnPins(c: Chain, window: seq<Advance>, synced: nat, k: nat)
    requires k < |window|
    ensures ExpectedPins(c, window, synced, window[k].epoch) == c.context(window[k].epoch)
  {
  }

  /** The last seal is held against its own pins exactly when one of the two is the case. */
  lemma SealPinsIff(c: Chain, window: seq<Advance>, synced: nat, e: nat)
    ensures ExpectedPins(c, window, synced, e) == c.context(e)
            <==> Present(window, e) || c.context(e) == c.context(synced)
  {
  }

  lemma {:induction false} AcceptedMeans(c: Chain, window: seq<Advance>, synced: nat, k: nat, root: Root)
    requires k <= |window| && ReplayFrom(c, window, synced, k, root).Accepted?
    ensures forall m :: k <= m < |window| ==> Genuine(c, window[m])
    decreases |window| - k
  {
    if k < |window| {
      OwnPins(c, window, synced, k);
      AcceptedMeans(c, window, synced, k + 1, window[k].newRoot);
    }
  }

  lemma {:induction false} SliceReplays(c: Chain, i: nat, j: nat, synced: nat, k: nat)
    requires ChainOk(c) && i <= j <= |c.advances| && k <= j - i
    requires AllGenuine(c, c.advances[i..j]) && IndicesOk(c.advances[i..j])
    ensures ReplayFrom(c, c.advances[i..j], synced, k, RootAfter(c, i + k)) == Accepted(RootAfter(c, j))
    decreases j - i - k
  {
    var window := c.advances[i..j];
    if k < |window| {
      assert window[k] == c.advances[i + k] && Genuine(c, window[k]);
      assert LinkAt(c, i + k) && IndexAt(window, k);
      OwnPins(c, window, synced, k);
      SliceReplays(c, i, j, synced, k + 1);
    }
  }

  /** A stretch that an epoch enters half-way is refused at its first advance. */
  lemma HalfwayRefused(c: Chain, i: nat, j: nat, synced: nat)
    requires ChainOk(c) && i <= j <= |c.advances| && !StartsFresh(c, i, j)
    ensures ReplayFrom(c, c.advances[i..j], synced, 0, RootAfter(c, i)) == Refused(OutOfOrder)
  {
    var window := c.advances[i..j];
    FreshIff(c, i, j);
    IndexInSlice(c, i, j, i);
    assert !Apart(c, i, i) by {
      assert c.advances[i - 1].epoch == c.advances[i].epoch;
    }
    assert !IndexAt(window, 0);
  }

  /** A window that replays: four conditions on the chain, in the order in which they can fail. */
  ghost predicate Replayable(c: Chain, lo: int, hi: int, synced: nat)
  {
    && AllGenuine(c, Window(c, lo, hi))
    && StartsFresh(c, UpTo(c, lo - 1), UpTo(c, hi))
    && SealPinned(c, lo, hi, synced)
    && Settled(c, lo, hi)
  }

  lemma SliceReplaysIff(c: Chain, i: nat, j: nat, synced: nat)
    requires ChainOk(c) && i <= j <= |c.advances|
    ensures var r := ReplayFrom(c, c.advances[i..j], synced, 0, RootAfter(c, i));
            && (r.Accepted? <==> AllGenuine(c, c.advances[i..j]) && StartsFresh(c, i, j))
            && (r.Accepted? ==> r.value == RootAfter(c, j))
            && (!StartsFresh(c, i, j) ==> r == Refused(OutOfOrder))
  {
    IndicesIff(c, i, j);
    if !StartsFresh(c, i, j) {
      HalfwayRefused(c, i, j, synced);
    } else if AllGenuine(c, c.advances[i..j]) {
      SliceReplays(c, i, j, synced, 0);
    } else if ReplayFrom(c, c.advances[i..j], synced, 0, RootAfter(c, i)).Accepted? {
      AcceptedMeans(c, c.advances[i..j], synced, 0, RootAfter(c, i));
    }
  }

  lemma WindowIsSlice(c: Chain, lo: int, hi: int)
    requires ChainOk(c) && lo <= hi + 1
    ensures UpTo(c, lo - 1) <= UpTo(c, hi)
    ensures Window(c, lo, hi) == c.advances[UpTo(c, lo - 1)..UpTo(c, hi)]
  {
    UpToMonotone(c, lo - 1, hi);
  }

  /**
   * Which windows replay, to which root, and with which code the others are refused: those of
   * genuine advances that no epoch enters half-way, whose last seal, if any, is held against its
   * own pins and is still the root at the end.
   */
  lemma WindowReplaysIff(c: Chain, lo: int, hi: int, synced: nat)
    requires ChainOk(c) && lo <= hi + 1
    ensures var r := Replayed(c, Window(c, lo, hi), synced, LastSeal(c, lo, hi), RootAt(c, lo - 1));
            && (r.Accepted? <==> Replayable(c, lo, hi, synced))
            && (r.Accepted? ==> r.value == RootAt(c, hi))
            && (!StartsFresh(c, UpTo(c, lo - 1), UpTo(c, hi)) ==> r == Refused(OutOfOrder))
            && (AllGenuine(c, Window(c, lo, hi)) && StartsFresh(c, UpTo(c, lo - 1), UpTo(c, hi)) ==>
                  && (!SealPinned(c, lo, hi, synced) ==>
                        r.Refused? && IsPinCode(r.error))
                  && (SealPinned(c, lo, hi, synced) && !Settled(c, lo, hi) ==> r == Refused(FinalRootMismatch)))
  {
    WindowIsSlice(c, lo, hi);
    SliceReplaysIff(c, UpTo(c, lo - 1), UpTo(c, hi), synced);
    if LastSeal(c, lo, hi).Some? {
      SealPinsIff(c, Window(c, lo, hi), synced, LastSeal(c, lo, hi).value);
    }
  }

  /** Before the registry's first block the state is blank. */
  lemma BlankBefore(c: Chain, b: int)
    requires ChainOk(c) && b < c.deploy
    ensures UpTo(c, b) == 0
  {
    if |c.advances| > 0 {
      assert LinkAt(c, 0);
      UpToExact(c, b, 0);
    }
  }
}

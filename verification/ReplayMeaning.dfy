/**
 * The replay of any window from any root, in the terms of its advances: when it is accepted, and
 * which advance and which of its checks a refusal names.
 */
module ReplayMeaning {
  import opened EvalBacklog
  import opened Outcomes
  import opened SyncChain
  import opened SyncMeaning

  /** The root before advance `k`: the start, or what the advance before it left. */
  function RootBefore(window: seq<Advance>, root: Root, k: nat): Root
    requires k <= |window|
  {
    if k == 0 then root else window[k - 1].newRoot
  }

  /** How many advances before `k` are of its epoch. */
  function Earlier(window: seq<Advance>, k: nat): nat
    requires k < |window|
  {
    |set j | 0 <= j < k && window[j].epoch == window[k].epoch|
  }

  /** Advance `k` continues the window: next of its epoch, from the root before it, by its own patch. */
  predicate Follows(c: Chain, window: seq<Advance>, root: Root, k: nat)
    requires k < |window|
  {
    && window[k].index == Earlier(window, k)
    && window[k].pins.parentRoot == RootBefore(window, root, k)
    && Genuine(c, window[k])
  }

  /** The place of each check of one advance; the other codes are the seal's. */
  function Place(code: ReplayCode): nat
  {
    match code
    case OutOfOrder => 0
    case CoreVersionMismatch => 1
    case CorpusRootMismatch => 2
    case FrontierMismatch => 3
    case ParentMismatch => 4
    case NoPatchBytes => 5
    case OtherLane => 6
    case PatchHashMismatch => 7
    case ApplyFailed => 8
    case NewRootMismatch => 9
    case BaselineMismatch => 10
    case FinalRootMismatch => 11
  }

  /** Advance `k` fails check `code`. */
  predicate Fails(c: Chain, window: seq<Advance>, root: Root, k: nat, code: ReplayCode)
    requires k < |window|
  {
    var a, pinned, at := window[k], c.context(window[k].epoch), RootBefore(window, root, k);
    match code
    case OutOfOrder => a.index != Earlier(window, k)
    case CoreVersionMismatch => a.pins.coreVersion != pinned.coreVersion
    case CorpusRootMismatch => a.pins.corpusRoot != pinned.corpusRoot
    case FrontierMismatch => a.frontier != pinned.frontier
    case BaselineMismatch => false
    case ParentMismatch => a.pins.parentRoot != at
    case NoPatchBytes => a.patch == ""
    case OtherLane => c.lane.otherLane(a.patch)
    case PatchHashMismatch => c.lane.hash(a.patch) != a.literalHash
    case ApplyFailed => c.lane.apply(at, a.patch) == None
    case NewRootMismatch => c.lane.apply(at, a.patch) != Some(a.newRoot)
    case FinalRootMismatch => false
  }

  /** `code` is the first check advance `k` fails. */
  predicate FailsFirst(c: Chain, window: seq<Advance>, root: Root, k: nat, code: ReplayCode)
    requires k < |window|
  {
    && Fails(c, window, root, k, code)
    && forall other :: Place(other) < Place(code) ==> !Fails(c, window, root, k, other)
  }

  /** The checks of one advance: it follows, or is refused with the first code that applies. */
  lemma AdvanceMeans(c: Chain, window: seq<Advance>, root: Root, k: nat, code: ReplayCode)
    requires k < |window|
    ensures var why := AdvanceRefusal(c, c.context(window[k].epoch), window[k],
                                      CountEpoch(window[..k], window[k].epoch), RootBefore(window, root, k));
            && (why == None <==> Follows(c, window, root, k))
            && (why == Some(code) <==> FailsFirst(c, window, root, k, code))
  {
    CountIsSize(window, k, window[k].epoch);
    assert Earlier(window, k) == |Places(window, k, window[k].epoch)|;
    var why := AdvanceRefusal(c, c.context(window[k].epoch), window[k], CountEpoch(window[..k], window[k].epoch),
                              RootBefore(window, root, k));
    if why.Some? {
      assert FailsFirst(c, window, root, k, why.value);
      assert FailsFirst(c, window, root, k, code) ==> Place(code) == Place(why.value);
    }
  }

  /** The replay from advance `k` on is accepted when every advance follows. */
  lemma {:induction false} AcceptedFrom(c: Chain, window: seq<Advance>, synced: nat, root: Root, k: nat, r: Root)
    requires k <= |window|
    ensures ReplayFrom(c, window, synced, k, RootBefore(window, root, k)) == Accepted(r) <==>
              && (forall j :: k <= j < |window| ==> Follows(c, window, root, j))
              && r == RootBefore(window, root, |window|)
    decreases |window| - k
  {
    if k < |window| {
      OwnPins(c, window, synced, k);
      AdvanceMeans(c, window, root, k, OutOfOrder);
      AcceptedFrom(c, window, synced, root, k + 1, r);
    }
  }

  /** Else it is refused at the first that does not. */
  lemma {:induction false} RefusedFrom(c: Chain, window: seq<Advance>, synced: nat, root: Root, k: nat,
                                     code: ReplayCode)
    requires k <= |window|
    ensures ReplayFrom(c, window, synced, k, RootBefore(window, root, k)) == Refused(code) <==>
              Stopped(c, window, root, k, code)
    decreases |window| - k
  {
    if k < |window| {
      OwnPins(c, window, synced, k);
      AdvanceMeans(c, window, root, k, code);
      RefusedFrom(c, window, synced, root, k + 1, code);
      StopsLater(c, window, root, k, code);
    }
  }

  lemma StopsLater(c: Chain, window: seq<Advance>, root: Root, k: nat, code: ReplayCode)
    requires k < |window|
    ensures Stopped(c, window, root, k, code) <==>
              if Follows(c, window, root, k) then Stopped(c, window, root, k + 1, code)
              else FailsFirst(c, window, root, k, code)
  {
    AdvanceMeans(c, window, root, k, code);
    if Follows(c, window, root, k) {
      assert !StopsAt(c, window, root, k, k, code);
      if Stopped(c, window, root, k, code) {
        var i :| k <= i < |window| && StopsAt(c, window, root, k, i, code);
        assert StopsAt(c, window, root, k + 1, i, code);
      }
      if Stopped(c, window, root, k + 1, code) {
        var next := k + 1;
        var i :| next <= i < |window| && StopsAt(c, window, root, next, i, code);
        assert StopsAt(c, window, root, k, i, code);
      }
    } else {
      assert forall i :: k < i < |window| ==> !StopsAt(c, window, root, k, i, code);
      assert StopsAt(c, window, root, k, k, code) <==> FailsFirst(c, window, root, k, code);
    }
  }

  /** From advance `k` on, `i` is the first that does not follow, and fails `code` first. */
  ghost predicate StopsAt(c: Chain, window: seq<Advance>, root: Root, k: nat, i: nat, code: ReplayCode)
    requires k <= i < |window|
  {
    FailsFirst(c, window, root, i, code) && forall j :: k <= j < i ==> Follows(c, window, root, j)
  }

  ghost predicate Stopped(c: Chain, window: seq<Advance>, root: Root, k: nat, code: ReplayCode)
  {
    exists i :: k <= i < |window| && StopsAt(c, window, root, k, i, code)
  }

  /** What the last seal asks of a replay that ended at `end`. */
  predicate SealHolds(c: Chain, window: seq<Advance>, synced: nat, seal: Option<nat>, end: Root)
  {
    seal.Some? ==>
      && SealedRoot(c, seal.value) == end
      && ((exists k :: 0 <= k < |window| && window[k].epoch == seal.value)
          || c.context(seal.value) == c.context(synced))
  }

  /** The whole replay is accepted when every advance follows the one before it and the last seal holds. */
  lemma ReplayedMeans(c: Chain, window: seq<Advance>, synced: nat, seal: Option<nat>, root: Root, r: Root)
    ensures Replayed(c, window, synced, seal, root) == Accepted(r) <==>
              && (forall k :: 0 <= k < |window| ==> Follows(c, window, root, k))
              && r == RootBefore(window, root, |window|)
              && SealHolds(c, window, synced, seal, r)
  {
    AcceptedFrom(c, window, synced, root, 0, r);
    if seal.Some? {
      SealPinsIff(c, window, synced, seal.value);
    }
  }

  /** A refusal names the first advance that does not follow, or else the first thing wrong with the seal. */
  lemma RefusedMeans(c: Chain, window: seq<Advance>, synced: nat, seal: Option<nat>, root: Root, code: ReplayCode)
    ensures var end, want := RootBefore(window, root, |window|), WantOf(c, window, synced, seal);
            Replayed(c, window, synced, seal, root) == Refused(code) <==>
              || (exists i :: 0 <= i < |window| && StopsAt(c, window, root, 0, i, code))
              || (&& (forall k :: 0 <= k < |window| ==> Follows(c, window, root, k)) && seal.Some?
                  && SealCode(c.context(seal.value), want, SealedRoot(c, seal.value) == end, code))
  {
    var end := RootBefore(window, root, |window|);
    AcceptedFrom(c, window, synced, root, 0, end);
    RefusedFrom(c, window, synced, root, 0, code);
    var replay := ReplayFrom(c, window, synced, 0, RootBefore(window, root, 0));
    assert replay.Accepted? ==> replay == Accepted(end) by {
      if replay.Accepted? {
        AcceptedFrom(c, window, synced, root, 0, replay.value);
      }
    }
    if seal.Some? {
      assert ExpectedPins(c, window, synced, seal.value) == WantOf(c, window, synced, seal);
      SealMeans(WantOf(c, window, synced, seal), c.context(seal.value), SealedRoot(c, seal.value), end, code);
    }
  }

  lemma SealMeans(want: EpochPins, sealed: EpochPins, sealedRoot: Root, end: Root, code: ReplayCode)
    ensures SealRefusal(want, sealed, sealedRoot, end) == Some(code) <==>
              SealCode(sealed, want, sealedRoot == end, code)
  {
  }

  /** The pins of the sealed epoch if the window has it, else of the synced one. */
  function WantOf(c: Chain, window: seq<Advance>, synced: nat, seal: Option<nat>): EpochPins
  {
    if seal.Some? && (exists k :: 0 <= k < |window| && window[k].epoch == seal.value) then c.context(seal.value)
    else c.context(synced)
  }

  /** The first field in which the pins differ, or the root if they agree. */
  predicate SealCode(sealed: EpochPins, want: EpochPins, rootHolds: bool, code: ReplayCode)
  {
    match code
    case CoreVersionMismatch => sealed.coreVersion != want.coreVersion
    case CorpusRootMismatch => sealed.coreVersion == want.coreVersion && sealed.corpusRoot != want.corpusRoot
    case FrontierMismatch =>
      && sealed.coreVersion == want.coreVersion && sealed.corpusRoot == want.corpusRoot
      && sealed.frontier != want.frontier
    case BaselineMismatch => sealed == want.(baseline := sealed.baseline) && sealed.baseline != want.baseline
    case FinalRootMismatch => sealed == want && !rootHolds
    case _ => false
  }
}

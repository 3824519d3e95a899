/** Chains and runs that meet the refusals, each from a new client. */
module SyncExamples {
  import opened ArtifactBinding
  import opened EvalBacklog
  import opened Outcomes
  import opened SyncChain
  import opened SyncCorpus
  import opened SyncKeys
  import opened SyncProgress
  import opened SyncRefusals
  import opened SyncRuns
  import opened SyncSafety

  lemma KeysDiffer(epoch1: nat, hash1: string, epoch2: nat, hash2: string)
    requires hash1 != hash2
    ensures KeyText(epoch1, hash1) != KeyText(epoch2, hash2)
  {
    if KeyText(epoch1, hash1) == KeyText(epoch2, hash2) {
      KeyInjective(epoch1, hash1, epoch2, hash2);
    }
  }

  /** An advance whose patch names the root it leads to. */
  function Step(epoch: nat, index: nat, hash: string, block: int, from: Root, to: Root, corpus: Root): Advance
  {
    Advance(epoch, index, hash, block, Pins(from, corpus, "core", hash, "miner"), "frontier", to, to, to)
  }

  function SimpleLane(): Lane
  {
    Lane(patch => patch, patch => false, (from, patch) => Some(patch))
  }

  /** A client that has not synced; if a key is pinned it is this one. */
  predicate IsNew(w: World, key: string)
  {
    w == NewClient(None) || w == NewClient(Some(key))
  }

  /** One corpus throughout: no epoch's delta changes it. */
  function OneCorpus(advances: seq<Advance>): Chain
  {
    Chain(advances, [], "p", 10, (e: nat) => EpochPins("core", "corpus", "frontier", "baseline"),
          (e: nat) => CorpusDelta("corpus", "corpus"), SimpleLane())
  }

  lemma OneCorpusReplays(c: Chain, advances: seq<Advance>, lo: int, hi: int, epoch: nat)
    requires c == OneCorpus(advances)
    requires forall k :: 0 <= k < |Window(c, lo, hi)| ==> StepLike(Window(c, lo, hi)[k])
    ensures AllGenuine(c, Window(c, lo, hi)) && SealPinned(c, lo, hi, epoch) && Settled(c, lo, hi)
  {
  }

  predicate StepLike(a: Advance)
  {
    && a.pins.corpusRoot == "corpus" && a.pins.coreVersion == "core" && a.frontier == "frontier"
    && a.patch != "" && a.patch == a.literalHash == a.newRoot
  }

  // ---- an epoch in two windows -------------------------------------------------------------

  /** Two advances of epoch 1, in blocks 10 and 11. */
  function SplitChain(): Chain
  {
    OneCorpus([Step(1, 0, "x", 10, "p", "a", "corpus"), Step(1, 1, "y", 11, "a", "b", "corpus")])
  }

  lemma SplitChainOk()
    ensures ChainOk(SplitChain())
  {
    var c := SplitChain();
    KeysDiffer(1, "x", 1, "y");
    assert c.advances[..0] == [] && c.advances[..1] == [c.advances[0]];
    assert LinkAt(c, 0) && LinkAt(c, 1) && KeyFirstAt(c, 0) && KeyFirstAt(c, 1);
  }

  lemma SplitSteps(c: Chain, lo: int, hi: int)
    requires c == SplitChain()
    ensures AllGenuine(c, Window(c, lo, hi)) && SealPinned(c, lo, hi, 1) && Settled(c, lo, hi)
  {
    SplitChainOk();
    forall k | 0 <= k < |Window(c, lo, hi)| ensures StepLike(Window(c, lo, hi)[k]) {
      var i := WindowMember(c, lo, hi, k);
      assert i == 0 || i == 1;
    }
    OneCorpusReplays(c, c.advances, lo, hi, 1);
  }

  lemma SplitReplays(c: Chain, head: int)
    requires c == SplitChain()
    ensures FullReplayable(c, 1, head)
  {
    SplitChainOk();
    SplitSteps(c, 10, head);
    forall i | 0 <= i < |c.advances| ensures c.advances[i].epoch == 1 {
      assert i == 0 || i == 1;
    }
    CurrentEpochLive(c, 1, head);
  }

  /** A first pass without scoring at head 10 is through. */
  lemma SplitFirstPass(c: Chain, w: World, p: Pass)
    requires c == SplitChain() && IsNew(w, p.key)
    requires p.epoch == 1 && p.head == 10 && Plain(p) && p.launch == Some("corpus")
    ensures Sound(c, w) && !Aborted(c, w.disk, p) && NewCursor(c, w.disk, 10) == 10
  {
    SplitChainOk();
    SplitReplays(c, 10);
    FullReplayIff(c, w, 1, 10);
  }

  /** From there it never gets on while it keeps its snapshot; without it, any head will do again. */
  lemma SplitEpochRun(c: Chain, w: World, first: Event, es: seq<Event>, p: Pass)
    requires c == SplitChain() && first.Synced? && IsNew(w, first.pass.key)
    requires first.pass.epoch == 1 && first.pass.head == 10
    requires Plain(first.pass) && first.pass.launch == Some("corpus") && !first.pass.readOnly
    requires Possible(c, w, first) && first.renames == |Staged(c, w.disk, first.pass)|
    requires PossibleRun(c, Apply(c, w, first), es) && forall n :: 0 <= n < |es| ==> es[n].Synced?
    requires p.head >= 11
    ensures var after := ApplyAll(c, Apply(c, w, first), es);
            && SavedOn(after.disk).Some? && SavedOn(after.disk).value.cursor == 10 && Aborted(c, after.disk, p)
            && (Plain(p) && p.epoch == 1 && p.key == first.pass.key ==> !Aborted(c, after.disk - {SubstrateFile}, p))
  {
    SplitChainOk();
    SplitFirstPass(c, w, first.pass);
    CaughtForGood(c, w, first, es, p, 0, 1);
    CompletedPins(c, w, first);
    CompletedNext(c, w, first);
    KeyForGood(c, Apply(c, w, first), es, p);
    RunKeepsSound(c, Apply(c, w, first), es);
    if Plain(p) && p.epoch == 1 && p.key == first.pass.key {
      SplitReplays(c, p.head);
      LossPassIff(c, ApplyAll(c, Apply(c, w, first), es), p);
    }
  }

  // ---- a seal in a later window ------------------------------------------------------------

  /** Epoch 1 sealed in block 12, and an advance of epoch 2, under another corpus, in block 13. */
  function SealChain(): Chain
  {
    Chain([Step(1, 0, "x", 10, "p", "a", "c1"), Step(2, 0, "y", 13, "a", "b", "c2")], [Finalization(1, 12)], "p", 10,
          (e: nat) => EpochPins("core", if e <= 1 then "c1" else "c2", "frontier", "baseline"),
          (e: nat) => CorpusDelta("c1", if e <= 1 then "c1" else "c2"), SimpleLane())
  }

  lemma SealGenuine(c: Chain, lo: int, hi: int)
    requires c == SealChain()
    ensures AllGenuine(c, Window(c, lo, hi))
  {
    SealChainOk();
    forall k | 0 <= k < |Window(c, lo, hi)| ensures Genuine(c, Window(c, lo, hi)[k]) {
      var i := WindowMember(c, lo, hi, k);
      assert i == 0 || i == 1;
    }
  }

  lemma SealChainOk()
    ensures ChainOk(SealChain())
  {
    var c := SealChain();
    KeysDiffer(1, "x", 2, "y");
    assert c.advances[..0] == [] && c.advances[..1] == [c.advances[0]];
    assert LinkAt(c, 0) && LinkAt(c, 1) && KeyFirstAt(c, 0) && KeyFirstAt(c, 1);
    assert SealAt(c, 0);
  }

  lemma SealFacts(c: Chain, lo: int, hi: int)
    requires c == SealChain()
    ensures LastSeal(c, lo, hi) == if lo <= 12 <= hi then Some(1) else None
    ensures EpochEnd(c, 1) == 1 && EpochEnd(c, 2) == 2 && SealedRoot(c, 1) == "a"
    ensures UpTo(c, hi) == if hi < 10 then 0 else if hi < 13 then 1 else 2
  {
    assert c.finalizations[..0] == [];
    SealChainOk();
    UpToExact(c, hi, 0);
    UpToExact(c, hi, 1);
  }

  /**
   * A new client that passed epoch 1 at head 11 continues the corpus with epoch 2's delta, and yet
   * no pass of epoch 2 goes through, while a second pass of epoch 1 at head 12 does.
   */
  lemma SealPinsRun(c: Chain, w: World, first: Event, p: Pass)
    requires c == SealChain() && first.Synced? && IsNew(w, first.pass.key)
    requires first.pass.epoch == 1 && first.pass.head == 11
    requires Plain(first.pass) && first.pass.launch == Some("c1") && !first.pass.readOnly
    requires Possible(c, w, first) && first.renames == |Staged(c, w.disk, first.pass)|
    requires Plain(p) && p.head >= 12 && p.key == first.pass.key
    ensures var after := Apply(c, w, first).disk;
            && !Aborted(c, w.disk, first.pass)
            && (p.epoch == 2 ==> Continues(c, after, p) && Aborted(c, after, p))
            && (p.epoch == 1 && p.head == 12 ==> !Aborted(c, after, p))
  {
    SealChainOk();
    SealFirstPass(c, w, first.pass);
    CompletedNext(c, w, first);
    KeyStep(c, w, first);
    SealSecondPass(c, Apply(c, w, first), p);
  }

  lemma SealFirstPass(c: Chain, w: World, p: Pass)
    requires c == SealChain() && IsNew(w, p.key)
    requires p.epoch == 1 && p.head == 11 && Plain(p) && p.launch == Some("c1")
    ensures Sound(c, w) && !Aborted(c, w.disk, p) && NewCursor(c, w.disk, 11) == 11
  {
    SealChainOk();
    SealGenuine(c, 10, 11);
    SealFacts(c, 10, 11);
    FullReplayIff(c, w, 1, 11);
  }

  lemma SealSecondPass(c: Chain, w: World, p: Pass)
    requires c == SealChain() && ChainOk(c) && Sound(c, w) && Plain(p) && p.head >= 12 && KeyFits(w.disk, p.key)
    requires SnapshotAvailable(w.disk) && StartRoot(c, w.disk).Some? && FromBlock(c, w.disk) == 12
    requires SavedOn(w.disk).value.epoch == 1
    ensures p.epoch == 2 ==> Continues(c, w.disk, p) && Aborted(c, w.disk, p)
    ensures p.epoch == 1 && p.head == 12 ==> !Aborted(c, w.disk, p)
  {
    SealFacts(c, 12, p.head);
    SealFacts(c, 12, 11);
    if p.epoch == 2 {
      assert c.context(1).corpusRoot != c.context(2).corpusRoot;
      SealPinsRefuse(c, w, p, 1);
    } else if p.epoch == 1 && p.head == 12 {
      SealGenuine(c, 12, 12);
      ReplaysIff(c, w, 1, 12);
    }
  }

  lemma SealRefused(c: Chain, w: World, p: Pass)
    requires c == SealChain() && Sound(c, w) && !SnapshotAvailable(w.disk) && p.head >= 13
    ensures Aborted(c, w.disk, p)
  {
    SealChainOk();
    FullReplayIff(c, w, p.epoch, p.head);
    SealFacts(c, 10, p.head);
  }

  /**
   * Without a snapshot no pass with a head from 13 on gets anywhere, and nothing the client can
   * lose helps.
   */
  lemma LateClientStuck(c: Chain, pin: Option<string>, es: seq<Event>)
    requires c == SealChain() && PossibleRun(c, NewClient(pin), es)
    requires forall n :: 0 <= n < |es| && es[n].Synced? ==> es[n].pass.head >= 13
    ensures ApplyAll(c, NewClient(pin), es) in {NewClient(pin), NewClient(None)}
  {
    forall n, pinned | 0 <= n < |es| && es[n].Synced? ensures Aborted(c, NewClient(pinned).disk, es[n].pass) {
      SealRefused(c, NewClient(pinned), es[n].pass);
    }
    NothingBegins(c, pin, es);
  }

  /** A client whose cursor is 12 goes on. */
  lemma TimelyClientGoesOn(c: Chain, w: World)
    requires c == SealChain() && Sound(c, w) && StartRoot(c, w.disk).Some? && FromBlock(c, w.disk) == 13
    ensures Replays(c, w.disk, 2, 13)
  {
    SealChainOk();
    SealGenuine(c, 13, 13);
    SealFacts(c, 13, 13);
    SealFacts(c, 13, 12);
    ReplaysIff(c, w, 2, 13);
    FreshIff(c, 1, 2);
  }

  // ---- a crash between two renames ---------------------------------------------------------

  /** An advance of epoch 1 in block 10 and one of epoch 2 in block 13. */
  function TwoEpochs(): Chain
  {
    OneCorpus([Step(1, 0, "x", 10, "p", "a", "corpus"), Step(2, 0, "y", 13, "a", "b", "corpus")])
  }

  lemma TwoEpochsOk()
    ensures ChainOk(TwoEpochs())
  {
    var c := TwoEpochs();
    KeysDiffer(1, "x", 2, "y");
    assert c.advances[..0] == [] && c.advances[..1] == [c.advances[0]];
    assert LinkAt(c, 0) && LinkAt(c, 1) && KeyFirstAt(c, 0) && KeyFirstAt(c, 1);
  }

  lemma TwoEpochsFacts(c: Chain, lo: int, hi: int, epoch: nat)
    requires c == TwoEpochs()
    ensures AllGenuine(c, Window(c, lo, hi)) && SealPinned(c, lo, hi, epoch) && Settled(c, lo, hi)
    ensures EpochEnd(c, 1) == 1 && EpochEnd(c, 2) == 2
    ensures UpTo(c, hi) == if hi < 10 then 0 else if hi < 13 then 1 else 2
  {
    TwoEpochsOk();
    UpToExact(c, hi, 0);
    UpToExact(c, hi, 1);
    forall k | 0 <= k < |Window(c, lo, hi)| ensures StepLike(Window(c, lo, hi)[k]) {
      var i := WindowMember(c, lo, hi, k);
      assert i == 0 || i == 1;
    }
    OneCorpusReplays(c, c.advances, lo, hi, epoch);
  }

  /**
   * A new client passes epoch 1 at head 10; its pass of epoch 2 at head 13 crashes between the
   * substrate's rename and the state file's; and no pass after that goes through.
   */
  lemma CrashRun(c: Chain, w: World, first: Event, second: Event, es: seq<Event>, p: Pass)
    requires c == TwoEpochs() && first.Synced? && IsNew(w, first.pass.key)
    requires first.pass.epoch == 1 && first.pass.head == 10
    requires Plain(first.pass) && first.pass.launch == Some("corpus") && !first.pass.readOnly
    requires Possible(c, w, first) && first.renames == |Staged(c, w.disk, first.pass)|
    requires second.Synced? && second.pass.epoch == 2 && second.pass.head == 13 && second.pass.key == first.pass.key
    requires Plain(second.pass) && !second.pass.readOnly && Possible(c, Apply(c, w, first), second)
    requires var disk := Apply(c, w, first).disk;
             FirstSnapshot(c, disk) <= second.renames < |Staged(c, disk, second.pass)|
    requires PossibleRun(c, Apply(c, Apply(c, w, first), second), es)
    requires forall n :: 0 <= n < |es| ==> es[n].Synced?
    ensures var crashed := Apply(c, Apply(c, w, first), second);
            ApplyAll(c, crashed, es) == crashed && Aborted(c, crashed.disk, p)
  {
    TwoEpochsOk();
    TwoEpochsFirst(c, w, first.pass);
    CompletedNext(c, w, first);
    KeyStep(c, w, first);
    TwoEpochsSecond(c, Apply(c, w, first), second.pass);
    CrashForGood(c, Apply(c, w, first), second, es, p);
  }

  lemma TwoEpochsFirst(c: Chain, w: World, p: Pass)
    requires c == TwoEpochs() && IsNew(w, p.key)
    requires Plain(p) && p.epoch == 1 && p.head == 10 && p.launch == Some("corpus")
    ensures Sound(c, w) && !Aborted(c, w.disk, p) && NewCursor(c, w.disk, 10) == 10
  {
    TwoEpochsOk();
    TwoEpochsFacts(c, 10, 10, 1);
    FullReplayIff(c, w, 1, 10);
  }

  lemma TwoEpochsSecond(c: Chain, w: World, p: Pass)
    requires c == TwoEpochs() && ChainOk(c) && Sound(c, w) && Plain(p) && p.epoch == 2 && p.head == 13
    requires KeyFits(w.disk, p.key)
    requires SnapshotAvailable(w.disk) && StartRoot(c, w.disk).Some? && FromBlock(c, w.disk) == 11
    ensures !Aborted(c, w.disk, p) && LiveRoot(c, 2, 13) != SavedOn(w.disk).value.stateRoot
  {
    TwoEpochsFacts(c, 11, 13, 2);
    TwoEpochsFacts(c, 11, 10, 2);
    ReplaysIff(c, w, 2, 13);
    FreshIff(c, 1, 2);
    StartIsRoot(c, w);
  }

  // ---- a second pass of an epoch that changes the corpus -----------------------------------

  /** Nothing has been accepted yet; the deltas lead from one corpus to another. */
  function RotatedChain(): Chain
  {
    Chain([], [], "p", 10, (e: nat) => EpochPins("core", "c1", "frontier", "baseline"),
          (e: nat) => CorpusDelta("c0", "c1"), SimpleLane())
  }

  lemma RotatedReplays(c: Chain, epoch: nat, head: int)
    requires c == RotatedChain()
    ensures ChainOk(c) && FullReplayable(c, epoch, head)
  {
  }

  /**
   * A new client passes epoch 1 once. After that no pass of epoch 1 goes through, at any head,
   * with the snapshot or without it; with the whole directory gone one does again.
   */
  lemma RotatedRun(c: Chain, w: World, first: Event, es: seq<Event>, p: Pass)
    requires c == RotatedChain() && first.Synced? && IsNew(w, first.pass.key)
    requires first.pass.epoch == 1 && Plain(first.pass) && !first.pass.readOnly
    requires first.pass.launch == Some("c0")
    requires Possible(c, w, first) && first.renames == |Staged(c, w.disk, first.pass)|
    requires PossibleRun(c, Apply(c, w, first), es) && forall n :: 0 <= n < |es| ==> SameEpoch(es[n], 1)
    requires p.epoch == 1 && Plain(p) && p.launch == Some("c0")
    ensures !Aborted(c, w.disk, first.pass)
    ensures var after := ApplyAll(c, Apply(c, w, first), es);
            && Aborted(c, after.disk, p) && Aborted(c, after.disk - {SubstrateFile}, p)
            && !Aborted(c, Apply(c, after, DirectoryLost).disk, p)
  {
    RotatedReplays(c, 1, first.pass.head);
    RotatedReplays(c, 1, p.head);
    FullReplayIff(c, w, 1, first.pass.head);
    RotatedForGood(c, w, first, es, p);
    DirectoryLossPassIff(c, p);
  }

  // ---- a parent root left twice ------------------------------------------------------------

  /** The root goes from p to a, back to p, and on to b. */
  function CycleChain(): Chain
  {
    OneCorpus([Step(1, 0, "x", 10, "p", "a", "corpus"), Step(1, 1, "y", 11, "a", "p", "corpus"),
               Step(1, 2, "z", 12, "p", "b", "corpus")])
  }

  lemma CycleChainOk()
    ensures ChainOk(CycleChain())
  {
    var c := CycleChain();
    KeysDiffer(1, "x", 1, "y");
    KeysDiffer(1, "x", 1, "z");
    KeysDiffer(1, "y", 1, "z");
    assert c.advances[..0] == [] && c.advances[..1] == [c.advances[0]];
    assert c.advances[..2] == [c.advances[0], c.advances[1]];
    assert LinkAt(c, 0) && LinkAt(c, 1) && LinkAt(c, 2);
    assert KeyFirstAt(c, 0) && KeyFirstAt(c, 1) && KeyFirstAt(c, 2);
  }

  lemma CycleRecord(w: World, head: int)
    requires Sound(CycleChain(), w) && !SnapshotAvailable(w.disk) && head >= 12
    ensures RecordFor(Fetched(CycleChain(), w.disk, head), "p") == Some(CycleChain().advances[2])
    ensures CycleChain().advances[0].Key() in Pending(CycleChain(), w.disk, head)
  {
    var c := CycleChain();
    CycleChainOk();
    UpToExact(c, head, 2);
    BlankBefore(c, 9);
    assert Fetched(c, w.disk, head) == c.advances;
    LossReopens(c, w.disk, head, 0);
  }

  ghost predicate HonestScoring(w: World, p: Pass)
  {
    p.epoch == 1 && p.head >= 12 && !p.skip && !p.checkFails && AllScorable(CycleChain(), w.disk, p)
  }

  /**
   * On it a replay from the start goes through, and yet no honest scoring pass does: the first
   * advance's artifact is held against the third advance.
   */
  lemma CycleRefused(w: World, p: Pass)
    requires Sound(CycleChain(), w) && !SnapshotAvailable(w.disk)
    requires HonestScoring(w, p)
    ensures Replays(CycleChain(), w.disk, p.epoch, p.head) && Aborted(CycleChain(), w.disk, p)
  {
    var c := CycleChain();
    CycleChainOk();
    CycleRecord(w, p.head);
    LaterRecordDisagrees(c, w, p.head, 0, 2);
    ReplaysIff(c, w, 1, p.head);
    BlankBefore(c, 9);
    FreshIff(c, 0, UpTo(c, p.head));
    CurrentEpochLive(c, 1, p.head);
    ScorablePassIff(c, w, p);
  }

  /** A new client that is given nothing but such passes never gets a state file. */
  lemma CycleStuck(pin: Option<string>, es: seq<Event>)
    requires PossibleRun(CycleChain(), NewClient(pin), es)
    requires forall n :: 0 <= n < |es| ==> es[n].Synced? && HonestScoring(NewClient(pin), es[n].pass)
    ensures ApplyAll(CycleChain(), NewClient(pin), es) == NewClient(pin)
  {
    forall n | 0 <= n < |es| ensures Idle(CycleChain(), NewClient(pin).disk, es[n]) {
      CycleRefused(NewClient(pin), es[n].pass);
    }
    IdleRun(CycleChain(), NewClient(pin), es);
  }
}

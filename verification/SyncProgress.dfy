/** When a pass replays, what a crash can cost, and when the backlog empties. */
module SyncProgress {
  import opened ArtifactBinding
  import opened BacklogDrain
  import opened EvalBacklog
  import opened Outcomes
  import opened SyncChain
  import opened SyncRuns
  import opened SyncSafety
  import opened TrustedStaging

  /**
   * With a snapshot that matches its record, and a confirmed head not below the recorded cursor,
   * a pass replays exactly when its window does and the synced epoch's root is the root. Below
   * the cursor it replays when root and count are still those of the cursor.
   */
  lemma ReplaysIff(c: Chain, w: World, epoch: nat, head: int)
    requires ChainOk(c) && Sound(c, w) && StartRoot(c, w.disk).Some?
    ensures var from := FromBlock(c, w.disk);
            Replays(c, w.disk, epoch, head) <==>
              if head >= from - 1 then
                Replayable(c, from, head, epoch) && LiveRoot(c, epoch, head) == RootAt(c, head)
              else
                && LiveRoot(c, epoch, head) == RootAt(c, from - 1)
                && TransitionCount(c, epoch, head) == TransitionCount(c, epoch, from - 1)
  {
    var from := FromBlock(c, w.disk);
    StartIsRoot(c, w);
    CountsCarry(c, w, head);
    if head >= from - 1 {
      WindowReplaysIff(c, from, head, epoch);
    }
  }

  /** The substrate rename precedes every rename that makes the next pass trust it. */
  lemma SubstrateRenamed(c: Chain, disk: Disk, p: Pass, renames: nat)
    requires FirstSnapshot(c, disk) <= renames <= |Staged(c, disk, p)|
    ensures var after := Committed(disk, Staged(c, disk, p), renames);
            SubstrateFile in after && after[SubstrateFile] == Packed(LiveRoot(c, p.epoch, p.head))
  {
    var writes, at := Staged(c, disk, p), FirstSnapshot(c, disk) - 1;
    assert writes[at] == Write(SubstrateFile, Packed(LiveRoot(c, p.epoch, p.head)));
    forall k | at < k < renames ensures writes[k].dest != SubstrateFile {
      if k < |writes| - 1 {
        SnapshotWrite(c, disk, p, k - at - 1);
      }
    }
    NewOnceRenamed(disk, writes, renames, at);
  }

  /** A pass that runs to its end and commits. */
  ghost predicate Completes(c: Chain, disk: Disk, e: Event)
  {
    e.Synced? && !Aborted(c, disk, e.pass) && !e.pass.readOnly && e.renames == |Staged(c, disk, e.pass)|
  }

  /** It leaves its state file, and beside it the snapshot the state file describes. */
  lemma CompletedLeaves(c: Chain, w: World, e: Event)
    requires Possible(c, w, e) && Completes(c, w.disk, e)
    ensures var after, s := Apply(c, w, e).disk, NewState(c, w.disk, e.pass);
            && SavedOn(after) == Some(s) && SnapshotAvailable(after)
            && StartRoot(c, after) == Some(s.stateRoot) && FromBlock(c, after) == s.cursor + 1
  {
    var writes := Staged(c, w.disk, e.pass);
    NewOnceRenamed(w.disk, writes, |writes|, |writes| - 1);
    SubstrateRenamed(c, w.disk, e.pass, |writes|);
  }

  /** What the next pass then starts from. */
  lemma CompletedNext(c: Chain, w: World, e: Event)
    requires ChainOk(c) && Sound(c, w) && Possible(c, w, e) && Completes(c, w.disk, e)
    ensures var after := Apply(c, w, e);
            && Sound(c, after) && SavedOn(after.disk).Some? && SavedOn(after.disk).value.epoch == e.pass.epoch
            && SnapshotAvailable(after.disk) && StartRoot(c, after.disk).Some?
            && FromBlock(c, after.disk) == NewCursor(c, w.disk, e.pass.head) + 1
  {
    CompletedLeaves(c, w, e);
    StepKeepsSound(c, w, e);
  }

  /**
   * A crash after the substrate's rename and before the state file's: the next pass refuses the
   * snapshot exactly when the pass moved the root. Replay never starts from the newer substrate.
   */
  lemma CrashRefusedIff(c: Chain, disk: Disk, p: Pass, renames: nat)
    requires SavedOn(disk).Some?
    requires FirstSnapshot(c, disk) <= renames < |Staged(c, disk, p)|
    ensures var after := Committed(disk, Staged(c, disk, p), renames);
            StartRoot(c, after).None? <==> LiveRoot(c, p.epoch, p.head) != SavedOn(disk).value.stateRoot
  {
    SubstrateRenamed(c, disk, p, renames);
    StateFileLast(c, disk, p, renames);
  }

  /** A pass that aborts, or a loss of what is not there. */
  ghost predicate Idle(c: Chain, disk: Disk, e: Event)
  {
    match e
    case Synced(pass, _, _) => Aborted(c, disk, pass)
    case SubstrateLost => SubstrateFile !in disk
    case DirectoryLost => disk == map[]
  }

  lemma {:induction false} IdleRun(c: Chain, w: World, es: seq<Event>)
    requires PossibleRun(c, w, es)
    requires forall k :: 0 <= k < |es| ==> Idle(c, w.disk, es[k])
    ensures ApplyAll(c, w, es) == w
    decreases |es|
  {
    if es != [] {
      assert Idle(c, w.disk, es[0]);
      assert Apply(c, w, es[0]).disk == w.disk;
      IdleRun(c, w, es[1..]);
    }
  }

  /** While the snapshot is refused no pass changes anything. */
  lemma RefusedStays(c: Chain, w: World, es: seq<Event>)
    requires PossibleRun(c, w, es) && StartRoot(c, w.disk).None?
    requires forall k :: 0 <= k < |es| ==> es[k].Synced?
    ensures ApplyAll(c, w, es) == w
  {
    forall k | 0 <= k < |es| ensures Idle(c, w.disk, es[k]) {
      assert es[k].Synced?;
    }
    IdleRun(c, w, es);
  }

  /** Without the snapshot the whole chain up to the head is one window. */
  lemma LossRecovers(c: Chain, w: World, epoch: nat, head: int)
    requires ChainOk(c) && Sound(c, w)
    ensures var after := World(w.disk - {SubstrateFile}, w.passed);
            && Sound(c, after)
            && (Replays(c, after.disk, epoch, head) <==> FullReplayable(c, epoch, head))
  {
    SubstrateLossKeepsSound(c, w);
    var after := World(w.disk - {SubstrateFile}, w.passed);
    FullReplayIff(c, after, epoch, head);
  }

  /** The chain up to the head replays as one window, to the root the registry reports. */
  ghost predicate FullReplayable(c: Chain, epoch: nat, head: int)
  {
    && AllGenuine(c, Window(c, c.deploy, head))
    && SealPinned(c, c.deploy, head, epoch)
    && Settled(c, c.deploy, head)
    && LiveRoot(c, epoch, head) == RootAt(c, head)
  }

  lemma FullReplayIff(c: Chain, w: World, epoch: nat, head: int)
    requires ChainOk(c) && Sound(c, w) && !SnapshotAvailable(w.disk)
    ensures Replays(c, w.disk, epoch, head) <==> FullReplayable(c, epoch, head)
  {
    ReplaysIff(c, w, epoch, head);
    BlankBefore(c, c.deploy - 1);
    if head < c.deploy {
      BlankBefore(c, head);
    }
  }

  /** The pass would be a plain one: no scoring, no override, and no check outside the model fails. */
  predicate Plain(p: Pass)
  {
    p.skip && !p.checkFails && p.override.None?
  }

  /**
   * What deleting the snapshot is good for: the next pass goes through exactly when the chain
   * replays from its first block and the epoch's delta continues the corpus of the last completed
   * pass, which stays recorded. So it never helps within an epoch whose delta changes the corpus.
   */
  lemma LossPassIff(c: Chain, w: World, p: Pass)
    requires ChainOk(c) && Sound(c, w) && SavedOn(w.disk).Some? && Plain(p)
    ensures !Aborted(c, w.disk - {SubstrateFile}, p) <==>
              && KeyFits(w.disk, p.key) && FullReplayable(c, p.epoch, p.head)
              && c.deltas(p.epoch).nextRoot == c.context(p.epoch).corpusRoot
              && c.deltas(p.epoch).previousRoot == c.context(SavedOn(w.disk).value.epoch).corpusRoot
  {
    LossRecovers(c, w, p.epoch, p.head);
  }

  /** And deleting the whole directory: the epoch's delta has to continue the launch corpus. */
  lemma DirectoryLossPassIff(c: Chain, p: Pass)
    requires ChainOk(c) && Plain(p)
    ensures !Aborted(c, map[], p) <==>
              && FullReplayable(c, p.epoch, p.head)
              && c.deltas(p.epoch).nextRoot == c.context(p.epoch).corpusRoot
              && p.launch == Some(c.deltas(p.epoch).previousRoot)
  {
    FullReplayIff(c, World(map[], {}), p.epoch, p.head);
  }

  /** Such a pass puts every advance back into the backlog, verified ones included. */
  lemma LossReopens(c: Chain, disk: Disk, head: int, i: nat)
    requires ChainOk(c) && !SnapshotAvailable(disk)
    requires i < |c.advances| && c.advances[i].block <= head
    ensures c.advances[i].Key() in Pending(c, disk, head)
  {
    assert LinkAt(c, i);
    WindowExact(c, c.deploy, head, i);
    var window := Fetched(c, disk, head);
    var k :| 0 <= k < |window| && window[k] == c.advances[i];
    PendingFrom(c, disk, head, c.advances[i].Key());
  }

  /** Every secret is out, every context resolves, every artifact is honest and reproduces. */
  ghost predicate AllScorable(c: Chain, disk: Disk, p: Pass)
  {
    forall k :: k in Pending(c, disk, p.head) ==> Scorable(p, Pending(c, disk, p.head)[k])
  }

  predicate Scorable(p: Pass, e: Entry)
  {
    p.secret(e.epoch).Revealed? && p.context(e).Resolved? && Honest(e, p.fetched(e)) && p.scorePasses(e)
  }

  /** For every owed entry the window's last advance from its parent root, if any, is its own. */
  ghost predicate AllAgree(c: Chain, disk: Disk, head: int)
  {
    forall k :: k in Pending(c, disk, head) ==> RecordAgrees(Fetched(c, disk, head), Pending(c, disk, head)[k])
  }

  /** No owed entry ever lacks its parent state, in whichever window it was first seen. */
  lemma ParentAlwaysReady(c: Chain, w: World, head: int, key: string)
    requires ChainOk(c) && Sound(c, w) && key in Pending(c, w.disk, head)
    ensures ParentReady(w.disk, Fetched(c, w.disk, head), Pending(c, w.disk, head)[key])
  {
    var e, window := Pending(c, w.disk, head)[key], Fetched(c, w.disk, head);
    PendingOk(c, w, head);
    assert EntryOf(c, e, key);
    var i :| 0 <= i < |c.advances| && OwedAt(c, i, e, key);
    PendingFrom(c, w.disk, head, key);
    if key in SavedBacklog(w.disk) {
      assert ParentFile(key) in w.disk && SnapshotAt(c, w.disk, i);
    } else {
      var k :| 0 <= k < |window| && window[k].Key() == key;
      var j := WindowMember(c, FromBlock(c, w.disk), head, k);
      KeyDistinct(c, i, j);
      assert window[k] in window;
    }
  }

  /** A scorable entry leaves or stops the pass; it stops it when another advance has its record. */
  lemma ScorableLeavesIff(c: Chain, w: World, p: Pass, key: string)
    requires ChainOk(c) && Sound(c, w) && key in Pending(c, w.disk, p.head)
    requires Scorable(p, Pending(c, w.disk, p.head)[key])
    ensures var e := Pending(c, w.disk, p.head)[key];
            var f, agrees := FactsOf(c, w.disk, p)(e), RecordAgrees(Fetched(c, w.disk, p.head), e);
            Drainable(f) && (agrees ==> Leaves(f)) && (!agrees ==> VerdictOf(f).Throws?)
  {
    var e := Pending(c, w.disk, p.head)[key];
    ParentAlwaysReady(c, w, p.head, key);
    HonestBindsIff(Fetched(c, w.disk, p.head), e, p.fetched(e));
  }

  /**
   * With nothing hidden and every artifact honest, a scoring pass goes through exactly when its
   * key is the pinned one, its delta continues the local corpus, it replays, and no entry's
   * parent root was left again, for a different advance, in the window.
   */
  lemma ScorablePassIff(c: Chain, w: World, p: Pass)
    requires ChainOk(c) && Sound(c, w) && !p.skip && !p.checkFails && AllScorable(c, w.disk, p)
    ensures !Aborted(c, w.disk, p) <==>
              && KeyFits(w.disk, p.key) && Continues(c, w.disk, p)
              && Replays(c, w.disk, p.epoch, p.head) && AllAgree(c, w.disk, p.head)
    ensures !Aborted(c, w.disk, p) ==> Remaining(c, w.disk, p) == map[]
  {
    var pending, facts := Pending(c, w.disk, p.head), FactsOf(c, w.disk, p);
    if AllAgree(c, w.disk, p.head) {
      forall k | k in pending ensures Leaves(facts(pending[k])) {
        ScorableLeavesIff(c, w, p, k);
      }
      AllLeave(pending, facts);
    } else {
      var k :| k in pending && !RecordAgrees(Fetched(c, w.disk, p.head), pending[k]);
      ScorableLeavesIff(c, w, p, k);
    }
  }

  /**
   * One undisturbed scoring pass of that kind clears the whole backlog, however long ago and in
   * however many interrupted passes it grew, and records the cursor as verified.
   */
  lemma ScorablePassClears(c: Chain, w: World, e: Event)
    requires ChainOk(c) && Sound(c, w) && Possible(c, w, e) && e.Synced?
    requires e.renames == |Staged(c, w.disk, e.pass)| && !e.pass.readOnly && !e.pass.skip && !e.pass.checkFails
    requires AllScorable(c, w.disk, e.pass)
    requires KeyFits(w.disk, e.pass.key) && Continues(c, w.disk, e.pass)
    requires Replays(c, w.disk, e.pass.epoch, e.pass.head) && AllAgree(c, w.disk, e.pass.head)
    ensures !Aborted(c, w.disk, e.pass)
    ensures var s := SavedOn(Apply(c, w, e).disk);
            && s.Some? && s.value.backlog == map[]
            && s.value.cursor == NewCursor(c, w.disk, e.pass.head)
            && s.value.verifiedThrough >= s.value.cursor
    ensures Covered(c, NewCursor(c, w.disk, e.pass.head), Apply(c, w, e).passed, map[])
  {
    ScorablePassIff(c, w, e.pass);
    CompletedLeaves(c, w, e);
    CoveredAfter(c, w, e.pass);
  }
}

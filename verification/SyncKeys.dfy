/** Trust on first use: the first signing key a commit pins stays the only one. */
module SyncKeys {
  import opened SyncChain
  import opened SyncProgress
  import opened SyncRuns
  import opened SyncSafety
  import opened TrustedStaging

  /** A pinned key survives every event but the loss of the directory. */
  lemma PinKept(c: Chain, w: World, e: Event)
    requires Possible(c, w, e) && !e.DirectoryLost? && PinFile in w.disk
    ensures var after := Apply(c, w, e).disk;
            PinFile in after && after[PinFile] == w.disk[PinFile]
  {
    if e.Synced? && !Aborted(c, w.disk, e.pass) && !e.pass.readOnly {
      var writes := Staged(c, w.disk, e.pass);
      forall k | 0 <= k < e.renames ensures writes[k].dest != PinFile {
        if 0 < k < |writes| - 1 {
          SnapshotWrite(c, w.disk, e.pass, k - 1);
        }
      }
      OldUntilRenamed(w.disk, writes, e.renames, PinFile);
    }
  }

  /** A key is pinned by a pass that goes through, and it is the one that pass was served. */
  lemma PinSet(c: Chain, w: World, e: Event)
    requires Possible(c, w, e) && PinFile !in w.disk && PinFile in Apply(c, w, e).disk
    ensures e.Synced? && !Aborted(c, w.disk, e.pass) && Apply(c, w, e).disk[PinFile] == PinnedKey(e.pass.key)
  {
    var writes := Staged(c, w.disk, e.pass);
    if e.renames > 0 {
      forall k | 0 < k < e.renames ensures writes[k].dest != PinFile {
        if 1 < k < |writes| - 1 {
          SnapshotWrite(c, w.disk, e.pass, k - 2);
        }
      }
      NewOnceRenamed(w.disk, writes, e.renames, 0);
    }
  }

  lemma CompletedPins(c: Chain, w: World, e: Event)
    requires Possible(c, w, e) && Completes(c, w.disk, e)
    ensures var after := Apply(c, w, e).disk;
            PinFile in after && after[PinFile] == PinnedKey(e.pass.key)
  {
    if PinFile in w.disk {
      PinKept(c, w, e);
    } else {
      CommittedHas(w.disk, Staged(c, w.disk, e.pass), e.renames, 0);
      PinSet(c, w, e);
    }
  }

  /** So a pass leaves the key it was served, or none. */
  lemma KeyStep(c: Chain, w: World, e: Event)
    requires Possible(c, w, e) && e.Synced? && KeyFits(w.disk, e.pass.key)
    ensures KeyFits(Apply(c, w, e).disk, e.pass.key)
  {
    if PinFile in w.disk {
      PinKept(c, w, e);
    } else if PinFile in Apply(c, w, e).disk {
      PinSet(c, w, e);
    }
  }

  /** Over any run that keeps the directory, and no pass served another key goes through. */
  lemma {:induction false} KeyForGood(c: Chain, w: World, es: seq<Event>, p: Pass)
    requires PossibleRun(c, w, es) && PinFile in w.disk
    requires forall n :: 0 <= n < |es| ==> !es[n].DirectoryLost?
    ensures var after := ApplyAll(c, w, es).disk;
            && PinFile in after && after[PinFile] == w.disk[PinFile]
            && (w.disk[PinFile] != PinnedKey(p.key) ==> Aborted(c, after, p))
    decreases |es|
  {
    if es != [] {
      assert !es[0].DirectoryLost?;
      PinKept(c, w, es[0]);
      KeyForGood(c, Apply(c, w, es[0]), es[1..], p);
    }
  }
}

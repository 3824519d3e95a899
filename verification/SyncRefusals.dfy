/**
 * Refusals that stay: a cursor between two advances of one epoch, a seal held against another
 * epoch's pins, a crash between two renames, and an artifact whose parent root was left twice.
 */
module SyncRefusals {
  import opened ArtifactBinding
  import opened Outcomes
  import opened SyncChain
  import opened SyncProgress
  import opened SyncRuns
  import opened SyncSafety
  import opened TrustedStaging

  // ---- a cursor within an epoch ------------------------------------------------------------

  /** Advance `k` is at or below the saved cursor, `m` above it, and the snapshot is there. */
  ghost predicate Caught(c: Chain, disk: Disk, k: nat, m: nat)
    requires k < m < |c.advances|
  {
    && SavedOn(disk).Some? && SubstrateFile in disk
    && c.advances[k].block <= SavedOn(disk).value.cursor < c.advances[m].block
  }

  /** With the cursor between two advances of one epoch no pass gets to the second of them. */
  lemma CaughtRefuses(c: Chain, w: World, p: Pass, k: nat, m: nat)
    requires ChainOk(c) && Sound(c, w) && k < m < |c.advances|
    requires c.advances[k].epoch == c.advances[m].epoch && Caught(c, w.disk, k, m)
    requires p.head >= c.advances[m].block
    ensures !Replays(c, w.disk, p.epoch, p.head) && Aborted(c, w.disk, p)
  {
    CaughtWindow(c, w.disk, p, k, m);
    if Replays(c, w.disk, p.epoch, p.head) {
      ReplaysIff(c, w, p.epoch, p.head);
    }
  }

  lemma CaughtWindow(c: Chain, disk: Disk, p: Pass, k: nat, m: nat)
    requires ChainOk(c) && k < m < |c.advances| && c.advances[k].epoch == c.advances[m].epoch
    requires Caught(c, disk, k, m) && p.head >= c.advances[m].block
    ensures p.head >= FromBlock(c, disk) && !Replayable(c, FromBlock(c, disk), p.head, p.epoch)
  {
    NotFresh(c, FromBlock(c, disk), p.head, k, m);
  }

  lemma CaughtStep(c: Chain, w: World, e: Event, k: nat, m: nat)
    requires ChainOk(c) && Sound(c, w) && Possible(c, w, e) && e.Synced? && k < m < |c.advances|
    requires c.advances[k].epoch == c.advances[m].epoch && Caught(c, w.disk, k, m)
    ensures Caught(c, Apply(c, w, e).disk, k, m)
  {
    if !Aborted(c, w.disk, e.pass) && !e.pass.readOnly {
      var writes := Staged(c, w.disk, e.pass);
      if e.pass.head >= c.advances[m].block {
        CaughtRefuses(c, w, e.pass, k, m);
        assert false;
      }
      CommitKeepsNames(w.disk, writes, e.renames);
      if e.renames < |writes| {
        StateFileLast(c, w.disk, e.pass, e.renames);
      } else {
        NewOnceRenamed(w.disk, writes, |writes|, |writes| - 1);
      }
    }
  }

  /** As long as the snapshot is kept, so is the refusal: the cursor never reaches advance `m`. */
  lemma {:induction false} CaughtStays(c: Chain, w: World, es: seq<Event>, k: nat, m: nat)
    requires ChainOk(c) && Sound(c, w) && PossibleRun(c, w, es) && k < m < |c.advances|
    requires c.advances[k].epoch == c.advances[m].epoch && Caught(c, w.disk, k, m)
    requires forall n :: 0 <= n < |es| ==> es[n].Synced?
    ensures Caught(c, ApplyAll(c, w, es).disk, k, m)
    decreases |es|
  {
    if es != [] {
      assert es[0].Synced?;
      CaughtStep(c, w, es[0], k, m);
      StepKeepsSound(c, w, es[0]);
      CaughtStays(c, Apply(c, w, es[0]), es[1..], k, m);
    }
  }

  /**
   * A pass that completes with its head between two advances of one epoch is the last one to get
   * anywhere near the second: whatever passes follow while the snapshot is kept, the cursor stays
   * below that advance and a pass with a head from there on is refused.
   */
  lemma CaughtForGood(c: Chain, w: World, first: Event, es: seq<Event>, p: Pass, k: nat, m: nat)
    requires ChainOk(c) && Sound(c, w) && Possible(c, w, first) && Completes(c, w.disk, first)
    requires k < m < |c.advances|
    requires c.advances[k].epoch == c.advances[m].epoch
    requires c.advances[k].block <= NewCursor(c, w.disk, first.pass.head) < c.advances[m].block <= p.head
    requires PossibleRun(c, Apply(c, w, first), es) && forall n :: 0 <= n < |es| ==> es[n].Synced?
    ensures var after := ApplyAll(c, Apply(c, w, first), es);
            Caught(c, after.disk, k, m) && Aborted(c, after.disk, p)
  {
    var next := Apply(c, w, first);
    CompletedLeaves(c, w, first);
    StepKeepsSound(c, w, first);
    CaughtStays(c, next, es, k, m);
    RunKeepsSound(c, next, es);
    CaughtRefuses(c, ApplyAll(c, next, es), p, k, m);
  }

  // ---- a seal held against another epoch's pins --------------------------------------------

  /**
   * With the cursor between the last advance of an epoch and its seal, no pass of an epoch with
   * other pins gets past the seal, as long as it is the last one in the window.
   */
  lemma SealPinsRefuse(c: Chain, w: World, p: Pass, e: nat)
    requires ChainOk(c) && Sound(c, w) && StartRoot(c, w.disk).Some? && p.head >= FromBlock(c, w.disk) - 1
    requires LastSeal(c, FromBlock(c, w.disk), p.head) == Some(e) && c.context(e) != c.context(p.epoch)
    requires forall i :: 0 <= i < |c.advances| && c.advances[i].epoch == e ==>
               c.advances[i].block < FromBlock(c, w.disk)
    ensures !Replays(c, w.disk, p.epoch, p.head) && Aborted(c, w.disk, p)
  {
    var from := FromBlock(c, w.disk);
    ReplaysIff(c, w, p.epoch, p.head);
    if Present(Window(c, from, p.head), e) {
      var k :| 0 <= k < |Window(c, from, p.head)| && Window(c, from, p.head)[k].epoch == e;
      var i := WindowMember(c, from, p.head, k);
      assert false;
    }
  }

  /** A new client whose every pass aborts stays new, whatever it loses. */
  lemma {:induction false} NothingBegins(c: Chain, pin: Option<string>, es: seq<Event>)
    requires PossibleRun(c, NewClient(pin), es)
    requires forall n, pinned :: 0 <= n < |es| && es[n].Synced? ==> Aborted(c, NewClient(pinned).disk, es[n].pass)
    ensures ApplyAll(c, NewClient(pin), es) in {NewClient(pin), NewClient(None)}
    decreases |es|
  {
    if es != [] {
      var next := if es[0].DirectoryLost? then None else pin;
      assert Apply(c, NewClient(pin), es[0]) == NewClient(next);
      NothingBegins(c, next, es[1..]);
    }
  }

  // ---- a crash between two renames ---------------------------------------------------------

  /**
   * A pass that moves the root and crashes after the substrate's rename and before the state
   * file's is the last one: no pass after it goes through.
   */
  lemma CrashForGood(c: Chain, w: World, e: Event, es: seq<Event>, p: Pass)
    requires Possible(c, w, e) && e.Synced? && !Aborted(c, w.disk, e.pass) && !e.pass.readOnly
    requires FirstSnapshot(c, w.disk) <= e.renames < |Staged(c, w.disk, e.pass)|
    requires SavedOn(w.disk).Some? && LiveRoot(c, e.pass.epoch, e.pass.head) != SavedOn(w.disk).value.stateRoot
    requires PossibleRun(c, Apply(c, w, e), es) && forall n :: 0 <= n < |es| ==> es[n].Synced?
    ensures ApplyAll(c, Apply(c, w, e), es) == Apply(c, w, e) && Aborted(c, Apply(c, w, e).disk, p)
  {
    CrashRefusedIff(c, w.disk, e.pass, e.renames);
    assert Apply(c, w, e).disk == Committed(w.disk, Staged(c, w.disk, e.pass), e.renames);
    RefusedStays(c, Apply(c, w, e), es);
  }

  // ---- a parent root left twice ------------------------------------------------------------

  /** An advance whose parent root another advance leaves later in the window, with another patch. */
  lemma LaterRecordDisagrees(c: Chain, w: World, head: int, i: nat, m: nat)
    requires ChainOk(c) && Sound(c, w) && i < |c.advances| && m < |c.advances|
    requires c.advances[i].Key() in Pending(c, w.disk, head)
    requires RecordFor(Fetched(c, w.disk, head), c.advances[i].pins.parentRoot) == Some(c.advances[m])
    requires c.advances[m].pins.patchHash != c.advances[i].pins.patchHash
    ensures !RecordAgrees(Fetched(c, w.disk, head), Pending(c, w.disk, head)[c.advances[i].Key()])
  {
    var key := c.advances[i].Key();
    var e := Pending(c, w.disk, head)[key];
    PendingOk(c, w, head);
    assert EntryOf(c, e, key);
    var j :| 0 <= j < |c.advances| && OwedAt(c, j, e, key);
    KeyDistinct(c, i, j);
  }
}

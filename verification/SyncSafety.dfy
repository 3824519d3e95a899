/** No required score replay is lost, over every sequence of passes. */
module SyncSafety {
  import opened BacklogDrain
  import opened EvalBacklog
  import opened Outcomes
  import opened SyncChain
  import opened SyncRuns
  import opened TrustedStaging

  // ---- the window's entries ---------------------------------------------------------------

  ghost predicate Named(incoming: Backlog, key: string)
  {
    exists k :: 0 <= k < |incoming| && KeyOf(incoming[k]) == key
  }

  lemma {:induction false} IncomingNames(window: seq<Advance>, block: int)
    ensures |Incoming(window, block)| == |window|
    ensures forall k :: 0 <= k < |window| ==> Incoming(window, block)[k] == EntryFor(window[k], block)
  {
    if window != [] {
      IncomingNames(window[..|window| - 1], block);
    }
  }

  lemma {:induction false} MergedNames(m: map<string, Entry>, incoming: Backlog)
    ensures forall key :: key in Merged(m, incoming) <==> key in m || Named(incoming, key)
  {
    if incoming != [] {
      var front, last := incoming[..|incoming| - 1], incoming[|incoming| - 1];
      MergedNames(m, front);
      forall key ensures Named(incoming, key) <==> Named(front, key) || KeyOf(last) == key {
        if Named(front, key) {
          var k :| 0 <= k < |front| && KeyOf(front[k]) == key;
          assert KeyOf(incoming[k]) == key;
        }
        assert KeyOf(incoming[|incoming| - 1]) == KeyOf(last);
        if Named(incoming, key) && KeyOf(last) != key {
          var k :| 0 <= k < |incoming| && KeyOf(incoming[k]) == key;
          assert front[k] == incoming[k];
        }
      }
    }
  }

  lemma {:induction false} MergedOk(c: Chain, m: map<string, Entry>, incoming: Backlog)
    requires BacklogOk(c, m)
    requires forall k :: 0 <= k < |incoming| ==> EntryOf(c, incoming[k], KeyOf(incoming[k]))
    ensures BacklogOk(c, Merged(m, incoming))
  {
    if incoming != [] {
      var front, e := incoming[..|incoming| - 1], incoming[|incoming| - 1];
      MergedOk(c, m, front);
      var i :| 0 <= i < |c.advances| && OwedAt(c, i, e, KeyOf(e));
      assert OwedAt(c, i, Refreshed(At(Merged(m, front), KeyOf(e)), e), KeyOf(e));
    }
  }

  lemma SavedBacklogOk(c: Chain, w: World)
    requires Sound(c, w)
    ensures BacklogOk(c, SavedBacklog(w.disk)) && SnapshotsPresent(w.disk, SavedBacklog(w.disk))
  {
  }

  /** The pending backlog holds entries of accepted advances only. */
  lemma PendingOk(c: Chain, w: World, head: int)
    requires ChainOk(c) && Sound(c, w)
    ensures BacklogOk(c, Pending(c, w.disk, head))
  {
    var window, cursor := Fetched(c, w.disk, head), NewCursor(c, w.disk, head);
    var incoming := Incoming(window, cursor);
    IncomingNames(window, cursor);
    forall k | 0 <= k < |incoming| ensures EntryOf(c, incoming[k], KeyOf(incoming[k])) {
      var i := WindowMember(c, FromBlock(c, w.disk), head, k);
      assert OwedAt(c, i, incoming[k], KeyOf(incoming[k]));
    }
    SavedBacklogOk(c, w);
    MergedOk(c, SavedBacklog(w.disk), incoming);
  }

  /** Windows leave no gap: what is at or below the new cursor was covered before or is pending. */
  lemma PendingCovers(c: Chain, w: World, head: int)
    requires ChainOk(c) && Sound(c, w)
    ensures Covered(c, NewCursor(c, w.disk, head), w.passed, Pending(c, w.disk, head))
  {
    var from, cursor := FromBlock(c, w.disk), NewCursor(c, w.disk, head);
    var window := Fetched(c, w.disk, head);
    var incoming := Incoming(window, cursor);
    MergedNames(SavedBacklog(w.disk), incoming);
    IncomingNames(window, cursor);
    forall i | 0 <= i < |c.advances| && c.advances[i].block <= cursor
      ensures CoveredAt(c, i, w.passed, Pending(c, w.disk, head))
    {
      assert LinkAt(c, i);
      if from <= c.advances[i].block {
        WindowExact(c, from, head, i);
        var k :| 0 <= k < |window| && window[k] == c.advances[i];
        assert KeyOf(incoming[k]) == c.advances[i].Key();
      } else {
        assert CoveredAt(c, i, w.passed, SavedBacklog(w.disk));
      }
    }
  }

  // ---- the directory ---------------------------------------------------------------------

  lemma {:induction false} CommittedHas(disk: Disk, writes: seq<Write<File, Content>>, k: nat, i: nat)
    requires i < k <= |writes|
    ensures writes[i].dest in Committed(disk, writes, k)
  {
    if i < k - 1 {
      CommittedHas(disk, writes, k - 1, i);
    }
  }

  /** Where the snapshots lie among the staged writes: from here on, one for each advance. */
  function FirstSnapshot(c: Chain, disk: Disk): nat
  {
    if PinFile in disk then 1 else 2
  }

  lemma SnapshotWrite(c: Chain, disk: Disk, p: Pass, k: nat)
    requires k < |Fetched(c, disk, p.head)|
    ensures FirstSnapshot(c, disk) + k < |EarlyWrites(c, disk, p)|
    ensures Staged(c, disk, p)[FirstSnapshot(c, disk) + k]
            == Write(ParentFile(Fetched(c, disk, p.head)[k].Key()), Packed(Fetched(c, disk, p.head)[k].pins.parentRoot))
  {
  }

  lemma SnapshotWritesOnly(c: Chain, disk: Disk, p: Pass, k: nat)
    requires k < |Staged(c, disk, p)| && Staged(c, disk, p)[k].dest.ParentFile?
    ensures FirstSnapshot(c, disk) <= k < FirstSnapshot(c, disk) + |Fetched(c, disk, p.head)|
  {
    assert |EarlyWrites(c, disk, p)| == FirstSnapshot(c, disk) + |Fetched(c, disk, p.head)|;
  }

  /** A staged parent snapshot is the parent state of the advance it is named after. */
  lemma StagedSnapshotsTrue(c: Chain, disk: Disk, p: Pass, k: nat, i: nat)
    requires ChainOk(c) && k < |Staged(c, disk, p)| && i < |c.advances|
    requires Staged(c, disk, p)[k].dest == ParentFile(c.advances[i].Key())
    ensures Staged(c, disk, p)[k].contents == Packed(c.advances[i].pins.parentRoot)
  {
    SnapshotWritesOnly(c, disk, p, k);
    var m := k - FirstSnapshot(c, disk);
    SnapshotWrite(c, disk, p, m);
    var j := WindowMember(c, FromBlock(c, disk), p.head, m);
    KeyInjective(c.advances[i].epoch, c.advances[i].hash, c.advances[j].epoch, c.advances[j].hash);
    KeyDistinct(c, i, j);
  }

  /** Half a commit, or a whole one with some collection, leaves true snapshots. */
  lemma SnapshotsStayTrue(c: Chain, disk: Disk, p: Pass, renames: nat, gone: set<File>)
    requires ChainOk(c) && SnapshotsTrue(c, disk) && renames <= |Staged(c, disk, p)|
    ensures SnapshotsTrue(c, Committed(disk, Staged(c, disk, p), renames) - gone)
  {
    var writes := Staged(c, disk, p);
    var after := Committed(disk, writes, renames) - gone;
    forall i | 0 <= i < |c.advances| ensures SnapshotAt(c, after, i) {
      var f := ParentFile(c.advances[i].Key());
      assert SnapshotAt(c, disk, i);
      if f in after {
        WholeOldOrNew(disk, writes, renames, f);
        if !(f in disk && Committed(disk, writes, renames)[f] == disk[f]) {
          var k :| 0 <= k < renames && writes[k].dest == f && Committed(disk, writes, renames)[f] == writes[k].contents;
          StagedSnapshotsTrue(c, disk, p, k, i);
        }
      }
    }
  }

  /** Until the last rename the state file is the old one. */
  lemma StateFileLast(c: Chain, disk: Disk, p: Pass, renames: nat)
    requires renames < |Staged(c, disk, p)|
    ensures SavedOn(Committed(disk, Staged(c, disk, p), renames)) == SavedOn(disk)
    ensures StateFile in Committed(disk, Staged(c, disk, p), renames) <==> StateFile in disk
  {
    OldUntilRenamed(disk, Staged(c, disk, p), renames, StateFile);
  }

  ghost predicate InWindow(window: seq<Advance>, key: string)
  {
    exists k :: 0 <= k < |window| && window[k].Key() == key
  }

  lemma PendingFrom(c: Chain, disk: Disk, head: int, key: string)
    ensures key in Pending(c, disk, head)
            <==> key in SavedBacklog(disk) || InWindow(Fetched(c, disk, head), key)
  {
    var window, cursor := Fetched(c, disk, head), NewCursor(c, disk, head);
    var incoming := Incoming(window, cursor);
    IncomingNames(window, cursor);
    MergedNames(SavedBacklog(disk), incoming);
    forall k | 0 <= k < |window| ensures KeyOf(incoming[k]) == window[k].Key() {
    }
  }

  lemma WindowSnapshots(c: Chain, disk: Disk, p: Pass, key: string)
    requires InWindow(Fetched(c, disk, p.head), key)
    ensures ParentFile(key) in Committed(disk, Staged(c, disk, p), |Staged(c, disk, p)|)
  {
    var window, writes := Fetched(c, disk, p.head), Staged(c, disk, p);
    var k :| 0 <= k < |window| && window[k].Key() == key;
    SnapshotWrite(c, disk, p, k);
    CommittedHas(disk, writes, |writes|, FirstSnapshot(c, disk) + k);
  }

  lemma PendingSnapshots(c: Chain, w: World, p: Pass, key: string)
    requires ChainOk(c) && Sound(c, w) && key in Pending(c, w.disk, p.head)
    ensures ParentFile(key) in Committed(w.disk, Staged(c, w.disk, p), |Staged(c, w.disk, p)|)
  {
    PendingFrom(c, w.disk, p.head, key);
    if key in SavedBacklog(w.disk) {
      SavedBacklogOk(c, w);
      CommitKeepsNames(w.disk, Staged(c, w.disk, p), |Staged(c, w.disk, p)|);
    } else {
      WindowSnapshots(c, w.disk, p, key);
    }
  }

  // ---- one pass --------------------------------------------------------------------------

  /** Draining keeps the entries' advances, and takes out only what has passed. */
  lemma DrainedOk(c: Chain, m: map<string, Entry>, facts: Entry -> Facts, skip: bool)
    requires BacklogOk(c, m)
    ensures BacklogOk(c, Drained(m, facts, skip)) && Drained(m, facts, skip).Keys <= m.Keys
  {
    var d := Drained(m, facts, skip);
    forall k | k in d ensures EntryOf(c, d[k], k) {
      var i :| 0 <= i < |c.advances| && OwedAt(c, i, m[k], k);
      assert OwedAt(c, i, d[k], k);
    }
  }

  ghost function PassedBy(c: Chain, disk: Disk, p: Pass): set<string>
  {
    Pending(c, disk, p.head).Keys - Remaining(c, disk, p).Keys
  }

  lemma CoveredAfter(c: Chain, w: World, p: Pass)
    requires ChainOk(c) && Sound(c, w)
    ensures Covered(c, NewCursor(c, w.disk, p.head), w.passed + PassedBy(c, w.disk, p), Remaining(c, w.disk, p))
  {
    PendingCovers(c, w, p.head);
    var cursor := NewCursor(c, w.disk, p.head);
    forall i | 0 <= i < |c.advances| && c.advances[i].block <= cursor
      ensures CoveredAt(c, i, w.passed + PassedBy(c, w.disk, p), Remaining(c, w.disk, p))
    {
      assert CoveredAt(c, i, w.passed, Pending(c, w.disk, p.head));
    }
  }

  lemma VerifiedAfter(c: Chain, w: World, p: Pass)
    requires ChainOk(c) && Sound(c, w)
    ensures Covered(c, NewState(c, w.disk, p).verifiedThrough, w.passed + PassedBy(c, w.disk, p), map[])
  {
    var passed, through := w.passed + PassedBy(c, w.disk, p), NewState(c, w.disk, p).verifiedThrough;
    var cursor := NewCursor(c, w.disk, p.head);
    CoveredAfter(c, w, p);
    forall i | 0 <= i < |c.advances| && c.advances[i].block <= through ensures CoveredAt(c, i, passed, map[]) {
      assert LinkAt(c, i);
      if SavedOn(w.disk).Some? && c.advances[i].block <= SavedOn(w.disk).value.verifiedThrough {
        assert CoveredAt(c, i, w.passed, map[]);
      } else {
        assert CoveredAt(c, i, passed, Remaining(c, w.disk, p));
      }
    }
  }

  lemma CoveredMore(c: Chain, cursor: int, passed: set<string>, more: set<string>, backlog: map<string, Entry>)
    requires Covered(c, cursor, passed, backlog) && passed <= more
    ensures Covered(c, cursor, more, backlog)
  {
    forall i | 0 <= i < |c.advances| && c.advances[i].block <= cursor ensures CoveredAt(c, i, more, backlog) {
      assert CoveredAt(c, i, passed, backlog);
    }
  }

  /** Where replay starts there is the state, and the counts, of the block before the window. */
  lemma StartIsRoot(c: Chain, w: World)
    requires ChainOk(c) && Sound(c, w) && StartRoot(c, w.disk).Some?
    ensures StartRoot(c, w.disk).value == RootAt(c, FromBlock(c, w.disk) - 1)
    ensures CountsRight(c, CountsOn(w.disk), FromBlock(c, w.disk) - 1)
    ensures c.deploy <= FromBlock(c, w.disk)
  {
    if !SnapshotAvailable(w.disk) {
      BlankBefore(c, c.deploy - 1);
      assert c.advances[..0] == [];
    }
  }

  /** The recorded root is the root at the recorded cursor. */
  lemma CursorRoot(c: Chain, w: World, epoch: nat, head: int)
    requires ChainOk(c) && Sound(c, w) && Replays(c, w.disk, epoch, head)
    ensures LiveRoot(c, epoch, head) == RootAt(c, NewCursor(c, w.disk, head))
    ensures c.deploy <= NewCursor(c, w.disk, head) + 1
  {
    var from := FromBlock(c, w.disk);
    StartIsRoot(c, w);
    if head >= from - 1 {
      WindowReplaysIff(c, from, head, epoch);
    }
  }

  lemma {:induction false} TallyAdds(counts: map<nat, nat>, window: seq<Advance>, e: nat)
    ensures Tally(Tallied(counts, window), e) == Tally(counts, e) + CountEpoch(window, e)
  {
    if window != [] {
      TallyAdds(counts, window[..|window| - 1], e);
    }
  }

  /** Counting up window by window loses nothing: the tally is the registry's at the cursor. */
  lemma CountsCarry(c: Chain, w: World, head: int)
    requires ChainOk(c) && Sound(c, w) && StartRoot(c, w.disk).Some?
    ensures CountsRight(c, NewCounts(c, w.disk, head), NewCursor(c, w.disk, head))
  {
    var from, cursor := FromBlock(c, w.disk), NewCursor(c, w.disk, head);
    StartIsRoot(c, w);
    UpToMonotone(c, from - 1, cursor);
    var i, j := UpTo(c, from - 1), UpTo(c, cursor);
    assert Fetched(c, w.disk, head) == c.advances[i..j];
    assert c.advances[..j] == c.advances[..i] + c.advances[i..j];
    forall e: nat ensures Tally(NewCounts(c, w.disk, head), e) == TransitionCount(c, e, cursor) {
      TallyAdds(CountsOn(w.disk), c.advances[i..j], e);
      CountSplits(c.advances[..i], c.advances[i..j], e);
    }
  }

  /** A pass that ran to its end: the new state file is right about everything it says. */
  lemma CommittedStateOk(c: Chain, w: World, e: Event)
    requires ChainOk(c) && Sound(c, w) && Possible(c, w, e)
    requires e.Synced? && !Aborted(c, w.disk, e.pass) && e.renames == |Staged(c, w.disk, e.pass)|
    ensures StateOk(c, NewState(c, w.disk, e.pass), DiskAfter(c, w.disk, e), w.passed + PassedBy(c, w.disk, e.pass))
  {
    var p := e.pass;
    var left := Remaining(c, w.disk, p);
    PendingOk(c, w, p.head);
    DrainedOk(c, Pending(c, w.disk, p.head), FactsOf(c, w.disk, p), p.skip);
    CoveredAfter(c, w, p);
    VerifiedAfter(c, w, p);
    CursorRoot(c, w, p.epoch, p.head);
    CountsCarry(c, w, p.head);
    forall k | k in left ensures ParentFile(k) in DiskAfter(c, w.disk, e) {
      PendingSnapshots(c, w, p, k);
      assert EntryOf(c, left[k], k);
      assert ParentFile(k) in Live(left);
    }
  }

  /** A pass that crashed before its last rename: the old state file still tells the truth. */
  lemma CrashedStateOk(c: Chain, w: World, e: Event)
    requires ChainOk(c) && Sound(c, w) && Possible(c, w, e)
    requires e.Synced? && e.renames < |Staged(c, w.disk, e.pass)| && SavedOn(w.disk).Some?
    ensures StateOk(c, SavedOn(w.disk).value, DiskAfter(c, w.disk, e), w.passed + PassedBy(c, w.disk, e.pass))
  {
    var s, passed := SavedOn(w.disk).value, w.passed + PassedBy(c, w.disk, e.pass);
    CommitKeepsNames(w.disk, Staged(c, w.disk, e.pass), e.renames);
    CoveredMore(c, s.cursor, w.passed, passed, s.backlog);
    CoveredMore(c, s.verifiedThrough, w.passed, passed, map[]);
  }

  lemma MorePasses(c: Chain, w: World, more: set<string>)
    requires Sound(c, w) && w.passed <= more
    ensures Sound(c, World(w.disk, more))
  {
    if StateFile in w.disk {
      var s := SavedOn(w.disk).value;
      CoveredMore(c, s.cursor, w.passed, more, s.backlog);
      CoveredMore(c, s.verifiedThrough, w.passed, more, map[]);
    }
  }

  lemma SyncKeepsSound(c: Chain, w: World, e: Event)
    requires ChainOk(c) && Sound(c, w) && Possible(c, w, e) && e.Synced?
    requires !Aborted(c, w.disk, e.pass) && !e.pass.readOnly
    ensures Sound(c, Apply(c, w, e))
  {
    var writes := Staged(c, w.disk, e.pass);
    SnapshotsStayTrue(c, w.disk, e.pass, e.renames, e.gone);
    if e.renames < |writes| {
      StateFileLast(c, w.disk, e.pass, e.renames);
      assert DiskAfter(c, w.disk, e) == Committed(w.disk, writes, e.renames);
      if SavedOn(w.disk).Some? {
        CrashedStateOk(c, w, e);
      }
    } else {
      CommittedStateOk(c, w, e);
      NewOnceRenamed(w.disk, writes, |writes|, |writes| - 1);
    }
  }

  lemma SubstrateLossKeepsSound(c: Chain, w: World)
    requires Sound(c, w)
    ensures Sound(c, w.(disk := w.disk - {SubstrateFile}))
  {
    var disk := w.disk - {SubstrateFile};
    forall i | 0 <= i < |c.advances| ensures SnapshotAt(c, disk, i) {
      assert SnapshotAt(c, w.disk, i);
    }
  }

  lemma StepKeepsSound(c: Chain, w: World, e: Event)
    requires ChainOk(c) && Sound(c, w) && Possible(c, w, e)
    ensures Sound(c, Apply(c, w, e)) && w.passed <= Apply(c, w, e).passed
  {
    if e.SubstrateLost? {
      SubstrateLossKeepsSound(c, w);
    } else if e.DirectoryLost? {
    } else if !Aborted(c, w.disk, e.pass) {
      if e.pass.readOnly {
        MorePasses(c, w, Apply(c, w, e).passed);
      } else {
        SyncKeepsSound(c, w, e);
      }
    }
  }

  // ---- every run -------------------------------------------------------------------------

  ghost predicate PossibleRun(c: Chain, w: World, es: seq<Event>)
    decreases |es|
  {
    es == [] || (Possible(c, w, es[0]) && PossibleRun(c, Apply(c, w, es[0]), es[1..]))
  }

  ghost function ApplyAll(c: Chain, w: World, es: seq<Event>): World
    requires PossibleRun(c, w, es)
    decreases |es|
  {
    if es == [] then w else ApplyAll(c, Apply(c, w, es[0]), es[1..])
  }

  lemma {:induction false} RunKeepsSound(c: Chain, w: World, es: seq<Event>)
    requires ChainOk(c) && Sound(c, w) && PossibleRun(c, w, es)
    ensures Sound(c, ApplyAll(c, w, es)) && w.passed <= ApplyAll(c, w, es).passed
    decreases |es|
  {
    if es != [] {
      StepKeepsSound(c, w, es[0]);
      RunKeepsSound(c, Apply(c, w, es[0]), es[1..]);
    }
  }

  /** A client that has not synced yet; it may have pinned a key. */
  function NewClient(pin: Option<string>): World
  {
    World(if pin.Some? then map[PinFile := PinnedKey(pin.value)] else map[], {})
  }

  /**
   * After any sequence of passes and losses from a new client, for the state file on disk:
   * every accepted advance at or below the cursor has passed its replay, or is still in the
   * backlog under its own pins with its parent snapshot in place and true.
   */
  lemma NoReplayLost(c: Chain, pin: Option<string>, es: seq<Event>, i: nat)
    requires ChainOk(c) && PossibleRun(c, NewClient(pin), es)
    requires i < |c.advances|
    ensures var w := ApplyAll(c, NewClient(pin), es);
            SavedOn(w.disk).Some? && c.advances[i].block <= SavedOn(w.disk).value.cursor ==>
              var key, backlog := c.advances[i].Key(), SavedOn(w.disk).value.backlog;
              || key in w.passed
              || (&& key in backlog && OwedAt(c, i, backlog[key], key)
                  && ParentFile(key) in w.disk
                  && w.disk[ParentFile(key)] == Packed(c.advances[i].pins.parentRoot))
  {
    RunKeepsSound(c, NewClient(pin), es);
    var w := ApplyAll(c, NewClient(pin), es);
    if SavedOn(w.disk).Some? && c.advances[i].block <= SavedOn(w.disk).value.cursor {
      var key, s := c.advances[i].Key(), SavedOn(w.disk).value;
      assert CoveredAt(c, i, w.passed, s.backlog);
      if key in s.backlog {
        assert EntryOf(c, s.backlog[key], key);
        var j :| 0 <= j < |c.advances| && OwedAt(c, j, s.backlog[key], key);
        KeyDistinct(c, i, j);
        assert SnapshotAt(c, w.disk, i);
      }
    }
  }

  /**
   * The root and the transition counts on disk are the registry's at the cursor, the backlog
   * holds accepted advances only, and a claim of verification is true.
   */
  lemma ClaimsAreTrue(c: Chain, pin: Option<string>, es: seq<Event>)
    requires ChainOk(c) && PossibleRun(c, NewClient(pin), es)
    ensures var w := ApplyAll(c, NewClient(pin), es);
            SavedOn(w.disk).Some? ==>
              var s := SavedOn(w.disk).value;
              && s.stateRoot == RootAt(c, s.cursor) && s.corpusRoot == c.context(s.epoch).corpusRoot
              && (forall e: nat :: Tally(s.transitions, e) == TransitionCount(c, e, s.cursor))
              && (forall k :: k in s.backlog ==> EntryOf(c, s.backlog[k], k))
              && (forall i :: 0 <= i < |c.advances| && c.advances[i].block <= s.verifiedThrough ==>
                    CoveredAt(c, i, w.passed, map[]))
  {
    RunKeepsSound(c, NewClient(pin), es);
  }
}

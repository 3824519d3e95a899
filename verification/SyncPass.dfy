/** One sync pass as the client runs it: read, replay, drain, stage, commit. */
module SyncPass {
  import opened BacklogDrain
  import opened EvalBacklog
  import opened Outcomes
  import opened Sums
  import opened SyncChain
  import opened SyncRuns
  import opened SyncSafety
  import opened TrustedStaging

  type Client = TrustedStateStaging<File, Content>

  /**
   * The canonical replay: each advance's index against the next one of its epoch, its pins, its
   * parent and its patch; then the last seal's pins and root.
   */
  method ReplayFromLogs(c: Chain, root: Root, window: seq<Advance>, synced: nat, seal: Option<nat>)
    returns (r: Result<Root, ReplayCode>)
    ensures r == Replayed(c, window, synced, seal, root)
  {
    var current := root;
    var expected: map<nat, nat> := map[];
    for k := 0 to |window|
      invariant ReplayFrom(c, window, synced, 0, root) == ReplayFrom(c, window, synced, k, current)
      invariant forall e: nat :: Tally(expected, e) == CountEpoch(window[..k], e)
    {
      var a := window[k];
      assert window[..k + 1][..k] == window[..k];
      var why := AdvanceRefusal(c, ExpectedPins(c, window, synced, a.epoch), a, Tally(expected, a.epoch), current);
      if why.Some? {
        return Refused(why.value);
      }
      expected := expected[a.epoch := a.index + 1];
      current := a.newRoot;
    }
    if seal.Some? {
      var want := ExpectedPins(c, window, synced, seal.value);
      var why := SealRefusal(want, c.context(seal.value), SealedRoot(c, seal.value), current);
      if why.Some? {
        return Refused(why.value);
      }
    }
    return Accepted(current);
  }

  /** The count of each epoch's transitions, window after window. */
  method CountWindow(counts: map<nat, nat>, window: seq<Advance>) returns (r: map<nat, nat>)
    ensures r == Tallied(counts, window)
    ensures forall e: nat :: Tally(r, e) == Tally(counts, e) + CountEpoch(window, e)
  {
    r := counts;
    assert window[..0] == [];
    for k := 0 to |window|
      invariant r == Tallied(counts, window[..k])
    {
      assert window[..k + 1][..k] == window[..k];
      r := r[window[k].epoch := Tally(r, window[k].epoch) + 1];
    }
    assert window[..|window|] == window;
    forall e: nat ensures Tally(r, e) == Tally(counts, e) + CountEpoch(window, e) {
      TallyAdds(counts, window, e);
    }
  }

  lemma IncomingStep(window: seq<Advance>, block: int, k: nat)
    requires k < |window|
    ensures Incoming(window[..k + 1], block) == Incoming(window[..k], block) + [EntryFor(window[k], block)]
    ensures ParentWrites(window[..k + 1])
            == ParentWrites(window[..k]) + [Write(ParentFile(window[k].Key()), Packed(window[k].pins.parentRoot))]
  {
    assert window[..k + 1][..k] == window[..k];
  }

  /** Each advance of the window gives a backlog entry and, unless read-only, a staged snapshot. */
  method StageWindow(client: Client, window: seq<Advance>, block: int, readOnly: bool) returns (incoming: Backlog)
    requires client.Valid()
    modifies client
    ensures client.Valid() && client.Disk() == old(client.Disk())
    ensures incoming == Incoming(window, block)
    ensures client.Writes() == old(client.Writes()) + if readOnly then [] else ParentWrites(window)
  {
    incoming := [];
    ghost var before, disk := client.Writes(), client.Disk();
    assert window[..0] == [];
    for k := 0 to |window|
      invariant client.Valid() && client.Disk() == disk
      invariant incoming == Incoming(window[..k], block)
      invariant client.Writes() == before + if readOnly then [] else ParentWrites(window[..k])
    {
      IncomingStep(window, block, k);
      incoming := incoming + [EntryFor(window[k], block)];
      if !readOnly {
        client.Stage(ParentFile(window[k].Key()), Packed(window[k].pins.parentRoot));
      }
    }
    assert window[..|window|] == window;
  }

  /** The state file a pass writes, from the list the drain left. */
  function StateFrom(c: Chain, disk: Disk, p: Pass, left: Backlog): SavedState
  {
    var cursor := NewCursor(c, disk, p.head);
    var prior := if SavedOn(disk).Some? then SavedOn(disk).value.verifiedThrough else -1;
    SavedState(p.epoch, c.deltas(p.epoch).nextRoot, LiveRoot(c, p.epoch, p.head), cursor,
               NewCounts(c, disk, p.head), ByKey(left), if |left| == 0 && !p.skip then Max(prior, cursor) else prior)
  }

  lemma StateFromList(c: Chain, disk: Disk, p: Pass, left: Backlog)
    requires IsListing(left, Remaining(c, disk, p))
    ensures StateFrom(c, disk, p, left) == NewState(c, disk, p)
    ensures ByKey(left) == Remaining(c, disk, p)
  {
    ByKeyOfListing(left, Remaining(c, disk, p));
    ListingEmpty(left, Remaining(c, disk, p));
  }

  /** The key pin, continuity, replay and substrate snapshot; false when the pass is refused. */
  method StageReplayed(c: Chain, client: Client, p: Pass, disk: Disk) returns (ok: bool)
    requires client.Valid() && client.staged == [] && client.Disk() == disk
    modifies client
    ensures client.Valid() && client.Disk() == disk
    ensures ok <==> KeyFits(disk, p.key) && Continues(c, disk, p) && Replays(c, disk, p.epoch, p.head)
    ensures ok && p.readOnly ==> client.Writes() == []
    ensures ok && !p.readOnly ==>
              client.Writes() == PinWrites(disk, p.key) + [Write(SubstrateFile, Packed(LiveRoot(c, p.epoch, p.head)))]
  {
    if PinFile in disk && disk[PinFile] != PinnedKey(p.key) {
      return false;
    }
    if !p.readOnly && PinFile !in disk {
      client.Stage(PinFile, PinnedKey(p.key));
    }
    assert client.Writes() == if p.readOnly then [] else PinWrites(disk, p.key);
    if c.deltas(p.epoch).nextRoot != c.context(p.epoch).corpusRoot
       || PreviousCorpus(disk, p) != Some(c.deltas(p.epoch).previousRoot) {
      return false;
    }
    var start := StartRoot(c, disk);
    if start.None? {
      return false;
    }
    var window := Fetched(c, disk, p.head);
    var end := ReplayFromLogs(c, start.value, window, p.epoch, LastSeal(c, FromBlock(c, disk), p.head));
    if end != Accepted(LiveRoot(c, p.epoch, p.head)) {
      return false;
    }
    var counts := CountWindow(CountsOn(disk), window);
    if Tally(counts, p.epoch) != TransitionCount(c, p.epoch, p.head) {
      return false;
    }
    if !p.readOnly {
      client.Stage(SubstrateFile, Packed(end.value));
    }
    return true;
  }

  /** The window's entries merged into the saved backlog, and one drain over the result. */
  method DrainWindow(c: Chain, client: Client, p: Pass, disk: Disk, existing: Backlog) returns (left: Option<Backlog>)
    requires client.Valid() && client.Disk() == disk && IsListing(existing, SavedBacklog(disk))
    modifies client
    ensures client.Valid() && client.Disk() == disk
    ensures left.None? <==> !p.skip && Aborts(Pending(c, disk, p.head), FactsOf(c, disk, p))
    ensures left.Some? ==> IsListing(left.value, Remaining(c, disk, p))
    ensures client.Writes() == old(client.Writes()) + if p.readOnly then [] else ParentWrites(Fetched(c, disk, p.head))
  {
    var incoming := StageWindow(client, Fetched(c, disk, p.head), NewCursor(c, disk, p.head), p.readOnly);
    var backlog := UpsertEvalBacklog(existing, incoming);
    ByKeyOfListing(existing, SavedBacklog(disk));
    left := DrainPass(backlog, FactsOf(c, disk, p), p.skip, Pending(c, disk, p.head));
  }

  /** Up to the state file; `left` is none when the pass throws. */
  method Prepare(c: Chain, client: Client, p: Pass, disk: Disk, existing: Backlog) returns (left: Option<Backlog>)
    requires client.Valid() && client.staged == [] && client.Disk() == disk
    requires IsListing(existing, SavedBacklog(disk))
    modifies client
    ensures client.Valid() && client.Disk() == disk
    ensures left.None? <==> Aborted(c, disk, p)
    ensures left.Some? ==> IsListing(left.value, Remaining(c, disk, p))
    ensures left.Some? ==> client.Writes() == if p.readOnly then [] else EarlyWrites(c, disk, p)
  {
    var ok := StageReplayed(c, client, p, disk);
    if !ok {
      return None;
    }
    left := DrainWindow(c, client, p, disk, existing);
    if p.checkFails {
      return None;
    }
  }

  /** The state file, the commit and the collection; a read-only pass does none of it. */
  method Finish(c: Chain, client: Client, p: Pass, disk: Disk, left: Backlog, stuck: set<File>)
    returns (gone: set<File>)
    requires client.Valid() && client.Disk() == disk && IsListing(left, Remaining(c, disk, p))
    requires client.Writes() == if p.readOnly then [] else EarlyWrites(c, disk, p)
    modifies client
    ensures client.Valid() && client.staged == []
    ensures p.readOnly ==> client.Disk() == disk
    ensures !p.readOnly ==>
              var writes := Staged(c, disk, p);
              && gone == Collected(Committed(disk, writes, |writes|), IsSnapshot, Live(Remaining(c, disk, p)), stuck)
              && client.Disk() == Committed(disk, writes, |writes|) - gone
  {
    StateFromList(c, disk, p, left);
    if !p.readOnly {
      client.Stage(StateFile, Saved(StateFrom(c, disk, p, left)));
    }
    var committed;
    committed, gone := client.CommitTrustedStateAndMaybeGc(!p.readOnly, IsSnapshot, Live(ByKey(left)), stuck);
    if !committed {
      client.Dispose();
    }
  }

  /**
   * The pass. A thrown error or a read-only pass leaves every destination as it was; any other
   * pass ends in the state of `Apply` after all its renames. The files in `stuck` cannot be removed.
   */
  method RunSync(c: Chain, client: Client, p: Pass, existing: Backlog, stuck: set<File>) returns (gone: set<File>)
    requires client.Valid() && client.staged == []
    requires IsListing(existing, SavedBacklog(client.Disk()))
    modifies client
    ensures client.Valid() && client.staged == []
    ensures Aborted(c, old(client.Disk()), p) || p.readOnly ==> client.Disk() == old(client.Disk())
    ensures !Aborted(c, old(client.Disk()), p) && !p.readOnly ==>
              RunsAs(c, old(client.Disk()), p, gone, client.Disk())
  {
    var disk := client.Disk();
    var left := Prepare(c, client, p, disk, existing);
    if left.None? {
      client.Dispose();
      return {};
    }
    gone := Finish(c, client, p, disk, left.value, stuck);
  }

  /** From `before` the pass leads to `after`: a completed step of the transition system. */
  ghost predicate RunsAs(c: Chain, before: Disk, p: Pass, gone: set<File>, after: Disk)
  {
    var w, e := World(before, {}), Synced(p, |Staged(c, before, p)|, gone);
    Possible(c, w, e) && after == Apply(c, w, e).disk
  }
}

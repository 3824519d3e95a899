/**
 * What a sync pass reads and leaves, in the terms of the chain and of the files: which advance a
 * root belongs to, what an entry says, which fields a commit writes, what stops a pass.
 */
module SyncMeaning {
  import opened ArtifactBinding
  import opened BacklogDrain
  import opened Decimals
  import opened EvalBacklog
  import opened Outcomes
  import opened SyncChain
  import opened SyncProgress
  import opened SyncRuns
  import opened SyncSafety

  // ---- roots and counts ------------------------------------------------------------------

  /** Advance `i` is of an epoch up to `e` and in a block up to `b`. */
  predicate Counts(c: Chain, e: nat, b: int, i: nat)
    requires i < |c.advances|
  {
    c.advances[i].epoch <= e && c.advances[i].block <= b
  }

  /** The live root of an epoch is the one its last advance up to the block left, or an earlier epoch's. */
  lemma LiveRootMeans(c: Chain, e: nat, b: int, i: nat)
    requires ChainOk(c) && i <= |c.advances|
    requires forall j :: 0 <= j < |c.advances| ==> (j < i <==> Counts(c, e, b, j))
    ensures LiveRoot(c, e, b) == if i == 0 then c.blank else c.advances[i - 1].newRoot
  {
    var up, end := UpTo(c, b), EpochEnd(c, e);
    var least := if up < end then up else end;
    forall j | 0 <= j < |c.advances| ensures j < least <==> Counts(c, e, b, j) {
      UpToExact(c, b, j);
      ThroughExact(c, |c.advances|, e, j);
    }
    assert least < |c.advances| ==> (least < i <==> Counts(c, e, b, least));
    assert i < |c.advances| ==> (i < least <==> Counts(c, e, b, i));
  }

  /** An epoch is sealed with the root its last advance left, or an earlier epoch's. */
  lemma SealedRootMeans(c: Chain, e: nat, i: nat)
    requires ChainOk(c) && i <= |c.advances|
    requires forall j :: 0 <= j < |c.advances| ==> (j < i <==> c.advances[j].epoch <= e)
    ensures SealedRoot(c, e) == if i == 0 then c.blank else c.advances[i - 1].newRoot
  {
    var end := EpochEnd(c, e);
    forall j | 0 <= j < |c.advances| ensures j < end <==> c.advances[j].epoch <= e {
      ThroughExact(c, |c.advances|, e, j);
    }
  }

  /** Which of the first `n` advances are of epoch `e`. */
  function Places(s: seq<Advance>, n: nat, e: nat): set<nat>
    requires n <= |s|
  {
    set i | 0 <= i < n && s[i].epoch == e
  }

  lemma OneMorePlace(s: seq<Advance>, n: nat, e: nat)
    requires n < |s|
    ensures Places(s, n + 1, e) == Places(s, n, e) + (if s[n].epoch == e then {n} else {})
    ensures |Places(s, n + 1, e)| == |Places(s, n, e)| + if s[n].epoch == e then 1 else 0
  {
    assert Places(s, n + 1, e) == Places(s, n, e) + (if s[n].epoch == e then {n} else {});
    assert n !in Places(s, n, e);
  }

  lemma {:induction false} CountIsSize(s: seq<Advance>, n: nat, e: nat)
    requires n <= |s|
    ensures CountEpoch(s[..n], e) == |Places(s, n, e)|
  {
    if n > 0 {
      CountIsSize(s, n - 1, e);
      OneMorePlace(s, n - 1, e);
      assert s[..n][..n - 1] == s[..n - 1];
    }
  }

  /** The registry's transition count is the number of the epoch's advances up to the block. */
  lemma TransitionCountMeans(c: Chain, e: nat, b: int)
    requires ChainOk(c)
    ensures TransitionCount(c, e, b)
            == |set i | 0 <= i < |c.advances| && c.advances[i].epoch == e && c.advances[i].block <= b|
  {
    var n := UpTo(c, b);
    CountIsSize(c.advances, n, e);
    forall i | 0 <= i < |c.advances| ensures i < n <==> c.advances[i].block <= b {
      UpToExact(c, b, i);
    }
    assert Places(c.advances, n, e)
           == set i | 0 <= i < |c.advances| && c.advances[i].epoch == e && c.advances[i].block <= b;
  }

  // ---- the entries of a pass -------------------------------------------------------------

  lemma {:induction false} ReportsAre(s: Backlog, key: string, x: Entry)
    requires forall i :: 0 <= i < |s| && KeyOf(s[i]) == key ==> s[i] == x
    ensures forall i :: 0 <= i < |Reports(s, key)| ==> Reports(s, key)[i] == x
    ensures Reports(s, key) == [] <==> forall i :: 0 <= i < |s| ==> KeyOf(s[i]) != key
  {
    if s != [] {
      ReportsAre(s[..|s| - 1], key, x);
    }
  }

  lemma IncomingOf(c: Chain, w: World, head: int, k: nat)
    requires ChainOk(c) && k < |Fetched(c, w.disk, head)|
    ensures var window, cursor := Fetched(c, w.disk, head), NewCursor(c, w.disk, head);
            && |Incoming(window, cursor)| == |window|
            && Incoming(window, cursor)[k] == EntryFor(window[k], cursor)
            && forall i :: 0 <= i < |window| && KeyOf(Incoming(window, cursor)[i]) == window[k].Key() ==>
                 Incoming(window, cursor)[i] == EntryFor(window[k], cursor)
  {
    var window, cursor := Fetched(c, w.disk, head), NewCursor(c, w.disk, head);
    IncomingNames(window, cursor);
    forall i | 0 <= i < |window| && KeyOf(Incoming(window, cursor)[i]) == window[k].Key()
      ensures Incoming(window, cursor)[i] == EntryFor(window[k], cursor)
    {
      var m := WindowMember(c, FromBlock(c, w.disk), head, i);
      var n := WindowMember(c, FromBlock(c, w.disk), head, k);
      KeyDistinct(c, m, n);
    }
  }

  /**
   * The entry of an advance of the window: its epoch, hash and pins, waiting for the epoch's
   * secret, with its own snapshot, under the block it was first seen at.
   */
  lemma WindowEntry(c: Chain, w: World, head: int, k: nat)
    requires ChainOk(c) && Sound(c, w) && k < |Fetched(c, w.disk, head)|
    ensures var a := Fetched(c, w.disk, head)[k];
            var key := Decimal(a.epoch) + ":" + a.hash;
            var cursor := if head >= FromBlock(c, w.disk) then head else FromBlock(c, w.disk) - 1;
            && key in Pending(c, w.disk, head)
            && Pending(c, w.disk, head)[key]
               == Entry(a.epoch, a.hash,
                        if key in SavedBacklog(w.disk) then SavedBacklog(w.disk)[key].block else cursor,
                        AwaitingReveal, a.pins, Some(key))
  {
    var window, cursor := Fetched(c, w.disk, head), NewCursor(c, w.disk, head);
    var key := window[k].Key();
    var incoming := Incoming(window, cursor);
    IncomingOf(c, w, head, k);
    ReportsAre(incoming, key, EntryFor(window[k], cursor));
    assert KeyOf(incoming[k]) == key;
    SavedKeyed(c, w);
    MergeMeaning(SavedBacklog(w.disk), incoming, key);
    var merged := Pending(c, w.disk, head);
    assert merged == Merged(SavedBacklog(w.disk), incoming);
    PendingOk(c, w, head);
    assert EntryOf(c, merged[key], key);
    KeyInjective(merged[key].epoch, merged[key].hash, window[k].epoch, window[k].hash);
  }

  lemma SavedKeyed(c: Chain, w: World)
    requires Sound(c, w)
    ensures Keyed(SavedBacklog(w.disk))
  {
    SavedBacklogOk(c, w);
    forall k | k in SavedBacklog(w.disk) ensures KeyOf(SavedBacklog(w.disk)[k]) == k {
      assert EntryOf(c, SavedBacklog(w.disk)[k], k);
    }
  }

  /** An entry whose advance is not in the window is the saved one. */
  lemma OlderEntry(c: Chain, w: World, head: int, key: string)
    requires ChainOk(c) && Sound(c, w)
    requires forall k :: 0 <= k < |Fetched(c, w.disk, head)| ==> Fetched(c, w.disk, head)[k].Key() != key
    ensures key in Pending(c, w.disk, head) <==> key in SavedBacklog(w.disk)
    ensures key in SavedBacklog(w.disk) ==> Pending(c, w.disk, head)[key] == SavedBacklog(w.disk)[key]
  {
    var window, cursor := Fetched(c, w.disk, head), NewCursor(c, w.disk, head);
    var incoming := Incoming(window, cursor);
    IncomingNames(window, cursor);
    forall i | 0 <= i < |incoming| ensures KeyOf(incoming[i]) != key {
      assert KeyOf(EntryFor(window[i], cursor)) == window[i].Key();
    }
    ReportsAre(incoming, key, EntryFor(Advance(0, 0, "", 0, Pins("", "", "", "", ""), "", "", "", ""), 0));
    SavedKeyed(c, w);
    MergeMeaning(SavedBacklog(w.disk), incoming, key);
  }

  // ---- what a commit writes ----------------------------------------------------------------

  /** The fields of the state file after a completed pass. */
  lemma CommitMeans(c: Chain, w: World, e: Event)
    requires ChainOk(c) && Sound(c, w) && Possible(c, w, e) && Completes(c, w.disk, e)
    ensures var before, after := SavedOn(w.disk), SavedOn(Apply(c, w, e).disk);
            var done := if SnapshotAvailable(w.disk) then before.value.cursor else c.deploy - 1;
            var verified := if before.Some? then before.value.verifiedThrough else -1;
            && after.Some?
            && after.value.epoch == e.pass.epoch && after.value.corpusRoot == c.deltas(e.pass.epoch).nextRoot
            && after.value.cursor == (if e.pass.head > done then e.pass.head else done)
            && after.value.stateRoot == RootAt(c, after.value.cursor)
            && after.value.verifiedThrough
               == (if after.value.backlog == map[] && !e.pass.skip && after.value.cursor > verified
                   then after.value.cursor else verified)
  {
    CompletedLeaves(c, w, e);
    CursorRoot(c, w, e.pass.epoch, e.pass.head);
  }

  // ---- what stops a pass -------------------------------------------------------------------

  /** The pass may be replayed: key, corpus and chain are as they have to be. */
  ghost predicate ReplayPasses(c: Chain, disk: Disk, p: Pass)
  {
    && (PinFile in disk ==> disk[PinFile] == PinnedKey(p.key))
    && c.deltas(p.epoch).nextRoot == c.context(p.epoch).corpusRoot
    && (if p.override.Some? then p.override.value == c.deltas(p.epoch).previousRoot
        else if SavedOn(disk).Some? then SavedOn(disk).value.corpusRoot == c.deltas(p.epoch).previousRoot
        else p.launch == Some(c.deltas(p.epoch).previousRoot))
    && Replays(c, disk, p.epoch, p.head)
  }

  /** A scored entry of the pass stops it. */
  ghost predicate Stops(c: Chain, disk: Disk, p: Pass, e: Entry)
  {
    && p.secret(e.epoch) == Revealed
    && (|| p.context(e) == WrongCorpus
        || (&& p.context(e) == Resolved && ParentReady(disk, Fetched(c, disk, p.head), e)
            && !(Binds(Fetched(c, disk, p.head), e, p.fetched(e)) && p.scorePasses(e))))
  }

  /**
   * What stops a pass, entry by entry: a mandatory check, the key, the corpus, the replay; and
   * when it scores, a secret that does not open its commitment, or, once anything can be scored,
   * an entry with the wrong corpus, an artifact that does not bind or a score that fails.
   */
  lemma AbortedMeans(c: Chain, disk: Disk, p: Pass)
    ensures Aborted(c, disk, p) <==>
              var pending := Pending(c, disk, p.head);
              || p.checkFails || !ReplayPasses(c, disk, p)
              || (&& !p.skip
                  && (|| (exists k :: k in pending && p.secret(pending[k].epoch) == CommitMismatch)
                      || (&& (exists k :: k in pending && p.secret(pending[k].epoch) == Revealed
                                && ParentReady(disk, Fetched(c, disk, p.head), pending[k]))
                          && exists k :: k in pending && Stops(c, disk, p, pending[k]))))
  {
    DrainStops(c, disk, p, Pending(c, disk, p.head));
  }

  lemma DrainStops(c: Chain, disk: Disk, p: Pass, pending: map<string, Entry>)
    ensures Aborts(pending, FactsOf(c, disk, p)) <==>
              || (exists k :: k in pending && p.secret(pending[k].epoch) == CommitMismatch)
              || (&& (exists k :: k in pending && p.secret(pending[k].epoch) == Revealed
                        && ParentReady(disk, Fetched(c, disk, p.head), pending[k]))
                  && exists k :: k in pending && Stops(c, disk, p, pending[k]))
  {
    AbortsMeans(pending, FactsOf(c, disk, p));
  }

  /** The parent state can be had: from an advance of the window, or from the entry's own snapshot of that root. */
  ghost predicate ParentAtHand(disk: Disk, window: seq<Advance>, e: Entry)
  {
    || (exists k :: 0 <= k < |window| && window[k].pins.parentRoot == e.pins.parentRoot)
    || (exists ref :: e.snapshot == Some(ref) && ParentFile(ref) in disk
                      && disk[ParentFile(ref)] == Packed(e.pins.parentRoot))
  }

  /**
   * Which entries a scoring pass that goes through settles: the revealed ones with a scorer and a
   * parent state at hand. All others are still owed, a snapshot of another root being no parent.
   */
  lemma SettledIff(c: Chain, disk: Disk, p: Pass, key: string)
    requires !Aborted(c, disk, p) && !p.skip && key in Pending(c, disk, p.head)
    ensures var e := Pending(c, disk, p.head)[key];
            key !in Remaining(c, disk, p) <==>
              && p.secret(e.epoch) == Revealed && p.context(e) == Resolved
              && ParentAtHand(disk, Fetched(c, disk, p.head), e)
  {
    var pending, window := Pending(c, disk, p.head), Fetched(c, disk, p.head);
    var e := pending[key];
    ReadyIff(disk, window, e);
    DrainedMeans(pending, FactsOf(c, disk, p), p.skip);
    DrainStops(c, disk, p, pending);
  }

  lemma ReadyIff(disk: Disk, window: seq<Advance>, e: Entry)
    ensures ParentReady(disk, window, e) <==> ParentAtHand(disk, window, e)
  {
    if a :| a in window && a.pins.parentRoot == e.pins.parentRoot {
      var k :| 0 <= k < |window| && window[k] == a;
      assert ParentAtHand(disk, window, e);
    }
  }
}

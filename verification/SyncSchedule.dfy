/**
 * Schedules: which sequences of epochs and heads let a client complete every pass, in terms of
 * the chain alone.
 */
module SyncSchedule {
  import opened ArtifactBinding
  import opened EvalBacklog
  import opened Outcomes
  import opened Sums
  import opened SyncChain
  import opened SyncCorpus
  import opened SyncKeys
  import opened SyncProgress
  import opened SyncRuns
  import opened SyncSafety

  /** The epoch a pass syncs and the confirmed head it meets. */
  datatype Stop = Stop(epoch: nat, head: int)

  predicate AgreesAt(window: seq<Advance>, k: nat)
    requires k < |window|
  {
    RecordAgrees(window, EntryFor(window[k], 0))
  }

  /** Each advance of the window is like the last one with its parent root. */
  ghost predicate WindowAgrees(window: seq<Advance>)
  {
    forall k :: 0 <= k < |window| ==> AgreesAt(window, k)
  }

  /** A pass at `s` goes through for a client at this cursor and with this corpus. */
  ghost predicate StopOk(c: Chain, cursor: int, corpus: Root, s: Stop, scoring: bool)
  {
    && c.deltas(s.epoch).nextRoot == c.context(s.epoch).corpusRoot
    && c.deltas(s.epoch).previousRoot == corpus
    && (scoring ==> WindowAgrees(Window(c, cursor + 1, s.head)))
    && if s.head >= cursor then
         Replayable(c, cursor + 1, s.head, s.epoch) && LiveRoot(c, s.epoch, s.head) == RootAt(c, s.head)
       else
         && LiveRoot(c, s.epoch, s.head) == RootAt(c, cursor)
         && TransitionCount(c, s.epoch, s.head) == TransitionCount(c, s.epoch, cursor)
  }

  /** Every stop in turn is, from where the one before it leaves the client. */
  ghost predicate ScheduleOk(c: Chain, cursor: int, corpus: Root, stops: seq<Stop>, scoring: bool)
    decreases |stops|
  {
    stops == []
    || (&& StopOk(c, cursor, corpus, stops[0], scoring)
        && ScheduleOk(c, Max(cursor, stops[0].head), c.deltas(stops[0].epoch).nextRoot, stops[1..], scoring))
  }

  // ---- the passes of a schedule ------------------------------------------------------------

  /** Where a client stands: its next window, its corpus and, if it scores, nothing owed. */
  ghost predicate Stands(c: Chain, w: World, key: string, cursor: int, corpus: Root, launch: Root, scoring: bool)
  {
    && Sound(c, w) && KeyFits(w.disk, key) && StartRoot(c, w.disk).Some? && FromBlock(c, w.disk) == cursor + 1
    && corpus == (if SavedOn(w.disk).Some? then SavedOn(w.disk).value.corpusRoot else launch)
    && (scoring ==> SavedBacklog(w.disk) == map[])
  }

  /** A pass that runs to its end if nothing stops it, with or without scoring. */
  ghost predicate Regular(c: Chain, w: World, e: Event, key: string, launch: Root, scoring: bool)
  {
    && Possible(c, w, e) && e.Synced? && e.renames == |Staged(c, w.disk, e.pass)|
    && !e.pass.readOnly && !e.pass.checkFails && e.pass.override.None?
    && e.pass.launch == Some(launch) && e.pass.key == key
    && (if scoring then !e.pass.skip && AllScorable(c, w.disk, e.pass) else e.pass.skip)
  }

  ghost predicate RegularRun(c: Chain, w: World, es: seq<Event>, key: string, launch: Root, scoring: bool)
    decreases |es|
  {
    es == []
    || (&& Regular(c, w, es[0], key, launch, scoring)
        && RegularRun(c, Apply(c, w, es[0]), es[1..], key, launch, scoring))
  }

  ghost predicate AllComplete(c: Chain, w: World, es: seq<Event>)
    decreases |es|
  {
    es == [] || (Possible(c, w, es[0]) && Completes(c, w.disk, es[0]) && AllComplete(c, Apply(c, w, es[0]), es[1..]))
  }

  function StopOf(e: Event): Stop
  {
    match e
    case Synced(p, _, _) => Stop(p.epoch, p.head)
    case SubstrateLost => Stop(0, 0)
    case DirectoryLost => Stop(0, 0)
  }

  function StopsOf(es: seq<Event>): seq<Stop>
  {
    if es == [] then [] else [StopOf(es[0])] + StopsOf(es[1..])
  }

  /** With nothing owed before, the entries of a pass are those of its window. */
  lemma PendingIsWindow(c: Chain, w: World, head: int, k: nat)
    requires ChainOk(c) && Sound(c, w) && k < |Fetched(c, w.disk, head)|
    ensures var a := Fetched(c, w.disk, head)[k];
            && a.Key() in Pending(c, w.disk, head)
            && Pending(c, w.disk, head)[a.Key()].epoch == a.epoch && Pending(c, w.disk, head)[a.Key()].pins == a.pins
  {
    var window := Fetched(c, w.disk, head);
    var key := window[k].Key();
    PendingFrom(c, w.disk, head, key);
    assert InWindow(window, key);
    PendingOk(c, w, head);
    var e := Pending(c, w.disk, head)[key];
    assert EntryOf(c, e, key);
    var i :| 0 <= i < |c.advances| && OwedAt(c, i, e, key);
    var j := WindowMember(c, FromBlock(c, w.disk), head, k);
    KeyDistinct(c, i, j);
    KeyInjective(e.epoch, e.hash, c.advances[i].epoch, c.advances[i].hash);
  }

  lemma AgreeIff(c: Chain, w: World, head: int)
    requires ChainOk(c) && Sound(c, w) && SavedBacklog(w.disk) == map[]
    ensures AllAgree(c, w.disk, head) <==> WindowAgrees(Fetched(c, w.disk, head))
  {
    var window, pending := Fetched(c, w.disk, head), Pending(c, w.disk, head);
    if AllAgree(c, w.disk, head) {
      forall k | 0 <= k < |window| ensures AgreesAt(window, k) {
        PendingIsWindow(c, w, head, k);
        assert RecordAgrees(window, pending[window[k].Key()]);
      }
    }
    if WindowAgrees(window) {
      forall key | key in pending ensures RecordAgrees(window, pending[key]) {
        PendingFrom(c, w.disk, head, key);
        var k :| 0 <= k < |window| && window[k].Key() == key;
        PendingIsWindow(c, w, head, k);
        assert AgreesAt(window, k);
      }
    }
  }

  /** One stop: the chain-side condition is exactly what lets the pass complete. */
  lemma StopIff(c: Chain, w: World, e: Event, key: string, cursor: int, corpus: Root, launch: Root, scoring: bool)
    requires ChainOk(c) && Stands(c, w, key, cursor, corpus, launch, scoring) && Regular(c, w, e, key, launch, scoring)
    ensures Completes(c, w.disk, e) <==> StopOk(c, cursor, corpus, StopOf(e), scoring)
  {
    ReplaysIff(c, w, e.pass.epoch, e.pass.head);
    if scoring {
      ScorablePassIff(c, w, e.pass);
      AgreeIff(c, w, e.pass.head);
    }
  }

  lemma StopMoves(c: Chain, w: World, e: Event, key: string, cursor: int, corpus: Root, launch: Root, scoring: bool)
    requires ChainOk(c) && Stands(c, w, key, cursor, corpus, launch, scoring) && Regular(c, w, e, key, launch, scoring)
    requires Completes(c, w.disk, e)
    ensures Stands(c, Apply(c, w, e), key, Max(cursor, e.pass.head), c.deltas(e.pass.epoch).nextRoot, launch, scoring)
  {
    CompletedLeaves(c, w, e);
    CompletedNext(c, w, e);
    KeyStep(c, w, e);
    if scoring {
      ScorablePassIff(c, w, e.pass);
    }
  }

  /**
   * A client completes every pass of a run if and only if its stops form a schedule of the chain:
   * of passes without scoring, or of scoring passes with nothing hidden and honest artifacts.
   */
  lemma {:induction false} ScheduleIff(c: Chain, w: World, es: seq<Event>, key: string, cursor: int, corpus: Root,
                                       launch: Root, scoring: bool)
    requires ChainOk(c) && Stands(c, w, key, cursor, corpus, launch, scoring)
    requires RegularRun(c, w, es, key, launch, scoring)
    ensures AllComplete(c, w, es) <==> ScheduleOk(c, cursor, corpus, StopsOf(es), scoring)
    decreases |es|
  {
    if es != [] {
      var e := es[0];
      assert StopsOf(es)[0] == StopOf(e) && StopsOf(es)[1..] == StopsOf(es[1..]);
      StopIff(c, w, e, key, cursor, corpus, launch, scoring);
      if Completes(c, w.disk, e) {
        StopMoves(c, w, e, key, cursor, corpus, launch, scoring);
        ScheduleIff(c, Apply(c, w, e), es[1..], key, Max(cursor, e.pass.head), c.deltas(e.pass.epoch).nextRoot, launch,
                    scoring);
      }
    }
  }

  lemma NewClientStands(c: Chain, pin: Option<string>, key: string, launch: Root, scoring: bool)
    requires ChainOk(c) && (pin.Some? ==> pin.value == key)
    ensures Stands(c, NewClient(pin), key, c.deploy - 1, launch, launch, scoring)
  {
  }

  // ---- a schedule that always works --------------------------------------------------------

  function StartOf(c: Chain, e: nat): nat
  {
    if e == 0 then 0 else EpochEnd(c, e - 1)
  }

  /** The pass takes in the whole of its epoch, with its own seal at most. */
  ghost predicate WholeEpoch(c: Chain, cursor: int, s: Stop)
  {
    && cursor <= s.head
    && UpTo(c, cursor) == StartOf(c, s.epoch) && UpTo(c, s.head) == EpochEnd(c, s.epoch)
    && (forall f :: 0 <= f < |c.finalizations| && cursor < c.finalizations[f].block <= s.head ==>
          c.finalizations[f].epoch == s.epoch)
  }

  /** The delta of the epoch leads from the corpus before it to the pinned one. */
  predicate Published(c: Chain, e: nat)
  {
    c.deltas(e).nextRoot == c.context(e).corpusRoot && DeltaAt(c, e)
  }

  lemma WholeEpochOk(c: Chain, cursor: int, s: Stop)
    requires ChainOk(c) && AllGenuine(c, c.advances) && Published(c, s.epoch) && WholeEpoch(c, cursor, s)
    ensures StopOk(c, cursor, CorpusBefore(c, s.epoch), s, false)
  {
    var i, j := UpTo(c, cursor), UpTo(c, s.head);
    WindowIsSlice(c, cursor + 1, s.head);
    var window := Window(c, cursor + 1, s.head);
    forall k | 0 <= k < |window| ensures Genuine(c, window[k]) {
      assert window[k] == c.advances[i + k];
    }
    WholeEpochFresh(c, cursor, s);
    WholeEpochSettled(c, cursor, s);
  }

  lemma WholeEpochFresh(c: Chain, cursor: int, s: Stop)
    requires ChainOk(c) && WholeEpoch(c, cursor, s)
    ensures StartsFresh(c, UpTo(c, cursor), UpTo(c, s.head))
  {
    var i := UpTo(c, cursor);
    UpToMonotone(c, cursor, s.head);
    FreshIff(c, i, UpTo(c, s.head));
    if 0 < i < UpTo(c, s.head) {
      ThroughExact(c, |c.advances|, s.epoch - 1, i - 1);
      ThroughExact(c, |c.advances|, s.epoch - 1, i);
    }
  }

  lemma WholeEpochSettled(c: Chain, cursor: int, s: Stop)
    requires ChainOk(c) && WholeEpoch(c, cursor, s)
    ensures SealPinned(c, cursor + 1, s.head, s.epoch) && Settled(c, cursor + 1, s.head)
  {
    var e := LastSeal(c, cursor + 1, s.head);
    if e.Some? {
      var f :| 0 <= f < |c.finalizations| && cursor + 1 <= c.finalizations[f].block <= s.head
               && c.finalizations[f].epoch == e.value;
      assert e.value == s.epoch;
    }
  }

  /** One stop for each epoch from `first` on, each taking in the whole of it. */
  ghost predicate EpochByEpoch(c: Chain, cursor: int, first: nat, stops: seq<Stop>)
    decreases |stops|
  {
    stops == []
    || (&& stops[0].epoch == first && Published(c, first) && WholeEpoch(c, cursor, stops[0])
        && EpochByEpoch(c, stops[0].head, first + 1, stops[1..]))
  }

  /**
   * On genuine advances and published deltas, syncing every epoch once, after its last advance and
   * before the next epoch's first advance or any other seal, always works.
   */
  lemma {:induction false} EpochByEpochOk(c: Chain, cursor: int, first: nat, stops: seq<Stop>)
    requires ChainOk(c) && AllGenuine(c, c.advances) && EpochByEpoch(c, cursor, first, stops)
    ensures ScheduleOk(c, cursor, CorpusBefore(c, first), stops, false)
    decreases |stops|
  {
    if stops != [] {
      WholeEpochOk(c, cursor, stops[0]);
      EpochByEpochOk(c, stops[0].head, first + 1, stops[1..]);
      assert CorpusBefore(c, first + 1) == c.deltas(first).nextRoot;
      assert Max(cursor, stops[0].head) == stops[0].head;
    }
  }
}

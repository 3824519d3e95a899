/**
 * Sync passes over a client's trusted state: completed, aborted, crashed, scoring-skipped and
 * read-only ones, in any sequence.
 */
module SyncRuns {
  import opened ArtifactBinding
  import opened BacklogDrain
  import opened EvalBacklog
  import opened Outcomes
  import opened Sums
  import opened SyncChain
  import opened TrustedStaging

  datatype File = PinFile | SubstrateFile | ParentFile(ref: string) | StateFile

  /** File contents: the pinned key, a packed substrate by its root, or the state file. */
  datatype Content = PinnedKey(key: string) | Packed(root: Root) | Saved(state: SavedState)

  /** The fields of the state file a later pass reads; the backlog by key. */
  datatype SavedState = SavedState(epoch: nat, corpusRoot: Root, stateRoot: Root, cursor: int,
                                   transitions: map<nat, nat>, backlog: map<string, Entry>, verifiedThrough: int)

  type Disk = map<File, Content>

  /**
   * What one pass meets: the epoch it syncs, the confirmed head, the signing key it is served, the
   * corpus root a client without a synced state starts from, the operator's override of the local
   * corpus root, flags, and what it finds.
   */
  datatype Pass = Pass(epoch: nat, head: int, key: string, launch: Option<Root>, override: Option<Root>,
                       skip: bool, readOnly: bool, checkFails: bool,
                       secret: nat -> Secret, context: Entry -> Context,
                       fetched: Entry -> Option<Artifact>, scorePasses: Entry -> bool)

  function SavedOn(disk: Disk): Option<SavedState>
  {
    if StateFile in disk && disk[StateFile].Saved? then Some(disk[StateFile].state) else None
  }

  /** The substrate snapshot is used only together with the state file that describes it. */
  predicate SnapshotAvailable(disk: Disk)
  {
    SavedOn(disk).Some? && SubstrateFile in disk
  }

  function FromBlock(c: Chain, disk: Disk): int
  {
    if SnapshotAvailable(disk) then SavedOn(disk).value.cursor + 1 else c.deploy
  }

  /** The state replay starts from; none when the snapshot is not the recorded one. */
  function StartRoot(c: Chain, disk: Disk): Option<Root>
  {
    if !SnapshotAvailable(disk) then Some(c.blank)
    else if disk[SubstrateFile] == Packed(SavedOn(disk).value.stateRoot) then Some(SavedOn(disk).value.stateRoot)
    else None
  }

  function NewCursor(c: Chain, disk: Disk, head: int): int
  {
    if head >= FromBlock(c, disk) then head else FromBlock(c, disk) - 1
  }

  function Fetched(c: Chain, disk: Disk, head: int): seq<Advance>
  {
    Window(c, FromBlock(c, disk), head)
  }

  /** The count of epoch `e` in a tally. */
  function Tally(counts: map<nat, nat>, e: nat): nat
  {
    if e in counts then counts[e] else 0
  }

  /** A tally with the advances of a window added to it. */
  function Tallied(counts: map<nat, nat>, window: seq<Advance>): map<nat, nat>
  {
    if window == [] then counts
    else
      var front, e := Tallied(counts, window[..|window| - 1]), window[|window| - 1].epoch;
      front[e := Tally(front, e) + 1]
  }

  /** The transition counts a pass starts from: the saved ones beside the saved snapshot. */
  function CountsOn(disk: Disk): map<nat, nat>
  {
    if SnapshotAvailable(disk) then SavedOn(disk).value.transitions else map[]
  }

  function NewCounts(c: Chain, disk: Disk, head: int): map<nat, nat>
  {
    Tallied(CountsOn(disk), Fetched(c, disk, head))
  }

  /**
   * The replay starts somewhere, goes through, ends at the root the registry holds for the synced
   * epoch, and the epoch's transitions add up to the registry's count.
   */
  predicate Replays(c: Chain, disk: Disk, epoch: nat, head: int)
  {
    && StartRoot(c, disk).Some?
    && Replayed(c, Fetched(c, disk, head), epoch, LastSeal(c, FromBlock(c, disk), head), StartRoot(c, disk).value)
       == Accepted(LiveRoot(c, epoch, head))
    && Tally(NewCounts(c, disk, head), epoch) == TransitionCount(c, epoch, head)
  }

  /** The backlog entry of an advance seen in this window. */
  function EntryFor(a: Advance, block: int): Entry
  {
    Entry(a.epoch, a.hash, block, AwaitingReveal, a.pins, Some(a.Key()))
  }

  function Incoming(window: seq<Advance>, block: int): Backlog
  {
    if window == [] then []
    else Incoming(window[..|window| - 1], block) + [EntryFor(window[|window| - 1], block)]
  }

  function SavedBacklog(disk: Disk): map<string, Entry>
  {
    if SavedOn(disk).Some? then SavedOn(disk).value.backlog else map[]
  }

  function Pending(c: Chain, disk: Disk, head: int): map<string, Entry>
  {
    Merged(SavedBacklog(disk), Incoming(Fetched(c, disk, head), NewCursor(c, disk, head)))
  }

  /** The parent state of an entry: from this window, or from a snapshot with the pinned root. */
  predicate ParentReady(disk: Disk, window: seq<Advance>, e: Entry)
  {
    || (exists a :: a in window && a.pins.parentRoot == e.pins.parentRoot)
    || (e.snapshot.Some? && ParentFile(e.snapshot.value) in disk
        && disk[ParentFile(e.snapshot.value)] == Packed(e.pins.parentRoot))
  }

  function FactsOf(c: Chain, disk: Disk, p: Pass): Entry -> Facts
  {
    var window := Fetched(c, disk, p.head);
    (e: Entry) => Facts(p.secret(e.epoch), p.context(e), ParentReady(disk, window, e),
                       Binds(window, e, p.fetched(e)), p.scorePasses(e))
  }

  /** The served key is the pinned one, if there is one. */
  predicate KeyFits(disk: Disk, key: string)
  {
    PinFile in disk ==> disk[PinFile] == PinnedKey(key)
  }

  /** The local corpus root the epoch's delta has to continue. */
  function PreviousCorpus(disk: Disk, p: Pass): Option<Root>
  {
    if p.override.Some? then p.override
    else if SavedOn(disk).Some? then Some(SavedOn(disk).value.corpusRoot)
    else p.launch
  }

  /** The delta leads to the epoch's corpus, and from the client's own. */
  predicate Continues(c: Chain, disk: Disk, p: Pass)
  {
    && c.deltas(p.epoch).nextRoot == c.context(p.epoch).corpusRoot
    && PreviousCorpus(disk, p) == Some(c.deltas(p.epoch).previousRoot)
  }

  /** The pass ends before anything is committed. */
  ghost predicate Aborted(c: Chain, disk: Disk, p: Pass)
  {
    || p.checkFails
    || !KeyFits(disk, p.key)
    || !Continues(c, disk, p)
    || !Replays(c, disk, p.epoch, p.head)
    || (!p.skip && Aborts(Pending(c, disk, p.head), FactsOf(c, disk, p)))
  }

  ghost function Remaining(c: Chain, disk: Disk, p: Pass): map<string, Entry>
  {
    Drained(Pending(c, disk, p.head), FactsOf(c, disk, p), p.skip)
  }

  /** The state file a pass stages. */
  ghost function NewState(c: Chain, disk: Disk, p: Pass): SavedState
  {
    var left, cursor := Remaining(c, disk, p), NewCursor(c, disk, p.head);
    var prior := if SavedOn(disk).Some? then SavedOn(disk).value.verifiedThrough else -1;
    SavedState(p.epoch, c.deltas(p.epoch).nextRoot, LiveRoot(c, p.epoch, p.head), cursor,
               NewCounts(c, disk, p.head), left, if left == map[] && !p.skip then Max(prior, cursor) else prior)
  }

  function ParentWrites(window: seq<Advance>): seq<Write<File, Content>>
  {
    seq(|window|, k requires 0 <= k < |window| => Write(ParentFile(window[k].Key()), Packed(window[k].pins.parentRoot)))
  }

  function PinWrites(disk: Disk, key: string): seq<Write<File, Content>>
  {
    if PinFile in disk then [] else [Write(PinFile, PinnedKey(key))]
  }

  /** Every staged write but the last, which is the state file. */
  function EarlyWrites(c: Chain, disk: Disk, p: Pass): seq<Write<File, Content>>
  {
    PinWrites(disk, p.key) + [Write(SubstrateFile, Packed(LiveRoot(c, p.epoch, p.head)))]
    + ParentWrites(Fetched(c, disk, p.head))
  }

  ghost function Staged(c: Chain, disk: Disk, p: Pass): seq<Write<File, Content>>
  {
    EarlyWrites(c, disk, p) + [Write(StateFile, Saved(NewState(c, disk, p)))]
  }

  predicate IsSnapshot(f: File)
  {
    f.ParentFile?
  }

  /** The snapshots a backlog still refers to. */
  function Live(backlog: map<string, Entry>): set<File>
  {
    set k | k in backlog && backlog[k].snapshot.Some? :: ParentFile(backlog[k].snapshot.value)
  }

  /** The client's directory, and the advances whose replay has passed in some completed drain. */
  datatype World = World(disk: Disk, passed: set<string>)

  /**
   * A pass, stopped after `renames` of its renames (all of them unless it crashes), the garbage
   * collection having removed `gone`; the loss of the substrate snapshot; or of the directory.
   */
  datatype Event = Synced(pass: Pass, renames: nat, gone: set<File>) | SubstrateLost | DirectoryLost

  ghost predicate Possible(c: Chain, w: World, e: Event)
  {
    e.Synced? ==>
      var writes := Staged(c, w.disk, e.pass);
      && e.renames <= |writes|
      && (if e.renames < |writes| then e.gone == {}
          else Orphans(Committed(w.disk, writes, |writes|), IsSnapshot, Live(Remaining(c, w.disk, e.pass)), e.gone))
  }

  ghost function DiskAfter(c: Chain, disk: Disk, e: Event): Disk
    requires e.Synced? && e.renames <= |Staged(c, disk, e.pass)|
  {
    Committed(disk, Staged(c, disk, e.pass), e.renames) - e.gone
  }

  ghost function Apply(c: Chain, w: World, e: Event): World
    requires Possible(c, w, e)
  {
    if e.SubstrateLost? then w.(disk := w.disk - {SubstrateFile})
    else if e.DirectoryLost? then w.(disk := map[])
    else if Aborted(c, w.disk, e.pass) then w
    else
      var passed := w.passed + (Pending(c, w.disk, e.pass.head).Keys - Remaining(c, w.disk, e.pass).Keys);
      if e.pass.readOnly then World(w.disk, passed) else World(DiskAfter(c, w.disk, e), passed)
  }

  // ---- what every pass keeps -------------------------------------------------------------

  /** `e` is the entry of some accepted advance. */
  ghost predicate EntryOf(c: Chain, e: Entry, key: string)
  {
    exists i :: 0 <= i < |c.advances| && OwedAt(c, i, e, key)
  }

  predicate OwedAt(c: Chain, i: nat, e: Entry, key: string)
    requires i < |c.advances|
  {
    c.advances[i].Key() == key == KeyOf(e) && e.pins == c.advances[i].pins && e.snapshot == Some(key)
  }

  ghost predicate BacklogOk(c: Chain, backlog: map<string, Entry>)
  {
    forall k :: k in backlog ==> EntryOf(c, backlog[k], k)
  }

  /** The snapshot of each owed advance is there. */
  ghost predicate SnapshotsPresent(disk: Disk, backlog: map<string, Entry>)
  {
    forall k :: k in backlog ==> ParentFile(k) in disk
  }

  /** A parent snapshot holds the parent state of the advance it is named after. */
  ghost predicate SnapshotAt(c: Chain, disk: Disk, i: nat)
    requires i < |c.advances|
  {
    var f := ParentFile(c.advances[i].Key());
    f in disk ==> disk[f] == Packed(c.advances[i].pins.parentRoot)
  }

  ghost predicate SnapshotsTrue(c: Chain, disk: Disk)
  {
    forall i :: 0 <= i < |c.advances| ==> SnapshotAt(c, disk, i)
  }

  predicate CoveredAt(c: Chain, i: nat, passed: set<string>, backlog: map<string, Entry>)
    requires i < |c.advances|
  {
    c.advances[i].Key() in passed || c.advances[i].Key() in backlog
  }

  /** Every advance up to the cursor has passed or is still owed. */
  ghost predicate Covered(c: Chain, cursor: int, passed: set<string>, backlog: map<string, Entry>)
  {
    forall i :: 0 <= i < |c.advances| && c.advances[i].block <= cursor ==> CoveredAt(c, i, passed, backlog)
  }

  /** The saved transition counts are the registry's at the cursor. */
  ghost predicate CountsRight(c: Chain, counts: map<nat, nat>, cursor: int)
  {
    forall e: nat :: Tally(counts, e) == TransitionCount(c, e, cursor)
  }

  ghost predicate StateOk(c: Chain, s: SavedState, disk: Disk, passed: set<string>)
  {
    && s.stateRoot == RootAt(c, s.cursor) && c.deploy <= s.cursor + 1
    && s.corpusRoot == c.context(s.epoch).corpusRoot
    && CountsRight(c, s.transitions, s.cursor)
    && BacklogOk(c, s.backlog)
    && SnapshotsPresent(disk, s.backlog)
    && Covered(c, s.cursor, passed, s.backlog)
    && Covered(c, s.verifiedThrough, passed, map[])
  }

  ghost predicate Sound(c: Chain, w: World)
  {
    && SnapshotsTrue(c, w.disk)
    && (StateFile in w.disk ==>
          SavedOn(w.disk).Some? && StateOk(c, SavedOn(w.disk).value, w.disk, w.passed))
  }
}

/**
 * Staged writes to a client's trusted state: every file is written beside its destination and
 * renamed into place at the end, in the order in which the writes were staged.
 */
module TrustedStaging {

  /** A destination, or the sibling file a staged write is materialised in. */
  datatype Path<N> = Dest(name: N) | Temp(name: N, slot: nat)

  datatype Write<N, C> = Write(dest: N, contents: C)

  /** The destinations after the first `k` renames: what a crash at that point leaves. */
  function Committed<N, C>(disk: map<N, C>, writes: seq<Write<N, C>>, k: nat): map<N, C>
    requires k <= |writes|
  {
    if k == 0 then disk
    else Committed(disk, writes, k - 1)[writes[k - 1].dest := writes[k - 1].contents]
  }

  /** No write among `lo .. hi` goes to `n`. */
  ghost predicate Untouched<N, C>(writes: seq<Write<N, C>>, lo: nat, hi: nat, n: N)
    requires hi <= |writes|
  {
    forall i :: lo <= i < hi ==> writes[i].dest != n
  }

  /** A file no rename has reached yet is wholly old. */
  lemma {:induction false} OldUntilRenamed<N, C>(disk: map<N, C>, writes: seq<Write<N, C>>, k: nat, n: N)
    requires k <= |writes| && Untouched(writes, 0, k, n)
    ensures n in Committed(disk, writes, k) <==> n in disk
    ensures n in disk ==> Committed(disk, writes, k)[n] == disk[n]
  {
    if k > 0 {
      OldUntilRenamed(disk, writes, k - 1, n);
    }
  }

  /** A file a rename has reached is wholly what its last write staged. */
  lemma {:induction false} NewOnceRenamed<N, C>(disk: map<N, C>, writes: seq<Write<N, C>>, k: nat, i: nat)
    requires i < k <= |writes| && Untouched(writes, i + 1, k, writes[i].dest)
    ensures writes[i].dest in Committed(disk, writes, k)
    ensures Committed(disk, writes, k)[writes[i].dest] == writes[i].contents
  {
    if i < k - 1 {
      NewOnceRenamed(disk, writes, k - 1, i);
    }
  }

  /** Every file in between is one or the other. */
  lemma {:induction false} WholeOldOrNew<N, C>(disk: map<N, C>, writes: seq<Write<N, C>>, k: nat, n: N)
    requires k <= |writes| && n in Committed(disk, writes, k)
    ensures (n in disk && Committed(disk, writes, k)[n] == disk[n])
            || exists i :: 0 <= i < k && writes[i].dest == n && Committed(disk, writes, k)[n] == writes[i].contents
  {
    if k > 0 && writes[k - 1].dest != n {
      WholeOldOrNew(disk, writes, k - 1, n);
    }
  }

  /** Renames remove nothing. */
  lemma {:induction false} CommitKeepsNames<N, C>(disk: map<N, C>, writes: seq<Write<N, C>>, k: nat)
    requires k <= |writes|
    ensures disk.Keys <= Committed(disk, writes, k).Keys
  {
    if k > 0 {
      CommitKeepsNames(disk, writes, k - 1);
    }
  }

  /** The snapshots a collection may remove: those no surviving entry refers to. */
  ghost predicate Orphans<N(!new), C>(disk: map<N, C>, isSnapshot: N -> bool, live: set<N>, gone: set<N>)
  {
    forall n :: n in gone ==> n in disk && isSnapshot(n) && n !in live
  }

  /** All of them but the ones that cannot be removed. */
  ghost function Collected<N(!new), C>(disk: map<N, C>, isSnapshot: N -> bool, live: set<N>, stuck: set<N>)
    : (gone: set<N>)
    ensures Orphans(disk, isSnapshot, live, gone)
    ensures forall n :: n in gone <==> n in disk && isSnapshot(n) && n !in live && n !in stuck
  {
    set n | n in disk && isSnapshot(n) && n !in live && n !in stuck
  }

  // ---- a directory with staged files in it ---------------------------------------------

  function Names<N(==, !new), C>(files: map<Path<N>, C>): set<N>
  {
    set p | p in files && p.Dest? :: p.name
  }

  /** What a reader of the directory sees under the destinations. */
  function DiskOf<N(==, !new), C>(files: map<Path<N>, C>): (d: map<N, C>)
    ensures forall n :: n in d <==> Dest(n) in files
    ensures forall n :: n in d ==> d[n] == files[Dest(n)]
  {
    map n | n in Names(files) :: files[Dest(n)]
  }

  /** The staged write in slot `i`, and the file that holds it. */
  ghost predicate StagedAt<N, C>(files: map<Path<N>, C>, staged: seq<Path<N>>, i: nat)
    requires i < |staged|
  {
    staged[i].Temp? && staged[i].slot == i && staged[i] in files
  }

  ghost predicate StagedFrom<N(!new), C>(files: map<Path<N>, C>, staged: seq<Path<N>>, k: nat)
  {
    forall i :: k <= i < |staged| ==> StagedAt(files, staged, i)
  }

  ghost function WritesOf<N(!new), C>(files: map<Path<N>, C>, staged: seq<Path<N>>): (w: seq<Write<N, C>>)
    requires StagedFrom(files, staged, 0)
    ensures |w| == |staged|
    ensures forall i :: 0 <= i < |staged| ==>
              StagedAt(files, staged, i) && w[i] == Write(staged[i].name, files[staged[i]])
  {
    seq(|staged|, i requires 0 <= i < |staged| && StagedAt(files, staged, i) => Write(staged[i].name, files[staged[i]]))
  }

  ghost function Renamed<N, C>(files: map<Path<N>, C>, tmp: Path<N>): map<Path<N>, C>
    requires tmp in files && tmp.Temp?
  {
    (files - {tmp})[Dest(tmp.name) := files[tmp]]
  }

  lemma RenameStep<N(!new), C>(files: map<Path<N>, C>, staged: seq<Path<N>>, k: nat)
    requires k < |staged| && StagedFrom(files, staged, k) && StagedAt(files, staged, k)
    ensures DiskOf(Renamed(files, staged[k])) == DiskOf(files)[staged[k].name := files[staged[k]]]
    ensures StagedFrom(Renamed(files, staged[k]), staged, k + 1)
    ensures forall writes :: Ahead(files, staged, writes, k) ==> Ahead(Renamed(files, staged[k]), staged, writes, k + 1)
  {
    var after := Renamed(files, staged[k]);
    assert DiskOf(after) == DiskOf(files)[staged[k].name := files[staged[k]]];
    forall i | k + 1 <= i < |staged|
      ensures StagedAt(files, staged, i) && StagedAt(after, staged, i) && after[staged[i]] == files[staged[i]]
    {
      assert StagedAt(files, staged, i);
    }
  }

  lemma StageStep<N(!new), C>(files: map<Path<N>, C>, staged: seq<Path<N>>, dest: N, contents: C)
    requires StagedFrom(files, staged, 0)
    ensures var tmp := Temp(dest, |staged|);
            var after := files[tmp := contents];
            && DiskOf(after) == DiskOf(files)
            && StagedFrom(after, staged + [tmp], 0)
            && WritesOf(after, staged + [tmp]) == WritesOf(files, staged) + [Write(dest, contents)]
  {
    var tmp := Temp(dest, |staged|);
    var after := files[tmp := contents];
    assert DiskOf(after) == DiskOf(files);
    forall i | 0 <= i < |staged + [tmp]| ensures StagedAt(after, staged + [tmp], i) {
      if i < |staged| {
        assert StagedAt(files, staged, i);
      }
    }
    forall i | 0 <= i < |staged| ensures WritesOf(after, staged + [tmp])[i] == WritesOf(files, staged)[i] {
      assert StagedAt(files, staged, i);
    }
  }

  /** The states a commit passes through. */
  ghost predicate TrailOf<N(!new), C>(trail: seq<map<N, C>>, disk: map<N, C>, writes: seq<Write<N, C>>)
  {
    |trail| <= |writes| + 1 && forall k :: 0 <= k < |trail| ==> trail[k] == Committed(disk, writes, k)
  }

  /** The writes from slot `k` on are still in their files. */
  ghost predicate Ahead<N(!new), C>(files: map<Path<N>, C>, staged: seq<Path<N>>, writes: seq<Write<N, C>>, k: nat)
  {
    |writes| == |staged| && forall i :: k <= i < |staged| ==>
      StagedAt(files, staged, i) && writes[i] == Write(staged[i].name, files[staged[i]])
  }

  class TrustedStateStaging<N(==, !new), C> {
    /** The directory the client keeps its state in. */
    var files: map<Path<N>, C>
    var staged: seq<Path<N>>

    ghost predicate Valid()
      reads this
    {
      StagedFrom(files, staged, 0)
    }

    function Disk(): map<N, C>
      reads this
    {
      DiskOf(files)
    }

    ghost function Writes(): seq<Write<N, C>>
      requires Valid()
      reads this
    {
      WritesOf(files, staged)
    }

    constructor (initial: map<Path<N>, C>)
      ensures Valid() && files == initial && staged == []
    {
      files, staged := initial, [];
    }

    method Stage(dest: N, contents: C)
      requires Valid()
      modifies this
      ensures Valid() && Disk() == old(Disk())
      ensures Writes() == old(Writes()) + [Write(dest, contents)]
    {
      StageStep(files, staged, dest, contents);
      var tmp := Temp(dest, |staged|);
      ghost var before := files;
      files := files - {tmp};
      files := files[tmp := contents];
      assert files == before[tmp := contents];
      staged := staged + [tmp];
    }

    /** Renames in stage order; `trail` is the directory before, between and after the renames. */
    method Commit() returns (ghost trail: seq<map<N, C>>)
      requires Valid()
      modifies this
      ensures Valid() && staged == []
      ensures |trail| == |old(Writes())| + 1 && TrailOf(trail, old(Disk()), old(Writes()))
      ensures Disk() == Committed(old(Disk()), old(Writes()), |old(Writes())|)
    {
      ghost var writes := Writes();
      trail := [Disk()];
      for i := 0 to |staged|
        invariant staged == old(staged) && |trail| == i + 1
        invariant Disk() == Committed(old(Disk()), writes, i) && TrailOf(trail, old(Disk()), writes)
        invariant StagedFrom(files, staged, i) && Ahead(files, staged, writes, i)
      {
        assert StagedAt(files, staged, i);
        RenameStep(files, staged, i);
        files := (files - {staged[i]})[Dest(staged[i].name) := files[staged[i]]];
        trail := trail + [Disk()];
      }
      staged := [];
    }

    /** Drops what was staged; no destination changes. */
    method Dispose()
      requires Valid()
      modifies this
      ensures Valid() && staged == [] && Disk() == old(Disk())
      ensures forall i :: 0 <= i < |old(staged)| ==> old(staged)[i] !in files
    {
      ghost var before := files;
      for i := 0 to |staged|
        invariant staged == old(staged)
        invariant forall p :: p in files ==> p in before && files[p] == before[p]
        invariant forall p :: p in before && p.Dest? ==> p in files
        invariant forall j :: 0 <= j < i ==> staged[j] !in files
      {
        assert StagedAt(before, staged, i);
        files := files - {staged[i]};
      }
      staged := [];
    }

    /** Removes every snapshot that is not live, in the order the directory lists them; those in
        `stuck` cannot be removed. */
    method GcEvalParentSnapshots(isSnapshot: N -> bool, live: set<N>, stuck: set<N>) returns (removed: set<N>)
      modifies `files
      ensures removed == Collected(old(Disk()), isSnapshot, live, stuck)
      ensures forall n :: n in removed <==> n in old(Disk()) && isSnapshot(n) && n !in live && n !in stuck
      ensures Disk() == old(Disk()) - removed
      ensures forall p :: p in files <==> p in old(files) && !(p.Dest? && p.name in removed)
    {
      removed := {};
      ghost var before := Disk();
      var names := set p | p in files && p.Dest? && isSnapshot(p.name) :: p.name;
      while names != {}
        invariant forall n :: n in names ==> n in before && isSnapshot(n) && n !in removed
        invariant Orphans(before, isSnapshot, live, removed)
        invariant forall n :: n in removed ==> n !in stuck
        invariant forall n :: n in before && isSnapshot(n) && n !in live && n !in stuck ==> n in names || n in removed
        invariant forall p :: p in files <==> p in old(files) && !(p.Dest? && p.name in removed)
        invariant forall p :: p in files ==> files[p] == old(files)[p]
      {
        var name :| name in names;
        names := names - {name};
        if name !in live && name !in stuck {
          files := files - {Dest(name)};
          removed := removed + {name};
        }
      }
    }

    /** The end of a pass; with the wrong bundle version it writes and removes nothing. */
    method CommitTrustedStateAndMaybeGc(versionMatches: bool, isSnapshot: N -> bool, live: set<N>, stuck: set<N>)
      returns (committed: bool, removed: set<N>)
      requires Valid()
      modifies this
      ensures Valid() && committed == versionMatches
      ensures committed ==> staged == []
      ensures !committed ==> files == old(files) && staged == old(staged) && removed == {}
      ensures committed ==>
                var done := Committed(old(Disk()), old(Writes()), |old(Writes())|);
                && removed == Collected(done, isSnapshot, live, stuck)
                && Disk() == done - removed
    {
      if !versionMatches {
        return false, {};
      }
      ghost var _ := Commit();
      removed := GcEvalParentSnapshots(isSnapshot, live, stuck);
      committed := true;
    }
  }
}

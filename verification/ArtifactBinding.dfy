/**
 * Which advance a fetched eval artifact is bound to before it is scored: the last one in the
 * replay window with the entry's parent root, or else the entry itself.
 */
module ArtifactBinding {
  import opened EvalBacklog
  import opened Outcomes
  import opened SyncChain

  /** A fetched artifact: the hash it carries, its epoch and the pins its context states. */
  datatype Artifact = Artifact(hash: string, epoch: nat, pins: Pins)

  /** The last advance of the window that starts from `root`. */
  function RecordFor(window: seq<Advance>, root: Root): Option<Advance>
  {
    if window == [] then None
    else if window[|window| - 1].pins.parentRoot == root then Some(window[|window| - 1])
    else RecordFor(window[..|window| - 1], root)
  }

  /** The Map the source fills with the window's records; a later record replaces an earlier one. */
  method ParentByRoot(window: seq<Advance>) returns (byRoot: map<Root, Advance>)
    ensures forall root :: (if root in byRoot then Some(byRoot[root]) else None) == RecordFor(window, root)
  {
    byRoot := map[];
    assert window[..0] == [];
    for k := 0 to |window|
      invariant forall root :: (if root in byRoot then Some(byRoot[root]) else None) == RecordFor(window[..k], root)
    {
      assert window[..k + 1][..k] == window[..k];
      byRoot := byRoot[window[k].pins.parentRoot := window[k]];
    }
    assert window[..|window|] == window;
  }

  /** The checks between fetching an artifact and scoring it. */
  predicate Binds(window: seq<Advance>, e: Entry, fetched: Option<Artifact>)
  {
    && fetched.Some? && fetched.value.hash == e.hash
    && fetched.value.pins.corpusRoot == e.pins.corpusRoot
    && match RecordFor(window, e.pins.parentRoot)
       case Some(record) => fetched.value.epoch == record.epoch && fetched.value.pins == record.pins
       case None => fetched.value.epoch == e.epoch && fetched.value.pins == e.pins
  }

  /** The artifact is the entry's own. */
  predicate Honest(e: Entry, fetched: Option<Artifact>)
  {
    fetched == Some(Artifact(e.hash, e.epoch, e.pins))
  }

  /** The last advance of the window with the entry's parent root, if any, is like the entry's. */
  predicate RecordAgrees(window: seq<Advance>, e: Entry)
  {
    var record := RecordFor(window, e.pins.parentRoot);
    record.Some? ==>
      && record.value.epoch == e.epoch
      && record.value.pins.patchHash == e.pins.patchHash
      && record.value.pins.corpusRoot == e.pins.corpusRoot
      && record.value.pins.coreVersion == e.pins.coreVersion
      && record.value.pins.miner == e.pins.miner
  }

  lemma {:induction false} RecordFound(window: seq<Advance>, root: Root)
    ensures var r := RecordFor(window, root);
            && (r.Some? <==> exists k :: 0 <= k < |window| && window[k].pins.parentRoot == root)
            && (r.Some? ==> r.value in window && r.value.pins.parentRoot == root)
  {
    if window != [] {
      var front := window[..|window| - 1];
      RecordFound(front, root);
      if k :| 0 <= k < |front| && front[k].pins.parentRoot == root {
        assert window[k].pins.parentRoot == root;
      }
      if k :| 0 <= k < |window| && window[k].pins.parentRoot == root {
        assert k < |front| ==> front[k].pins.parentRoot == root;
      }
    }
  }

  /** An honest artifact is taken for its entry's exactly when the window's record agrees with it. */
  lemma HonestBindsIff(window: seq<Advance>, e: Entry, fetched: Option<Artifact>)
    requires Honest(e, fetched)
    ensures Binds(window, e, fetched) <==> RecordAgrees(window, e)
  {
    RecordFound(window, e.pins.parentRoot);
  }

  /** `k` is the last place of the window with parent root `root`. */
  predicate LastFrom(window: seq<Advance>, root: Root, k: nat)
    requires k < |window|
  {
    window[k].pins.parentRoot == root && forall j :: k < j < |window| ==> window[j].pins.parentRoot != root
  }

  /** Exactly what binds: hash and corpus are the entry's, and all else is that of the last advance
      of the window with the entry's parent root, or the entry's own if there is none. */
  lemma BindsIff(window: seq<Advance>, e: Entry, fetched: Option<Artifact>)
    ensures Binds(window, e, fetched) <==>
              && fetched.Some? && fetched.value.hash == e.hash
              && fetched.value.pins.corpusRoot == e.pins.corpusRoot
              && (forall k :: 0 <= k < |window| && LastFrom(window, e.pins.parentRoot, k) ==>
                    fetched.value.epoch == window[k].epoch && fetched.value.pins == window[k].pins)
              && ((forall k :: 0 <= k < |window| ==> window[k].pins.parentRoot != e.pins.parentRoot) ==>
                    fetched.value.epoch == e.epoch && fetched.value.pins == e.pins)
  {
    var root := e.pins.parentRoot;
    RecordFound(window, root);
    forall k | 0 <= k < |window| && LastFrom(window, root, k) ensures RecordFor(window, root) == Some(window[k]) {
      LastRecord(window, k);
    }
    if RecordFor(window, root).Some? {
      var k := FindLast(window, root);
    }
  }

  lemma {:induction false} FindLast(window: seq<Advance>, root: Root) returns (k: nat)
    requires RecordFor(window, root).Some?
    ensures k < |window| && LastFrom(window, root, k)
  {
    var last := |window| - 1;
    if window[last].pins.parentRoot == root {
      k := last;
    } else {
      k := FindLast(window[..last], root);
      forall j | k < j < |window| ensures window[j].pins.parentRoot != root {
        assert j < last ==> window[..last][j] == window[j];
      }
    }
  }

  /** Whatever binds has the entry's hash and corpus, and the pins of an advance from its parent state. */
  lemma BoundMeans(window: seq<Advance>, e: Entry, fetched: Option<Artifact>)
    requires Binds(window, e, fetched)
    ensures fetched.value.pins.parentRoot == e.pins.parentRoot
    ensures || Honest(e, fetched)
            || exists a :: a in window && a.epoch == fetched.value.epoch && a.pins == fetched.value.pins
  {
    RecordFound(window, e.pins.parentRoot);
  }

  /** An advance whose parent root is its own in the window binds its own artifact. */
  lemma SoleParentBinds(window: seq<Advance>, k: nat, e: Entry)
    requires k < |window| && window[k].epoch == e.epoch && window[k].pins == e.pins
    requires forall j :: k < j < |window| ==> window[j].pins.parentRoot != e.pins.parentRoot
    ensures RecordAgrees(window, e)
  {
    LastRecord(window, k);
  }

  lemma {:induction false} LastRecord(window: seq<Advance>, k: nat)
    requires k < |window|
    requires forall j :: k < j < |window| ==> window[j].pins.parentRoot != window[k].pins.parentRoot
    ensures RecordFor(window, window[k].pins.parentRoot) == Some(window[k])
  {
    if k < |window| - 1 {
      LastRecord(window[..|window| - 1], k);
    }
  }
}

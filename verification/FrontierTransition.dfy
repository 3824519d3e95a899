/**
 * The one-profile transition of the frontier law, and how the replay of transition artifacts
 * compares with it.
 */
module FrontierTransition {
  import opened Names
  import opened Outcomes
  import opened TransitionReplay

  /** One profile's release replaced by another, under a new composition. */
  datatype Transition = Transition(target: string, expectedPrior: Root, newRelease: Root, composition: Root)

  datatype FrontierError =
    | BadManifest | UnknownProfile | NoOpTransition | BadEpoch | EpochRegression | StaleParent
    | CompositionUnchanged | RootMismatch

  /** The epoch of the child: its parent's unless one is named. */
  function ChildEpoch(m: Manifest, epoch: Option<nat>): nat
  {
    if epoch.Some? then epoch.value else m.epoch
  }

  /** Applying a transition, with every refusal in the code's order. */
  function ApplyTransition(root: Manifest -> Root, m: Manifest, t: Transition, epoch: Option<nat>,
                           pins: Option<LawPins>): Result<Manifest, FrontierError>
  {
    if !ValidManifest(m) then Refused(BadManifest)
    else if t.target !in ProfileIds() then Refused(UnknownProfile)
    else if t.newRelease == t.expectedPrior then Refused(NoOpTransition)
    else if ChildEpoch(m, epoch) > MAX_EPOCH then Refused(BadEpoch)
    else if ChildEpoch(m, epoch) < m.epoch then Refused(EpochRegression)
    else if m.profiles[t.target] != t.expectedPrior then Refused(StaleParent)
    else if t.composition == m.composition then Refused(CompositionUnchanged)
    else Accepted(Manifest(ChildEpoch(m, epoch), if pins.Some? then pins.value else m.pins, t.composition, root(m),
                           m.profiles[t.target := t.newRelease]))
  }

  /** And confirming the root the event claims. */
  function VerifyTransition(root: Manifest -> Root, m: Manifest, t: Transition, claimed: Root, epoch: Option<nat>,
                            pins: Option<LawPins>): Result<Manifest, FrontierError>
  {
    var child := ApplyTransition(root, m, t, epoch, pins);
    if child.Accepted? && root(child.value) != claimed then Refused(RootMismatch) else child
  }

  /** The transition an artifact with one move stands for. */
  function AsTransition(a: Artifact, pid: string): Transition
    requires pid in a.releases
  {
    Transition(pid, a.releases[pid].expectedPrior, a.releases[pid].newRelease, a.composition)
  }

  function PinsOf(pins: Option<EpochPins>): Option<LawPins>
  {
    if pins.Some? then Some(pins.value.pins) else None
  }

  /** What the replay of an artifact checks and the frontier law does not. */
  predicate ArtifactChecks(root: Manifest -> Root, parent: Manifest, a: Artifact, refs: References,
                           pins: Option<EpochPins>)
  {
    && SelfRefusal(root, a).None? && root(parent) == a.parentRoot && ContextRefusal(a, pins).None?
    && ClosureRefusal(parent, a, refs).None? && PinsOk(parent, a, pins)
  }

  /** What the frontier law checks and the replay of an artifact does not. */
  predicate FrontierChecks(parent: Manifest, t: Transition)
  {
    t.newRelease != t.expectedPrior && t.composition != parent.composition
  }

  lemma OneMove(parent: Manifest, a: Artifact, pid: string)
    requires a.releases.Keys == {pid} && pid in parent.profiles
    ensures Moved(parent.profiles, a.releases) == parent.profiles[pid := a.releases[pid].newRelease]
    ensures PriorsMatch(parent, a) <==> parent.profiles[pid] == a.releases[pid].expectedPrior
  {
    assert pid in a.releases;
    assert PriorsMatch(parent, a) ==> PriorAt(parent.profiles, a.releases, pid);
  }

  /** What both of them check. */
  predicate SharedChecks(root: Manifest -> Root, parent: Manifest, a: Artifact, pins: Option<EpochPins>)
  {
    && ValidManifest(parent) && PriorsMatch(parent, a) && parent.epoch <= a.epoch
    && root(Child(root, parent, a, pins)) == a.newRoot
  }

  lemma OutcomeIff(root: Manifest -> Root, parent: Manifest, a: Artifact, refs: References, pins: Option<EpochPins>)
    ensures var r := Outcome(root, parent, a, refs, pins);
            && (r.Accepted? <==> ArtifactChecks(root, parent, a, refs, pins) && SharedChecks(root, parent, a, pins))
            && (r.Accepted? ==> r.value == Child(root, parent, a, pins))
  {
  }

  lemma VerifyIff(root: Manifest -> Root, parent: Manifest, a: Artifact, pins: Option<EpochPins>, pid: string)
    requires a.releases.Keys == {pid} && pid in ProfileIds() && a.epoch <= MAX_EPOCH
    ensures var t := AsTransition(a, pid);
            var r := VerifyTransition(root, parent, t, a.newRoot, Some(a.epoch), PinsOf(pins));
            && (r.Accepted? <==> FrontierChecks(parent, t) && SharedChecks(root, parent, a, pins))
            && (r.Accepted? ==> r.value == Child(root, parent, a, pins))
  {
    if ValidManifest(parent) {
      OneMove(parent, a, pid);
    }
  }

  /**
   * On artifacts with one move the two accept together up to each other's extra checks, and what
   * they accept is the same manifest.
   */
  lemma ReplayAgreesIff(root: Manifest -> Root, parent: Manifest, a: Artifact, refs: References,
                        pins: Option<EpochPins>, pid: string)
    requires a.releases.Keys == {pid}
    ensures var t := AsTransition(a, pid);
            var replayed := Outcome(root, parent, a, refs, pins);
            var verified := VerifyTransition(root, parent, t, a.newRoot, Some(a.epoch), PinsOf(pins));
            && (replayed.Accepted? && FrontierChecks(parent, t)
                <==> verified.Accepted? && ArtifactChecks(root, parent, a, refs, pins))
            && (replayed.Accepted? && verified.Accepted? ==> replayed.value == verified.value)
  {
    OutcomeIff(root, parent, a, refs, pins);
    if pid in ProfileIds() && a.epoch <= MAX_EPOCH {
      VerifyIff(root, parent, a, pins, pid);
    } else {
      assert pid in a.releases;
    }
  }

  // ---- what only the replay accepts --------------------------------------------------------

  /** A move of one profile, stated as an artifact of the parent's epoch. */
  function OneMoveArtifact(root: Manifest -> Root, parent: Manifest, pid: string, release: Root, composition: Root)
    : Artifact
    requires pid in parent.profiles
  {
    var child := Manifest(parent.epoch, parent.pins, composition, root(parent), parent.profiles[pid := release]);
    Artifact(root(parent), root(child), composition, "", parent.epoch,
             map[pid := Move(parent.profiles[pid], release)], [pid], [], child)
  }

  lemma OneMoveAccepted(root: Manifest -> Root, parent: Manifest, pid: string, release: Root, composition: Root)
    requires ValidManifest(parent) && pid in ProfileIds()
    requires var a := OneMoveArtifact(root, parent, pid, release, composition);
             root(a.resulting) != root(parent)
    ensures var a := OneMoveArtifact(root, parent, pid, release, composition);
            Outcome(root, parent, a, None, None) == Accepted(a.resulting)
  {
    var a := OneMoveArtifact(root, parent, pid, release, composition);
    assert a.releases.Keys == {pid} && a.affected == [pid];
    OneMove(parent, a, pid);
    assert ClosureDeclared(parent, a, None) by {
      forall p | p in Elements(a.affected) ensures p in parent.profiles {
      }
    }
    ClosureAcceptedIff(parent, a, None);
  }

  /** A release moved under an unchanged composition: replayed, and refused by the frontier law. */
  lemma CompositionMayStay(root: Manifest -> Root, parent: Manifest, pid: string, release: Root)
    requires ValidManifest(parent) && pid in ProfileIds() && release != parent.profiles[pid]
    requires var a := OneMoveArtifact(root, parent, pid, release, parent.composition);
             root(a.resulting) != root(parent)
    ensures var a := OneMoveArtifact(root, parent, pid, release, parent.composition);
            && Outcome(root, parent, a, None, None).Accepted?
            && VerifyTransition(root, parent, AsTransition(a, pid), a.newRoot, Some(a.epoch), None)
               == Refused(CompositionUnchanged)
  {
    OneMoveAccepted(root, parent, pid, release, parent.composition);
  }

  /** A release replaced by itself under another composition: replayed, and refused as well. */
  lemma ReleaseMayStay(root: Manifest -> Root, parent: Manifest, pid: string, composition: Root)
    requires ValidManifest(parent) && pid in ProfileIds()
    requires var a := OneMoveArtifact(root, parent, pid, parent.profiles[pid], composition);
             root(a.resulting) != root(parent)
    ensures var a := OneMoveArtifact(root, parent, pid, parent.profiles[pid], composition);
            && Outcome(root, parent, a, None, None).Accepted?
            && VerifyTransition(root, parent, AsTransition(a, pid), a.newRoot, Some(a.epoch), None)
               == Refused(NoOpTransition)
  {
    OneMoveAccepted(root, parent, pid, parent.profiles[pid], composition);
  }
}

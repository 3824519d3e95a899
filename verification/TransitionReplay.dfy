/**
 * Deterministic replay of one transition artifact: the parent manifest and the artifact produce
 * exactly one resulting manifest, or one refusal.
 */
module TransitionReplay {
  import opened Outcomes
  import opened Names

  /** Content addresses. The hash is a parameter, `root`, so this type has to be unbounded. */
  type Root = string

  const MAX_EPOCH := 0xFFFF_FFFF_FFFF_FFFF

  /** The manifest fields an epoch context pins. */
  datatype LawPins = LawPins(benchmarkLaw: Root, runtimeAbi: Root)

  datatype Manifest = Manifest(epoch: nat, pins: LawPins, composition: Root, parentRoot: Root,
                               profiles: map<string, Root>)

  datatype Move = Move(expectedPrior: Root, newRelease: Root)

  datatype Artifact = Artifact(parentRoot: Root, newRoot: Root, composition: Root, contextRoot: Root,
                               epoch: nat, releases: map<string, Move>,
                               affected: seq<string>, shared: seq<string>, resulting: Manifest)

  /** An independently resolved epoch context. */
  datatype EpochPins = EpochPins(epoch: nat, contextRoot: Root, pins: LawPins)

  /** Which profiles reference each shared component, when the caller knows. */
  type References = Option<map<string, set<string>>>

  datatype Refusal =
    | Malformed | ParentMismatch | NoOp | ReplayRootMismatch | EpochContextMismatch
    | ReleasePriorMismatch | LawPinChange
    | ClosureMalformed | ClosureUnknownId | ClosureUnderdeclared | ClosureMismatch

  function ProfileIds(): set<string>
  {
    {"conv.pref.v1", "doc.tool.v1", "event.schema.v1"}
  }

  predicate ValidManifest(m: Manifest)
  {
    m.epoch <= MAX_EPOCH && m.profiles.Keys == ProfileIds()
  }

  // ---- structure and self-consistency ----------------------------------------------------

  predicate DeclarationOk(s: seq<string>)
  {
    "" !in s && StrictlyIncreasing(s)
  }

  function StructureRefusal(a: Artifact): Option<Refusal>
  {
    if !DeclarationOk(a.affected) || !DeclarationOk(a.shared) then Some(ClosureMalformed)
    else if a.epoch > MAX_EPOCH || !(a.releases.Keys <= ProfileIds()) || !ValidManifest(a.resulting)
      then Some(Malformed)
    else None
  }

  /** Every binding the artifact can check without its parent. */
  function SelfRefusal(root: Manifest -> Root, a: Artifact): Option<Refusal>
  {
    if StructureRefusal(a).Some? then StructureRefusal(a)
    else if a.resulting.parentRoot != a.parentRoot then Some(ParentMismatch)
    else if a.resulting.epoch != a.epoch then Some(Malformed)
    else if a.resulting.composition != a.composition then Some(Malformed)
    else if a.newRoot == a.parentRoot then Some(NoOp)
    else if root(a.resulting) != a.newRoot then Some(ReplayRootMismatch)
    else None
  }

  // ---- the dependency closure ------------------------------------------------------------

  function Table(refs: References): map<string, set<string>>
  {
    if refs.None? then map[] else refs.value
  }

  /** The profiles that reference some changed shared component. */
  function FanOut(a: Artifact, refs: References): set<string>
  {
    set c, p | c in a.shared && c in Table(refs) && p in Table(refs)[c] :: p
  }

  /** The independently derived closure: profiles moved directly, and through components. */
  function DerivedClosure(a: Artifact, refs: References): set<string>
  {
    a.releases.Keys + FanOut(a, refs)
  }

  /** The closure refusals in the order they are tried. */
  function ClosureRefusal(parent: Manifest, a: Artifact, refs: References): Option<Refusal>
  {
    if exists p :: p in a.affected && p !in parent.profiles then Some(ClosureUnknownId)
    else if exists c :: c in a.shared && c !in Table(refs) then Some(ClosureUnknownId)
    else if !(a.releases.Keys <= Elements(a.affected)) then Some(ClosureUnderdeclared)
    else if !(DerivedClosure(a, refs) <= Elements(a.affected)) then Some(ClosureMismatch)
    else None
  }

  /** The declaration is about the parent state and contains everything the change reaches. */
  ghost predicate ClosureDeclared(parent: Manifest, a: Artifact, refs: References)
  {
    && Elements(a.affected) <= parent.profiles.Keys
    && Elements(a.shared) <= Table(refs).Keys
    && (forall p :: p in a.releases ==> p in a.affected)
    && (forall c, p :: c in a.shared && c in Table(refs) && p in Table(refs)[c] ==> p in a.affected)
  }

  /** Containment, not equality: over-declaring passes, under-declaring does not. */
  lemma ClosureAcceptedIff(parent: Manifest, a: Artifact, refs: References)
    ensures ClosureRefusal(parent, a, refs) == None <==> ClosureDeclared(parent, a, refs)
  {
    if ClosureDeclared(parent, a, refs) {
      assert forall p :: p in a.affected ==> p in Elements(a.affected);
      assert forall c :: c in a.shared ==> c in Elements(a.shared);
    }
    if ClosureRefusal(parent, a, refs) == None {
      forall c, p | c in a.shared && c in Table(refs) && p in Table(refs)[c] ensures p in a.affected {
        assert p in DerivedClosure(a, refs);
      }
    }
  }

  // ---- pins ------------------------------------------------------------------------------

  function ContextRefusal(a: Artifact, pins: Option<EpochPins>): Option<Refusal>
  {
    if pins.None? then None
    else if pins.value.epoch > MAX_EPOCH then Some(Malformed)
    else if pins.value.epoch != a.epoch then Some(EpochContextMismatch)
    else if pins.value.contextRoot != a.contextRoot then Some(EpochContextMismatch)
    else None
  }

  /** The pins the child carries: the resolved ones if there are any, else its parent's. */
  function ChildPins(parent: Manifest, pins: Option<EpochPins>): LawPins
  {
    if pins.Some? then pins.value.pins else parent.pins
  }

  /** One pin against what the child must carry and what its parent carried. */
  predicate PinOk(stated: Root, child: Root, parentPin: Root, resolved: bool, inherited: bool)
  {
    stated == child && (resolved ==> parentPin == child || inherited)
  }

  predicate PinsOk(parent: Manifest, a: Artifact, pins: Option<EpochPins>)
  {
    var child, inherited := ChildPins(parent, pins), a.epoch > parent.epoch;
    && PinOk(a.resulting.pins.benchmarkLaw, child.benchmarkLaw, parent.pins.benchmarkLaw, pins.Some?, inherited)
    && PinOk(a.resulting.pins.runtimeAbi, child.runtimeAbi, parent.pins.runtimeAbi, pins.Some?, inherited)
  }

  // ---- replay ----------------------------------------------------------------------------

  /** A move's expected prior release is the one the map holds. */
  predicate PriorAt(before: map<string, Root>, releases: map<string, Move>, pid: string)
  {
    pid in before && pid in releases && before[pid] == releases[pid].expectedPrior
  }

  /** Every move does. */
  predicate PriorsMatch(parent: Manifest, a: Artifact)
  {
    forall p :: p in a.releases ==> PriorAt(parent.profiles, a.releases, p)
  }

  /** The profile map after every move. */
  function Moved(profiles: map<string, Root>, releases: map<string, Move>): map<string, Root>
  {
    profiles + map p | p in releases :: releases[p].newRelease
  }

  /** The manifest replay builds. */
  function Child(root: Manifest -> Root, parent: Manifest, a: Artifact, pins: Option<EpochPins>): Manifest
  {
    Manifest(a.epoch, ChildPins(parent, pins), a.composition, root(parent), Moved(parent.profiles, a.releases))
  }

  /** What replay answers, as a function of the artifact's map of moves. */
  function Outcome(root: Manifest -> Root, parent: Manifest, a: Artifact, refs: References,
                   pins: Option<EpochPins>): Result<Manifest, Refusal>
  {
    if SelfRefusal(root, a).Some? then Refused(SelfRefusal(root, a).value)
    else if !ValidManifest(parent) then Refused(Malformed)
    else if root(parent) != a.parentRoot then Refused(ParentMismatch)
    else if ContextRefusal(a, pins).Some? then Refused(ContextRefusal(a, pins).value)
    else if ClosureRefusal(parent, a, refs).Some? then Refused(ClosureRefusal(parent, a, refs).value)
    else if !PriorsMatch(parent, a) then Refused(ReleasePriorMismatch)
    else if a.epoch < parent.epoch then Refused(Malformed)
    else if !PinsOk(parent, a, pins) then Refused(LawPinChange)
    else if root(Child(root, parent, a, pins)) != a.newRoot then Refused(ReplayRootMismatch)
    else Accepted(Child(root, parent, a, pins))
  }

  /** The profile map once the moves in `done` are made. */
  function Applied(before: map<string, Root>, releases: map<string, Move>, done: seq<string>): map<string, Root>
  {
    before + map p | p in done && p in releases :: releases[p].newRelease
  }

  lemma AppliedOne(before: map<string, Root>, releases: map<string, Move>, done: seq<string>, pid: string)
    requires pid in before && pid in releases && pid !in done
    ensures pid in Applied(before, releases, done) && Applied(before, releases, done)[pid] == before[pid]
    ensures Applied(before, releases, done + [pid])
            == Applied(before, releases, done)[pid := releases[pid].newRelease]
  {
  }

  lemma AppliedStep(before: map<string, Root>, releases: map<string, Move>, order: seq<string>, k: nat)
    requires k < |order| && Enumerates(order, releases.Keys) && releases.Keys <= before.Keys
    ensures order[k] in releases && order[k] in before && order[..k + 1] == order[..k] + [order[k]]
    ensures order[k] in Applied(before, releases, order[..k])
    ensures Applied(before, releases, order[..k])[order[k]] == before[order[k]]
    ensures Applied(before, releases, order[..k + 1])
            == Applied(before, releases, order[..k])[order[k] := releases[order[k]].newRelease]
  {
    NextKey(order, releases.Keys, k);
    AppliedOne(before, releases, order[..k], order[k]);
  }

  lemma AppliedAll(before: map<string, Root>, releases: map<string, Move>, order: seq<string>)
    requires Enumerates(order, releases.Keys)
    ensures Applied(before, releases, order) == Moved(before, releases)
    ensures forall p :: p in releases ==> p in order
  {
  }

  /** The loop over the moves, in whatever order the dictionary yields them. */
  method ApplyMoves(before: map<string, Root>, releases: map<string, Move>, order: seq<string>)
    returns (r: Option<map<string, Root>>)
    requires releases.Keys <= before.Keys && Enumerates(order, releases.Keys)
    ensures r.Some? <==> forall p :: p in releases ==> PriorAt(before, releases, p)
    ensures r.Some? ==> r.value == Moved(before, releases)
  {
    var profiles := before;
    assert Applied(before, releases, order[..0]) == before;
    for k := 0 to |order|
      invariant profiles == Applied(before, releases, order[..k])
      invariant forall p :: p in order[..k] ==> PriorAt(before, releases, p)
    {
      var pid := order[k];
      AppliedStep(before, releases, order, k);
      if profiles[pid] != releases[pid].expectedPrior {
        return None;
      }
      profiles := profiles[pid := releases[pid].newRelease];
    }
    assert order[..|order|] == order;
    AppliedAll(before, releases, order);
    return Some(profiles);
  }

  /**
   * The replay of the source, with its loop over the moves in dictionary order. Whatever the
   * order, the answer is `Outcome`, which knows no order.
   */
  method Replay(root: Manifest -> Root, parent: Manifest, a: Artifact, order: seq<string>,
                refs: References, pins: Option<EpochPins>)
    returns (r: Result<Manifest, Refusal>)
    requires Enumerates(order, a.releases.Keys)
    ensures r == Outcome(root, parent, a, refs, pins)
  {
    var refusal := SelfRefusal(root, a);
    if refusal.Some? {
      return Refused(refusal.value);
    }
    if !ValidManifest(parent) {
      return Refused(Malformed);
    }
    var parentRoot := root(parent);
    if parentRoot != a.parentRoot {
      return Refused(ParentMismatch);
    }
    refusal := ContextRefusal(a, pins);
    if refusal.Some? {
      return Refused(refusal.value);
    }
    refusal := ClosureRefusal(parent, a, refs);
    if refusal.Some? {
      return Refused(refusal.value);
    }

    var moved := ApplyMoves(parent.profiles, a.releases, order);
    if moved.None? {
      return Refused(ReleasePriorMismatch);
    }
    if a.epoch < parent.epoch {
      return Refused(Malformed);
    }
    if !PinsOk(parent, a, pins) {
      return Refused(LawPinChange);
    }
    var replayed := parent.(epoch := a.epoch, parentRoot := parentRoot, profiles := moved.value,
                            composition := a.composition, pins := ChildPins(parent, pins));
    var replayedRoot := root(replayed);
    if replayedRoot != a.newRoot {
      return Refused(ReplayRootMismatch);
    }
    if replayedRoot == parentRoot {
      assert false;  // the source's second no-op check: the first one excludes it
    }
    return Accepted(replayed);
  }

  // ---- what an accepted replay means -----------------------------------------------------

  /** No two manifests share an address. */
  ghost predicate Injective(root: Manifest -> Root)
  {
    forall m, n :: root(m) == root(n) ==> m == n
  }

  /** The manifest the artifact states is its parent with the moves made and the pins of its epoch. */
  ghost predicate States(parent: Manifest, a: Artifact, pins: Option<EpochPins>)
  {
    && a.resulting.pins == (if pins.Some? then pins.value.pins else parent.pins)
    && a.resulting.epoch == a.epoch && a.resulting.composition == a.composition
    && a.resulting.parentRoot == a.parentRoot
    && a.resulting.profiles.Keys == parent.profiles.Keys
    && forall p :: p in a.resulting.profiles && p in parent.profiles ==>
         a.resulting.profiles[p] == if p in a.releases then a.releases[p].newRelease else parent.profiles[p]
  }

  lemma StatesIff(root: Manifest -> Root, parent: Manifest, a: Artifact, pins: Option<EpochPins>)
    requires root(parent) == a.parentRoot && a.releases.Keys <= parent.profiles.Keys
    ensures States(parent, a, pins) <==> a.resulting == Child(root, parent, a, pins)
  {
    assert States(parent, a, pins) ==> a.resulting.profiles == Moved(parent.profiles, a.releases);
  }

  lemma PriorsAre(parent: Manifest, a: Artifact)
    ensures PriorsMatch(parent, a) <==>
              forall p :: p in a.releases ==> p in parent.profiles && parent.profiles[p] == a.releases[p].expectedPrior
  {
    assert PriorsMatch(parent, a) ==> forall p :: p in a.releases ==> PriorAt(parent.profiles, a.releases, p);
  }

  /** Exactly the edges that replay: stated without the order in which they are checked. */
  ghost predicate Replayable(root: Manifest -> Root, parent: Manifest, a: Artifact, refs: References,
                             pins: Option<EpochPins>)
  {
    && ValidManifest(parent) && ValidManifest(a.resulting)
    && root(parent) == a.parentRoot && root(a.resulting) == a.newRoot && a.newRoot != a.parentRoot
    && "" !in a.affected && StrictlyIncreasing(a.affected) && "" !in a.shared && StrictlyIncreasing(a.shared)
    && ClosureDeclared(parent, a, refs)
    && (forall p :: p in a.releases ==> p in parent.profiles && parent.profiles[p] == a.releases[p].expectedPrior)
    && parent.epoch <= a.epoch
    && (pins.Some? ==> pins.value.epoch == a.epoch && pins.value.contextRoot == a.contextRoot)
    && (pins.Some? && a.epoch == parent.epoch ==> pins.value.pins == parent.pins)
    && States(parent, a, pins)
  }

  /**
   * Replay accepts exactly the replayable edges, and what it returns is the manifest the artifact
   * itself states.
   */
  lemma ReplayExact(root: Manifest -> Root, parent: Manifest, a: Artifact, refs: References,
                    pins: Option<EpochPins>)
    requires Injective(root)
    ensures Outcome(root, parent, a, refs, pins).Accepted? <==> Replayable(root, parent, a, refs, pins)
    ensures Outcome(root, parent, a, refs, pins).Accepted?
            ==> Outcome(root, parent, a, refs, pins).value == a.resulting
  {
    ClosureAcceptedIff(parent, a, refs);
    PriorsAre(parent, a);
    if Replayable(root, parent, a, refs, pins) {
      StatesIff(root, parent, a, pins);
      assert a.releases.Keys <= ProfileIds();
    } else if Outcome(root, parent, a, refs, pins).Accepted? {
      StatesIff(root, parent, a, pins);
    }
  }

  /**
   * The edit is confined: a profile outside the moves keeps its release, every moved profile is
   * declared, and the law pins stay unless a later epoch's resolved context sets them.
   */
  lemma ReplayFrame(root: Manifest -> Root, parent: Manifest, a: Artifact, refs: References,
                    pins: Option<EpochPins>)
    requires Outcome(root, parent, a, refs, pins).Accepted?
    ensures var m := Outcome(root, parent, a, refs, pins).value;
            && m.profiles.Keys == parent.profiles.Keys
            && m.pins == (if pins.Some? then pins.value.pins else parent.pins)
            && (forall p :: p in m.profiles && p !in a.releases ==> m.profiles[p] == parent.profiles[p])
            && (forall p :: p in a.releases ==>
                  p in a.affected && p in m.profiles
                  && parent.profiles[p] == a.releases[p].expectedPrior
                  && m.profiles[p] == a.releases[p].newRelease)
            && (m.pins != parent.pins ==>
                  parent.epoch < m.epoch && pins.Some? && pins.value.epoch == m.epoch && m.pins == pins.value.pins)
            && m.parentRoot == root(parent) != root(m)
            && m.epoch == a.epoch >= parent.epoch && m.composition == a.composition
  {
    ClosureAcceptedIff(parent, a, refs);
    forall p | p in a.releases ensures p in a.affected && p in parent.profiles {
      assert p in Elements(a.affected);
    }
  }

  /** One declaration per set: an accepted list is the only accepted list of its members. */
  lemma DeclarationUnique(s: seq<string>, t: seq<string>)
    requires DeclarationOk(s) && DeclarationOk(t) && Elements(s) == Elements(t)
    ensures s == t
  {
    StrictlyIncreasingUnique(s, t);
  }

  /** A component change may not skip a profile that depends on it. */
  lemma NoSilentFanOut(root: Manifest -> Root, parent: Manifest, a: Artifact, refs: References,
                       pins: Option<EpochPins>, component: string, profile: string)
    requires component in a.shared
    requires Outcome(root, parent, a, refs, pins).Accepted?
    ensures refs.Some? && component in refs.value
    ensures profile in refs.value[component] ==> profile in a.affected
  {
    ClosureAcceptedIff(parent, a, refs);
    assert component in Elements(a.shared);
  }
}

/**
 * One pass's score replays over the backlog: what each entry's circumstances do to it, whatever
 * the order in which the entries are visited.
 */
module BacklogDrain {
  import opened EvalBacklog
  import opened Outcomes

  /** An epoch's secret; `CommitMismatch` when it does not open the on-chain commitment. */
  datatype Secret = Unrevealed | Revealed | CommitMismatch

  /** The scorer context for an entry's pinned corpus and bundle. */
  datatype Context = Resolved | Unresolved | WrongCorpus

  /** What the pass finds out about one entry. `parentReady`: its parent state is in this window,
      or its snapshot was loaded and has the pinned root. `bound`: the fetched artifact passes the
      checks that tie it to an advance. */
  datatype Facts = Facts(secret: Secret, context: Context, parentReady: bool, bound: bool, scorePasses: bool)

  datatype Verdict = Stays | StaysUnresolved | Passes | Throws

  /** One round of the loop, up to its effect on the backlog. */
  function VerdictOf(f: Facts): Verdict
  {
    if f.secret.CommitMismatch? then Throws
    else if f.secret.Unrevealed? then Stays
    else if f.context.WrongCorpus? then Throws
    else if f.context.Unresolved? then StaysUnresolved
    else if !f.parentReady then Stays
    else if !f.bound then Throws
    else if f.scorePasses then Passes
    else Throws
  }

  /** The condition of the scan that decides whether a scorer is started at all. */
  predicate Drainable(f: Facts)
  {
    f.secret.Revealed? && f.parentReady
  }

  ghost predicate AnyDrainable(m: map<string, Entry>, facts: Entry -> Facts)
  {
    exists k :: k in m && Drainable(facts(m[k]))
  }

  /** The pass throws: nothing of it is committed. */
  ghost predicate Aborts(m: map<string, Entry>, facts: Entry -> Facts)
  {
    || (exists k :: k in m && facts(m[k]).secret.CommitMismatch?)
    || (AnyDrainable(m, facts) && exists k :: k in m && VerdictOf(facts(m[k])).Throws?)
  }

  function Marked(e: Entry, f: Facts): Entry
  {
    if VerdictOf(f).StaysUnresolved? then e.(reason := ContextUnresolved) else e
  }

  predicate Leaves(f: Facts)
  {
    VerdictOf(f).Passes?
  }

  /**
   * When a pass throws, field by field: a secret that does not open its commitment always stops
   * it; and once anything can be scored, so does a revealed entry with the wrong corpus, or with
   * a scorer and its parent state at hand and an artifact that is not bound or a score that does
   * not reproduce. An unrevealed secret, a missing parent state or a missing scorer never does.
   */
  lemma AbortsMeans(m: map<string, Entry>, facts: Entry -> Facts)
    ensures Aborts(m, facts) <==>
              || (exists k :: k in m && facts(m[k]).secret == CommitMismatch)
              || (&& (exists k :: k in m && facts(m[k]).secret == Revealed && facts(m[k]).parentReady)
                  && exists k :: k in m && facts(m[k]).secret == Revealed
                       && (|| facts(m[k]).context == WrongCorpus
                           || (&& facts(m[k]).context == Resolved && facts(m[k]).parentReady
                               && !(facts(m[k]).bound && facts(m[k]).scorePasses))))
  {
    if exists k :: k in m && facts(m[k]).secret == Revealed && facts(m[k]).parentReady {
      var k :| k in m && facts(m[k]).secret == Revealed && facts(m[k]).parentReady;
      assert Drainable(facts(m[k]));
    }
    ThrowsMeans(m, facts);
  }

  lemma ThrowsMeans(m: map<string, Entry>, facts: Entry -> Facts)
    ensures forall k :: k in m ==>
              (VerdictOf(facts(m[k])).Throws? <==>
                 || facts(m[k]).secret == CommitMismatch
                 || (&& facts(m[k]).secret == Revealed
                     && (|| facts(m[k]).context == WrongCorpus
                         || (&& facts(m[k]).context == Resolved && facts(m[k]).parentReady
                             && !(facts(m[k]).bound && facts(m[k]).scorePasses)))))
  {
  }

  /** The backlog once the entries under `done` have had their round. */
  ghost function Visited(m: map<string, Entry>, facts: Entry -> Facts, done: set<string>): map<string, Entry>
  {
    map k | k in m && !(k in done && Leaves(facts(m[k]))) :: if k in done then Marked(m[k], facts(m[k])) else m[k]
  }

  ghost function Drained(m: map<string, Entry>, facts: Entry -> Facts, skip: bool): map<string, Entry>
  {
    if skip || !AnyDrainable(m, facts) then m else Visited(m, facts, m.Keys)
  }

  /**
   * What a pass that goes through leaves, entry by entry. When it scores and anything can be
   * scored, exactly the entries whose score reproduces on a bound artifact leave, the revealed
   * ones without a scorer are marked, and all others stay as they were. Otherwise all stay.
   */
  lemma DrainedMeans(m: map<string, Entry>, facts: Entry -> Facts, skip: bool)
    ensures Drained(m, facts, skip) ==
              if skip || !(exists k :: k in m && facts(m[k]).secret == Revealed && facts(m[k]).parentReady) then m
              else
                map k | k in m && !(&& facts(m[k]).secret == Revealed && facts(m[k]).context == Resolved
                                    && facts(m[k]).parentReady && facts(m[k]).bound && facts(m[k]).scorePasses)
                  :: if facts(m[k]).secret == Revealed && facts(m[k]).context == Unresolved
                     then m[k].(reason := ContextUnresolved) else m[k]
  {
    if k :| k in m && Drainable(facts(m[k])) {
      assert facts(m[k]).secret == Revealed && facts(m[k]).parentReady;
    }
    if k :| k in m && facts(m[k]).secret == Revealed && facts(m[k]).parentReady {
      assert Drainable(facts(m[k]));
    }
  }

  /** One entry's round. */
  ghost function AfterRound(v: map<string, Entry>, e: Entry, f: Facts): map<string, Entry>
  {
    if Leaves(f) then v - {KeyOf(e)} else v[KeyOf(e) := Marked(e, f)]
  }

  lemma VisitStep(m: map<string, Entry>, facts: Entry -> Facts, done: set<string>, e: Entry)
    requires Keyed(m) && KeyOf(e) in m && m[KeyOf(e)] == e && KeyOf(e) !in done
    ensures KeyOf(e) in Visited(m, facts, done) && Visited(m, facts, done)[KeyOf(e)] == e
    ensures Visited(m, facts, done + {KeyOf(e)}) == AfterRound(Visited(m, facts, done), e, facts(e))
  {
  }

  ghost function KeysOf(s: Backlog): set<string>
  {
    set e | e in s :: KeyOf(e)
  }

  /** A refreshed reason, merged into the backlog the entry is in. */
  lemma MarkMerged(now: Backlog, v: map<string, Entry>, e: Entry, marked: Entry)
    requires IsListing(now, v) && KeyOf(e) in v && v[KeyOf(e)] == e
    requires marked == e.(reason := marked.reason)
    ensures Merged(ByKey(now), [marked]) == v[KeyOf(e) := marked]
  {
    ByKeyOfListing(now, v);
    assert [marked][..0] == [];
    assert Merged(v, [marked]) == Absorbed(v, marked);
  }

  method VisitOne(now: Backlog, e: Entry, f: Facts, ghost v: map<string, Entry>) returns (r: Option<Backlog>)
    requires IsListing(now, v) && KeyOf(e) in v && v[KeyOf(e)] == e
    ensures r.None? <==> VerdictOf(f).Throws?
    ensures r.Some? ==> IsListing(r.value, AfterRound(v, e, f))
  {
    match VerdictOf(f) {
      case Throws =>
        return None;
      case Passes =>
        RemoveListing(now, e, v);
        return Some(RemoveFromEvalBacklog(now, e));
      case StaysUnresolved =>
        MarkMerged(now, v, e, e.(reason := ContextUnresolved));
        var next := UpsertEvalBacklog(now, [e.(reason := ContextUnresolved)]);
        return Some(next);
      case Stays =>
        assert v[KeyOf(e) := e] == v;
        return Some(now);
    }
  }

  ghost predicate NoneThrew(m: map<string, Entry>, facts: Entry -> Facts, done: set<string>)
  {
    forall k :: k in done && k in m ==> !VerdictOf(facts(m[k])).Throws?
  }

  /** The loop over a copy of the backlog, which shrinks only by passing replays. */
  method VisitAll(backlog: Backlog, facts: Entry -> Facts, ghost m: map<string, Entry>)
    returns (r: Option<Backlog>)
    requires IsListing(backlog, m)
    ensures r.None? <==> exists k :: k in m && VerdictOf(facts(m[k])).Throws?
    ensures r.Some? ==> IsListing(r.value, Visited(m, facts, m.Keys))
    ensures r.None? <==>
              exists k :: k in m
                && (|| facts(m[k]).secret == CommitMismatch
                    || (&& facts(m[k]).secret == Revealed
                        && (|| facts(m[k]).context == WrongCorpus
                            || (&& facts(m[k]).context == Resolved && facts(m[k]).parentReady
                                && !(facts(m[k]).bound && facts(m[k]).scorePasses)))))
  {
    var now := backlog;
    ThrowsMeans(m, facts);
    assert Visited(m, facts, {}) == m;
    for i := 0 to |backlog|
      invariant IsListing(now, Visited(m, facts, KeysOf(backlog[..i])))
      invariant NoneThrew(m, facts, KeysOf(backlog[..i]))
    {
      KeysStep(backlog, m, i);
      VisitStep(m, facts, KeysOf(backlog[..i]), backlog[i]);
      var next := VisitOne(now, backlog[i], facts(backlog[i]), Visited(m, facts, KeysOf(backlog[..i])));
      if next.None? {
        return None;
      }
      now := next.value;
    }
    AllVisited(backlog, m);
    return Some(now);
  }

  lemma KeysStep(backlog: Backlog, m: map<string, Entry>, i: nat)
    requires IsListing(backlog, m) && i < |backlog|
    ensures KeysOf(backlog[..i + 1]) == KeysOf(backlog[..i]) + {KeyOf(backlog[i])}
    ensures KeyOf(backlog[i]) !in KeysOf(backlog[..i])
    ensures KeyOf(backlog[i]) in m && m[KeyOf(backlog[i])] == backlog[i]
  {
    assert backlog[i] in backlog;
    assert backlog[..i + 1] == backlog[..i] + [backlog[i]];
    forall e | e in backlog[..i] ensures KeyOf(e) != KeyOf(backlog[i]) {
      var j :| 0 <= j < i && backlog[j] == e;
      assert OrderedAt(backlog, j, i);
    }
  }

  lemma AllVisited(backlog: Backlog, m: map<string, Entry>)
    requires IsListing(backlog, m)
    ensures KeysOf(backlog[..|backlog|]) == m.Keys
    ensures forall k :: k in m ==> m[k] in backlog
  {
    assert backlog[..|backlog|] == backlog;
    forall k | k in m ensures m[k] in backlog && k in KeysOf(backlog) {
      assert KeyOf(m[k]) == k;
    }
  }

  /** The cheap scan before any scorer is started; it stops at the first drainable entry. */
  method Prescan(backlog: Backlog, facts: Entry -> Facts, ghost m: map<string, Entry>)
    returns (anyDrainable: Option<bool>)
    requires IsListing(backlog, m)
    ensures anyDrainable == Some(true) ==> AnyDrainable(m, facts)
    ensures anyDrainable == Some(false) ==> !AnyDrainable(m, facts)
    ensures anyDrainable == Some(false) ==> forall k :: k in m ==> !facts(m[k]).secret.CommitMismatch?
    ensures anyDrainable == None ==> exists k :: k in m && facts(m[k]).secret.CommitMismatch?
  {
    AllVisited(backlog, m);
    for i := 0 to |backlog|
      invariant forall e :: e in backlog[..i] ==> !Drainable(facts(e)) && !facts(e).secret.CommitMismatch?
    {
      var e := backlog[i];
      assert e in backlog && m[KeyOf(e)] == e;
      if facts(e).secret.CommitMismatch? {
        return None;
      }
      if Drainable(facts(e)) {
        return Some(true);
      }
      assert backlog[..i + 1] == backlog[..i] + [e];
    }
    assert backlog[..|backlog|] == backlog;
    return Some(false);
  }

  /**
   * The score replays of one pass. `None` is a thrown error, which ends the pass. Prescan, loop
   * order and the re-sorting after each change all cancel out: the outcome is a pointwise
   * function of the entries.
   */
  method DrainPass(backlog: Backlog, facts: Entry -> Facts, skip: bool, ghost m: map<string, Entry>)
    returns (r: Option<Backlog>)
    requires IsListing(backlog, m)
    ensures r.None? <==> !skip && Aborts(m, facts)
    ensures r.Some? ==> IsListing(r.value, Drained(m, facts, skip))
    ensures r.None? <==>
              && !skip
              && (|| (exists k :: k in m && facts(m[k]).secret == CommitMismatch)
                  || (&& (exists k :: k in m && facts(m[k]).secret == Revealed && facts(m[k]).parentReady)
                      && exists k :: k in m && facts(m[k]).secret == Revealed
                           && (|| facts(m[k]).context == WrongCorpus
                               || (&& facts(m[k]).context == Resolved && facts(m[k]).parentReady
                                   && !(facts(m[k]).bound && facts(m[k]).scorePasses)))))
    ensures r.Some? ==>
              var scored := !skip && exists k :: k in m && facts(m[k]).secret == Revealed && facts(m[k]).parentReady;
              IsListing(r.value,
                map k | k in m && !(&& scored && facts(m[k]).secret == Revealed && facts(m[k]).context == Resolved
                                    && facts(m[k]).parentReady && facts(m[k]).bound && facts(m[k]).scorePasses)
                  :: if scored && facts(m[k]).secret == Revealed && facts(m[k]).context == Unresolved
                     then m[k].(reason := ContextUnresolved) else m[k])
  {
    AbortsMeans(m, facts);
    DrainedMeans(m, facts, skip);
    r := RunPass(backlog, facts, skip, m);
  }

  method RunPass(backlog: Backlog, facts: Entry -> Facts, skip: bool, ghost m: map<string, Entry>)
    returns (r: Option<Backlog>)
    requires IsListing(backlog, m)
    ensures r.None? <==> !skip && Aborts(m, facts)
    ensures r.Some? ==> IsListing(r.value, Drained(m, facts, skip))
  {
    if skip {
      return Some(backlog);
    }
    var drainable := Prescan(backlog, facts, m);
    if drainable.None? {
      return None;
    }
    if !drainable.value {
      return Some(backlog);
    }
    r := VisitAll(backlog, facts, m);
    if r.Some? {
      assert forall k :: k in m && facts(m[k]).secret.CommitMismatch? ==> VerdictOf(facts(m[k])).Throws?;
    }
  }

  /** An entry leaves only by passing, and a completed pass has nothing that failed. */
  lemma LeavesOnlyByPassing(m: map<string, Entry>, facts: Entry -> Facts, skip: bool, key: string)
    requires Keyed(m) && key in m && (skip || !Aborts(m, facts))
    ensures key !in Drained(m, facts, skip) ==>
              !skip && facts(m[key]).secret.Revealed? && facts(m[key]).context.Resolved?
              && facts(m[key]).parentReady && facts(m[key]).bound && facts(m[key]).scorePasses
    ensures key in Drained(m, facts, skip) ==>
              Drained(m, facts, skip)[key] == m[key].(reason := Drained(m, facts, skip)[key].reason)
  {
  }

  lemma AllLeave(m: map<string, Entry>, facts: Entry -> Facts)
    requires forall k :: k in m ==> Leaves(facts(m[k]))
    ensures !Aborts(m, facts) && Drained(m, facts, false) == map[]
  {
    if k :| k in m {
      assert Drainable(facts(m[k]));
    }
  }

  /** A pass empties the backlog exactly when every entry passes. */
  lemma EmptiedIff(m: map<string, Entry>, facts: Entry -> Facts)
    requires !Aborts(m, facts)
    ensures Drained(m, facts, false) == map[] <==> forall k :: k in m ==> Leaves(facts(m[k]))
  {
    if k :| k in m && !Leaves(facts(m[k])) {
      assert k in Drained(m, facts, false);
    } else {
      AllLeave(m, facts);
    }
  }
}

/**
 * The eval backlog: every accepted advance that is still owed a passing score replay, kept as a
 * list with one entry per advance in a fixed order.
 */
module EvalBacklog {
  import opened Decimals
  import opened Names
  import opened Outcomes

  type Root = string

  datatype Reason = AwaitingReveal | AwaitingParentState | ContextUnresolved

  /** What the chain pinned for an advance, and who mined it. */
  datatype Pins = Pins(parentRoot: Root, corpusRoot: Root, coreVersion: Root, patchHash: Root, miner: string)

  datatype Entry = Entry(epoch: nat, hash: string, block: int, reason: Reason, pins: Pins,
                         snapshot: Option<string>)

  type Backlog = seq<Entry>

  /** The text the backlog is keyed by. */
  function KeyText(epoch: nat, hash: string): string
  {
    Decimal(epoch) + ":" + hash
  }

  function KeyOf(e: Entry): string
  {
    KeyText(e.epoch, e.hash)
  }

  /** A key names one advance: no epoch and hash run together into another pair's text. */
  lemma KeyInjective(epoch1: nat, hash1: string, epoch2: nat, hash2: string)
    requires KeyText(epoch1, hash1) == KeyText(epoch2, hash2)
    ensures epoch1 == epoch2 && hash1 == hash2
  {
    var s, a, b := KeyText(epoch1, hash1), |Decimal(epoch1)|, |Decimal(epoch2)|;
    assert s[a] == ':' && s[b] == ':';
    if b < a {
      DecimalDigits(epoch1, b);
    } else if a < b {
      DecimalDigits(epoch2, a);
    }
    assert Decimal(epoch1) == s[..a] == Decimal(epoch2);
    DecimalInjective(epoch1, epoch2);
    assert hash1 == s[a + 1..] == hash2;
  }

  // ---- merging ---------------------------------------------------------------------------

  /** A re-observed advance keeps its block, and its snapshot unless a new one is given. */
  function Refreshed(prior: Option<Entry>, e: Entry): Entry
  {
    if prior.None? then e
    else e.(block := prior.value.block, snapshot := if e.snapshot.Some? then e.snapshot else prior.value.snapshot)
  }

  function At(m: map<string, Entry>, key: string): Option<Entry>
  {
    if key in m then Some(m[key]) else None
  }

  function Absorbed(m: map<string, Entry>, e: Entry): map<string, Entry>
  {
    m[KeyOf(e) := Refreshed(At(m, KeyOf(e)), e)]
  }

  /** `m` with the entries of `incoming` merged in, one after the other. */
  function Merged(m: map<string, Entry>, incoming: Backlog): map<string, Entry>
  {
    if incoming == [] then m
    else
      var front := |incoming| - 1;
      Absorbed(Merged(m, incoming[..front]), incoming[front])
  }

  /** The entries of `s` by key; a later entry replaces an earlier one. */
  function ByKey(s: Backlog): map<string, Entry>
  {
    if s == [] then map[] else ByKey(s[..|s| - 1])[KeyOf(s[|s| - 1]) := s[|s| - 1]]
  }

  /** Every entry sits under its own key. */
  ghost predicate Keyed(m: map<string, Entry>)
  {
    forall k :: k in m ==> KeyOf(m[k]) == k
  }

  lemma {:induction false} ByKeyKeyed(s: Backlog)
    ensures Keyed(ByKey(s))
    ensures forall k :: k in ByKey(s) <==> exists i :: 0 <= i < |s| && KeyOf(s[i]) == k
    ensures forall k :: k in ByKey(s) ==> ByKey(s)[k] in s
  {
    if s != [] {
      ByKeyKeyed(s[..|s| - 1]);
    }
  }

  /** The reports of one advance in a list, oldest first. */
  function Reports(s: Backlog, key: string): Backlog
  {
    if s == [] then []
    else Reports(s[..|s| - 1], key) + if KeyOf(s[|s| - 1]) == key then [s[|s| - 1]] else []
  }

  /** The last snapshot the reports name, else the prior one. */
  function LastSnapshot(prior: Option<string>, reports: Backlog): Option<string>
  {
    if reports == [] then prior
    else if reports[|reports| - 1].snapshot.Some? then reports[|reports| - 1].snapshot
    else LastSnapshot(prior, reports[..|reports| - 1])
  }

  /** An advance's entry after the merge, read off its prior entry and its reports. */
  ghost predicate Summarises(after: Option<Entry>, prior: Option<Entry>, reports: Backlog)
  {
    if reports == [] then after == prior
    else
      var latest := reports[|reports| - 1];
      && after.Some?
      && after.value.reason == latest.reason && after.value.pins == latest.pins
      && after.value.block == (if prior.Some? then prior.value.block else reports[0].block)
      && after.value.snapshot
         == LastSnapshot(if prior.Some? then prior.value.snapshot else None, reports)
  }

  /**
   * What a merge does to one advance: it is never dropped; its latest report gives its reason and
   * pins; its block is the one it was first seen with; a snapshot once held is replaced only by
   * another.
   */
  lemma {:induction false} MergeMeaning(m: map<string, Entry>, incoming: Backlog, key: string)
    requires Keyed(m)
    ensures Keyed(Merged(m, incoming))
    ensures Summarises(At(Merged(m, incoming), key), At(m, key), Reports(incoming, key))
  {
    if incoming != [] {
      var front, last := incoming[..|incoming| - 1], incoming[|incoming| - 1];
      MergeMeaning(m, front, key);
      AbsorbedAt(Merged(m, front), last, key);
      if KeyOf(last) == key {
        SummaryStep(At(Merged(m, front), key), At(m, key), Reports(front, key), last);
      } else {
        assert Reports(incoming, key) == Reports(front, key);
      }
    }
  }

  lemma AbsorbedAt(m: map<string, Entry>, e: Entry, key: string)
    requires Keyed(m)
    ensures Keyed(Absorbed(m, e))
    ensures At(Absorbed(m, e), key) == if KeyOf(e) == key then Some(Refreshed(At(m, key), e)) else At(m, key)
  {
  }

  lemma SummaryStep(after: Option<Entry>, prior: Option<Entry>, reports: Backlog, e: Entry)
    requires Summarises(after, prior, reports)
    ensures Summarises(Some(Refreshed(after, e)), prior, reports + [e])
  {
    var longer := reports + [e];
    assert longer[..|longer| - 1] == reports && longer[|longer| - 1] == e;
  }

  /** Nothing is dropped, and no snapshot is lost. */
  lemma MergeKeeps(m: map<string, Entry>, incoming: Backlog, key: string)
    requires Keyed(m) && key in m
    ensures key in Merged(m, incoming)
    ensures m[key].snapshot.Some? ==> Merged(m, incoming)[key].snapshot.Some?
  {
    MergeMeaning(m, incoming, key);
    LastSnapshotKept(m[key].snapshot, Reports(incoming, key));
  }

  lemma {:induction false} LastSnapshotKept(prior: Option<string>, reports: Backlog)
    ensures prior.Some? ==> LastSnapshot(prior, reports).Some?
  {
    if reports != [] {
      LastSnapshotKept(prior, reports[..|reports| - 1]);
    }
  }

  // ---- the list --------------------------------------------------------------------------

  /** Swaps the colon, which the collation puts before the digits, with the slash, which no key has. */
  function Collated(key: string): (r: string)
    ensures |r| == |key| && forall i :: 0 <= i < |r| ==> r[i] == CollatedChar(key[i])
  {
    seq(|key|, i requires 0 <= i < |key| => CollatedChar(key[i]))
  }

  function CollatedChar(c: char): char
  {
    if c == ':' then '/' else if c == '/' then ':' else c
  }

  lemma CollatedInjective(a: string, b: string)
    requires Collated(a) == Collated(b)
    ensures a == b
  {
    forall i | 0 <= i < |a| ensures a[i] == b[i] {
      assert Collated(a)[i] == Collated(b)[i];
    }
  }

  /** `localeCompare` on two keys. */
  predicate KeyLeq(a: string, b: string)
  {
    Leq(Collated(a), Collated(b))
  }

  predicate KeyChars(key: string)
  {
    forall c :: c in key ==> '0' <= c
  }

  /**
   * What that comes to on keys, which have digits, letters and the colon: the first place where
   * they differ decides, and there the colon comes before everything and all else goes by code.
   */
  lemma KeyOrder(a: string, b: string, n: nat)
    requires KeyChars(a) && KeyChars(b) && n < |a| && n < |b| && a[..n] == b[..n] && a[n] != b[n]
    ensures KeyLeq(a, b) <==> a[n] == ':' || (b[n] != ':' && a[n] < b[n])
    ensures KeyLeq(b, a) <==> b[n] == ':' || (a[n] != ':' && b[n] < a[n])
  {
    var s, t := Collated(a), Collated(b);
    assert a[n] in a && b[n] in b;
    assert s[..n] == t[..n] by {
      assert forall i :: 0 <= i < n ==> a[i] == a[..n][i] == b[i];
    }
    if s[n] < t[n] {
      FirstDifference(s, t, n);
    } else {
      FirstDifference(t, s, n);
    }
  }

  /** A key that another one begins with comes first. */
  lemma PrefixFirst(a: string, b: string)
    requires a <= b
    ensures KeyLeq(a, b)
  {
    assert Collated(b)[..|a|] == Collated(a);
    PrefixLeq(Collated(a), Collated(b));
  }

  /** The order the source sorts by: block, then key. */
  predicate Before(a: Entry, b: Entry)
  {
    a.block < b.block || (a.block == b.block && KeyLeq(KeyOf(a), KeyOf(b)))
  }

  /** Of two epochs in one block the one that is a prefix of the other comes first. */
  lemma ShorterEpochFirst(a: Entry, b: Entry, digit: char)
    requires a.block == b.block && Decimal(b.epoch) == Decimal(a.epoch) + [digit] && '0' <= digit <= '9'
    ensures Before(a, b) && !Before(b, a)
  {
    var n := |Decimal(a.epoch)|;
    FirstDifference(Collated(KeyOf(a)), Collated(KeyOf(b)), n);
  }

  predicate OrderedAt(s: Backlog, i: nat, j: nat)
    requires i < j < |s|
  {
    Before(s[i], s[j]) && KeyOf(s[i]) != KeyOf(s[j])
  }

  /** `s` lists the entries of `m`, each once, in order. */
  ghost predicate IsListing(s: Backlog, m: map<string, Entry>)
  {
    && Keyed(m)
    && (forall i, j :: 0 <= i < j < |s| ==> OrderedAt(s, i, j))
    && (forall e :: e in s <==> KeyOf(e) in m && m[KeyOf(e)] == e)
  }

  /** Blocks never fall along a listing, and within a block keys rise. */
  ghost predicate Rises(s: Backlog)
  {
    forall i, j :: 0 <= i < j < |s| ==>
      && KeyOf(s[i]) != KeyOf(s[j])
      && (s[i].block < s[j].block || (s[i].block == s[j].block && KeyLeq(KeyOf(s[i]), KeyOf(s[j]))))
  }

  lemma ListingRises(s: Backlog, m: map<string, Entry>)
    requires IsListing(s, m)
    ensures Rises(s)
  {
    forall i, j | 0 <= i < j < |s|
      ensures KeyOf(s[i]) != KeyOf(s[j])
      ensures s[i].block < s[j].block || (s[i].block == s[j].block && KeyLeq(KeyOf(s[i]), KeyOf(s[j])))
    {
      assert OrderedAt(s, i, j);
    }
  }

  lemma BeforeTransitive(a: Entry, b: Entry, c: Entry)
    requires Before(a, b) && Before(b, c)
    ensures Before(a, c)
  {
    if a.block == b.block == c.block {
      LeqTransitive(Collated(KeyOf(a)), Collated(KeyOf(b)), Collated(KeyOf(c)));
    }
  }

  lemma BeforeTotal(a: Entry, b: Entry)
    ensures Before(a, b) || Before(b, a)
  {
    LeqTotal(Collated(KeyOf(a)), Collated(KeyOf(b)));
  }

  lemma FirstLeast(s: Backlog, m: map<string, Entry>, e: Entry)
    requires IsListing(s, m) && e in s
    ensures e == s[0] || (Before(s[0], e) && KeyOf(e) != KeyOf(s[0]))
  {
    var j :| 0 <= j < |s| && s[j] == e;
    assert j == 0 || OrderedAt(s, 0, j);
  }

  lemma ListingTail(s: Backlog, m: map<string, Entry>)
    requires IsListing(s, m) && s != []
    ensures IsListing(s[1..], m - {KeyOf(s[0])})
  {
    var t, rest := s[1..], m - {KeyOf(s[0])};
    forall i, j | 0 <= i < j < |t| ensures OrderedAt(t, i, j) {
      assert OrderedAt(s, i + 1, j + 1);
    }
    forall e | e in t ensures KeyOf(e) in rest && rest[KeyOf(e)] == e {
      var j :| 0 <= j < |t| && t[j] == e;
      assert OrderedAt(s, 0, j + 1) && e in s;
    }
    forall e | KeyOf(e) in rest && rest[KeyOf(e)] == e ensures e in t {
      assert e in s && e != s[0];
    }
  }

  lemma ListingEmpty(s: Backlog, m: map<string, Entry>)
    requires IsListing(s, m)
    ensures s == [] <==> m == map[]
  {
    if s != [] {
      assert s[0] in s;
    }
    if k :| k in m {
      assert m[k] in s;
    }
  }

  /** The order is total on keys, so a backlog has one listing. */
  lemma {:induction false} ListingUnique(s: Backlog, t: Backlog, m: map<string, Entry>)
    requires IsListing(s, m) && IsListing(t, m)
    ensures s == t
    decreases |s|
  {
    ListingEmpty(s, m);
    ListingEmpty(t, m);
    if s != [] {
      assert s[0] in t;
      FirstLeast(t, m, s[0]);
      assert t[0] in s;
      FirstLeast(s, m, t[0]);
      if s[0] != t[0] {
        LeqAntisymmetric(Collated(KeyOf(s[0])), Collated(KeyOf(t[0])));
        CollatedInjective(KeyOf(s[0]), KeyOf(t[0]));
        assert false;
      }
      ListingTail(s, m);
      ListingTail(t, m);
      ListingUnique(s[1..], t[1..], m - {KeyOf(s[0])});
      assert s == [s[0]] + s[1..] && t == [t[0]] + t[1..];
    }
  }

  /** `e` at its place in an ordered list. */
  function Inserted(e: Entry, s: Backlog): (r: Backlog)
    ensures forall x :: x in r <==> x == e || x in s
  {
    if s == [] then [e]
    else if Before(e, s[0]) then [e] + s
    else [s[0]] + Inserted(e, s[1..])
  }

  /** An ordered list with a lower entry put in front. */
  lemma HeadOn(head: Entry, tail: Backlog, m: map<string, Entry>)
    requires Keyed(m) && KeyOf(head) in m && m[KeyOf(head)] == head
    requires IsListing(tail, m - {KeyOf(head)})
    requires forall x :: x in tail ==> Before(head, x)
    ensures IsListing([head] + tail, m)
  {
    var s, rest := [head] + tail, m - {KeyOf(head)};
    forall i, j | 0 <= i < j < |s| ensures OrderedAt(s, i, j) {
      if i > 0 {
        assert OrderedAt(tail, i - 1, j - 1);
      } else {
        assert tail[j - 1] in tail && KeyOf(tail[j - 1]) in rest;
      }
    }
    forall e ensures e in s <==> KeyOf(e) in m && m[KeyOf(e)] == e {
      assert e in tail <==> KeyOf(e) in rest && rest[KeyOf(e)] == e;
    }
  }

  lemma {:induction false} InsertedListing(e: Entry, s: Backlog, m: map<string, Entry>)
    requires IsListing(s, m) && KeyOf(e) !in m
    ensures IsListing(Inserted(e, s), m[KeyOf(e) := e])
    decreases |s|
  {
    var after := m[KeyOf(e) := e];
    if s == [] || Before(e, s[0]) {
      forall x | x in s ensures Before(e, x) {
        FirstLeast(s, m, x);
        BeforeFirst(e, s[0], x);
      }
      assert after - {KeyOf(e)} == m;
      HeadOn(e, s, after);
      assert Inserted(e, s) == [e] + s;
    } else {
      var head := s[0];
      ListingTail(s, m);
      InsertedListing(e, s[1..], m - {KeyOf(head)});
      assert head in s;
      assert after - {KeyOf(head)} == (m - {KeyOf(head)})[KeyOf(e) := e];
      BeforeTotal(e, head);
      AllAfterFirst(s, m);
      HeadOn(head, Inserted(e, s[1..]), after);
    }
  }

  lemma AllAfterFirst(s: Backlog, m: map<string, Entry>)
    requires IsListing(s, m) && s != []
    ensures forall x :: x in s[1..] ==> Before(s[0], x)
  {
    forall j | 0 <= j < |s[1..]| ensures Before(s[0], s[1..][j]) {
      assert OrderedAt(s, 0, j + 1);
    }
  }

  lemma BeforeFirst(e: Entry, first: Entry, x: Entry)
    requires Before(e, first) && (x == first || Before(first, x))
    ensures Before(e, x)
  {
    if x != first {
      BeforeTransitive(e, first, x);
    }
  }

  // ---- the operations --------------------------------------------------------------------

  /** The values of a Map, sorted. */
  function SortedValues(m: map<string, Entry>, order: seq<string>): Backlog
    requires forall k :: k in order ==> k in m
  {
    if order == [] then []
    else
      var front := |order| - 1;
      Inserted(m[order[front]], SortedValues(m, order[..front]))
  }

  lemma {:induction false} SortedValuesListing(m: map<string, Entry>, order: seq<string>)
    requires Keyed(m) && Once(order) && forall k :: k in order ==> k in m
    ensures IsListing(SortedValues(m, order), map k | k in m && k in order :: m[k])
  {
    var part := map k | k in m && k in order :: m[k];
    if order != [] {
      var front, last := order[..|order| - 1], order[|order| - 1];
      KeysFront(order);
      SortedValuesListing(m, front);
      var smaller := map k | k in m && k in front :: m[k];
      InsertedListing(m[last], SortedValues(m, front), smaller);
      assert part == smaller[last := m[last]];
    }
  }

  /** A backlog read into a Map, with the keys in insertion order. */
  method IndexByKey(existing: Backlog) returns (byKey: map<string, Entry>, order: seq<string>)
    ensures byKey == ByKey(existing) && Keyed(byKey) && Enumerates(order, byKey.Keys)
  {
    byKey, order := map[], [];
    assert existing[..0] == [];
    for i := 0 to |existing|
      invariant byKey == ByKey(existing[..i]) && Enumerates(order, byKey.Keys)
    {
      var key := KeyOf(existing[i]);
      assert existing[..i + 1][..i] == existing[..i];
      if key !in byKey {
        OneMoreKey(order, byKey.Keys, key);
        order := order + [key];
      }
      byKey := byKey[key := existing[i]];
    }
    assert existing[..|existing|] == existing;
    ByKeyKeyed(existing);
  }

  /** Merges freshly pending entries into a backlog, through a Map in insertion order. */
  method UpsertEvalBacklog(existing: Backlog, incoming: Backlog) returns (r: Backlog)
    ensures IsListing(r, Merged(ByKey(existing), incoming))
    ensures Rises(r)
  {
    var byKey, order := IndexByKey(existing);
    ghost var start := byKey;
    assert incoming[..0] == [];
    for i := 0 to |incoming|
      invariant byKey == Merged(start, incoming[..i]) && Keyed(byKey) && Enumerates(order, byKey.Keys)
    {
      var e, key := incoming[i], KeyOf(incoming[i]);
      assert incoming[..i + 1][..i] == incoming[..i];
      if key !in byKey {
        OneMoreKey(order, byKey.Keys, key);
        order := order + [key];
      }
      byKey := byKey[key := Refreshed(At(byKey, key), e)];
    }
    assert incoming[..|incoming|] == incoming;
    SortedValuesListing(byKey, order);
    assert byKey == map k | k in byKey && k in order :: byKey[k];
    r := SortedValues(byKey, order);
    ListingRises(r, byKey);
  }

  /** A listing read back into a Map gives the entries it lists. */
  lemma ByKeyOfListing(s: Backlog, m: map<string, Entry>)
    requires IsListing(s, m)
    ensures ByKey(s) == m
  {
    ByKeyKeyed(s);
    forall k | k in m ensures k in ByKey(s) && ByKey(s)[k] == m[k] {
      assert m[k] in s;
      var i :| 0 <= i < |s| && s[i] == m[k];
      assert KeyOf(s[i]) == k;
      assert ByKey(s)[k] in s;
    }
    forall k | k in ByKey(s) ensures k in m {
      assert ByKey(s)[k] in s;
    }
  }

  function RemoveFromEvalBacklog(backlog: Backlog, e: Entry): (r: Backlog)
    ensures forall x :: x in r <==> x in backlog && KeyOf(x) != KeyOf(e)
  {
    if backlog == [] then []
    else if KeyOf(backlog[0]) == KeyOf(e) then RemoveFromEvalBacklog(backlog[1..], e)
    else [backlog[0]] + RemoveFromEvalBacklog(backlog[1..], e)
  }

  /** Removal takes out the one advance and leaves the others, still in order. */
  lemma {:induction false} RemoveListing(backlog: Backlog, e: Entry, m: map<string, Entry>)
    requires IsListing(backlog, m)
    ensures IsListing(RemoveFromEvalBacklog(backlog, e), m - {KeyOf(e)})
    decreases |backlog|
  {
    if backlog == [] {
      ListingEmpty(backlog, m);
      assert m - {KeyOf(e)} == m;
    } else {
      var head, less := backlog[0], m - {KeyOf(e)};
      ListingTail(backlog, m);
      RemoveListing(backlog[1..], e, m - {KeyOf(head)});
      assert head in backlog;
      if KeyOf(head) == KeyOf(e) {
        assert m - {KeyOf(head)} - {KeyOf(e)} == less;
      } else {
        assert m - {KeyOf(head)} - {KeyOf(e)} == less - {KeyOf(head)};
        AllAfterFirst(backlog, m);
        HeadOn(head, RemoveFromEvalBacklog(backlog[1..], e), less);
      }
    }
  }
}

/** The bounded least-recently-used cache of materialised corpora. */
module CorpusCache {
  import opened Names
  import opened Outcomes

  /** Each key of `uses` once, in the order of its last use. */
  function ByLastUse(uses: seq<string>): (r: seq<string>)
    ensures forall k :: k in r <==> k in uses
  {
    if uses == [] then []
    else Without(ByLastUse(uses[..|uses| - 1]), uses[|uses| - 1]) + [uses[|uses| - 1]]
  }

  function Without(s: seq<string>, k: string): (r: seq<string>)
    ensures forall x :: x in r <==> x in s && x != k
    ensures |r| <= |s|
  {
    if s == [] then []
    else if s[0] == k then Without(s[1..], k)
    else [s[0]] + Without(s[1..], k)
  }

  /** The last `n` entries, or all of them. */
  function Newest(s: seq<string>, n: nat): (r: seq<string>)
    ensures |r| == if |s| <= n then |s| else n
  {
    if |s| <= n then s else s[|s| - n..]
  }

  lemma {:induction false} WithoutAbsent(s: seq<string>, k: string)
    requires k !in s
    ensures Without(s, k) == s
  {
    if s != [] {
      WithoutAbsent(s[1..], k);
    }
  }

  lemma {:induction false} WithoutConcat(s: seq<string>, t: seq<string>, k: string)
    ensures Without(s + t, k) == Without(s, k) + Without(t, k)
  {
    if s == [] {
      assert s + t == t;
    } else {
      WithoutConcat(s[1..], t, k);
      assert (s + t)[1..] == s[1..] + t && (s + t)[0] == s[0];
      var head, rest := [s[0]], Without(s[1..], k);
      assert head + (rest + Without(t, k)) == head + rest + Without(t, k);
    }
  }

  lemma {:induction false} WithoutOnce(s: seq<string>, k: string)
    requires Once(s)
    ensures Once(Without(s, k)) && |Without(s, k)| == |s| - if k in s then 1 else 0
  {
    if s != [] {
      OnceTail(s);
      WithoutOnce(s[1..], k);
      if s[0] != k {
        OnceCons(s[0], Without(s[1..], k));
      }
    }
  }

  lemma OnceTail(s: seq<string>)
    requires s != [] && Once(s)
    ensures Once(s[1..]) && s[0] !in s[1..]
  {
    forall i | 0 <= i < |s| - 1 ensures FirstAt(s[1..], i) && s[1..][i] != s[0] {
      assert FirstAt(s, i + 1);
      assert s[..i + 1] == [s[0]] + s[1..][..i];
    }
  }

  lemma OnceCons(x: string, s: seq<string>)
    requires Once(s) && x !in s
    ensures Once([x] + s)
  {
    forall i | 0 <= i < |s| + 1 ensures FirstAt([x] + s, i) {
      if i > 0 {
        assert FirstAt(s, i - 1);
        assert ([x] + s)[..i] == [x] + s[..i - 1];
      }
    }
  }

  lemma OnceAppend(s: seq<string>, x: string)
    requires Once(s) && x !in s
    ensures Once(s + [x])
  {
    forall i | 0 <= i < |s| + 1 ensures FirstAt(s + [x], i) {
      if i < |s| {
        assert FirstAt(s, i);
        assert (s + [x])[..i] == s[..i];
      } else {
        assert (s + [x])[..i] == s;
      }
    }
  }

  lemma {:induction false} ByLastUseOnce(uses: seq<string>)
    ensures Once(ByLastUse(uses))
  {
    if uses != [] {
      var front, k := uses[..|uses| - 1], uses[|uses| - 1];
      ByLastUseOnce(front);
      WithoutOnce(ByLastUse(front), k);
      OnceAppend(Without(ByLastUse(front), k), k);
    }
  }

  lemma NewestOf(dropped: seq<string>, recent: seq<string>)
    ensures Newest(dropped + recent, |recent|) == recent
  {
    assert (dropped + recent)[|dropped|..] == recent;
  }

  lemma WithoutBefore(gone: seq<string>, kept: seq<string>, k: string)
    requires k !in gone
    ensures Without(gone + kept, k) + [k] == gone + (Without(kept, k) + [k])
  {
    WithoutAbsent(gone, k);
    WithoutConcat(gone, kept, k);
  }

  /** A use of a key the cache holds moves it to the end and changes nothing else. */
  lemma UseHeld(d: seq<string>, n: nat, k: string)
    requires Once(d) && k in Newest(d, n)
    ensures Newest(Without(d, k) + [k], n) == Without(Newest(d, n), k) + [k]
  {
    WithoutOnce(d, k);
    if |d| > n {
      var gone, kept := d[..|d| - n], Newest(d, n);
      assert d == gone + kept;
      OldAbsent(d, |d| - n, k);
      NewestOnce(d, n);
      WithoutOnce(kept, k);
      WithoutBefore(gone, kept, k);
      NewestOf(gone, Without(kept, k) + [k]);
    }
  }

  lemma OldAbsent(d: seq<string>, cut: nat, k: string)
    requires Once(d) && cut <= |d| && k in d[cut..]
    ensures k !in d[..cut]
  {
    var i :| cut <= i < |d| && d[i] == k;
    assert FirstAt(d, i);
    assert forall j :: 0 <= j < cut ==> d[j] in d[..i];
  }

  lemma NewestSuffix(dropped: seq<string>, recent: seq<string>, n: nat)
    requires n <= |recent|
    ensures Newest(dropped + recent, n) == Newest(recent, n)
  {
    assert (dropped + recent)[|dropped + recent| - n..] == recent[|recent| - n..];
  }

  /** A new key pushes out the oldest one when the cache is full. */
  lemma UseNew(d: seq<string>, n: nat, k: string)
    requires Once(d) && k !in Newest(d, n)
    ensures Newest(Without(d, k) + [k], n) == Newest(Newest(d, n) + [k], n)
  {
    if |d| <= n {
      WithoutAbsent(d, k);
    } else {
      var gone, kept := d[..|d| - n], d[|d| - n..];
      assert d == gone + kept;
      WithoutConcat(gone, kept, k);
      WithoutAbsent(kept, k);
      assert Without(d, k) + [k] == Without(gone, k) + (kept + [k]);
      NewestSuffix(Without(gone, k), kept + [k], n);
    }
  }

  lemma StoreKeepsNewest(d: seq<string>, n: nat, k: string)
    requires Once(d)
    ensures Newest(Without(d, k) + [k], n) == Newest(Without(Newest(d, n), k) + [k], n)
  {
    if k in Newest(d, n) {
      UseHeld(d, n, k);
      NewestOnce(d, n);
      WithoutOnce(Newest(d, n), k);
    } else {
      UseNew(d, n, k);
      WithoutAbsent(Newest(d, n), k);
    }
  }

  // ---- what the cache holds --------------------------------------------------------------

  /** The keys used since the last use of `k`. */
  function UsedSince(uses: seq<string>, k: string): set<string>
  {
    if uses == [] || uses[|uses| - 1] == k then {}
    else UsedSince(uses[..|uses| - 1], k) + {uses[|uses| - 1]}
  }

  lemma {:induction false} OnceSize(s: seq<string>)
    requires Once(s)
    ensures |Elements(s)| == |s|
  {
    if s != [] {
      OnceTail(s);
      OnceSize(s[1..]);
      assert Elements(s) == Elements(s[1..]) + {s[0]};
    }
  }

  lemma OnceSuffix(a: seq<string>, b: seq<string>)
    requires Once(a + b)
    ensures Once(b)
  {
    forall i | 0 <= i < |b| ensures FirstAt(b, i) {
      assert FirstAt(a + b, |a| + i);
      assert (a + b)[..|a| + i] == a + b[..i];
    }
  }

  /** What follows a key in the order of last use is what was used since. */
  lemma {:induction false} SplitAtKey(uses: seq<string>, k: string) returns (a: seq<string>, b: seq<string>)
    requires k in uses
    ensures ByLastUse(uses) == a + [k] + b && Elements(b) == UsedSince(uses, k)
  {
    var front, x := uses[..|uses| - 1], uses[|uses| - 1];
    if x == k {
      a, b := Without(ByLastUse(front), k), [];
    } else {
      var a0, b0 := SplitAtKey(front, k);
      WithoutConcat(a0 + [k], b0, x);
      WithoutConcat(a0, [k], x);
      WithoutAbsent([k], x);
      a, b := Without(a0, x), Without(b0, x) + [x];
      assert ByLastUse(uses) == a + [k] + b;
    }
  }

  /** A key is held exactly when it was used and fewer than `n` others were used since. */
  lemma HeldIff(uses: seq<string>, n: nat, k: string)
    ensures k in Newest(ByLastUse(uses), n) <==> k in uses && |UsedSince(uses, k)| < n
  {
    if k in uses {
      var a, b := SplitAtKey(uses, k);
      var d := ByLastUse(uses);
      ByLastUseOnce(uses);
      OnceSuffix(a + [k], b);
      OnceSize(b);
      assert FirstAt(d, |a|) && d[..|a|] == a;
      if |b| < n {
        assert Newest(d, n)[|Newest(d, n)| - 1 - |b|] == k;
      } else {
        TailSkips(a, k, b, n);
      }
    }
  }

  lemma TailSkips(a: seq<string>, k: string, b: seq<string>, n: nat)
    requires Once(a + [k] + b) && n <= |b|
    ensures k !in Newest(a + [k] + b, n)
  {
    var d := a + [k] + b;
    forall i | |d| - n <= i < |d| ensures d[i] != k {
      assert FirstAt(d, i);
      assert d[|a|] in d[..i];
    }
  }

  /** The last key used is held, unless nothing is. */
  lemma LastHeld(uses: seq<string>, n: nat)
    requires uses != [] && n >= 1
    ensures uses[|uses| - 1] in Newest(ByLastUse(uses), n)
  {
    var k := uses[|uses| - 1];
    LastOfNewest(Without(ByLastUse(uses[..|uses| - 1]), k), k, n);
  }

  lemma LastOfNewest(s: seq<string>, k: string, n: nat)
    requires n >= 1
    ensures k in Newest(s + [k], n)
  {
    var d := Newest(s + [k], n);
    assert d[|d| - 1] == k;
  }

  /** A run of different keys ends the order of last use. */
  lemma {:induction false} RunLast(uses: seq<string>, run: seq<string>) returns (d: seq<string>)
    requires Once(run)
    ensures ByLastUse(uses + run) == d + run
  {
    if run == [] {
      assert uses + run == uses;
      d := ByLastUse(uses);
    } else {
      var front, k := run[..|run| - 1], run[|run| - 1];
      assert run == front + [k] && FirstAt(run, |run| - 1);
      assert Once(front) by {
        forall i | 0 <= i < |front| ensures FirstAt(front, i) {
          assert FirstAt(run, i) && run[..i] == front[..i];
        }
      }
      var d0 := RunLast(uses, front);
      assert uses + run == uses + front + [k];
      UsesGrow(uses + front, k);
      WithoutConcat(d0, front, k);
      WithoutAbsent(front, k);
      d := Without(d0, k);
    }
  }

  /** After a run of at least `n` different keys the cache holds exactly the last `n` of them. */
  lemma RunFills(uses: seq<string>, run: seq<string>, n: nat)
    requires Once(run) && n <= |run|
    ensures Newest(ByLastUse(uses + run), n) == run[|run| - n..]
  {
    var d := RunLast(uses, run);
    assert (d + run)[|d + run| - n..] == run[|run| - n..];
  }

  /** Using the last key again changes nothing. */
  lemma UseAgain(uses: seq<string>, k: string)
    requires uses != [] && uses[|uses| - 1] == k
    ensures ByLastUse(uses + [k]) == ByLastUse(uses)
  {
    var rest := Without(ByLastUse(uses[..|uses| - 1]), k);
    UsesGrow(uses, k);
    WithoutConcat(rest, [k], k);
    WithoutAbsent(rest, k);
  }

  // ---- the object ------------------------------------------------------------------------

  class MaterializedCorpusCache<V> {
    const limit: int
    /** A Map: its entries, and its keys in insertion order. */
    var values: map<string, V>
    var order: seq<string>
    /** Every use so far, hits and stores, and the last value stored under each key. */
    ghost var uses: seq<string>
    ghost var stored: map<string, V>

    function Bound(): nat
    {
      if limit < 0 then 0 else limit
    }

    ghost predicate Valid()
      reads this
    {
      && order == Newest(ByLastUse(uses), Bound())
      && (forall k :: k in order <==> k in values)
      && (forall k :: k in values ==> k in stored && values[k] == stored[k])
    }

    constructor (bound: int)
      ensures Valid() && uses == [] && stored == map[] && limit == bound
    {
      limit := bound;
      values, order, uses, stored := map[], [], [], map[];
    }

    lemma HeldWereUsed()
      requires Valid()
      ensures forall k :: k in values ==> k in uses
    {
      forall k | k in values ensures k in uses {
        assert k in Newest(ByLastUse(uses), Bound());
      }
    }

    /** A hit refreshes the key's recency. */
    method Get(root: string) returns (hit: Option<V>)
      requires Valid()
      modifies this
      ensures Valid() && values == old(values) && stored == old(stored)
      ensures hit == if root in old(values) then Some(old(values)[root]) else None
      ensures uses == old(uses) + if hit.Some? then [root] else []
    {
      if root !in values {
        return None;
      }
      hit := Some(values[root]);
      UsesGrow(uses, root);
      ByLastUseOnce(uses);
      UseHeld(ByLastUse(uses), Bound(), root);
      order := Without(order, root) + [root];
      uses := uses + [root];
    }

    /** Stores a corpus and evicts the oldest ones past the limit. */
    method Set(root: string, corpus: V)
      requires Valid()
      modifies this
      ensures Valid() && uses == old(uses) + [root] && stored == old(stored)[root := corpus]
      ensures limit >= 1 ==> root in values && values[root] == corpus
    {
      ghost var d := ByLastUse(uses);
      UsesGrow(uses, root);
      ByLastUseOnce(uses);
      StoreKeepsNewest(d, Bound(), root);
      NewestOnce(d, Bound());
      WithoutOnceAppended(order, root);
      order := Without(order, root) + [root];
      values := values[root := corpus];
      uses := uses + [root];
      stored := stored[root := corpus];
      Evict();
      if limit >= 1 {
        LastHeld(uses, Bound());
      }
    }

    /** Deletes the oldest keys past the limit. */
    method Evict()
      requires Once(order) && forall k :: k in order <==> k in values
      modifies `order, `values
      ensures order == Newest(old(order), Bound())
      ensures forall k :: k in order <==> k in values
      ensures forall k :: k in values ==> k in old(values) && values[k] == old(values)[k]
    {
      while |order| > limit
        invariant Once(order)
        invariant |order| <= |old(order)| && order == old(order)[|old(order)| - |order|..]
        invariant |order| >= Bound() || |order| == |old(order)|
        invariant forall k :: k in order <==> k in values
        invariant forall k :: k in values ==> k in old(values) && values[k] == old(values)[k]
        decreases |order|
      {
        if order == [] {
          break;
        }
        var oldest := order[0];
        OnceTail(order);
        assert forall k :: k in order <==> k == oldest || k in order[1..];
        values := values - {oldest};
        order := order[1..];
      }
    }
  }

  lemma WithoutOnceAppended(s: seq<string>, k: string)
    requires Once(s)
    ensures Once(Without(s, k) + [k])
  {
    WithoutOnce(s, k);
    OnceAppend(Without(s, k), k);
  }

  lemma NewestOnce(d: seq<string>, n: nat)
    requires Once(d)
    ensures Once(Newest(d, n))
  {
    if |d| > n {
      assert d == d[..|d| - n] + d[|d| - n..];
      OnceSuffix(d[..|d| - n], d[|d| - n..]);
    }
  }

  lemma UsesGrow(uses: seq<string>, k: string)
    ensures ByLastUse(uses + [k]) == Without(ByLastUse(uses), k) + [k]
  {
    assert (uses + [k])[..|uses|] == uses;
  }
}

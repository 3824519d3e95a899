/** Names ordered by code point, and the sorted lists the documents carry. */
module Names {

  /** Lexicographic order by code point; Python's `<=` on strings. */
  predicate Leq(a: string, b: string)
  {
    a == [] || (b != [] && (a[0] < b[0] || (a[0] == b[0] && Leq(a[1..], b[1..]))))
  }

  predicate Less(a: string, b: string)
  {
    a != b && Leq(a, b)
  }

  lemma {:induction false} LeqTotal(a: string, b: string)
    ensures Leq(a, b) || Leq(b, a)
  {
    if a != [] && b != [] && a[0] == b[0] {
      LeqTotal(a[1..], b[1..]);
    }
  }

  lemma {:induction false} LeqAntisymmetric(a: string, b: string)
    requires Leq(a, b) && Leq(b, a)
    ensures a == b
  {
    if a != [] && b != [] {
      LeqAntisymmetric(a[1..], b[1..]);
      assert a == [a[0]] + a[1..] && b == [b[0]] + b[1..];
    }
  }

  lemma {:induction false} LeqTransitive(a: string, b: string, c: string)
    requires Leq(a, b) && Leq(b, c)
    ensures Leq(a, c)
  {
    if a != [] && a[0] == b[0] && b[0] == c[0] {
      LeqTransitive(a[1..], b[1..], c[1..]);
    }
  }

  /** The first place where two names differ decides: the lower code point comes first. */
  lemma {:induction false} FirstDifference(a: string, b: string, n: nat)
    requires n < |a| && n < |b| && a[..n] == b[..n] && a[n] < b[n]
    ensures Leq(a, b) && !Leq(b, a)
  {
    if n > 0 {
      assert a[0] == a[..n][0] == b[0];
      assert a[1..][..n - 1] == a[..n][1..] == b[1..][..n - 1];
      FirstDifference(a[1..], b[1..], n - 1);
    }
  }

  /** A name that another one begins with comes first. */
  lemma {:induction false} PrefixLeq(a: string, b: string)
    requires |a| <= |b| && b[..|a|] == a
    ensures Leq(a, b)
  {
    if a != [] {
      assert a[0] == b[..|a|][0] && a[1..] == b[1..][..|a| - 1];
      PrefixLeq(a[1..], b[1..]);
    }
  }

  ghost predicate Sorted(s: seq<string>)
  {
    forall i, j :: 0 <= i < j < |s| ==> Leq(s[i], s[j])
  }

  /** The test `_check_sorted_id_list` makes: each entry above the one before it. */
  predicate StrictlyIncreasing(s: seq<string>)
  {
    forall i :: 1 <= i < |s| ==> Less(s[i - 1], s[i])
  }

  function Elements(s: seq<string>): set<string>
  {
    set x | x in s
  }

  predicate FirstAt(s: seq<string>, i: nat)
    requires i < |s|
  {
    s[i] !in s[..i]
  }

  ghost predicate Once(s: seq<string>)
  {
    forall i :: 0 <= i < |s| ==> FirstAt(s, i)
  }

  /** `order` lists the keys, each once: the order in which a dictionary yields them. */
  ghost predicate Enumerates(order: seq<string>, keys: set<string>)
  {
    (forall k :: k in order <==> k in keys) && Once(order)
  }

  lemma KeysFront(order: seq<string>)
    requires order != [] && Once(order)
    ensures var front := order[..|order| - 1];
            order == front + [order[|order| - 1]] && order[|order| - 1] !in front && Once(front)
  {
    var front := order[..|order| - 1];
    assert FirstAt(order, |order| - 1);
    forall i | 0 <= i < |front| ensures FirstAt(front, i) {
      assert FirstAt(order, i) && order[..i] == front[..i];
    }
  }

  lemma OneMoreKey(order: seq<string>, keys: set<string>, key: string)
    requires Enumerates(order, keys) && key !in keys
    ensures Enumerates(order + [key], keys + {key})
  {
    forall i | 0 <= i < |order| + 1 ensures FirstAt(order + [key], i) {
      assert (order + [key])[..i] == order[..i];
      assert i < |order| ==> FirstAt(order, i);
    }
  }

  lemma NextKey(order: seq<string>, keys: set<string>, k: nat)
    requires k < |order| && Enumerates(order, keys)
    ensures order[k] in keys && order[k] !in order[..k] && order[..k + 1] == order[..k] + [order[k]]
  {
    assert FirstAt(order, k) && order[k] in order;
  }

  /** `s` is what Python's `sorted` returns for the names counted by `m`. */
  ghost predicate IsSorting(s: seq<string>, m: multiset<string>)
  {
    Sorted(s) && multiset(s) == m
  }

  lemma SortedHeadLeast(s: seq<string>, x: string)
    requires Sorted(s) && x in s
    ensures Leq(s[0], x)
  {
    LeqReflexive(x);
  }

  /** A sorted list is determined by the names it holds. */
  lemma {:induction false} SortingUnique(s: seq<string>, t: seq<string>, m: multiset<string>)
    requires IsSorting(s, m) && IsSorting(t, m)
    ensures s == t
    decreases |s|
  {
    assert |multiset(s)| == |s| && |multiset(t)| == |t|;
    if s != [] {
      SameHead(s, t, m);
      TailSorting(s, m);
      TailSorting(t, m);
      SortingUnique(s[1..], t[1..], m - multiset{s[0]});
      assert s == [s[0]] + s[1..] && t == [t[0]] + t[1..];
    }
  }

  lemma SameHead(s: seq<string>, t: seq<string>, m: multiset<string>)
    requires s != [] && t != [] && IsSorting(s, m) && IsSorting(t, m)
    ensures s[0] == t[0]
  {
    assert s[0] in multiset(t) && t[0] in multiset(s);
    SortedHeadLeast(t, s[0]);
    SortedHeadLeast(s, t[0]);
    LeqAntisymmetric(s[0], t[0]);
  }

  lemma TailSorting(s: seq<string>, m: multiset<string>)
    requires s != [] && IsSorting(s, m)
    ensures IsSorting(s[1..], m - multiset{s[0]})
  {
    assert s == [s[0]] + s[1..];
    assert multiset(s) == multiset{s[0]} + multiset(s[1..]);
  }

  lemma {:induction false} LeqReflexive(a: string)
    ensures Leq(a, a)
  {
    if a != [] {
      LeqReflexive(a[1..]);
    }
  }

  /** `x` put into a sorted list at its place. */
  function InsertName(x: string, s: seq<string>): (r: seq<string>)
    ensures multiset(r) == multiset(s) + multiset{x}
  {
    if s == [] then [x]
    else
      assert s == [s[0]] + s[1..];
      if Leq(x, s[0]) then [x] + s else [s[0]] + InsertName(x, s[1..])
  }

  lemma {:induction false} InsertKeepsSorted(x: string, s: seq<string>)
    requires Sorted(s)
    ensures Sorted(InsertName(x, s))
  {
    if s == [] {
    } else if Leq(x, s[0]) {
      forall j | 0 <= j < |s| ensures Leq(x, s[j]) {
        if j > 0 {
          LeqTransitive(x, s[0], s[j]);
        }
      }
    } else {
      var t := InsertName(x, s[1..]);
      InsertKeepsSorted(x, s[1..]);
      LeqTotal(x, s[0]);
      forall j | 0 <= j < |t| ensures Leq(s[0], t[j]) {
        InsertedElement(x, s[1..], j);
      }
    }
  }

  lemma InsertedElement(x: string, s: seq<string>, j: nat)
    requires j < |InsertName(x, s)|
    ensures InsertName(x, s)[j] == x || InsertName(x, s)[j] in s
  {
    assert InsertName(x, s)[j] in multiset(InsertName(x, s));
  }

  /** Python's `sorted` on a list of names. */
  function SortNames(s: seq<string>): (r: seq<string>)
    ensures IsSorting(r, multiset(s))
  {
    if s == [] then []
    else
      assert s == [s[0]] + s[1..];
      InsertKeepsSorted(s[0], SortNames(s[1..]));
      InsertName(s[0], SortNames(s[1..]))
  }

  /** The sorted list of a multiset of names. */
  ghost function SortingOf(m: multiset<string>): (s: seq<string>)
    ensures IsSorting(s, m)
  {
    SortingExists(m);
    var s :| IsSorting(s, m);
    s
  }

  lemma {:induction false} SortingExists(m: multiset<string>)
    ensures exists s :: IsSorting(s, m)
    decreases |m|
  {
    if m == multiset{} {
      assert IsSorting([], m);
    } else {
      var x :| x in m;
      SortingExists(m - multiset{x});
      var t :| IsSorting(t, m - multiset{x});
      InsertKeepsSorted(x, t);
      assert IsSorting(InsertName(x, t), m);
    }
  }

  lemma {:induction false} StrictlyIncreasingSorted(s: seq<string>, i: nat, j: nat)
    requires StrictlyIncreasing(s)
    requires i < j < |s|
    ensures Less(s[i], s[j])
    decreases j
  {
    if i < j - 1 {
      StrictlyIncreasingSorted(s, i, j - 1);
      LeqTransitive(s[i], s[j - 1], s[j]);
      if s[i] == s[j] {
        LeqAntisymmetric(s[j - 1], s[j]);
      }
    }
  }

  /** Strictness leaves no room for a duplicate or for a second order: one set, one list. */
  lemma StrictlyIncreasingUnique(s: seq<string>, t: seq<string>)
    requires StrictlyIncreasing(s) && StrictlyIncreasing(t)
    requires Elements(s) == Elements(t)
    ensures s == t
  {
    StrictCounts(s);
    StrictCounts(t);
    assert multiset(s) == multiset(Elements(s));
    assert multiset(t) == multiset(Elements(t));
    SortingUnique(s, t, multiset(Elements(s)));
  }

  lemma StrictCounts(s: seq<string>)
    requires StrictlyIncreasing(s)
    ensures Sorted(s)
    ensures multiset(s) == multiset(Elements(s))
  {
    forall i, j | 0 <= i < j < |s| ensures Less(s[i], s[j]) {
      StrictlyIncreasingSorted(s, i, j);
    }
    forall x ensures multiset(s)[x] == multiset(Elements(s))[x] {
      DistinctCount(s, x);
    }
  }

  lemma {:induction false} DistinctCount(s: seq<string>, x: string)
    requires forall i, j :: 0 <= i < j < |s| ==> s[i] != s[j]
    ensures multiset(s)[x] == if x in s then 1 else 0
  {
    if s != [] {
      DistinctCount(s[1..], x);
      assert s == [s[0]] + s[1..];
      assert multiset(s)[x] == multiset([s[0]])[x] + multiset(s[1..])[x];
    }
  }
}

/** Sums over named amounts, in no particular order. */
module Sums {

  function Max(a: int, b: int): int
  {
    if a < b then b else a
  }

  function Min(a: int, b: int): int
  {
    if b < a then b else a
  }

  ghost function Pick(m: map<string, int>): (k: string)
    requires m != map[]
    ensures k in m
  {
    var k :| k in m;
    k
  }

  /** The sum of all values of `m`. */
  ghost function Total(m: map<string, int>): int
  {
    if m == map[] then 0
    else m[Pick(m)] + Total(m - {Pick(m)})
  }

  /** The order in which the entries are added does not matter. */
  lemma {:induction false} TotalRemove(m: map<string, int>, k: string)
    requires k in m
    ensures Total(m) == m[k] + Total(m - {k})
    decreases |m|
  {
    var p := Pick(m);
    if p != k {
      TotalRemove(m - {p}, k);
      TotalRemove(m - {k}, p);
      assert m - {p} - {k} == m - {k} - {p};
    }
  }

  lemma {:induction false} TotalNonNegative(m: map<string, int>)
    requires forall k :: k in m ==> m[k] >= 0
    ensures Total(m) >= 0
    decreases |m|
  {
    if m != map[] {
      TotalNonNegative(m - {Pick(m)});
    }
  }

  /** What the entries of `after` gained over `before`, entry by entry. */
  ghost function Gains(before: map<string, int>, after: map<string, int>): map<string, int>
    requires before.Keys == after.Keys
  {
    map k | k in after :: Max(0, after[k] - before[k])
  }

  /** What the entries that fell lost. */
  ghost function Dips(before: map<string, int>, after: map<string, int>): map<string, int>
    requires before.Keys == after.Keys
  {
    map k | k in after && after[k] < before[k] :: before[k] - after[k]
  }

  lemma GainsRemove(before: map<string, int>, after: map<string, int>, k: string)
    requires before.Keys == after.Keys && k in after
    ensures Total(Gains(before, after)) == Max(0, after[k] - before[k]) + Total(Gains(before - {k}, after - {k}))
  {
    TotalRemove(Gains(before, after), k);
    assert Gains(before, after) - {k} == Gains(before - {k}, after - {k});
  }

  lemma DipsRemove(before: map<string, int>, after: map<string, int>, k: string)
    requires before.Keys == after.Keys && k in after
    ensures Total(Dips(before, after)) == Max(0, before[k] - after[k]) + Total(Dips(before - {k}, after - {k}))
  {
    if after[k] < before[k] {
      TotalRemove(Dips(before, after), k);
      assert Dips(before, after) - {k} == Dips(before - {k}, after - {k});
    } else {
      assert Dips(before, after) == Dips(before - {k}, after - {k});
    }
  }

  /** The change of a sum is what was gained less what was lost. */
  lemma {:induction false} GainsAndDips(before: map<string, int>, after: map<string, int>)
    requires before.Keys == after.Keys
    ensures Total(after) - Total(before) == Total(Gains(before, after)) - Total(Dips(before, after))
    decreases |after|
  {
    if after == map[] {
      assert before == map[];
    } else {
      var k :| k in after;
      GainsAndDips(before - {k}, after - {k});
      TotalRemove(before, k);
      TotalRemove(after, k);
      GainsRemove(before, after, k);
      DipsRemove(before, after, k);
    }
  }

  lemma GainsAndDipsNonNegative(before: map<string, int>, after: map<string, int>)
    requires before.Keys == after.Keys
    ensures Total(Gains(before, after)) >= 0 && Total(Dips(before, after)) >= 0
  {
    TotalNonNegative(Gains(before, after));
    TotalNonNegative(Dips(before, after));
  }
}

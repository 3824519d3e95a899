/**
 * The padded work of a bucketing, and when the sorted one does the least: every forward pads its
 * batch to the longest prompt in it.
 */
module PaddingCost {
  import opened Arith
  import opened LengthBuckets

  function Len(lengths: seq<nat>, i: nat): nat
  {
    if i < |lengths| then lengths[i] else 0
  }

  /** The length a batch is padded to. */
  function Longest(lengths: seq<nat>, batch: seq<nat>): (m: nat)
    ensures forall k :: 0 <= k < |batch| ==> Len(lengths, batch[k]) <= m
    ensures batch != [] ==> exists k :: 0 <= k < |batch| && Len(lengths, batch[k]) == m
  {
    if batch == [] then 0
    else
      var front, last := Longest(lengths, batch[..|batch| - 1]), Len(lengths, batch[|batch| - 1]);
      if front <= last then last else front
  }

  /** Total padded tokens: batch size times longest length, summed. */
  function PaddedTokens(lengths: seq<nat>, bs: seq<seq<nat>>): nat
  {
    if bs == [] then 0 else |bs[0]| * Longest(lengths, bs[0]) + PaddedTokens(lengths, bs[1..])
  }

  /** How many batches contiguous runs of `w` make of `n` prompts. */
  function BatchCount(n: nat, w: nat): nat
    requires w >= 1
  {
    if n == 0 then 0 else if n <= w then 1 else 1 + BatchCount(n - w, w)
  }

  /** `n` is a whole number of batches. */
  predicate Whole(n: nat, w: nat)
    requires w >= 1
  {
    if n < w then n == 0 else Whole(n - w, w)
  }

  lemma {:induction false} WholeIff(n: nat, w: nat)
    requires w >= 1
    ensures Whole(n, w) <==> n % w == 0
  {
    if n < w {
      DivUnique(n, w, 0, n);
    } else {
      ModDrop(n, w);
      WholeIff(n - w, w);
    }
  }

  /** `k` batches' worth. */
  function Times(w: nat, k: nat): nat
  {
    if k == 0 then 0 else w + Times(w, k - 1)
  }

  lemma {:induction false} TimesSum(w: nat, a: nat, b: nat)
    ensures Times(w, a + b) == Times(w, a) + Times(w, b)
  {
    if b > 0 {
      TimesSum(w, a, b - 1);
    }
  }

  lemma {:induction false} TimesIsProduct(w: nat, k: nat)
    ensures Times(w, k) == w * k
  {
    if k > 0 {
      TimesIsProduct(w, k - 1);
      MulSum(w, k - 1, 1);
    }
  }

  /** Less than one batch apart means no batch apart. */
  lemma TimesCancel(w: nat, a: nat, b: nat)
    requires Times(w, a) < Times(w, b) + w
    ensures a <= b
  {
    if a > b {
      TimesSum(w, b, a - b);
      assert false;
    }
  }

  /** Any way to put all `n` prompts into as many batches of at most `w` as bucketing uses. */
  ghost predicate Arrangement(bs: seq<seq<nat>>, n: nat, w: nat)
    requires w >= 1
  {
    && |bs| == BatchCount(n, w)
    && (forall k :: 0 <= k < |bs| ==> |bs[k]| <= w)
    && multiset(Flatten(bs)) == multiset(Range(n))
  }

  // ---- counting lengths above a level ----------------------------------------------------

  /** How many of these prompts are at least `t` long. */
  function CountGE(lengths: seq<nat>, s: seq<nat>, t: nat): nat
  {
    if s == [] then 0 else (if Len(lengths, s[0]) >= t then 1 else 0) + CountGE(lengths, s[1..], t)
  }

  lemma {:induction false} CountAppend(lengths: seq<nat>, a: seq<nat>, b: seq<nat>, t: nat)
    ensures CountGE(lengths, a + b, t) == CountGE(lengths, a, t) + CountGE(lengths, b, t)
  {
    if a == [] {
      assert a + b == b;
    } else {
      CountAppend(lengths, a[1..], b, t);
      assert (a + b)[1..] == a[1..] + b;
    }
  }

  lemma CountWithout(lengths: seq<nat>, b: seq<nat>, k: nat, t: nat)
    requires k < |b|
    ensures CountGE(lengths, b, t)
            == (if Len(lengths, b[k]) >= t then 1 else 0) + CountGE(lengths, b[..k] + b[k + 1..], t)
  {
    assert b == b[..k] + b[k..] && b[k..][1..] == b[k + 1..];
    CountAppend(lengths, b[..k], b[k..], t);
    CountAppend(lengths, b[..k], b[k + 1..], t);
  }

  lemma MultisetWithout(b: seq<nat>, k: nat)
    requires k < |b|
    ensures multiset(b[..k] + b[k + 1..]) == multiset(b) - multiset{b[k]}
  {
    assert b == b[..k] + [b[k]] + b[k + 1..];
  }

  lemma PermutedTail(a: seq<nat>, b: seq<nat>, k: nat)
    requires multiset(a) == multiset(b) && a != [] && k < |b| && b[k] == a[0]
    ensures multiset(a[1..]) == multiset(b[..k] + b[k + 1..])
  {
    MultisetWithout(a, 0);
    MultisetWithout(b, k);
    assert a[..0] + a[1..] == a[1..];
  }

  lemma {:induction false} CountPermuted(lengths: seq<nat>, a: seq<nat>, b: seq<nat>, t: nat)
    requires multiset(a) == multiset(b)
    ensures CountGE(lengths, a, t) == CountGE(lengths, b, t)
    decreases |a|
  {
    assert |multiset(a)| == |a| && |multiset(b)| == |b|;
    if a != [] {
      assert a[0] in multiset(b);
      var k :| 0 <= k < |b| && b[k] == a[0];
      PermutedTail(a, b, k);
      CountPermuted(lengths, a[1..], b[..k] + b[k + 1..], t);
      CountWithout(lengths, b, k, t);
    }
  }

  lemma {:induction false} CountBounds(lengths: seq<nat>, s: seq<nat>, t: nat)
    ensures CountGE(lengths, s, t) <= |s|
    ensures Longest(lengths, s) < t ==> CountGE(lengths, s, t) == 0
    ensures (forall k :: 0 <= k < |s| ==> Len(lengths, s[k]) >= t) ==> CountGE(lengths, s, t) == |s|
    ensures (exists k :: 0 <= k < |s| && Len(lengths, s[k]) >= t) ==> CountGE(lengths, s, t) >= 1
    ensures (forall k :: 0 <= k < |s| ==> Len(lengths, s[k]) < t) ==> CountGE(lengths, s, t) == 0
  {
    if s != [] {
      CountBounds(lengths, s[1..], t);
      if Longest(lengths, s) < t {
        forall k | 0 <= k < |s[1..]| ensures Len(lengths, s[1..][k]) < t {
          assert s[1..][k] == s[k + 1];
        }
      }
      if k :| 0 <= k < |s| && Len(lengths, s[k]) >= t {
        assert k > 0 ==> s[1..][k - 1] == s[k];
      }
    }
  }

  /** How many batches are padded to at least `t`. */
  function TallBatches(lengths: seq<nat>, bs: seq<seq<nat>>, t: nat): nat
  {
    if bs == [] then 0
    else (if Longest(lengths, bs[0]) >= t then 1 else 0) + TallBatches(lengths, bs[1..], t)
  }

  /** A level needs a batch for every `w` prompts that reach it, however they are arranged. */
  lemma {:induction false} TallBatchesAtLeast(lengths: seq<nat>, bs: seq<seq<nat>>, w: nat, t: nat)
    requires forall k :: 0 <= k < |bs| ==> |bs[k]| <= w
    ensures CountGE(lengths, Flatten(bs), t) <= Times(w, TallBatches(lengths, bs, t))
  {
    if bs != [] {
      TallBatchesAtLeast(lengths, bs[1..], w, t);
      CountAppend(lengths, bs[0], Flatten(bs[1..]), t);
      CountBounds(lengths, bs[0], t);
    }
  }

  ghost predicate AscendingLengths(lengths: seq<nat>, s: seq<nat>)
  {
    forall j, k :: 0 <= j < k < |s| ==> NotLonger(lengths, s, j, k)
  }

  predicate NotLonger(lengths: seq<nat>, s: seq<nat>, j: nat, k: nat)
    requires j < |s| && k < |s|
  {
    Len(lengths, s[j]) <= Len(lengths, s[k])
  }

  lemma AscendingTail(lengths: seq<nat>, s: seq<nat>, w: nat)
    requires AscendingLengths(lengths, s) && w <= |s|
    ensures AscendingLengths(lengths, s[w..])
  {
    forall j, k | 0 <= j < k < |s[w..]| ensures NotLonger(lengths, s[w..], j, k) {
      assert NotLonger(lengths, s, j + w, k + w);
    }
  }

  /** How many of the contiguous full runs of `s` are padded to at least `t`. */
  function TallRuns(lengths: seq<nat>, s: seq<nat>, w: nat, t: nat): nat
    requires w >= 1 && Whole(|s|, w)
  {
    if s == [] then 0
    else (if Longest(lengths, s[..w]) >= t then 1 else 0) + TallRuns(lengths, s[w..], w, t)
  }

  lemma {:induction false} TallRunsFew(lengths: seq<nat>, s: seq<nat>, w: nat, t: nat)
    requires w >= 1 && Whole(|s|, w)
    ensures Times(w, TallRuns(lengths, s, w, t)) <= |s|
  {
    if s != [] {
      TallRunsFew(lengths, s[w..], w, t);
    }
  }

  /** Full sorted runs waste none: one run fewer could not hold the prompts of a level. */
  lemma {:induction false} SortedTallRuns(lengths: seq<nat>, s: seq<nat>, w: nat, t: nat)
    requires w >= 1 && Whole(|s|, w) && AscendingLengths(lengths, s) && t >= 1
    ensures Times(w, TallRuns(lengths, s, w, t)) < CountGE(lengths, s, t) + w
  {
    if s != [] {
      CountSplit(lengths, s, w, t);
      if Longest(lengths, s[..w]) >= t {
        LongAfterLong(lengths, s, w, t);
        TallRunsFew(lengths, s[w..], w, t);
      } else {
        AscendingTail(lengths, s, w);
        SortedTallRuns(lengths, s[w..], w, t);
      }
    }
  }

  lemma CountSplit(lengths: seq<nat>, s: seq<nat>, w: nat, t: nat)
    requires w <= |s|
    ensures CountGE(lengths, s, t) == CountGE(lengths, s[..w], t) + CountGE(lengths, s[w..], t)
  {
    assert s == s[..w] + s[w..];
    CountAppend(lengths, s[..w], s[w..], t);
  }

  /** Once a batch reaches a level, everything sorted after it does. */
  lemma LongAfterLong(lengths: seq<nat>, s: seq<nat>, w: nat, t: nat)
    requires 1 <= w <= |s| && AscendingLengths(lengths, s) && Longest(lengths, s[..w]) >= t
    ensures CountGE(lengths, s[w..], t) == |s[w..]|
    ensures CountGE(lengths, s[..w], t) >= 1
  {
    CountBounds(lengths, s[..w], t);
    CountBounds(lengths, s[w..], t);
    var k :| 0 <= k < w && Len(lengths, s[..w][k]) == Longest(lengths, s[..w]);
    forall j | 0 <= j < |s[w..]| ensures Len(lengths, s[w..][j]) >= t {
      assert NotLonger(lengths, s, k, w + j);
    }
  }

  lemma {:induction false} TallRunsAreBatches(lengths: seq<nat>, s: seq<nat>, w: nat, t: nat)
    requires w >= 1 && Whole(|s|, w)
    ensures TallBatches(lengths, Chunks(s, w), t) == TallRuns(lengths, s, w, t)
  {
    if s != [] {
      FullFirst(s, w);
      TallRunsAreBatches(lengths, s[w..], w, t);
    }
  }

  lemma FullFirst(s: seq<nat>, w: nat)
    requires w >= 1 && s != [] && Whole(|s|, w)
    ensures |s| >= w && Whole(|s[w..]|, w)
    ensures Chunks(s, w) == [s[..w]] + Chunks(s[w..], w)
    ensures Chunks(s, w)[0] == s[..w] && Chunks(s, w)[1..] == Chunks(s[w..], w)
  {
    if |s| == w {
      assert s[..w] == s && s[w..] == [];
      assert Chunks(s[w..], w) == [];
    }
  }

  // ---- adding the levels up --------------------------------------------------------------

  /** The sum of the lengths the batches are padded to. */
  function SumLongest(lengths: seq<nat>, bs: seq<seq<nat>>): nat
  {
    if bs == [] then 0 else Longest(lengths, bs[0]) + SumLongest(lengths, bs[1..])
  }

  /** The number of batches at each level 1 .. top, added up. */
  function Levels(lengths: seq<nat>, bs: seq<seq<nat>>, top: nat): nat
  {
    if top == 0 then 0 else Levels(lengths, bs, top - 1) + TallBatches(lengths, bs, top)
  }

  function AtMost(a: nat, b: nat): nat
  {
    if a <= b then a else b
  }

  lemma {:induction false} LevelsSplit(lengths: seq<nat>, bs: seq<seq<nat>>, top: nat)
    requires bs != []
    ensures Levels(lengths, bs, top) == AtMost(Longest(lengths, bs[0]), top) + Levels(lengths, bs[1..], top)
  {
    if top > 0 {
      LevelsSplit(lengths, bs, top - 1);
    }
  }

  lemma {:induction false} LevelsOfNone(lengths: seq<nat>, top: nat)
    ensures Levels(lengths, [], top) == 0
  {
    if top > 0 {
      LevelsOfNone(lengths, top - 1);
    }
  }

  lemma {:induction false} LevelsAreSum(lengths: seq<nat>, bs: seq<seq<nat>>, top: nat)
    requires forall k :: 0 <= k < |bs| ==> Longest(lengths, bs[k]) <= top
    ensures Levels(lengths, bs, top) == SumLongest(lengths, bs)
  {
    if bs == [] {
      LevelsOfNone(lengths, top);
    } else {
      LevelsSplit(lengths, bs, top);
      LevelsAreSum(lengths, bs[1..], top);
    }
  }

  lemma {:induction false} FullCost(lengths: seq<nat>, bs: seq<seq<nat>>, w: nat)
    requires forall k :: 0 <= k < |bs| ==> |bs[k]| == w
    ensures PaddedTokens(lengths, bs) == Times(w, SumLongest(lengths, bs))
  {
    if bs != [] {
      FullCost(lengths, bs[1..], w);
      TimesIsProduct(w, Longest(lengths, bs[0]));
      TimesSum(w, Longest(lengths, bs[0]), SumLongest(lengths, bs[1..]));
    }
  }

  /** Level by level no more batches, so no more in all. */
  lemma {:induction false} LevelsCompare(lengths: seq<nat>, s: seq<nat>, bs: seq<seq<nat>>, w: nat, top: nat)
    requires w >= 1 && Whole(|s|, w) && AscendingLengths(lengths, s)
    requires forall k :: 0 <= k < |bs| ==> |bs[k]| <= w
    requires multiset(Flatten(bs)) == multiset(s)
    ensures Levels(lengths, Chunks(s, w), top) <= Levels(lengths, bs, top)
  {
    if top > 0 {
      LevelsCompare(lengths, s, bs, w, top - 1);
      SortedTallRuns(lengths, s, w, top);
      TallRunsAreBatches(lengths, s, w, top);
      TallBatchesAtLeast(lengths, bs, w, top);
      CountPermuted(lengths, s, Flatten(bs), top);
      var a, b := TallBatches(lengths, Chunks(s, w), top), TallBatches(lengths, bs, top);
      TimesCancel(w, a, b);
    }
  }

  // ---- the optimum -----------------------------------------------------------------------

  lemma {:induction false} FullBatches(s: seq<nat>, w: nat)
    requires w >= 1 && Whole(|s|, w)
    ensures forall k :: 0 <= k < |Chunks(s, w)| ==> |Chunks(s, w)[k]| == w
    ensures Times(w, |Chunks(s, w)|) == |s|
    decreases |s|
  {
    if s != [] {
      FullFirst(s, w);
      FullBatches(s[w..], w);
      forall k | 0 <= k < |Chunks(s, w)| ensures |Chunks(s, w)[k]| == w {
        if k > 0 {
          assert Chunks(s, w)[k] == Chunks(s, w)[1..][k - 1];
        }
      }
    }
  }

  lemma {:induction false} FlattenSize(bs: seq<seq<nat>>, w: nat)
    requires forall k :: 0 <= k < |bs| ==> |bs[k]| <= w
    ensures |Flatten(bs)| <= Times(w, |bs|)
    ensures |Flatten(bs)| == Times(w, |bs|) ==> forall k :: 0 <= k < |bs| ==> |bs[k]| == w
  {
    if bs != [] {
      FlattenSize(bs[1..], w);
      if |Flatten(bs)| == Times(w, |bs|) {
        forall k | 0 <= k < |bs| ensures |bs[k]| == w {
          if k > 0 {
            assert bs[k] == bs[1..][k - 1];
          }
        }
      }
    }
  }

  lemma {:induction false} BatchCountExact(n: nat, w: nat)
    requires w >= 1 && Whole(n, w)
    ensures Times(w, BatchCount(n, w)) == n
  {
    if n > 0 {
      assert n == w ==> BatchCount(0, w) == 0;
      BatchCountExact(n - w, w);
    }
  }

  ghost function Peak(lengths: seq<nat>, s: seq<seq<nat>>): (top: nat)
    ensures forall k :: 0 <= k < |s| ==> Longest(lengths, s[k]) <= top
  {
    if s == [] then 0
    else
      var rest, here := Peak(lengths, s[1..]), Longest(lengths, s[0]);
      assert forall k :: 1 <= k < |s| ==> s[k] == s[1..][k - 1];
      if rest <= here then here else rest
  }

  lemma OrderAscends(lengths: seq<nat>)
    ensures AscendingLengths(lengths, Order(lengths))
  {
    var s := Order(lengths);
    forall j, k | 0 <= j < k < |s| ensures NotLonger(lengths, s, j, k) {
      assert Before(lengths, s[j], s[k]);
    }
  }

  lemma SortedSumLeast(lengths: seq<nat>, s: seq<nat>, w: nat, bs: seq<seq<nat>>)
    requires w >= 1 && Whole(|s|, w) && AscendingLengths(lengths, s)
    requires forall k :: 0 <= k < |bs| ==> |bs[k]| <= w
    requires multiset(Flatten(bs)) == multiset(s)
    ensures SumLongest(lengths, Chunks(s, w)) <= SumLongest(lengths, bs)
  {
    var sorted := Chunks(s, w);
    var top := Peak(lengths, sorted) + Peak(lengths, bs);
    LevelsAreSum(lengths, sorted, top);
    LevelsAreSum(lengths, bs, top);
    LevelsCompare(lengths, s, bs, w, top);
  }

  lemma ArrangementFull(bs: seq<seq<nat>>, n: nat, w: nat)
    requires w >= 1 && Whole(n, w) && Arrangement(bs, n, w)
    ensures forall k :: 0 <= k < |bs| ==> |bs[k]| == w
  {
    BatchCountExact(n, w);
    assert |multiset(Flatten(bs))| == |multiset(Range(n))|;
    FlattenSize(bs, w);
  }

  /** With full batches, sorted bucketing does the least padded work of all arrangements. */
  lemma SortedIsOptimal(lengths: seq<nat>, w: nat, bs: seq<seq<nat>>)
    requires w >= 1 && |lengths| % w == 0
    requires Arrangement(bs, |lengths|, w)
    ensures PaddedTokens(lengths, LengthBucketedOrder(lengths, w)) <= PaddedTokens(lengths, bs)
  {
    var s := Order(lengths);
    WholeIff(|lengths|, w);
    OrderAscends(lengths);
    ArrangementFull(bs, |lengths|, w);
    FullBatches(s, w);
    FullCost(lengths, Chunks(s, w), w);
    FullCost(lengths, bs, w);
    SortedSumLeast(lengths, s, w, bs);
    TimesMonotone(w, SumLongest(lengths, Chunks(s, w)), SumLongest(lengths, bs));
  }

  lemma TimesMonotone(w: nat, a: nat, b: nat)
    requires a <= b
    ensures Times(w, a) <= Times(w, b)
  {
    TimesSum(w, a, b - a);
  }

  // ---- and exactly when ------------------------------------------------------------------

  lemma {:induction false} ChunkCount<T>(s: seq<T>, w: nat)
    requires w >= 1
    ensures |Chunks(s, w)| == BatchCount(|s|, w)
    decreases |s|
  {
    if |s| > w {
      ChunkCount(s[w..], w);
    }
  }

  /** Batches that hold the same prompts are padded alike. */
  lemma LongestPermuted(lengths: seq<nat>, a: seq<nat>, b: seq<nat>)
    requires multiset(a) == multiset(b)
    ensures Longest(lengths, a) <= Longest(lengths, b)
  {
    if a != [] {
      var k :| 0 <= k < |a| && Len(lengths, a[k]) == Longest(lengths, a);
      assert a[k] in multiset(b);
      var j :| 0 <= j < |b| && b[j] == a[k];
    }
  }

  lemma OneChunk(lengths: seq<nat>, s: seq<nat>, w: nat)
    requires w >= 1 && 1 <= |s| <= w
    ensures Chunks(s, w) == [s]
    ensures PaddedTokens(lengths, [s]) == |s| * Longest(lengths, s)
  {
    assert [s][1..] == [];
  }

  lemma ChunkOff(lengths: seq<nat>, s: seq<nat>, w: nat)
    requires w >= 1 && |s| > w
    ensures PaddedTokens(lengths, Chunks(s, w))
            == |s[..w]| * Longest(lengths, s[..w]) + PaddedTokens(lengths, Chunks(s[w..], w))
  {
    assert Chunks(s, w) == [s[..w]] + Chunks(s[w..], w);
    assert Chunks(s, w)[1..] == Chunks(s[w..], w);
  }

  lemma FlattenOne(b: seq<nat>)
    ensures Flatten([b]) == b
  {
    assert [b][1..] == [];
  }

  lemma SingleBatch(lengths: seq<nat>, w: nat, bs: seq<seq<nat>>)
    requires w >= 1 && 1 <= |lengths| <= w
    requires Arrangement(bs, |lengths|, w)
    ensures PaddedTokens(lengths, LengthBucketedOrder(lengths, w)) <= PaddedTokens(lengths, bs)
  {
    var n, s, b := |lengths|, Order(lengths), bs[0];
    assert |bs| == 1;
    assert bs == [b];
    FlattenOne(b);
    assert |multiset(b)| == |multiset(s)|;
    OneChunk(lengths, s, w);
    OneChunk(lengths, b, w);
    LongestPermuted(lengths, s, b);
    MulMonotone(n, Longest(lengths, s), Longest(lengths, b));
  }

  /** Long prompts at the end: the last `w` have length one, the rest none. */
  function LateOnes(n: nat, w: nat): (lengths: seq<nat>)
    requires w <= n
    ensures |lengths| == n
  {
    seq(n, k => if k >= n - w then 1 else 0)
  }

  lemma {:induction false} InsertLast(lengths: seq<nat>, x: nat, s: seq<nat>)
    requires x < |lengths| && Indices(s, |lengths|)
    requires forall k :: 0 <= k < |s| ==> !Before(lengths, x, s[k])
    ensures Insert(lengths, x, s) == s + [x]
  {
    if s != [] {
      InsertLast(lengths, x, s[1..]);
    }
  }

  lemma LateOnesAppend(n: nat, w: nat, m: nat)
    requires m < n && w <= n
    ensures Insert(LateOnes(n, w), m, Range(m)) == Range(m + 1)
  {
    var lengths, s := LateOnes(n, w), Range(m);
    forall k | 0 <= k < |s| ensures !Before(lengths, m, s[k]) {
      assert lengths[s[k]] <= lengths[m] && s[k] < m;
    }
    InsertLast(lengths, m, s);
    assert Range(m + 1) == s + [m];
  }

  lemma {:induction false} LateOnesOrdered(n: nat, w: nat, m: nat)
    requires m <= n && w <= n
    ensures SortFrom(LateOnes(n, w), m) == Range(m)
  {
    if m > 0 {
      LateOnesOrdered(n, w, m - 1);
      LateOnesAppend(n, w, m - 1);
    }
  }

  lemma LongestOne(lengths: seq<nat>, batch: seq<nat>, k: nat)
    requires k < |batch| && Len(lengths, batch[k]) >= 1
    ensures |batch| * Longest(lengths, batch) >= |batch|
  {
    MulMonotone(|batch|, 1, Longest(lengths, batch));
  }

  lemma RaggedBase(lengths: seq<nat>, s: seq<nat>, w: nat)
    requires w >= 1 && w < |s| < w + w
    requires forall k :: |s| - w <= k < |s| ==> Len(lengths, s[k]) >= 1
    ensures PaddedTokens(lengths, Chunks(s, w)) > w
  {
    var first, rest := s[..w], s[w..];
    ChunkOff(lengths, s, w);
    OneChunk(lengths, rest, w);
    assert first[w - 1] == s[w - 1] && rest[0] == s[w];
    LongestOne(lengths, first, w - 1);
    LongestOne(lengths, rest, 0);
  }

  /** A ragged sorted run pads both its last full bucket and its short one. */
  lemma {:induction false} RaggedCost(lengths: seq<nat>, s: seq<nat>, w: nat)
    requires w >= 1 && |s| > w && !Whole(|s|, w)
    requires forall k :: |s| - w <= k < |s| ==> Len(lengths, s[k]) >= 1
    ensures PaddedTokens(lengths, Chunks(s, w)) > w
    decreases |s|
  {
    if |s| < w + w {
      RaggedBase(lengths, s, w);
    } else {
      var rest := s[w..];
      assert |rest| > w by {
        assert !Whole(|rest|, w) && Whole(w, w) && Whole(0, w);
      }
      forall k | |rest| - w <= k < |rest| ensures Len(lengths, rest[k]) >= 1 {
        assert rest[k] == s[k + w];
      }
      RaggedCost(lengths, rest, w);
      ChunkOff(lengths, s, w);
      MulMonotone(|s[..w]|, 0, Longest(lengths, s[..w]));
    }
  }

  lemma {:induction false} ShortBatchesFree(lengths: seq<nat>, bs: seq<seq<nat>>)
    requires forall k :: 0 <= k < |bs| ==> Longest(lengths, bs[k]) == 0
    ensures PaddedTokens(lengths, bs) == 0
  {
    if bs != [] {
      ShortBatchesFree(lengths, bs[1..]);
    }
  }

  lemma {:induction false} PaddedAppend(lengths: seq<nat>, bs: seq<seq<nat>>, b: seq<nat>)
    ensures PaddedTokens(lengths, bs + [b]) == PaddedTokens(lengths, bs) + |b| * Longest(lengths, b)
  {
    if bs == [] {
      assert [b][1..] == [] && bs + [b] == [b];
    } else {
      PaddedAppend(lengths, bs[1..], b);
      assert (bs + [b])[1..] == bs[1..] + [b];
    }
  }

  lemma {:induction false} FlattenAppend(bs: seq<seq<nat>>, b: seq<nat>)
    ensures Flatten(bs + [b]) == Flatten(bs) + b
  {
    if bs == [] {
      assert bs + [b] == [b];
      FlattenOne(b);
    } else {
      FlattenAppend(bs[1..], b);
      assert (bs + [b])[1..] == bs[1..] + [b];
    }
  }

  /** The long prompts kept together in one full batch. */
  function LongTogether(n: nat, w: nat): seq<seq<nat>>
    requires 1 <= w <= n
  {
    Chunks(Range(n - w), w) + [Range(n)[n - w..]]
  }

  lemma LongTogetherArranged(n: nat, w: nat)
    requires 1 <= w < n
    ensures Arrangement(LongTogether(n, w), n, w)
  {
    var front, late := Chunks(Range(n - w), w), Range(n)[n - w..];
    LongTogetherCount(n, w);
    FlattenAppend(front, late);
    assert Range(n - w) + late == Range(n);
  }

  lemma LongTogetherCount(n: nat, w: nat)
    requires 1 <= w < n
    ensures |LongTogether(n, w)| == BatchCount(n, w)
  {
    ChunkCount(Range(n - w), w);
  }

  lemma FrontIsShort(n: nat, w: nat, k: nat)
    requires 1 <= w < n && k < |Chunks(Range(n - w), w)|
    ensures Longest(LateOnes(n, w), Chunks(Range(n - w), w)[k]) == 0
  {
    var lengths, front := LateOnes(n, w), Chunks(Range(n - w), w);
    forall j | 0 <= j < |front[k]| ensures Len(lengths, front[k][j]) == 0 {
      assert front[k][j] in front[k];
      InFlatten(front, front[k][j]);
      assert front[k][j] in Range(n - w);
    }
  }

  lemma LongTogetherCheap(n: nat, w: nat)
    requires 1 <= w < n
    ensures PaddedTokens(LateOnes(n, w), LongTogether(n, w)) <= w
  {
    var lengths, front, late := LateOnes(n, w), Chunks(Range(n - w), w), Range(n)[n - w..];
    PaddedAppend(lengths, front, late);
    forall k | 0 <= k < |front| ensures Longest(lengths, front[k]) == 0 {
      FrontIsShort(n, w, k);
    }
    ShortBatchesFree(lengths, front);
    LateBatch(n, w);
  }

  lemma LateBatch(n: nat, w: nat)
    requires 1 <= w < n
    ensures var late := Range(n)[n - w..];
            |late| * Longest(LateOnes(n, w), late) <= w
  {
    var late := Range(n)[n - w..];
    MulMonotone(w, Longest(LateOnes(n, w), late), 1);
  }

  /** With a short bucket beside a full one some lengths make the sorted bucketing lose. */
  lemma RaggedNotOptimal(n: nat, w: nat)
    requires 1 <= w < n && n % w != 0
    ensures Arrangement(LongTogether(n, w), n, w)
    ensures PaddedTokens(LateOnes(n, w), LengthBucketedOrder(LateOnes(n, w), w))
            > PaddedTokens(LateOnes(n, w), LongTogether(n, w))
  {
    var lengths := LateOnes(n, w);
    LateOnesOrdered(n, w, n);
    WholeIff(n, w);
    RaggedCost(lengths, Range(n), w);
    LongTogetherArranged(n, w);
    LongTogetherCheap(n, w);
  }

  /**
   * The exact condition: sorted bucketing is optimal for all lengths of `n` prompts if and only
   * if the prompts fill their batches or fit in one.
   */
  lemma OptimalIff(n: nat, w: nat)
    requires w >= 1
    ensures (forall lengths, bs :: |lengths| == n && Arrangement(bs, n, w) ==>
               PaddedTokens(lengths, LengthBucketedOrder(lengths, w)) <= PaddedTokens(lengths, bs))
            <==> n % w == 0 || n <= w
  {
    if n % w == 0 || n <= w {
      forall lengths, bs | |lengths| == n && Arrangement(bs, n, w)
        ensures PaddedTokens(lengths, LengthBucketedOrder(lengths, w)) <= PaddedTokens(lengths, bs)
      {
        if n % w == 0 {
          SortedIsOptimal(lengths, w, bs);
        } else {
          SingleBatch(lengths, w, bs);
        }
      }
    } else {
      RaggedNotOptimal(n, w);
      assert |LateOnes(n, w)| == n;
    }
  }
}

/**
 * Length bucketing of reranker prompts: sort by length, score in contiguous buckets, scatter the
 * scores back.
 */
module LengthBuckets {
  import opened Outcomes

  // ---- the order -------------------------------------------------------------------------

  /** The sort key `(length, original index)`. */
  predicate Before(lengths: seq<nat>, i: nat, j: nat)
    requires i < |lengths| && j < |lengths|
  {
    lengths[i] < lengths[j] || (lengths[i] == lengths[j] && i <= j)
  }

  predicate Indices(s: seq<nat>, n: nat)
  {
    forall k :: 0 <= k < |s| ==> s[k] < n
  }

  ghost predicate Ordered(lengths: seq<nat>, s: seq<nat>)
    requires Indices(s, |lengths|)
  {
    forall j, k :: 0 <= j < k < |s| ==> Before(lengths, s[j], s[k])
  }

  function Insert(lengths: seq<nat>, x: nat, s: seq<nat>): (r: seq<nat>)
    requires x < |lengths| && Indices(s, |lengths|)
    ensures multiset(r) == multiset(s) + multiset{x}
    ensures Indices(r, |lengths|)
  {
    if s == [] then [x]
    else
      assert s == [s[0]] + s[1..];
      if Before(lengths, x, s[0]) then [x] + s else [s[0]] + Insert(lengths, x, s[1..])
  }

  lemma {:induction false} InsertKeepsOrder(lengths: seq<nat>, x: nat, s: seq<nat>)
    requires x < |lengths| && Indices(s, |lengths|) && Ordered(lengths, s)
    ensures Ordered(lengths, Insert(lengths, x, s))
  {
    if s != [] && !Before(lengths, x, s[0]) {
      var t := Insert(lengths, x, s[1..]);
      InsertKeepsOrder(lengths, x, s[1..]);
      forall k | 0 <= k < |t| ensures Before(lengths, s[0], t[k]) {
        assert t[k] in multiset(t);
        assert t[k] == x || t[k] in s[1..];
      }
    }
  }

  function Range(n: nat): (s: seq<nat>)
    ensures |s| == n && forall k :: 0 <= k < n ==> s[k] == k
  {
    seq(n, k => k)
  }

  function SortFrom(lengths: seq<nat>, n: nat): (r: seq<nat>)
    requires n <= |lengths|
    ensures Indices(r, |lengths|) && Ordered(lengths, r)
    ensures multiset(r) == multiset(Range(n))
  {
    if n == 0 then []
    else
      assert Range(n) == Range(n - 1) + [n - 1];
      InsertKeepsOrder(lengths, n - 1, SortFrom(lengths, n - 1));
      Insert(lengths, n - 1, SortFrom(lengths, n - 1))
  }

  /** The stable ascending order of all prompts. */
  function Order(lengths: seq<nat>): (r: seq<nat>)
    ensures Indices(r, |lengths|) && Ordered(lengths, r)
    ensures multiset(r) == multiset(Range(|lengths|))
    ensures |r| == |lengths|
    ensures forall j, k :: 0 <= j < k < |r| ==>
              lengths[r[j]] < lengths[r[k]] || (lengths[r[j]] == lengths[r[k]] && r[j] <= r[k])
  {
    var r := SortFrom(lengths, |lengths|);
    assert |multiset(r)| == |multiset(Range(|lengths|))|;
    r
  }

  // ---- buckets ---------------------------------------------------------------------------

  function Flatten<T>(bs: seq<seq<T>>): seq<T>
  {
    if bs == [] then [] else bs[0] + Flatten(bs[1..])
  }

  /** Contiguous runs of `w` items; the last may be shorter. */
  function Chunks<T>(s: seq<T>, w: nat): (bs: seq<seq<T>>)
    requires w >= 1
    ensures Flatten(bs) == s
    ensures forall k :: 0 <= k < |bs| ==> 1 <= |bs[k]| <= w
    decreases |s|
  {
    if s == [] then []
    else if |s| <= w then
      assert [s][1..] == [] && Flatten([s]) == s + [];
      [s]
    else
      var rest := Chunks(s[w..], w);
      assert ([s[..w]] + rest)[1..] == rest;
      [s[..w]] + rest
  }

  /** Bucket `k` is the run from place `k * w` on, up to `w` long, and the runs end with the list. */
  lemma {:induction false} ChunkAt<T>(s: seq<T>, w: nat, k: nat, from: nat)
    requires w >= 1 && from == StartOf(k, w)
    ensures k < |Chunks(s, w)| <==> from < |s|
    ensures k < |Chunks(s, w)| ==> Chunks(s, w)[k] == if from + w <= |s| then s[from..from + w] else s[from..]
    decreases |s|
  {
    if |s| > w {
      var rest := Chunks(s[w..], w);
      ChunksOn(s, w);
      if k > 0 {
        ChunkAt(s[w..], w, k - 1, from - w);
        ChunkOn(s, w, from);
        assert k < |Chunks(s, w)| ==> Chunks(s, w)[k] == rest[k - 1];
      }
    }
  }

  lemma ChunksOn<T>(s: seq<T>, w: nat)
    requires 1 <= w < |s|
    ensures Chunks(s, w) == [s[..w]] + Chunks(s[w..], w)
  {
  }

  lemma ChunkOn<T>(s: seq<T>, w: nat, from: nat)
    requires w <= from && w <= |s|
    ensures from <= |s| ==> s[w..][from - w..] == s[from..]
    ensures from + w <= |s| ==> s[w..][from - w..from] == s[from..from + w]
  {
  }

  /** Where bucket `k` starts: at `k * w`. */
  function StartOf(k: nat, w: nat): (n: nat)
    ensures k > 0 ==> n >= w
  {
    if k == 0 then 0 else StartOf(k - 1, w) + w
  }

  lemma {:induction false} StartIs(k: nat, w: nat)
    ensures StartOf(k, w) == k * w
  {
    if k > 0 {
      StartIs(k - 1, w);
      assert k * w == (k - 1) * w + w;
    }
  }

  /** Buckets of original indices; a batch size below one counts as one. */
  function LengthBucketedOrder(lengths: seq<nat>, innerBatch: int): seq<seq<nat>>
  {
    Chunks(Order(lengths), if innerBatch < 1 then 1 else innerBatch)
  }

  lemma {:induction false} InFlatten<T>(bs: seq<seq<T>>, x: T)
    ensures x in Flatten(bs) <==> exists k :: 0 <= k < |bs| && x in bs[k]
  {
    if bs != [] {
      InFlatten(bs[1..], x);
      if k :| 0 <= k < |bs| && x in bs[k] {
        if k > 0 {
          assert x in bs[1..][k - 1];
        }
      }
    }
  }

  /** Prompt `i` lies in one of the first `upto` buckets. */
  predicate Reached(buckets: seq<seq<nat>>, upto: nat, i: nat)
    requires upto <= |buckets|
  {
    exists k :: 0 <= k < upto && i in buckets[k]
  }

  /** Every prompt lies in some bucket, and the buckets name only prompts. */
  lemma InSomeBucket(lengths: seq<nat>, innerBatch: int, buckets: seq<seq<nat>>, i: nat)
    requires buckets == LengthBucketedOrder(lengths, innerBatch)
    ensures i < |lengths| <==> Reached(buckets, |buckets|, i)
  {
    var order := Order(lengths);
    InFlatten(buckets, i);
    assert i in order <==> i in multiset(order);
    assert i in multiset(Range(|lengths|)) <==> i in Range(|lengths|);
    if i < |lengths| {
      assert Range(|lengths|)[i] == i;
    }
  }

  lemma BucketIndices(lengths: seq<nat>, innerBatch: int, buckets: seq<seq<nat>>, b: nat)
    requires buckets == LengthBucketedOrder(lengths, innerBatch) && b < |buckets|
    ensures Indices(buckets[b], |lengths|)
  {
    forall k | 0 <= k < |buckets[b]| ensures buckets[b][k] < |lengths| {
      assert buckets[b][k] in buckets[b];
      assert Reached(buckets, |buckets|, buckets[b][k]);
      InSomeBucket(lengths, innerBatch, buckets, buckets[b][k]);
    }
  }

  /** The buckets name every prompt and nothing else. */
  ghost predicate Cover(buckets: seq<seq<nat>>, n: nat)
  {
    && (forall b :: 0 <= b < |buckets| ==> Indices(buckets[b], n))
    && forall i :: 0 <= i < n ==> Reached(buckets, |buckets|, i)
  }

  lemma BucketsCover(lengths: seq<nat>, innerBatch: int, buckets: seq<seq<nat>>)
    requires buckets == LengthBucketedOrder(lengths, innerBatch)
    ensures Cover(buckets, |lengths|)
  {
    forall b | 0 <= b < |buckets| ensures Indices(buckets[b], |lengths|) {
      BucketIndices(lengths, innerBatch, buckets, b);
    }
    forall i | 0 <= i < |lengths| ensures Reached(buckets, |buckets|, i) {
      InSomeBucket(lengths, innerBatch, buckets, i);
    }
  }

  /** Prompt `i` is in bucket `b`, once, and in no other. */
  predicate OnlyIn(buckets: seq<seq<nat>>, b: nat, i: nat)
    requires b < |buckets|
  {
    multiset(buckets[b])[i] == 1 && forall c :: 0 <= c < |buckets| && i in buckets[c] ==> c == b
  }

  lemma {:induction false} RangeOnce(n: nat, i: nat)
    requires i < n
    ensures multiset(Range(n))[i] == 1
  {
    assert Range(n) == Range(n - 1) + [n - 1];
    if i < n - 1 {
      RangeOnce(n - 1, i);
    }
  }

  /** What is listed once over all lies in one bucket. */
  lemma {:induction false} ListedOnce(buckets: seq<seq<nat>>, i: nat) returns (b: nat)
    requires multiset(Flatten<nat>(buckets))[i] == 1
    ensures b < |buckets| && OnlyIn(buckets, b, i)
  {
    var head: seq<nat>, tail: seq<seq<nat>> := buckets[0], buckets[1..];
    InFlatten<nat>(tail, i);
    assert Flatten<nat>(buckets) == head + Flatten<nat>(tail);
    if i in head {
      b := 0;
      assert i !in Flatten<nat>(tail);
      forall c | 0 < c < |buckets| ensures i !in buckets[c] {
        assert buckets[c] == tail[c - 1];
      }
    } else {
      assert multiset(head)[i] == 0;
      var d := ListedOnce(tail, i);
      b := d + 1;
      forall c | 0 <= c < |buckets| && i in buckets[c] ensures c == b {
        assert c > 0 && buckets[c] == tail[c - 1];
      }
    }
  }

  /** Every prompt is scored once: it lies in exactly one bucket, and there in one place. */
  lemma OneBucket(lengths: seq<nat>, innerBatch: int, buckets: seq<seq<nat>>, i: nat) returns (b: nat)
    requires buckets == LengthBucketedOrder(lengths, innerBatch) && i < |lengths|
    ensures b < |buckets| && OnlyIn(buckets, b, i)
  {
    var order := Order(lengths);
    RangeOnce(|lengths|, i);
    assert Flatten<nat>(buckets) == order;
    b := ListedOnce(buckets, i);
  }

  // ---- scoring ---------------------------------------------------------------------------

  /** The scorer, one prompt at a time: padding and batch company do not reach the score read. */
  type Scorer<!P> = P -> real

  function ScoreAll<P>(score: Scorer<P>, prompts: seq<P>): (r: seq<real>)
    ensures |r| == |prompts| && forall k :: 0 <= k < |r| ==> r[k] == score(prompts[k])
  {
    seq(|prompts|, k requires 0 <= k < |prompts| => score(prompts[k]))
  }

  datatype ScoreError = StepIsZero

  /** What the arrival-order loop returns for each batch size. */
  function LegacyResult<P>(score: Scorer<P>, prompts: seq<P>, innerBatch: int): Result<seq<real>, ScoreError>
  {
    if prompts == [] then Accepted([])
    else if innerBatch == 0 then Refused(StepIsZero)
    else if innerBatch < 0 then Accepted([])
    else Accepted(ScoreAll(score, prompts))
  }

  /** The kill-switch loop: batches in arrival order, scores appended. */
  method ScoreLegacy<P>(score: Scorer<P>, prompts: seq<P>, innerBatch: int)
    returns (r: Result<seq<real>, ScoreError>)
    ensures r == LegacyResult(score, prompts, innerBatch)
  {
    var scores: seq<real> := [];
    if prompts == [] {
      return Accepted(scores);
    }
    if innerBatch == 0 {
      return Refused(StepIsZero);
    }
    var start := 0;
    while 0 < innerBatch && start < |prompts|
      invariant 0 <= start && (innerBatch < 0 ==> start == 0)
      invariant scores == ScoreAll(score, Upto(prompts, start))
      decreases |prompts| - start
    {
      var chunk := Upto(prompts, start + innerBatch)[start..];
      assert Upto(prompts, start + innerBatch) == Upto(prompts, start) + chunk;
      scores := scores + ScoreAll(score, chunk);
      start := start + innerBatch;
    }
    assert |scores| == |Upto(prompts, start)|;
    if innerBatch > 0 {
      assert Upto(prompts, start) == prompts;
    }
    return Accepted(scores);
  }

  /** Python's `prompts[:end]`, which stops at the end of the list. */
  function Upto<P>(prompts: seq<P>, end: nat): seq<P>
  {
    if end <= |prompts| then prompts[..end] else prompts
  }

  /** Writes one bucket's scores to the places of its prompts. */
  method Scatter<P>(scores: array<real>, bucket: seq<nat>, score: Scorer<P>, prompts: seq<P>)
    requires scores.Length == |prompts| && Indices(bucket, |prompts|)
    modifies scores
    ensures forall i :: 0 <= i < |prompts| ==>
              scores[i] == if i in bucket then score(prompts[i]) else old(scores[i])
  {
    var chunk := seq(|bucket|, k requires 0 <= k < |bucket| => prompts[bucket[k]]);
    var chunkScores := ScoreAll(score, chunk);
    for k := 0 to |bucket|
      invariant forall i :: 0 <= i < |prompts| ==>
                  scores[i] == if i in bucket[..k] then score(prompts[i]) else old(scores[i])
    {
      scores[bucket[k]] := chunkScores[k];
      assert bucket[..k + 1] == bucket[..k] + [bucket[k]];
    }
    assert bucket[..|bucket|] == bucket;
  }

  /** Scores bucket by bucket and scatters each score to its prompt's place. */
  method ScoreBuckets<P>(score: Scorer<P>, prompts: seq<P>, buckets: seq<seq<nat>>) returns (r: seq<real>)
    requires Cover(buckets, |prompts|)
    ensures r == ScoreAll(score, prompts)
  {
    var scores := new real[|prompts|](_ => 0.0);
    for b := 0 to |buckets|
      invariant forall i :: 0 <= i < |prompts| && Reached(buckets, b, i) ==> scores[i] == score(prompts[i])
    {
      Scatter(scores, buckets[b], score, prompts);
    }
    return scores[..];
  }

  /** The default path. */
  method ScoreBucketed<P>(score: Scorer<P>, length: P -> nat, prompts: seq<P>, innerBatch: int)
    returns (r: seq<real>)
    ensures r == ScoreAll(score, prompts)
  {
    if prompts == [] {
      return [];
    }
    var lengths := seq(|prompts|, k requires 0 <= k < |prompts| => length(prompts[k]));
    var buckets := LengthBucketedOrder(lengths, innerBatch);
    BucketsCover(lengths, innerBatch, buckets);
    r := ScoreBuckets(score, prompts, buckets);
  }

  /** The two paths agree exactly when there is nothing to score or the batch size is positive. */
  lemma PathsAgreeIff<P>(score: Scorer<P>, prompts: seq<P>, innerBatch: int)
    ensures LegacyResult(score, prompts, innerBatch) == Accepted(ScoreAll(score, prompts))
            <==> prompts == [] || innerBatch >= 1
  {
    if prompts == [] {
      assert ScoreAll(score, prompts) == [];
    } else {
      assert |ScoreAll(score, prompts)| > 0;
    }
  }
}

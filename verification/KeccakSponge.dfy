/** Keccak-256: absorbing the padded message block by block and squeezing four lanes. */
module KeccakSponge {
  import opened KeccakF
  import opened KeccakInjective
  import opened KeccakLanes
  import opened KeccakPadding

  function LaneAt(block: seq<Byte>, i: nat): Lane
  {
    if 8 * i + 8 <= |block| then Joined(block[8 * i..8 * i + 8]) else Zero()
  }

  /** A lane written out little-endian. */
  function BytesOf(v: Lane): seq<Byte>
  {
    if |v| == 64 then [v[0..8], v[8..16], v[16..24], v[24..32], v[32..40], v[40..48], v[48..56], v[56..64]] else []
  }

  function AbsorbCell(s: State, block: seq<Byte>, x: nat, y: nat): Lane
  {
    if x + 5 * y < 17 then Xor(At(s, x, y), LaneAt(block, x + 5 * y)) else At(s, x, y)
  }

  /** A block added to the first 17 lanes, in the order of section 3.1.2 of FIPS 202. */
  function Absorbed(s: State, block: seq<Byte>): State
  {
    Grid((x: nat, y: nat) => AbsorbCell(s, block, x, y))
  }

  function Blank(): State
  {
    Grid((x: nat, y: nat) => Zero())
  }

  /** `step` taken over the first `n` blocks of `p`. */
  function Fold(step: (State, seq<Byte>) -> State, s: State, p: seq<Byte>, n: nat): State
    requires 136 * n <= |p|
  {
    if n == 0 then s else step(Fold(step, s, p, n - 1), p[136 * (n - 1)..136 * n])
  }

  function AbsorbStep(s: State, block: seq<Byte>): State
  {
    Permute(Absorbed(s, block))
  }

  /** The state once `n` blocks of `p` are absorbed. */
  function Absorb(p: seq<Byte>, n: nat): State
    requires 136 * n <= |p|
  {
    Fold(AbsorbStep, Blank(), p, n)
  }

  function Blocks(p: seq<Byte>): (n: nat)
    ensures 136 * n <= |p|
    ensures |p| % 136 == 0 ==> 136 * n == |p|
  {
    |p| / 136
  }

  /** The first 32 bytes of the state. */
  function Squeezed(s: State): seq<Byte>
  {
    BytesOf(At(s, 0, 0)) + BytesOf(At(s, 1, 0)) + BytesOf(At(s, 2, 0)) + BytesOf(At(s, 3, 0))
  }

  function Digest(data: seq<Byte>): seq<Byte>
  {
    Squeezed(Absorb(Padded(data), Blocks(Padded(data))))
  }

  // ---- in place --------------------------------------------------------------------------

  /** Lane `i` of a block lies in column `i % 5`, row `i / 5`, and nowhere else. */
  lemma LaneIndex(i: nat, x: nat, y: nat)
    requires x < 5
    ensures x + 5 * y == i <==> x == i % 5 && y == i / 5
  {
    assert i == 5 * (i / 5) + i % 5;
  }

  method AbsorbLane(a: array2<Lane>, i: nat, lane: Lane)
    requires Square(a) && i < 17
    modifies a
    ensures forall x, y :: 0 <= x < 5 && 0 <= y < 5 ==>
              a[x, y] == if x + 5 * y == i then Xor(old(a[x, y]), lane) else old(a[x, y])
  {
    a[i % 5, i / 5] := Xor(a[i % 5, i / 5], lane);
    forall x, y | 0 <= x < 5 && 0 <= y < 5
      ensures a[x, y] == if x + 5 * y == i then Xor(old(a[x, y]), lane) else old(a[x, y])
    {
      LaneIndex(i, x, y);
    }
  }

  method AbsorbBlock(a: array2<Lane>, block: seq<Byte>)
    requires Square(a) && |block| == 136
    modifies a
    ensures View(a) == Absorbed(old(View(a)), block)
  {
    ghost var s := View(a);
    for i := 0 to 17
      invariant forall x, y :: 0 <= x < 5 && 0 <= y < 5 ==>
                  a[x, y] == if x + 5 * y < i then Xor(At(s, x, y), LaneAt(block, x + 5 * y)) else At(s, x, y)
    {
      var lane := Joined(block[i * 8..i * 8 + 8]);
      AbsorbLane(a, i, lane);
    }
    AbsorbedCells(a, s, block);
  }

  lemma AbsorbedCells(a: array2<Lane>, s: State, block: seq<Byte>)
    requires Square(a)
    requires forall x, y :: 0 <= x < 5 && 0 <= y < 5 ==>
               a[x, y] == if x + 5 * y < 17 then Xor(At(s, x, y), LaneAt(block, x + 5 * y)) else At(s, x, y)
    ensures View(a) == Absorbed(s, block)
  {
    forall x, y | 0 <= x < 5 && 0 <= y < 5 ensures a[x, y] == At(Absorbed(s, block), x, y) {
      assert At(Absorbed(s, block), x, y) == AbsorbCell(s, block, x, y);
    }
    ViewIs(a, Absorbed(s, block));
  }

  /** The digest bytes of the first `i` lanes. */
  function FirstLanes(s: State, i: nat): seq<Byte>
    requires i <= 4
  {
    if i == 0 then [] else FirstLanes(s, i - 1) + BytesOf(At(s, i - 1, 0))
  }

  lemma FirstLanesLength(s: State, i: nat)
    requires Full(s) && i <= 4
    ensures |FirstLanes(s, i)| == 8 * i
  {
    if i > 0 {
      FirstLanesLength(s, i - 1);
    }
  }

  lemma FourLanes(s: State)
    ensures FirstLanes(s, 4) == Squeezed(s)
  {
    assert FirstLanes(s, 1) == BytesOf(At(s, 0, 0));
    assert FirstLanes(s, 2) == FirstLanes(s, 1) + BytesOf(At(s, 1, 0));
    assert FirstLanes(s, 3) == FirstLanes(s, 2) + BytesOf(At(s, 2, 0));
  }

  lemma NextLane(s: State, out: seq<Byte>, i: nat)
    requires Full(s) && i < 4 && out == FirstLanes(s, i)
    ensures out + BytesOf(At(s, i, 0)) == FirstLanes(s, i + 1)
    ensures |out| == 8 * i && |out + BytesOf(At(s, i, 0))| == 8 * i + 8
    ensures i == 3 ==> out + BytesOf(At(s, i, 0)) == Squeezed(s)
  {
    FirstLanesLength(s, i);
    FirstLanesLength(s, i + 1);
    FourLanes(s);
  }

  /** One squeeze is enough: the loop stops after the fourth lane. */
  method Squeeze(a: array2<Lane>) returns (digest: seq<Byte>)
    requires Square(a) && Full(View(a))
    ensures digest == Squeezed(View(a)) && |digest| == 32
  {
    ghost var s := View(a);
    var out: seq<Byte> := [];
    while |out| < 32
      invariant out == [] || (|out| == 32 && out == Squeezed(s))
      decreases 32 - |out|
    {
      for i := 0 to 17
        invariant i <= 3 && out == FirstLanes(s, i) && |out| == 8 * i
      {
        NextLane(s, out, i);
        assert i % 5 == i && i / 5 == 0;
        out := out + BytesOf(a[i % 5, i / 5]);
        if |out| >= 32 {
          break;
        }
      }
      if |out| < 32 {
        assert false;  // a further permutation is never needed at this rate and length
      }
    }
    return out[..32];
  }

  lemma BlankFull()
    ensures Full(Blank())
  {
    forall x, y | 0 <= x < 5 && 0 <= y < 5 ensures At(Blank(), x, y) == Zero() {
    }
  }

  lemma AbsorbedFull(s: State, block: seq<Byte>)
    requires Full(s)
    ensures Full(Absorbed(s, block))
  {
    forall x, y | 0 <= x < 5 && 0 <= y < 5 ensures |At(Absorbed(s, block), x, y)| == 64 {
      assert At(Absorbed(s, block), x, y) == AbsorbCell(s, block, x, y);
    }
  }

  lemma AbsorbStepFull(s: State, block: seq<Byte>)
    requires Full(s)
    ensures Full(AbsorbStep(s, block))
  {
    AbsorbedFull(s, block);
    PermuteFull(Absorbed(s, block));
  }

  lemma {:induction false} FoldFull(step: (State, seq<Byte>) -> State, s: State, p: seq<Byte>, n: nat)
    requires 136 * n <= |p| && Full(s)
    requires forall t, b :: Full(t) ==> Full(step(t, b))
    ensures Full(Fold(step, s, p, n))
  {
    if n > 0 {
      FoldFull(step, s, p, n - 1);
    }
  }

  lemma AbsorbFull(p: seq<Byte>, n: nat)
    requires 136 * n <= |p|
    ensures Full(Absorb(p, n))
  {
    forall t, b | Full(t) ensures Full(AbsorbStep(t, b)) {
      AbsorbStepFull(t, b);
    }
    BlankFull();
    FoldFull(AbsorbStep, Blank(), p, n);
  }

  lemma FoldStep(step: (State, seq<Byte>) -> State, s: State, p: seq<Byte>, n: nat)
    requires 136 * n + 136 <= |p|
    ensures Fold(step, s, p, n + 1) == step(Fold(step, s, p, n), p[136 * n..136 * n + 136])
  {
  }

  /** `step` absorbs one block. Loops over blocks need no more than its name. */
  ghost predicate Absorbs(step: (State, seq<Byte>) -> State)
  {
    forall s, b {:trigger AbsorbStep(s, b)} :: step(s, b) == AbsorbStep(s, b)
  }

  method AbsorbNext(state: array2<Lane>, block: seq<Byte>, ghost step: (State, seq<Byte>) -> State)
    requires Square(state) && |block| == 136 && Absorbs(step)
    modifies state
    ensures View(state) == step(old(View(state)), block)
  {
    ghost var s := View(state);
    AbsorbBlock(state, block);
    PermuteInPlace(state);
    assert View(state) == AbsorbStep(s, block);
  }

  /** The absorbing loop: block, permutation, next block. */
  method AbsorbAll(state: array2<Lane>, padded: seq<Byte>, ghost blocks: nat, ghost step: (State, seq<Byte>) -> State)
    requires Square(state) && |padded| == 136 * blocks && Absorbs(step)
    modifies state
    ensures View(state) == Fold(step, old(View(state)), padded, blocks)
  {
    ghost var s, done := View(state), 0;
    var offset := 0;
    while offset < |padded|
      invariant offset == 136 * done
      invariant done <= blocks
      invariant View(state) == Fold(step, s, padded, done)
    {
      NextBlock(|padded|, blocks, offset, done);
      FoldStep(step, s, padded, done);
      AbsorbNext(state, padded[offset..offset + 136], step);
      offset, done := offset + 136, done + 1;
    }
    assert done == blocks;
  }

  lemma NextBlock(length: nat, blocks: nat, offset: nat, done: nat)
    requires length == 136 * blocks && offset == 136 * done && offset < length
    ensures done + 1 <= blocks && offset + 136 == 136 * (done + 1) && offset + 136 <= length
  {
  }

  lemma DigestFull(data: seq<Byte>)
    ensures Full(Absorb(Padded(data), Blocks(Padded(data))))
  {
    AbsorbFull(Padded(data), Blocks(Padded(data)));
  }

  lemma BlankCells(a: array2<Lane>)
    requires Square(a) && forall x, y :: 0 <= x < 5 && 0 <= y < 5 ==> a[x, y] == Zero()
    ensures View(a) == Blank()
  {
    forall x, y | 0 <= x < 5 && 0 <= y < 5 ensures a[x, y] == At(Blank(), x, y) {
    }
    ViewIs(a, Blank());
  }

  // ---- no two ends of a message meet in one state ----------------------------------------

  lemma {:induction false} JoinedInjective(b: seq<Byte>, c: seq<Byte>)
    requires AreBytes(b) && AreBytes(c) && |b| == |c| && Joined(b) == Joined(c)
    ensures b == c
  {
    if b != [] {
      assert b[0] == Joined(b)[..8] && c[0] == Joined(c)[..8];
      assert Joined(b[1..]) == Joined(b)[8..] && Joined(c[1..]) == Joined(c)[8..];
      JoinedInjective(b[1..], c[1..]);
      assert b == [b[0]] + b[1..] && c == [c[0]] + c[1..];
    }
  }

  /** A block can be read back from the lanes it was added to. */
  lemma AbsorbedInjective(s: State, b: seq<Byte>, c: seq<Byte>)
    requires AreBytes(b) && AreBytes(c) && |b| == |c| == 136 && Absorbed(s, b) == Absorbed(s, c)
    ensures b == c
  {
    forall k | 0 <= k < 136 ensures b[k] == c[k] {
      LaneRecovered(s, b, c, k / 8);
      var i := k / 8;
      assert b[k] == b[8 * i..8 * i + 8][k - 8 * i] && c[k] == c[8 * i..8 * i + 8][k - 8 * i];
    }
  }

  lemma LaneRecovered(s: State, b: seq<Byte>, c: seq<Byte>, i: nat)
    requires AreBytes(b) && AreBytes(c) && |b| == |c| == 136 && Absorbed(s, b) == Absorbed(s, c) && i < 17
    ensures b[8 * i..8 * i + 8] == c[8 * i..8 * i + 8]
  {
    var x, y := i % 5, i / 5;
    LaneIndex(i, x, y);
    assert At(Absorbed(s, b), x, y) == AbsorbCell(s, b, x, y);
    assert At(Absorbed(s, c), x, y) == AbsorbCell(s, c, x, y);
    var v, w := LaneAt(b, i), LaneAt(c, i);
    JoinedLength(b[8 * i..8 * i + 8]);
    JoinedLength(c[8 * i..8 * i + 8]);
    MaskedSame(At(s, x, y), v, w);
    JoinedInjective(b[8 * i..8 * i + 8], c[8 * i..8 * i + 8]);
  }

  lemma MaskedSame(mask: Lane, v: Lane, w: Lane)
    requires |v| == |w| == 64 && Xor(mask, v) == Xor(mask, w)
    ensures v == w
  {
    forall z | 0 <= z < 64 ensures Bit(v, z) == Bit(w, z) {
      assert Xor(mask, v)[z] == Xor(mask, w)[z];
    }
    SameLane(v, w);
  }

  /** From one state, different blocks lead to different states. */
  lemma BlockMatters(s: State, b: seq<Byte>, c: seq<Byte>)
    requires Full(s) && AreBytes(b) && AreBytes(c) && |b| == |c| == 136 && b != c
    ensures AbsorbStep(s, b) != AbsorbStep(s, c)
  {
    if Absorbed(s, b) == Absorbed(s, c) {
      AbsorbedInjective(s, b, c);
    }
    AbsorbedFull(s, b);
    AbsorbedFull(s, c);
    PermuteInjective(Absorbed(s, b), Absorbed(s, c));
  }

  lemma {:induction false} FoldPrefix(step: (State, seq<Byte>) -> State, s: State, p: seq<Byte>, q: seq<Byte>, n: nat)
    requires 136 * n <= |p| && 136 * n <= |q| && p[..136 * n] == q[..136 * n]
    ensures Fold(step, s, p, n) == Fold(step, s, q, n)
  {
    if n > 0 {
      assert p[..136 * (n - 1)] == p[..136 * n][..136 * (n - 1)] && q[..136 * (n - 1)] == q[..136 * n][..136 * (n - 1)];
      assert p[136 * (n - 1)..136 * n] == p[..136 * n][136 * (n - 1)..];
      assert q[136 * (n - 1)..136 * n] == q[..136 * n][136 * (n - 1)..];
      FoldPrefix(step, s, p, q, n - 1);
    }
  }

  ghost predicate SplitsBlocks(step: (State, seq<Byte>) -> State)
  {
    forall s, b, c :: Full(s) && IsBlock(b) && IsBlock(c) && b != c ==> step(s, b) != step(s, c)
  }

  predicate IsBlock(b: seq<Byte>)
  {
    AreBytes(b) && |b| == 136
  }

  lemma FoldSplits(step: (State, seq<Byte>) -> State, s: State, p: seq<Byte>, q: seq<Byte>, n: nat)
    requires AreBytes(p) && AreBytes(q) && |p| == |q| == 136 * n + 136 && p != q && p[..136 * n] == q[..136 * n]
    requires SplitsBlocks(step) && Full(Fold(step, s, p, n))
    ensures Fold(step, s, p, n + 1) != Fold(step, s, q, n + 1)
  {
    FoldPrefix(step, s, p, q, n);
    FoldStep(step, s, p, n);
    FoldStep(step, s, q, n);
    var x, y := p[136 * n..136 * n + 136], q[136 * n..136 * n + 136];
    assert p == p[..136 * n] + x && q == q[..136 * n] + y;
    assert IsBlock(x) && IsBlock(y);
  }

  lemma AbsorbStepSplits()
    ensures SplitsBlocks(AbsorbStep)
  {
    forall s, b, c | Full(s) && IsBlock(b) && IsBlock(c) && b != c ensures AbsorbStep(s, b) != AbsorbStep(s, c) {
      BlockMatters(s, b, c);
    }
  }

  /**
   * Messages of the same number of blocks that differ only in the last one never reach the same
   * state, so only the squeeze can make their digests collide.
   */
  lemma DifferentEndsDiffer(a: seq<Byte>, b: seq<Byte>, n: nat)
    requires AreBytes(a) && AreBytes(b) && a != b
    requires |Padded(a)| == |Padded(b)| == 136 * n + 136 && Padded(a)[..136 * n] == Padded(b)[..136 * n]
    ensures Absorb(Padded(a), n + 1) != Absorb(Padded(b), n + 1)
  {
    PaddingInjective(a, b);
    PaddedBytes(a);
    PaddedBytes(b);
    AbsorbFull(Padded(a), n);
    AbsorbStepSplits();
    FoldSplits(AbsorbStep, Blank(), Padded(a), Padded(b), n);
  }
}

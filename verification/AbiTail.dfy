/**
 * The dynamic `bytes` tail of an ABI-encoded event, and the advance event that carries one
 * (Solidity Contract ABI Specification, "Formal Specification of the Encoding").
 */
module AbiTail {
  import opened Outcomes
  import opened Words

  datatype TailError =
    | NotWordAligned | WordMissing | TooWide
    | OffsetUnaligned | OffsetInHead | OffsetPastEnd | LengthPastEnd | TrailingBytes | PaddingNotZero

  /** The event's head is nine words, 288 bytes; the tail's offset is word 8. */
  const ADVANCE_HEAD_WORDS := 9

  /** The canonical tail: length word, payload, zero padding to a word. */
  function PadBytes(payload: seq<byte>): (s: seq<byte>)
    requires FitsIn(|payload|, 32)
    ensures |s| == 32 + PaddedLength(|payload|)
  {
    ToBig(|payload|, 32) + payload + Zeros(PaddedLength(|payload|) - |payload|)
  }

  /** Word `i` of the data, if there is one. */
  function Word(data: seq<byte>, i: nat): Result<seq<byte>, TailError>
  {
    if (i + 1) * 32 > |data| then Refused(WordMissing) else Accepted(data[i * 32..(i + 1) * 32])
  }

  /** Word `i` read as an unsigned integer of `bits / 8` bytes. */
  function WordUint(data: seq<byte>, i: nat, width: nat): Result<nat, TailError>
  {
    var w := Word(data, i);
    if w.Refused? then Refused(w.error)
    else if !FitsIn(FromBig(w.value), width) then Refused(TooWide)
    else Accepted(FromBig(w.value))
  }

  /** Reads the single dynamic tail, refusing every malformed encoding. */
  function TailBytes(data: seq<byte>, offsetWord: nat, headWords: nat): Result<seq<byte>, TailError>
  {
    var read := WordUint(data, offsetWord, 8);
    if read.Refused? then Refused(read.error)
    else
      var offset := read.value;
      if offset % 32 != 0 then Refused(OffsetUnaligned)
      else if offset < headWords * 32 then Refused(OffsetInHead)
      else if offset + 32 > |data| then Refused(OffsetPastEnd)
      else TailAt(data, offset)
  }

  /** The length word at the offset, and what it says follows up to the end of the data. */
  function TailAt(data: seq<byte>, offset: nat): Result<seq<byte>, TailError>
    requires offset + 32 <= |data|
  {
    var length := FromBig(data[offset..offset + 32]);
    var start := offset + 32;
    if length > |data| - start then Refused(LengthPastEnd)
    else
      var padded := PaddedLength(length);
      if |data| - start != padded then Refused(TrailingBytes)
      else if data[start + length..] != Zeros(padded - length) then Refused(PaddingNotZero)
      else Accepted(data[start..start + length])
  }

  /** Where a readable offset word points. */
  predicate PointsTo(data: seq<byte>, offsetWord: nat, headWords: nat, offset: nat)
  {
    && (offsetWord + 1) * 32 <= |data|
    && FromBig(data[offsetWord * 32..(offsetWord + 1) * 32]) == offset
    && FitsIn(offset, 8) && offset % 32 == 0 && headWords * 32 <= offset <= |data|
  }

  lemma PadBytesParts(payload: seq<byte>)
    requires FitsIn(|payload|, 32)
    ensures var s := PadBytes(payload);
            && s[..32] == ToBig(|payload|, 32)
            && s[32..32 + |payload|] == payload
            && s[32 + |payload|..] == Zeros(PaddedLength(|payload|) - |payload|)
  {
    ThreeParts(ToBig(|payload|, 32), payload, Zeros(PaddedLength(|payload|) - |payload|));
  }

  lemma ThreeParts(a: seq<byte>, b: seq<byte>, c: seq<byte>)
    ensures (a + b + c)[..|a|] == a
    ensures (a + b + c)[|a|..|a| + |b|] == b
    ensures (a + b + c)[|a| + |b|..] == c
  {
  }

  /**
   * The decoder accepts a payload exactly when everything from the offset on is that payload's
   * canonical padding.
   */
  lemma TailAcceptedIff(data: seq<byte>, offsetWord: nat, headWords: nat, payload: seq<byte>)
    ensures TailBytes(data, offsetWord, headWords) == Accepted(payload)
            <==> exists offset: nat :: PointsTo(data, offsetWord, headWords, offset)
                   && FitsIn(|payload|, 32) && data[offset..] == PadBytes(payload)
  {
    if TailBytes(data, offsetWord, headWords) == Accepted(payload) {
      var offset := FromBig(data[offsetWord * 32..(offsetWord + 1) * 32]);
      var word := data[offset..offset + 32];
      ToFromBig(word);
      assert data[offset..] == word + payload + data[offset + 32 + |payload|..];
      assert PointsTo(data, offsetWord, headWords, offset) && data[offset..] == PadBytes(payload);
    }
    if exists offset: nat :: PointsTo(data, offsetWord, headWords, offset)
         && FitsIn(|payload|, 32) && data[offset..] == PadBytes(payload) {
      var offset: nat :| PointsTo(data, offsetWord, headWords, offset)
         && FitsIn(|payload|, 32) && data[offset..] == PadBytes(payload);
      TailReads(data, offsetWord, headWords, offset, payload);
    }
  }

  /** Slices of the data from `offset` on are slices of its tail. */
  lemma TailSlices(data: seq<byte>, offset: nat, tail: seq<byte>, n: nat)
    requires offset <= |data| && data[offset..] == tail && 32 + n <= |tail|
    ensures |data| == offset + |tail|
    ensures data[offset..offset + 32] == tail[..32]
    ensures data[offset + 32..offset + 32 + n] == tail[32..32 + n]
    ensures data[offset + 32 + n..] == tail[32 + n..]
  {
    SliceOfDrop(data, offset, 0, 32);
    SliceOfDrop(data, offset, 32, 32 + n);
    SliceOfDrop(data, offset, 32 + n, |tail|);
  }

  lemma SliceOfDrop(s: seq<byte>, a: nat, i: nat, j: nat)
    requires i <= j && a + j <= |s|
    ensures s[a + i..a + j] == s[a..][i..j]
  {
  }

  lemma TailReads(data: seq<byte>, offsetWord: nat, headWords: nat, offset: nat, payload: seq<byte>)
    requires PointsTo(data, offsetWord, headWords, offset)
    requires FitsIn(|payload|, 32) && data[offset..] == PadBytes(payload)
    ensures TailBytes(data, offsetWord, headWords) == Accepted(payload)
  {
    TailAtReads(data, offset, payload);
  }

  lemma TailAtReads(data: seq<byte>, offset: nat, payload: seq<byte>)
    requires offset <= |data| && FitsIn(|payload|, 32) && data[offset..] == PadBytes(payload)
    ensures offset + 32 <= |data| && TailAt(data, offset) == Accepted(payload)
  {
    PadBytesParts(payload);
    FromToBig(|payload|, 32);
    TailSlices(data, offset, PadBytes(payload), |payload|);
    assert FromBig(data[offset..offset + 32]) == |payload|;
    assert |data| - (offset + 32) == PaddedLength(|payload|);
  }

  // ---- the advance event -----------------------------------------------------------------

  /** The data words of one advance: six roots, the credits, the format version, the patch. */
  datatype Advance = Advance(roots: seq<seq<byte>>, credits: nat, version: nat, patch: seq<byte>) {
    predicate Fits()
    {
      && |roots| == 6 && (forall k :: 0 <= k < 6 ==> |roots[k]| == 32)
      && FitsIn(credits, 32) && FitsIn(version, 2) && FitsIn(|patch|, 32)
    }
  }

  function Roots(data: seq<byte>): seq<seq<byte>>
    requires |data| >= 192
  {
    seq(6, k requires 0 <= k < 6 => data[k * 32..(k + 1) * 32])
  }

  /** The data half of the event decoder, word by word. */
  function DecodeAdvance(data: seq<byte>): Result<Advance, TailError>
  {
    if |data| % 32 != 0 then Refused(NotWordAligned)
    else if |data| < 192 then Refused(WordMissing)
    else
      var credits := WordUint(data, 6, 32);
      if credits.Refused? then Refused(credits.error)
      else
        var version := WordUint(data, 7, 2);
        if version.Refused? then Refused(version.error)
        else
          var patch := TailBytes(data, 8, ADVANCE_HEAD_WORDS);
          if patch.Refused? then Refused(patch.error)
          else Accepted(Advance(Roots(data), credits.value, version.value, patch.value))
  }

  function Concat(words: seq<seq<byte>>): seq<byte>
  {
    if words == [] then [] else words[0] + Concat(words[1..])
  }

  lemma {:induction false} ConcatWords(words: seq<seq<byte>>, i: nat)
    requires forall k :: 0 <= k < |words| ==> |words[k]| == 32
    ensures |Concat(words)| == |words| * 32
    ensures i < |words| ==> Concat(words)[i * 32..(i + 1) * 32] == words[i]
  {
    if words != [] {
      ConcatWords(words[1..], if i == 0 then 0 else i - 1);
      if 0 < i < |words| {
        assert Concat(words)[i * 32..(i + 1) * 32] == Concat(words[1..])[(i - 1) * 32..i * 32];
      }
    }
  }

  /** The static words in front of the tail, with the tail placed at `offset`. */
  function HeadWords(x: Advance, offset: nat): (ws: seq<seq<byte>>)
    requires x.Fits() && FitsIn(offset, 8)
    ensures |ws| == ADVANCE_HEAD_WORDS && forall k :: 0 <= k < |ws| ==> |ws[k]| == 32
  {
    FitsInMore(x.version, 2, 32);
    FitsInMore(offset, 8, 32);
    x.roots + [ToBig(x.credits, 32), ToBig(x.version, 32), ToBig(offset, 32)]
  }

  /** An encoding with `gap` bytes between the head and the tail. The canonical one has none. */
  function EncodeWithGap(x: Advance, gap: seq<byte>): seq<byte>
    requires x.Fits() && FitsIn(288 + |gap|, 8)
  {
    Concat(HeadWords(x, 288 + |gap|)) + gap + PadBytes(x.patch)
  }

  lemma HeadFits()
    ensures FitsIn(288, 8) && FitsIn(320, 8)
  {
    assert FitsIn(288, 2) && FitsIn(320, 2);
    FitsInMore(288, 2, 8);
    FitsInMore(320, 2, 8);
  }

  function EncodeAdvance(x: Advance): seq<byte>
    requires x.Fits()
  {
    HeadFits();
    EncodeWithGap(x, [])
  }

  lemma HeadReads(x: Advance, gap: seq<byte>, i: nat)
    requires x.Fits() && FitsIn(288 + |gap|, 8)
    requires i < ADVANCE_HEAD_WORDS
    ensures var data, ws := EncodeWithGap(x, gap), HeadWords(x, 288 + |gap|);
            (i + 1) * 32 <= |data| && data[i * 32..(i + 1) * 32] == ws[i]
  {
    var ws := HeadWords(x, 288 + |gap|);
    ConcatWords(ws, i);
    var head, data := Concat(ws), EncodeWithGap(x, gap);
    assert data[..|head|] == head;
    assert data[i * 32..(i + 1) * 32] == head[i * 32..(i + 1) * 32];
  }

  lemma EncodingShape(x: Advance, gap: seq<byte>)
    requires x.Fits() && FitsIn(288 + |gap|, 8)
    ensures var data, offset := EncodeWithGap(x, gap), 288 + |gap|;
            |data| == offset + |PadBytes(x.patch)| && data[offset..] == PadBytes(x.patch)
  {
    ConcatWords(HeadWords(x, 288 + |gap|), 0);
  }

  lemma SumAligned(a: nat, b: nat)
    requires a % 32 == 0 && b % 32 == 0
    ensures (a + b) % 32 == 0
  {
  }

  lemma EncodingAligned(x: Advance, gap: seq<byte>)
    requires x.Fits() && |gap| % 32 == 0 && FitsIn(288 + |gap|, 8)
    ensures |EncodeWithGap(x, gap)| % 32 == 0
  {
    EncodingShape(x, gap);
    SumAligned(32, PaddedLength(|x.patch|));
    SumAligned(288, |gap|);
    SumAligned(288 + |gap|, |PadBytes(x.patch)|);
  }

  lemma OffsetReads(x: Advance, gap: seq<byte>)
    requires x.Fits() && FitsIn(288 + |gap|, 8)
    ensures var data := EncodeWithGap(x, gap);
            288 <= |data| && FromBig(data[256..288]) == 288 + |gap|
  {
    HeadReads(x, gap, 8);
    FitsInMore(288 + |gap|, 8, 32);
    FromToBig(288 + |gap|, 32);
  }

  lemma TailPlaced(x: Advance, gap: seq<byte>)
    requires x.Fits() && |gap| % 32 == 0 && FitsIn(288 + |gap|, 8)
    ensures PointsTo(EncodeWithGap(x, gap), 8, ADVANCE_HEAD_WORDS, 288 + |gap|)
  {
    EncodingShape(x, gap);
    OffsetReads(x, gap);
    SumAligned(288, |gap|);
  }

  lemma RootsRead(x: Advance, gap: seq<byte>)
    requires x.Fits() && FitsIn(288 + |gap|, 8)
    ensures |EncodeWithGap(x, gap)| >= 192 && Roots(EncodeWithGap(x, gap)) == x.roots
  {
    HeadReads(x, gap, 8);
    forall i | 0 <= i < 6 ensures Roots(EncodeWithGap(x, gap))[i] == x.roots[i] {
      HeadReads(x, gap, i);
    }
  }

  lemma NumberReads(data: seq<byte>, i: nat, n: nat, width: nat)
    requires FitsIn(n, 32) && FitsIn(n, width)
    requires (i + 1) * 32 <= |data| && data[i * 32..(i + 1) * 32] == ToBig(n, 32)
    ensures WordUint(data, i, width) == Accepted(n)
  {
    FromToBig(n, 32);
  }

  lemma CreditsRead(x: Advance, gap: seq<byte>)
    requires x.Fits() && FitsIn(288 + |gap|, 8)
    ensures WordUint(EncodeWithGap(x, gap), 6, 32) == Accepted(x.credits)
  {
    HeadReads(x, gap, 6);
    NumberReads(EncodeWithGap(x, gap), 6, x.credits, 32);
  }

  lemma VersionRead(x: Advance, gap: seq<byte>)
    requires x.Fits() && FitsIn(288 + |gap|, 8)
    ensures WordUint(EncodeWithGap(x, gap), 7, 2) == Accepted(x.version)
  {
    FitsInMore(x.version, 2, 32);
    HeadReads(x, gap, 7);
    NumberReads(EncodeWithGap(x, gap), 7, x.version, 2);
  }

  /** Every aligned gap decodes to the same advance: the words in it are never looked at. */
  lemma GapIgnored(x: Advance, gap: seq<byte>)
    requires x.Fits() && |gap| % 32 == 0 && FitsIn(288 + |gap|, 8)
    ensures DecodeAdvance(EncodeWithGap(x, gap)) == Accepted(x)
  {
    var data := EncodeWithGap(x, gap);
    EncodingShape(x, gap);
    EncodingAligned(x, gap);
    TailPlaced(x, gap);
    RootsRead(x, gap);
    CreditsRead(x, gap);
    VersionRead(x, gap);
    TailReads(data, 8, ADVANCE_HEAD_WORDS, 288 + |gap|, x.patch);
  }

  /** Encoding then decoding returns any advance. */
  lemma AdvanceRoundTrip(x: Advance)
    requires x.Fits()
    ensures DecodeAdvance(EncodeAdvance(x)) == Accepted(x)
  {
    HeadFits();
    GapIgnored(x, []);
  }

  lemma AcceptedParts(data: seq<byte>, x: Advance)
    requires DecodeAdvance(data) == Accepted(x)
    ensures x.Fits() && |data| >= 288
    ensures var offset := FromBig(data[256..288]);
            288 <= offset <= |data| && FitsIn(offset, 8) && data[offset..] == PadBytes(x.patch)
  {
    TailAcceptedIff(data, 8, ADVANCE_HEAD_WORDS, x.patch);
    assert forall k :: 0 <= k < 6 ==> |x.roots[k]| == 32;
    FromBigBound(data[192..224]);
  }

  lemma AcceptedHead(data: seq<byte>, x: Advance, i: nat)
    requires DecodeAdvance(data) == Accepted(x) && i < ADVANCE_HEAD_WORDS
    ensures x.Fits() && |data| >= 288 && FitsIn(FromBig(data[256..288]), 8)
    ensures HeadWords(x, FromBig(data[256..288]))[i] == data[i * 32..(i + 1) * 32]
  {
    AcceptedParts(data, x);
    ToFromBig(data[192..224]);
    ToFromBig(data[224..256]);
    ToFromBig(data[256..288]);
  }

  /** Accepted data is some encoding of the advance it decodes to, with some aligned gap. */
  lemma AcceptedIsEncoding(data: seq<byte>, x: Advance)
    requires DecodeAdvance(data) == Accepted(x)
    ensures x.Fits() && |data| >= 288
    ensures var offset := FromBig(data[256..288]);
            && 288 <= offset <= |data| && FitsIn(offset, 8)
            && data == EncodeWithGap(x, data[288..offset])
  {
    AcceptedParts(data, x);
    var offset := FromBig(data[256..288]);
    var ws := HeadWords(x, offset);
    forall i | 0 <= i < ADVANCE_HEAD_WORDS ensures ws[i] == data[i * 32..(i + 1) * 32] {
      AcceptedHead(data, x, i);
    }
    ConcatSlices(data, ws, 0);
    assert ws[0..] == ws;
    assert data[..288] + data[288..offset] + data[offset..] == data;
  }

  lemma {:induction false} ConcatSlices(data: seq<byte>, ws: seq<seq<byte>>, i: nat)
    requires i <= |ws| && |ws| * 32 <= |data|
    requires forall k :: 0 <= k < |ws| ==> ws[k] == data[k * 32..(k + 1) * 32]
    ensures Concat(ws[i..]) == data[i * 32..|ws| * 32]
    decreases |ws| - i
  {
    if i < |ws| {
      ConcatSlices(data, ws, i + 1);
      assert ws[i..][1..] == ws[i + 1..];
    }
  }

  /** Accepted data is the canonical encoding exactly when its tail starts right after the head. */
  lemma CanonicalIff(data: seq<byte>, x: Advance)
    requires DecodeAdvance(data) == Accepted(x)
    ensures x.Fits()
    ensures data == EncodeAdvance(x) <==> FromBig(data[256..288]) == 288
  {
    AcceptedIsEncoding(data, x);
    HeadFits();
    var offset := FromBig(data[256..288]);
    if offset == 288 {
      assert data[288..offset] == [];
    }
    if data == EncodeAdvance(x) {
      OffsetReads(x, []);
    }
  }

  /** A concrete stray word that is accepted: not every accepted encoding is the canonical one. */
  lemma StrayWordAccepted(x: Advance)
    requires x.Fits()
    ensures FitsIn(320, 8)
    ensures var data := EncodeWithGap(x, seq(32, k => 0xEE));
            DecodeAdvance(data) == Accepted(x) && data != EncodeAdvance(x)
  {
    HeadFits();
    var gap: seq<byte> := seq(32, k => 0xEE);
    GapIgnored(x, gap);
    ConcatWords(HeadWords(x, 320), 0);
    ConcatWords(HeadWords(x, 288), 0);
    assert |EncodeWithGap(x, gap)| == |EncodeAdvance(x)| + 32;
  }

  // ---- what accepted data says, byte by byte ---------------------------------------------

  /** The tail: a word with a length, that many bytes, and fewer than 32 zero bytes to the end. */
  lemma TailMeans(data: seq<byte>, offset: nat, payload: seq<byte>)
    requires offset + 32 <= |data| && (|data| - offset) % 32 == 0
    ensures TailAt(data, offset) == Accepted(payload) <==>
              var n := ByteSum(data[offset..offset + 32]);
              && offset + 32 + n <= |data| < offset + 32 + n + 32
              && payload == data[offset + 32..offset + 32 + n]
              && forall k :: offset + 32 + n <= k < |data| ==> data[k] == 0
  {
    var n := ByteSum(data[offset..offset + 32]);
    FromBigIsSum(data[offset..offset + 32]);
    if offset + 32 + n <= |data| {
      var rest := data[offset + 32 + n..];
      NextMultiple(n, |data| - offset - 32);
      assert rest == Zeros(|rest|) <==> forall k :: 0 <= k < |rest| ==> rest[k] == 0;
      assert forall k :: offset + 32 + n <= k < |data| ==> data[k] == rest[k - (offset + 32 + n)];
    }
  }

  lemma NextMultiple(n: nat, p: nat)
    requires (p + 32) % 32 == 0
    ensures p == PaddedLength(n) <==> n <= p < n + 32
  {
    var q := PaddedLength(n);
    assert p == 32 * (p / 32) && q == 32 * (q / 32);
  }

  /**
   * Accepted data, without the names of the decoder: six 32-byte roots, the credits and the
   * version as sums over the bytes 192 to 255, and a tail at the offset in the bytes 256 to 287.
   */
  lemma DecodeMeans(data: seq<byte>, x: Advance)
    ensures DecodeAdvance(data) == Accepted(x) <==>
              && |data| % 32 == 0 && |data| >= 288
              && |x.roots| == 6 && (forall k :: 0 <= k < 6 ==> x.roots[k] == data[32 * k..32 * k + 32])
              && x.credits == ByteSum(data[192..224])
              && x.version == ByteSum(data[224..256]) < 0x1_0000
              && var offset := ByteSum(data[256..288]);
                 && offset % 32 == 0 && 288 <= offset < 0x1_0000_0000_0000_0000 && offset + 32 <= |data|
                 && var n := ByteSum(data[offset..offset + 32]);
                    && offset + 32 + n <= |data| < offset + 32 + n + 32
                    && x.patch == data[offset + 32..offset + 32 + n]
                    && forall k :: offset + 32 + n <= k < |data| ==> data[k] == 0
  {
    if |data| % 32 == 0 && |data| >= 288 {
      HeadNumbers(data);
      var offset := ByteSum(data[256..288]);
      if offset % 32 == 0 && 288 <= offset && offset + 32 <= |data| {
        Apart(|data|, offset);
        TailMeans(data, offset, x.patch);
      }
      RootsMean(data, x.roots);
    }
  }

  lemma RootsMean(data: seq<byte>, roots: seq<seq<byte>>)
    requires |data| >= 288
    ensures roots == Roots(data) <==> |roots| == 6 && forall k :: 0 <= k < 6 ==> roots[k] == data[32 * k..32 * k + 32]
  {
  }

  lemma Apart(a: nat, b: nat)
    requires a % 32 == 0 && b % 32 == 0 && b <= a
    ensures (a - b) % 32 == 0
  {
  }

  lemma HeadNumbers(data: seq<byte>)
    requires |data| >= 288
    ensures WordUint(data, 6, 32) == Accepted(ByteSum(data[192..224]))
    ensures WordUint(data, 7, 2)
            == if ByteSum(data[224..256]) < 0x1_0000 then Accepted(ByteSum(data[224..256])) else Refused(TooWide)
    ensures WordUint(data, 8, 8)
            == if ByteSum(data[256..288]) < 0x1_0000_0000_0000_0000 then Accepted(ByteSum(data[256..288]))
               else Refused(TooWide)
  {
    FromBigIsSum(data[192..224]);
    FromBigIsSum(data[224..256]);
    FromBigIsSum(data[256..288]);
    FromBigBound(data[192..224]);
    PowersOf256();
    FitsInIffBelow(ByteSum(data[224..256]), 2);
    FitsInIffBelow(ByteSum(data[256..288]), 8);
  }
}

/** The 97-byte transition descriptor: its codec, and the order of its refusals. */
module Descriptor {
  import opened Outcomes
  import opened Words

  const VERSION: byte := 0x21
  const DESCRIPTOR_BYTES := 97
  const ARTIFACT_OFFSET := 1
  const PARENT_OFFSET := 33
  const NEW_ROOT_OFFSET := 65

  type Root = seq<byte>

  datatype Code =
    | Empty | VersionUnsupported | LengthInvalid | AdvancePatchHashZero | HashMismatch
    | ArtifactHashZero | ParentMismatch | NewRootMismatch | FormatVersionMismatch

  datatype Decoded = Decoded(version: byte, artifact: Root, parent: Root, newRoot: Root)

  /** The signed receipt's values the bytes may be checked against. */
  datatype Expected = Expected(patchHash: Option<Root>, parent: Option<Root>, newRoot: Option<Root>,
                               formatVersion: Option<int>)

  const NOTHING_EXPECTED := Expected(None, None, None, None)

  predicate WordSized(r: Root)
  {
    |r| == 32
  }

  function ZeroWord(): Root
  {
    Zeros(32)
  }

  /** Decoding, with the checks in the contract's order. `hash` is the labelled descriptor hash. */
  function Decode(hash: seq<byte> -> Root, raw: seq<byte>, want: Expected): Result<Decoded, Code>
  {
    if raw == [] then Refused(Empty)
    else if raw[0] != VERSION then Refused(VersionUnsupported)
    else if |raw| != DESCRIPTOR_BYTES then Refused(LengthInvalid)
    else if want.patchHash == Some(ZeroWord()) then Refused(AdvancePatchHashZero)
    else if want.patchHash.Some? && hash(raw) != want.patchHash.value then Refused(HashMismatch)
    else
      var artifact, parent, newRoot :=
        raw[ARTIFACT_OFFSET..PARENT_OFFSET], raw[PARENT_OFFSET..NEW_ROOT_OFFSET], raw[NEW_ROOT_OFFSET..];
      if artifact == ZeroWord() then Refused(ArtifactHashZero)
      else if want.parent.Some? && parent != want.parent.value then Refused(ParentMismatch)
      else if want.newRoot.Some? && newRoot != want.newRoot.value then Refused(NewRootMismatch)
      else if want.formatVersion.Some? && want.formatVersion.value != raw[0] as int then Refused(FormatVersionMismatch)
      else Accepted(Decoded(raw[0], artifact, parent, newRoot))
  }

  /** Encoding, which re-reads what it wrote before returning it. */
  function Encode(hash: seq<byte> -> Root, artifact: Root, parent: Root, newRoot: Root): Result<seq<byte>, Code>
  {
    if !WordSized(artifact) || !WordSized(parent) || !WordSized(newRoot) then Refused(LengthInvalid)
    else if artifact == ZeroWord() then Refused(ArtifactHashZero)
    else
      var raw := [VERSION] + artifact + parent + newRoot;
      var reread := Decode(hash, raw, NOTHING_EXPECTED.(parent := Some(parent), newRoot := Some(newRoot)));
      if reread.Refused? then Refused(reread.error) else Accepted(raw)
  }

  lemma Slices(artifact: Root, parent: Root, newRoot: Root)
    requires WordSized(artifact) && WordSized(parent) && WordSized(newRoot)
    ensures var raw := [VERSION] + artifact + parent + newRoot;
            && |raw| == DESCRIPTOR_BYTES
            && raw[ARTIFACT_OFFSET..PARENT_OFFSET] == artifact
            && raw[PARENT_OFFSET..NEW_ROOT_OFFSET] == parent
            && raw[NEW_ROOT_OFFSET..] == newRoot
  {
  }

  /** The encoder accepts exactly the word-sized roots with a non-zero artifact address. */
  lemma EncodeAcceptsIff(hash: seq<byte> -> Root, artifact: Root, parent: Root, newRoot: Root)
    ensures Encode(hash, artifact, parent, newRoot).Accepted?
            <==> WordSized(artifact) && WordSized(parent) && WordSized(newRoot) && artifact != ZeroWord()
  {
    if WordSized(artifact) && WordSized(parent) && WordSized(newRoot) {
      Slices(artifact, parent, newRoot);
    }
  }

  /** Whatever the encoder emits decodes to what it was given. */
  lemma DecodeEncode(hash: seq<byte> -> Root, artifact: Root, parent: Root, newRoot: Root)
    requires Encode(hash, artifact, parent, newRoot).Accepted?
    ensures Decode(hash, Encode(hash, artifact, parent, newRoot).value, NOTHING_EXPECTED)
            == Accepted(Decoded(VERSION, artifact, parent, newRoot))
  {
    Slices(artifact, parent, newRoot);
  }

  /** Accepted bytes are the encoder's bytes: a descriptor has one spelling. */
  lemma EncodeDecode(hash: seq<byte> -> Root, raw: seq<byte>, want: Expected)
    requires Decode(hash, raw, want).Accepted?
    ensures var d := Decode(hash, raw, want).value;
            Encode(hash, d.artifact, d.parent, d.newRoot) == Accepted(raw)
  {
    var d := Decode(hash, raw, want).value;
    assert raw == [VERSION] + d.artifact + d.parent + d.newRoot;
    EncodeAcceptsIff(hash, d.artifact, d.parent, d.newRoot);
  }

  // ---- the bytes -------------------------------------------------------------------------

  /** What the encoder emits, byte by byte. */
  lemma EncodeMeans(hash: seq<byte> -> Root, artifact: Root, parent: Root, newRoot: Root)
    requires Encode(hash, artifact, parent, newRoot).Accepted?
    ensures var raw := Encode(hash, artifact, parent, newRoot).value;
            |raw| == 97 && raw[0] == 33 && raw[1..33] == artifact && raw[33..65] == parent && raw[65..97] == newRoot
  {
    Slices(artifact, parent, newRoot);
    var raw := [VERSION] + artifact + parent + newRoot;
    assert raw[65..97] == raw[65..];
  }

  /** Which bytes decode, and to what. */
  lemma DecodeMeans(hash: seq<byte> -> Root, raw: seq<byte>, want: Expected, d: Decoded)
    ensures Decode(hash, raw, want) == Accepted(d) <==>
              && |raw| == 97 && raw[0] == 33
              && d.version == 33 && d.artifact == raw[1..33] && d.parent == raw[33..65] && d.newRoot == raw[65..97]
              && (exists k :: 0 <= k < 32 && d.artifact[k] != 0)
              && (want.patchHash.Some? ==>
                    want.patchHash.value == hash(raw) && want.patchHash.value != seq(32, k => 0 as byte))
              && (want.parent.Some? ==> want.parent.value == d.parent)
              && (want.newRoot.Some? ==> want.newRoot.value == d.newRoot)
              && (want.formatVersion.Some? ==> want.formatVersion.value == 33)
  {
    assert ZeroWord() == seq(32, k => 0 as byte);
    if |raw| == 97 {
      assert raw[65..97] == raw[65..];
      ZeroIff(raw[1..33]);
    }
  }

  lemma ZeroIff(r: Root)
    requires |r| == 32
    ensures r == ZeroWord() <==> !exists k :: 0 <= k < 32 && r[k] != 0
  {
  }

  // ---- the refusal is the first failing check --------------------------------------------

  /** The checks on their own, each with the code it refuses with, in the contract's order. */
  function Checks(hash: seq<byte> -> Root, raw: seq<byte>, want: Expected): seq<(Code, bool)>
  {
    var sized := |raw| == DESCRIPTOR_BYTES;
    [ (Empty, raw != []),
      (VersionUnsupported, raw != [] && raw[0] == VERSION),
      (LengthInvalid, sized),
      (AdvancePatchHashZero, want.patchHash != Some(ZeroWord())),
      (HashMismatch, want.patchHash.None? || hash(raw) == want.patchHash.value),
      (ArtifactHashZero, sized && raw[ARTIFACT_OFFSET..PARENT_OFFSET] != ZeroWord()),
      (ParentMismatch, sized && (want.parent.None? || raw[PARENT_OFFSET..NEW_ROOT_OFFSET] == want.parent.value)),
      (NewRootMismatch, sized && (want.newRoot.None? || raw[NEW_ROOT_OFFSET..] == want.newRoot.value)),
      (FormatVersionMismatch, want.formatVersion.None? || want.formatVersion.value == VERSION as int) ]
  }

  /** The code of the first check that fails. */
  function FirstFailure(checks: seq<(Code, bool)>): Option<Code>
  {
    if checks == [] then None
    else if !checks[0].1 then Some(checks[0].0)
    else FirstFailure(checks[1..])
  }

  lemma {:induction false} FirstFailureSkips(checks: seq<(Code, bool)>, k: nat)
    requires k <= |checks| && forall j :: 0 <= j < k ==> checks[j].1
    ensures FirstFailure(checks) == FirstFailure(checks[k..])
  {
    if k > 0 {
      FirstFailureSkips(checks[1..], k - 1);
      assert checks[1..][k - 1..] == checks[k..];
    } else {
      assert checks[0..] == checks;
    }
  }

  lemma FirstFailureAt(checks: seq<(Code, bool)>, k: nat)
    requires k < |checks| && !checks[k].1 && forall j :: 0 <= j < k ==> checks[j].1
    ensures FirstFailure(checks) == Some(checks[k].0)
  {
    FirstFailureSkips(checks, k);
  }

  /**
   * Decoding refuses with the first failing check and accepts when none fails; the accepted parts
   * are then exactly the expected ones.
   */
  lemma DecodeRefusesFirst(hash: seq<byte> -> Root, raw: seq<byte>, want: Expected)
    ensures var first := FirstFailure(Checks(hash, raw, want));
            match Decode(hash, raw, want)
            case Refused(code) => first == Some(code)
            case Accepted(d) => && first == None && d.version == VERSION
                                && (want.parent.Some? ==> d.parent == want.parent.value)
                                && (want.newRoot.Some? ==> d.newRoot == want.newRoot.value)
  {
    var checks := Checks(hash, raw, want);
    if k: nat :| k < |checks| && !checks[k].1 && forall j :: 0 <= j < k ==> checks[j].1 {
      FirstFailureAt(checks, k);
      assert (k > 0 ==> checks[0].1) && (k > 1 ==> checks[1].1) && (k > 2 ==> checks[2].1)
          && (k > 3 ==> checks[3].1) && (k > 4 ==> checks[4].1) && (k > 5 ==> checks[5].1)
          && (k > 6 ==> checks[6].1) && (k > 7 ==> checks[7].1);
    } else {
      AllPass(checks, 0);
      FirstFailureSkips(checks, |checks|);
      assert checks[0].1 && checks[1].1 && checks[2].1 && checks[3].1 && checks[4].1 && checks[5].1
          && checks[6].1 && checks[7].1 && checks[8].1;
    }
  }

  lemma {:induction false} AllPass(checks: seq<(Code, bool)>, i: nat)
    requires i <= |checks| && forall j :: 0 <= j < i ==> checks[j].1
    requires !exists k: nat :: k < |checks| && !checks[k].1 && forall j :: 0 <= j < k ==> checks[j].1
    ensures forall j :: 0 <= j < |checks| ==> checks[j].1
    decreases |checks| - i
  {
    if i < |checks| {
      AllPass(checks, i + 1);
    }
  }
}

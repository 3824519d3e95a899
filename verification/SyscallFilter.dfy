/**
 * The classic BPF program that denies network sockets, as bytes, and a small interpreter that
 * says what it does.
 */
module SyscallFilter {
  import opened Outcomes
  import opened Words

  const LOAD := 0x20       // load a 32-bit word at an absolute offset
  const JUMP_EQUAL := 0x15 // compare the accumulator with k
  const RETURN := 0x06     // return k

  const ACTION_ERRNO := 0x0005_0001
  const ACTION_ALLOW := 0x7FFF_0000

  const NR_OFFSET := 0
  const ARCH_OFFSET := 4
  const FIRST_ARGUMENT_OFFSET := 16

  const MAX_JUMP := 255
  const DATA_WORDS := 16

  datatype Instr = Instr(code: nat, jt: nat, jf: nat, k: nat) {
    /** The ranges `struct.pack("HBBI", ...)` accepts. */
    predicate Packable()
    {
      code < 0x1_0000 && jt <= MAX_JUMP && jf <= MAX_JUMP && k < 0x1_0000_0000
    }
  }

  function Stmt(code: nat, k: nat): Instr
  {
    Instr(code, 0, 0, k)
  }

  function Jump(code: nat, k: nat, jt: nat, jf: nat): Instr
  {
    Instr(code, jt, jf, k)
  }

  // ---- the byte form ---------------------------------------------------------------------

  /** One `sock_filter` record, little-endian. */
  function Pack(i: Instr): (s: seq<byte>)
    requires i.Packable()
    ensures |s| == 8
  {
    [ (i.code % 256) as byte, (i.code / 256) as byte, i.jt as byte, i.jf as byte,
      (i.k % 256) as byte, (i.k / 0x100 % 256) as byte, (i.k / 0x1_0000 % 256) as byte, (i.k / 0x100_0000) as byte ]
  }

  function Unpack(s: seq<byte>): Instr
    requires |s| == 8
  {
    Instr(s[0] as int + 256 * s[1] as int, s[2] as int, s[3] as int,
          s[4] as int + 0x100 * s[5] as int + 0x1_0000 * s[6] as int + 0x100_0000 * s[7] as int)
  }

  lemma UnpackPack(i: Instr)
    requires i.Packable()
    ensures Unpack(Pack(i)) == i
  {
    var k := i.k;
    assert k / 0x1_0000 == k / 0x100 / 256;
    assert k / 0x100_0000 == k / 0x100 / 256 / 256;
  }

  predicate AllPackable(p: seq<Instr>)
  {
    forall k :: 0 <= k < |p| ==> p[k].Packable()
  }

  function PackAll(p: seq<Instr>): seq<byte>
    requires AllPackable(p)
  {
    if p == [] then [] else Pack(p[0]) + PackAll(p[1..])
  }

  /** The program the kernel reads out of a byte buffer. */
  function Program(s: seq<byte>): seq<Instr>
  {
    if |s| < 8 then [] else [Unpack(s[..8])] + Program(s[8..])
  }

  /** The kernel reads back the instructions that were packed. */
  lemma {:induction false} ProgramOfPacked(p: seq<Instr>)
    requires AllPackable(p)
    ensures Program(PackAll(p)) == p
  {
    if p != [] {
      var s := PackAll(p);
      assert s[..8] == Pack(p[0]) && s[8..] == PackAll(p[1..]);
      UnpackPack(p[0]);
      ProgramOfPacked(p[1..]);
    }
  }

  // ---- the interpreter -------------------------------------------------------------------

  datatype Verdict = Returns(k: nat) | Faults

  /** The words of `seccomp_data`: call number, architecture, instruction pointer, arguments. */
  type CallData = d: seq<nat> | |d| == DATA_WORDS witness seq(DATA_WORDS, k => 0)

  function Load(data: CallData, offset: nat): Option<nat>
  {
    if offset % 4 == 0 && offset / 4 < DATA_WORDS then Some(data[offset / 4]) else None
  }

  /** Running the program from `pc`; leaving the program or an unknown instruction faults. */
  function Run(p: seq<Instr>, pc: nat, acc: nat, data: CallData): Verdict
    decreases |p| - pc
  {
    if pc >= |p| then Faults
    else
      var i := p[pc];
      if i.code == LOAD then
        var w := Load(data, i.k);
        if w.None? then Faults else Run(p, pc + 1, w.value, data)
      else if i.code == JUMP_EQUAL then Run(p, pc + 1 + (if acc == i.k then i.jt else i.jf), acc, data)
      else if i.code == RETURN then Returns(i.k)
      else Faults
  }

  // ---- the generated program -------------------------------------------------------------

  function Prologue(arch: nat, socket: nat): seq<Instr>
  {
    [ Stmt(LOAD, ARCH_OFFSET), Jump(JUMP_EQUAL, arch, 1, 0), Stmt(RETURN, ACTION_ERRNO),
      Stmt(LOAD, NR_OFFSET), Jump(JUMP_EQUAL, socket, 1, 0), Stmt(RETURN, ACTION_ALLOW),
      Stmt(LOAD, FIRST_ARGUMENT_OFFSET) ]
  }

  /** The comparison for family `i`: a match jumps over the rest to the final return. */
  function FamilyJumps(families: seq<nat>, upto: nat): (p: seq<Instr>)
    requires upto <= |families|
    ensures |p| == upto
    ensures forall i :: 0 <= i < upto ==> p[i] == Jump(JUMP_EQUAL, families[i], |families| - i, 0)
  {
    seq(upto, i requires 0 <= i < upto => Jump(JUMP_EQUAL, families[i], |families| - i, 0))
  }

  function Filter(arch: nat, socket: nat, families: seq<nat>): seq<Instr>
  {
    Prologue(arch, socket) + FamilyJumps(families, |families|)
    + [Stmt(RETURN, ACTION_ALLOW), Stmt(RETURN, ACTION_ERRNO)]
  }

  /** What the filter is for. */
  function Policy(arch: nat, socket: nat, families: seq<nat>, data: CallData): nat
  {
    if data[1] != arch || (data[0] == socket && data[4] in families) then ACTION_ERRNO else ACTION_ALLOW
  }

  /** The layout of the program, instruction by instruction. */
  ghost predicate Laid(p: seq<Instr>, arch: nat, socket: nat, families: seq<nat>)
  {
    var n := |families|;
    && |p| == n + 9
    && p[0] == Stmt(LOAD, ARCH_OFFSET) && p[1] == Jump(JUMP_EQUAL, arch, 1, 0)
    && p[2] == Stmt(RETURN, ACTION_ERRNO)
    && p[3] == Stmt(LOAD, NR_OFFSET) && p[4] == Jump(JUMP_EQUAL, socket, 1, 0)
    && p[5] == Stmt(RETURN, ACTION_ALLOW)
    && p[6] == Stmt(LOAD, FIRST_ARGUMENT_OFFSET)
    && (forall i :: 0 <= i < n ==> p[7 + i] == Jump(JUMP_EQUAL, families[i], n - i, 0))
    && p[7 + n] == Stmt(RETURN, ACTION_ALLOW) && p[8 + n] == Stmt(RETURN, ACTION_ERRNO)
  }

  lemma FilterLaid(arch: nat, socket: nat, families: seq<nat>)
    ensures Laid(Filter(arch, socket, families), arch, socket, families)
  {
  }

  /** From the comparison for family `i` on, the program looks for the argument in what is left. */
  lemma {:induction false} FamiliesSearched(p: seq<Instr>, arch: nat, socket: nat, families: seq<nat>, i: nat,
                                            acc: nat, data: CallData)
    requires Laid(p, arch, socket, families) && i <= |families|
    ensures Run(p, 7 + i, acc, data) == Returns(if acc in families[i..] then ACTION_ERRNO else ACTION_ALLOW)
    decreases |families| - i
  {
    var n := |families|;
    if i < n {
      FamiliesSearched(p, arch, socket, families, i + 1, acc, data);
      assert families[i..] == [families[i]] + families[i + 1..];
      assert p[7 + i] == Jump(JUMP_EQUAL, families[i], n - i, 0);
      assert Run(p, 8 + n, acc, data) == Returns(ACTION_ERRNO);
      assert Run(p, 7 + i, acc, data) == Run(p, 8 + i + (if acc == families[i] then n - i else 0), acc, data);
    }
  }

  /** The program computes the policy, and never leaves itself. */
  lemma FilterMeetsPolicy(arch: nat, socket: nat, families: seq<nat>, data: CallData)
    ensures Run(Filter(arch, socket, families), 0, 0, data) == Returns(Policy(arch, socket, families, data))
  {
    FilterLaid(arch, socket, families);
    LaidMeetsPolicy(Filter(arch, socket, families), arch, socket, families, data);
  }

  lemma LaidMeetsPolicy(p: seq<Instr>, arch: nat, socket: nat, families: seq<nat>, data: CallData)
    requires Laid(p, arch, socket, families)
    ensures Run(p, 0, 0, data) == Returns(Policy(arch, socket, families, data))
  {
    FamiliesSearched(p, arch, socket, families, 0, data[4], data);
    assert families[0..] == families;
    assert Load(data, FIRST_ARGUMENT_OFFSET) == Some(data[4]);
    assert Run(p, 6, data[0], data) == Run(p, 7, data[4], data);
    assert Run(p, 5, data[0], data) == Returns(ACTION_ALLOW);
    assert Run(p, 4, data[0], data) == Run(p, if data[0] == socket then 6 else 5, data[0], data);
    assert Load(data, NR_OFFSET) == Some(data[0]) && Load(data, ARCH_OFFSET) == Some(data[1]);
    assert Run(p, 3, data[1], data) == Run(p, 4, data[0], data);
    assert Run(p, 2, data[1], data) == Returns(ACTION_ERRNO);
    assert Run(p, 1, data[1], data) == Run(p, if data[1] == arch then 3 else 2, data[1], data);
    assert Run(p, 0, 0, data) == Run(p, 1, data[1], data);
  }

  /** The kernel's own demands: every jump lands inside and the last instruction returns. */
  ghost predicate WellFormed(p: seq<Instr>)
  {
    && p != [] && p[|p| - 1].code == RETURN
    && forall pc :: 0 <= pc < |p| && p[pc].code == JUMP_EQUAL ==>
         pc + 1 + p[pc].jt < |p| && pc + 1 + p[pc].jf < |p|
  }

  lemma FilterWellFormed(arch: nat, socket: nat, families: seq<nat>)
    ensures WellFormed(Filter(arch, socket, families))
  {
    var p, n := Filter(arch, socket, families), |families|;
    FilterLaid(arch, socket, families);
    forall pc | 0 <= pc < |p| && p[pc].code == JUMP_EQUAL
      ensures pc + 1 + p[pc].jt < |p| && pc + 1 + p[pc].jf < |p|
    {
      if 7 <= pc < 7 + n {
        assert p[7 + (pc - 7)] == Jump(JUMP_EQUAL, families[pc - 7], n - (pc - 7), 0);
      }
    }
  }

  /** The inputs `struct.pack` takes: the first comparison jumps the farthest. */
  predicate Buildable(arch: nat, socket: nat, families: seq<nat>)
  {
    && arch < 0x1_0000_0000 && socket < 0x1_0000_0000 && |families| <= MAX_JUMP
    && forall i :: 0 <= i < |families| ==> families[i] < 0x1_0000_0000
  }

  lemma {:induction false} PackAppend(p: seq<Instr>, q: seq<Instr>)
    requires AllPackable(p) && AllPackable(q)
    ensures AllPackable(p + q) && PackAll(p + q) == PackAll(p) + PackAll(q)
  {
    if p == [] {
      assert p + q == q;
    } else {
      PackAppend(p[1..], q);
      assert p + q == [p[0]] + (p[1..] + q);
      PackCons(p[0], p[1..] + q);
      PackCons(p[0], p[1..]);
      assert p == [p[0]] + p[1..];
    }
  }

  lemma PackCons(i: Instr, p: seq<Instr>)
    requires i.Packable() && AllPackable(p)
    ensures AllPackable([i] + p) && PackAll([i] + p) == Pack(i) + PackAll(p)
  {
    assert ([i] + p)[1..] == p;
  }

  // ---- the bytes -------------------------------------------------------------------------

  /** Record `i` of the bytes: a 16-bit code, two 8-bit jumps and a 32-bit operand, low bytes first. */
  ghost predicate RecordIs(s: seq<byte>, i: nat, code: int, jt: int, jf: int, k: int)
  {
    && 8 * i + 8 <= |s|
    && s[8 * i] as int + 0x100 * s[8 * i + 1] as int == code
    && s[8 * i + 2] as int == jt && s[8 * i + 3] as int == jf
    && s[8 * i + 4] as int + 0x100 * s[8 * i + 5] as int + 0x1_0000 * s[8 * i + 6] as int
       + 0x100_0000 * s[8 * i + 7] as int == k
  }

  /** The program in numbers, record by record. */
  ghost predicate Records(s: seq<byte>, arch: nat, socket: nat, families: seq<nat>)
  {
    var n := |families|;
    && |s| == 8 * (n + 9)
    && RecordIs(s, 0, 0x20, 0, 0, 4) && RecordIs(s, 1, 0x15, 1, 0, arch) && RecordIs(s, 2, 0x06, 0, 0, 0x0005_0001)
    && RecordIs(s, 3, 0x20, 0, 0, 0) && RecordIs(s, 4, 0x15, 1, 0, socket) && RecordIs(s, 5, 0x06, 0, 0, 0x7FFF_0000)
    && RecordIs(s, 6, 0x20, 0, 0, 16)
    && (forall i :: 0 <= i < n ==> RecordIs(s, 7 + i, 0x15, n - i, 0, families[i]))
    && RecordIs(s, 7 + n, 0x06, 0, 0, 0x7FFF_0000) && RecordIs(s, 8 + n, 0x06, 0, 0, 0x0005_0001)
  }

  lemma {:induction false} RecordAt(p: seq<Instr>, i: nat)
    requires AllPackable(p) && i < |p|
    ensures |PackAll(p)| == 8 * |p|
    ensures RecordIs(PackAll(p), i, p[i].code, p[i].jt, p[i].jf, p[i].k)
  {
    var s, rest := PackAll(p), PackAll(p[1..]);
    if i > 0 {
      RecordAt(p[1..], i - 1);
      RecordOn(Pack(p[0]), rest, i - 1, p[i]);
    } else {
      UnpackPack(p[0]);
      if |p| > 1 {
        RecordAt(p[1..], 0);
      } else {
        assert rest == [];
      }
      assert s[..8] == Pack(p[0]);
    }
  }

  lemma RecordOn(head: seq<byte>, rest: seq<byte>, i: nat, r: Instr)
    requires |head| == 8 && RecordIs(rest, i, r.code, r.jt, r.jf, r.k)
    ensures RecordIs(head + rest, i + 1, r.code, r.jt, r.jf, r.k)
  {
    var s := head + rest;
    assert s[8..] == rest;
  }

  lemma FilterBytes(arch: nat, socket: nat, families: seq<nat>)
    requires AllPackable(Filter(arch, socket, families))
    ensures Records(PackAll(Filter(arch, socket, families)), arch, socket, families)
  {
    var p, n := Filter(arch, socket, families), |families|;
    FilterLaid(arch, socket, families);
    FixedRecords(p, n);
    forall i | 0 <= i < n ensures RecordIs(PackAll(p), 7 + i, 0x15, n - i, 0, families[i]) {
      RecordAt(p, 7 + i);
    }
  }

  lemma FixedRecords(p: seq<Instr>, n: nat)
    requires AllPackable(p) && |p| == n + 9
    ensures |PackAll(p)| == 8 * (n + 9)
    ensures forall i :: 0 <= i < n + 9 ==> RecordIs(PackAll(p), i, p[i].code, p[i].jt, p[i].jf, p[i].k)
  {
    RecordAt(p, 0);
    forall i | 0 <= i < n + 9 ensures RecordIs(PackAll(p), i, p[i].code, p[i].jt, p[i].jf, p[i].k) {
      RecordAt(p, i);
    }
  }

  lemma FilterWorks(arch: nat, socket: nat, families: seq<nat>, s: seq<byte>)
    requires AllPackable(Filter(arch, socket, families)) && s == PackAll(Filter(arch, socket, families))
    ensures Program(s) == Filter(arch, socket, families)
    ensures WellFormed(Program(s)) && Records(s, arch, socket, families)
    ensures forall data: CallData :: Run(Program(s), 0, 0, data) == Returns(Policy(arch, socket, families, data))
  {
    ProgramOfPacked(Filter(arch, socket, families));
    FilterBytes(arch, socket, families);
    FilterWellFormed(arch, socket, families);
    forall data: CallData ensures Run(Program(s), 0, 0, data) == Returns(Policy(arch, socket, families, data)) {
      FilterMeetsPolicy(arch, socket, families, data);
    }
  }

  /** The policy in numbers: errno 1 on another architecture or a listed family, else allow. */
  lemma PolicyMeans(arch: nat, socket: nat, families: seq<nat>, data: CallData)
    ensures Policy(arch, socket, families, data) == 0x0005_0001 <==>
              data[1] != arch || (data[0] == socket && exists i :: 0 <= i < |families| && families[i] == data[4])
    ensures Policy(arch, socket, families, data) == 0x7FFF_0000 <==>
              data[1] == arch && (data[0] == socket ==> forall i :: 0 <= i < |families| ==> families[i] != data[4])
  {
  }

  /** The assembly loop of the source, which appends packed instructions to one byte string. */
  method Assemble(arch: nat, socket: nat, families: seq<nat>) returns (r: Option<seq<byte>>)
    ensures r.Some? <==> Buildable(arch, socket, families)
    ensures r.Some? ==>
              AllPackable(Filter(arch, socket, families)) && r.value == PackAll(Filter(arch, socket, families))
  {
    if arch >= 0x1_0000_0000 || socket >= 0x1_0000_0000 {
      return None;
    }
    ghost var built := Prologue(arch, socket);
    var program := PackAll(Prologue(arch, socket));
    for i := 0 to |families|
      invariant forall j :: 0 <= j < i ==> families[j] < 0x1_0000_0000
      invariant i > 0 ==> |families| <= MAX_JUMP
      invariant built == Prologue(arch, socket) + FamilyJumps(families, i)
      invariant AllPackable(built) && program == PackAll(built)
    {
      var jump := Jump(JUMP_EQUAL, families[i], |families| - i, 0);
      if !jump.Packable() {
        return None;
      }
      PackAppend(built, [jump]);
      assert [jump][1..] == [] && PackAll([jump]) == Pack(jump);
      assert FamilyJumps(families, i + 1) == FamilyJumps(families, i) + [jump];
      built := built + [jump];
      program := program + Pack(jump);
    }
    var ending := [Stmt(RETURN, ACTION_ALLOW), Stmt(RETURN, ACTION_ERRNO)];
    PackAppend(built, ending);
    program := program + PackAll(ending);
    built := built + ending;
    assert built == Filter(arch, socket, families);
    return Some(program);
  }

  /** What comes out of it: these records, and a filter that does what the policy says. */
  method Build(arch: nat, socket: nat, families: seq<nat>) returns (r: Option<seq<byte>>)
    ensures r.Some? <==> Buildable(arch, socket, families)
    ensures r.Some? ==>
            && Program(r.value) == Filter(arch, socket, families)
            && WellFormed(Program(r.value)) && Records(r.value, arch, socket, families)
            && forall data: CallData ::
                 Run(Program(r.value), 0, 0, data) == Returns(Policy(arch, socket, families, data))
  {
    r := Assemble(arch, socket, families);
    if r.Some? {
      FilterWorks(arch, socket, families, r.value);
    }
  }
}

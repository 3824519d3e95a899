/** The round constants of the table are those of section 3.2.5 of FIPS 202. */
module KeccakConstants {
  import opened KeccakF

  /** The eight bits of the standard's shift register. */
  datatype Register = Register(r0: bool, r1: bool, r2: bool, r3: bool, r4: bool, r5: bool, r6: bool, r7: bool)

  function Shifted(r: Register): Register
  {
    Register(r.r7, r.r0, r.r1, r.r2, r.r3 != r.r7, r.r4 != r.r7, r.r5 != r.r7, r.r6)
  }

  function RegisterAt(t: nat): Register
  {
    if t == 0 then Register(true, false, false, false, false, false, false, false) else Shifted(RegisterAt(t - 1))
  }

  function Bit(b: bool, place: nat): nat
  {
    if b then place else 0
  }

  /** The constant of round `i`: seven outputs of the register, at the bits 2^j - 1. */
  function StandardConstant(i: nat): nat
  {
    Bit(RegisterAt(7 * i).r0, 0x1) + Bit(RegisterAt(7 * i + 1).r0, 0x2) + Bit(RegisterAt(7 * i + 2).r0, 0x8)
    + Bit(RegisterAt(7 * i + 3).r0, 0x80) + Bit(RegisterAt(7 * i + 4).r0, 0x8000)
    + Bit(RegisterAt(7 * i + 5).r0, 0x8000_0000) + Bit(RegisterAt(7 * i + 6).r0, 0x8000_0000_0000_0000)
  }

  /** The constant whose first bit comes out of `r`, the seven outputs worked out. */
  function ConstantFrom(r: Register): nat
  {
    Bit(r.r0, 0x1)
    + Bit(r.r7, 0x2)
    + Bit(r.r6, 0x8)
    + Bit(r.r5 != r.r7, 0x80)
    + Bit((r.r4 != r.r6) != r.r7, 0x8000)
    + Bit((r.r3 != r.r5) != r.r6, 0x8000_0000)
    + Bit((r.r2 != r.r4) != r.r5, 0x8000_0000_0000_0000)
  }

  /** The register three shifts on, worked out. */
  function ThreeOn(r: Register): Register
  {
    Register(r.r5 != r.r7, r.r6, r.r7, r.r0,
             (r.r1 != r.r5) != r.r7, ((r.r2 != r.r5) != r.r6) != r.r7, (r.r3 != r.r5) != r.r6, (r.r4 != r.r6) != r.r7)
  }

  /** The register seven shifts on, worked out. */
  function SevenOn(r: Register): Register
  {
    Register((r.r1 != r.r3) != r.r4, (r.r2 != r.r4) != r.r5, (r.r3 != r.r5) != r.r6, (r.r4 != r.r6) != r.r7,
             (((r.r1 != r.r3) != r.r4) != r.r5) != r.r7, (((r.r1 != r.r2) != r.r3) != r.r5) != r.r6,
             ((r.r1 != r.r2) != r.r6) != r.r7, ((r.r0 != r.r2) != r.r3) != r.r7)
  }

  /** The register at the start of each round, written out. */
  function RoundStart(i: nat): Register
  {
    match i
    case 0 => Register(true, false, false, false, false, false, false, false)
    case 1 => Register(false, false, false, false, false, false, false, true)
    case 2 => Register(false, false, false, true, true, false, true, true)
    case 3 => Register(false, true, false, true, true, false, false, false)
    case 4 => Register(true, true, true, true, true, false, true, true)
    case 5 => Register(true, false, false, true, false, false, false, false)
    case 6 => Register(true, false, true, false, true, true, false, false)
    case 7 => Register(true, true, true, true, false, false, true, false)
    case 8 => Register(false, true, false, true, false, false, true, true)
    case 9 => Register(false, false, false, false, true, true, true, false)
    case 10 => Register(true, false, false, false, false, false, true, false)
    case 11 => Register(false, false, true, true, false, true, true, true)
    case 12 => Register(true, false, true, false, true, false, true, true)
    case 13 => Register(true, false, true, true, false, false, true, true)
    case 14 => Register(true, true, false, false, false, true, true, false)
    case 15 => Register(true, true, false, true, false, true, false, true)
    case 16 => Register(false, true, false, true, false, true, false, true)
    case 17 => Register(false, true, false, true, false, true, false, false)
    case 18 => Register(false, true, false, false, true, true, true, true)
    case 19 => Register(false, false, false, true, false, true, true, true)
    case 20 => Register(true, true, true, false, true, true, false, false)
    case 21 => Register(false, true, true, true, true, true, false, false)
    case 22 => Register(true, true, false, true, false, false, false, false)
    case _ => Register(false, false, true, false, false, false, true, false)
  }

  lemma FirstSteps(i: nat)
    requires i < 6
    ensures RoundStart(i + 1) == SevenOn(RoundStart(i))
  {
  }

  lemma SecondSteps(i: nat)
    requires 6 <= i < 12
    ensures RoundStart(i + 1) == SevenOn(RoundStart(i))
  {
  }

  lemma ThirdSteps(i: nat)
    requires 12 <= i < 18
    ensures RoundStart(i + 1) == SevenOn(RoundStart(i))
  {
  }

  lemma LastSteps(i: nat)
    requires 18 <= i < 23
    ensures RoundStart(i + 1) == SevenOn(RoundStart(i))
  {
  }

  lemma RoundStartStep(i: nat)
    requires i < 23
    ensures RoundStart(i + 1) == SevenOn(RoundStart(i))
  {
    if i < 6 {
      FirstSteps(i);
    } else if i < 12 {
      SecondSteps(i);
    } else if i < 18 {
      ThirdSteps(i);
    } else {
      LastSteps(i);
    }
  }

  lemma ThreeShifts(r: Register)
    ensures Shifted(Shifted(Shifted(r))) == ThreeOn(r)
  {
  }

  lemma SevenShifts(r: Register)
    ensures Shifted(ThreeOn(ThreeOn(r))) == SevenOn(r)
  {
  }

  lemma NextAt(t: nat)
    ensures RegisterAt(t + 1) == Shifted(RegisterAt(t))
  {
  }

  lemma ThreeSteps(t: nat)
    ensures RegisterAt(t + 3) == ThreeOn(RegisterAt(t))
  {
    NextAt(t);
    NextAt(t + 1);
    NextAt(t + 2);
    ThreeShifts(RegisterAt(t));
  }

  lemma SevenSteps(t: nat)
    ensures RegisterAt(t + 7) == SevenOn(RegisterAt(t))
  {
    ThreeSteps(t);
    ThreeSteps(t + 3);
    NextAt(t + 6);
    SevenShifts(RegisterAt(t));
  }

  lemma {:induction false} StartsAre(start: nat -> Register, i: nat)
    requires start(0) == RegisterAt(0)
    requires forall k: nat :: k < i ==> start(k + 1) == SevenOn(start(k))
    ensures RegisterAt(7 * i) == start(i)
  {
    if i > 0 {
      StartsAre(start, i - 1);
      SevenSteps(7 * (i - 1));
      assert start(i - 1 + 1) == SevenOn(start(i - 1));
    }
  }

  lemma StandardFrom(i: nat)
    ensures StandardConstant(i) == ConstantFrom(RegisterAt(7 * i))
  {
    var t := 7 * i;
    assert RegisterAt(t + 1) == Shifted(RegisterAt(t)) && RegisterAt(t + 2) == Shifted(RegisterAt(t + 1));
    assert RegisterAt(t + 3) == Shifted(RegisterAt(t + 2)) && RegisterAt(t + 4) == Shifted(RegisterAt(t + 3));
    assert RegisterAt(t + 5) == Shifted(RegisterAt(t + 4)) && RegisterAt(t + 6) == Shifted(RegisterAt(t + 5));
  }

  lemma EarlyConstants(i: nat)
    requires i < 12
    ensures RoundConstants()[i] == ConstantFrom(RoundStart(i))
  {
  }

  lemma LateConstants(i: nat)
    requires 12 <= i < 24
    ensures RoundConstants()[i] == ConstantFrom(RoundStart(i))
  {
  }

  /** Every constant of the table is the one the shift register gives. */
  lemma ConstantsAreStandard(i: nat)
    requires i < 24
    ensures RoundConstants()[i] == StandardConstant(i)
  {
    forall k: nat | k < i ensures RoundStart(k + 1) == SevenOn(RoundStart(k)) {
      RoundStartStep(k);
    }
    StartsAre(RoundStart, i);
    StandardFrom(i);
    if i < 12 {
      EarlyConstants(i);
    } else {
      LateConstants(i);
    }
  }
}

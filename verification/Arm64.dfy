/** The absolute jump on ARM64: `generatePatchBytes` for the second target, with the two A64
    instructions it uses. */
module Arm64 {
  import opened Words
  import opened Memory

  const PATCH_SIZE: nat := 16
  const LDR_X16_8: nat := 0x5800_0050
  const BR_X16: nat := 0xD61F_0200

  datatype Insn = LdrLiteral(rt: nat, offset: int) | BranchRegister(rn: nat) | OtherInsn

  /** Nineteen bits in two's complement. */
  function Signed19(v: nat): int
    requires v < 0x8_0000
  {
    if v < 0x4_0000 then v else v as int - 0x8_0000
  }

  function Decode(word: nat): Insn
    requires word < 0x1_0000_0000
  {
    if word / 0x100_0000 == 0x58 then LdrLiteral(word % 32, 4 * Signed19(word / 32 % 0x8_0000))
    else if word / 0x400 == 0xD61F_0000 / 0x400 && word % 32 == 0 then BranchRegister(word / 32 % 32)
    else OtherInsn
  }

  /** Registers X0 to X30 and the program counter; the two instructions change nothing else. */
  datatype State = State(x: seq<Word>, pc: Word)

  function Word32(m: Memory, pc: int): (w: nat)
    ensures w < 0x1_0000_0000
  {
    LeValueBound(Read(m, pc, 4));
    Pow256Of8();
    LeValue(Read(m, pc, 4))
  }

  function Step(m: Memory, s: State): Option<State>
    requires |s.x| == 31
  {
    match Decode(Word32(m, s.pc))
    case LdrLiteral(rt, offset) =>
      var v := Load(m, Plus(s.pc, offset));
      Some(State(if rt < 31 then s.x[rt := v] else s.x, Plus(s.pc, 4)))
    case BranchRegister(rn) => if rn < 31 then Some(s.(pc := s.x[rn])) else None
    case OtherInsn => None
  }

  function AbsoluteJump(target: Word): (bs: seq<Byte>)
    ensures |bs| == PATCH_SIZE
  {
    LeBytes(LDR_X16_8, 4) + LeBytes(BR_X16, 4) + LeBytes(target, 8)
  }

  lemma Word32Held(m: Memory, pc: int, v: nat)
    requires v < 0x1_0000_0000 && Holds(m, pc, LeBytes(v, 4))
    ensures Word32(m, pc) == v
  {
    hide Read, LeBytes, LeValue, Holds, Pow256;
    ReadHeld(m, pc, LeBytes(v, 4));
    LeRoundTrip(v, 4);
    Pow256Of8();
  }

  /** Two steps from the start of the patch, control is at the target, for every 64-bit target; only
      X16 is lost. */
  lemma AbsoluteJumpRuns(m: Memory, s: State, target: Word)
    requires |s.x| == 31 && s.pc + PATCH_SIZE < WORD_SPAN
    requires Holds(m, s.pc, AbsoluteJump(target))
    ensures var s1 := Step(m, s); s1.Some? && Step(m, s1.value) == Some(State(s.x[16 := target], target))
  {
    hide Load, LeBytes, Holds;
    HoldsConcat(m, s.pc, LeBytes(LDR_X16_8, 4) + LeBytes(BR_X16, 4), LeBytes(target, 8));
    HoldsConcat(m, s.pc, LeBytes(LDR_X16_8, 4), LeBytes(BR_X16, 4));
    Word32Held(m, s.pc, LDR_X16_8);
    Word32Held(m, s.pc + 4, BR_X16);
    LoadHeld(m, s.pc + 8, target);
    assert Decode(LDR_X16_8) == LdrLiteral(16, 8);
    assert Decode(BR_X16) == BranchRegister(16);
    assert Step(m, s) == Some(State(s.x[16 := target], s.pc + 4));
  }

  /** memcpy of `bytes` to `buf + at`. */
  method Copy(buf: array<Byte>, at: nat, bytes: seq<Byte>)
    requires at + |bytes| <= buf.Length
    modifies buf
    ensures buf[..] == old(buf[..at]) + bytes + old(buf[at + |bytes|..])
  {
    for i := 0 to |bytes|
      invariant buf[..at] == old(buf[..at]) && buf[at..at + i] == bytes[..i]
      invariant buf[at + i..] == old(buf[at + i..])
    {
      buf[at + i] := bytes[i];
    }
    assert buf[..] == buf[..at] + buf[at..at + |bytes|] + buf[at + |bytes|..];
  }

  /** Writes the sixteen patch bytes, and only those, into the buffer. */
  method GeneratePatchBytes(buf: array<Byte>, jumpTarget: Word)
    requires buf.Length >= PATCH_SIZE
    modifies buf
    ensures buf[..PATCH_SIZE] == AbsoluteJump(jumpTarget)
    ensures buf[PATCH_SIZE..] == old(buf[PATCH_SIZE..])
  {
    hide LeBytes;
    Copy(buf, 0, LeBytes(LDR_X16_8, 4));
    assert buf[..4] == LeBytes(LDR_X16_8, 4);
    Copy(buf, 4, LeBytes(BR_X16, 4));
    assert buf[..8] == LeBytes(LDR_X16_8, 4) + LeBytes(BR_X16, 4);
    Copy(buf, 8, LeBytes(jumpTarget, 8));
    assert buf[..16] == LeBytes(LDR_X16_8, 4) + LeBytes(BR_X16, 4) + LeBytes(jumpTarget, 8);
  }
}

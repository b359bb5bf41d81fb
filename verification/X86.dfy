/** A small x86-64: the registers, the flags, byte memory, and the instructions whose
    bytes the engine itself writes or rewrites.  Every other instruction is described by an
    `Isa`, which stands for Capstone and the processor and is a parameter of every theorem. */
module X86 {
  import opened Words
  import opened Memory

  type Regs = r: seq<Word> | |r| == 16 witness seq(16, i => 0)
  type Reg = r: int | 0 <= r < 16
  type LowReg = r: int | 0 <= r < 8

  const RAX: LowReg := 0
  const RCX: LowReg := 1
  const RDX: LowReg := 2
  const RBX: LowReg := 3
  const RSP: LowReg := 4
  const RBP: LowReg := 5
  const RSI: LowReg := 6
  const RDI: LowReg := 7

  /** Everything an instruction can change except the program counter.  `extended` is the state that
      no instruction emitted by the engine touches: vector registers, x87, MXCSR. */
  datatype Core = Core(regs: Regs, flags: Word, extended: seq<Byte>, mem: Memory)

  datatype Cpu = Cpu(core: Core, pc: Word)

  datatype Insn =
    | Push(r: Reg)
    | Pop(r: Reg)
    | PushF
    | PopF
    | MovImm(lo: LowReg, imm: Word)
    | MovRsp(lo: LowReg)
    | AddImm(lo: LowReg, n: nat)
    | SubImm(lo: LowReg, n: nat)
    | CallReg(lo: LowReg)
    | JmpSlot
    | Jmp(rel: int)
    | Jcc(cc: int, rel: int, short: bool)
    | Int3
    | Other(bytes: seq<Byte>)
    | Invalid

  datatype Analysis = Analysis(isPcRelative: bool, isBranch: bool, isCall: bool, target: Word)

  /** `length` is Capstone's size of the instruction at the front of sixteen bytes (0: none).
      A `straight` instruction falls through and does not look at the program counter; `effect`
      is what it does.  All the rest (calls, returns, RIP-relative operands, ...) are `jump`.
      `loads` and `stores` give the addresses touched, `arith` the flags left by add and sub. */
  datatype Isa = Isa(
    length: seq<Byte> -> nat,
    straight: seq<Byte> -> bool,
    effect: (seq<Byte>, Core) -> Core,
    jump: (seq<Byte>, Word, Core) -> Cpu,
    loads: (seq<Byte>, Word, Regs, Word) -> iset<int>,
    stores: (seq<Byte>, Word, Regs, Word) -> iset<int>,
    analysis: (seq<Byte>, Word) -> Analysis,
    arith: (Word, int) -> Word
  )

  // ---- Decoding -------------------------------------------------------------------------

  function Signed8(b: Byte): int {
    if b < 0x80 then b else b - 0x100
  }

  function Signed32(bs: seq<Byte>): int {
    var v := LeValue(bs);
    if v < 0x8000_0000 then v else v - 0x1_0000_0000
  }

  function Decode(isa: Isa, w: seq<Byte>): Insn
    requires |w| == 16
  {
    if w[0] == 0xCC then Int3
    else if w[0] == 0xE9 then Jmp(Signed32(w[1..5]))
    else if 0x70 <= w[0] <= 0x7F then Jcc(w[0] - 0x70, Signed8(w[1]), true)
    else if w[0] == 0x0F && 0x80 <= w[1] <= 0x8F then Jcc(w[1] - 0x80, Signed32(w[2..6]), false)
    else if 0x50 <= w[0] <= 0x57 then Push(w[0] - 0x50)
    else if 0x58 <= w[0] <= 0x5F then Pop(w[0] - 0x58)
    else if w[0] == 0x9C then PushF
    else if w[0] == 0x9D then PopF
    else DecodePrefixed(isa, w)
  }

  function DecodePrefixed(isa: Isa, w: seq<Byte>): Insn
    requires |w| == 16
  {
    if w[0] == 0x41 && 0x50 <= w[1] <= 0x57 then Push(w[1] - 0x50 + 8)
    else if w[0] == 0x41 && 0x58 <= w[1] <= 0x5F then Pop(w[1] - 0x58 + 8)
    else if w[0] == 0x48 && 0xB8 <= w[1] <= 0xBF then
      LeWordBound(w[2..10]);
      MovImm(w[1] - 0xB8, LeValue(w[2..10]))
    else if w[0] == 0x48 && w[1] == 0x89 && 0xE0 <= w[2] <= 0xE7 then MovRsp(w[2] - 0xE0)
    else if w[0] == 0x48 && w[1] == 0x83 && 0xC0 <= w[2] <= 0xC7 && w[3] < 0x80 then AddImm(w[2] - 0xC0, w[3])
    else if w[0] == 0x48 && w[1] == 0x83 && 0xE8 <= w[2] <= 0xEF && w[3] < 0x80 then SubImm(w[2] - 0xE8, w[3])
    else if w[0] == 0xFF && 0xD0 <= w[1] <= 0xD7 then CallReg(w[1] - 0xD0)
    else if w[0] == 0xFF && w[1] == 0x25 && w[2] == 0 && w[3] == 0 && w[4] == 0 && w[5] == 0 then JmpSlot
    else if 1 <= isa.length(w) <= 15 then Other(w[..isa.length(w)])
    else Invalid
  }

  function Size(i: Insn): nat {
    match i
    case Push(r) => if r < 8 then 1 else 2
    case Pop(r) => if r < 8 then 1 else 2
    case PushF => 1
    case PopF => 1
    case MovImm(_, _) => 10
    case MovRsp(_) => 3
    case AddImm(_, _) => 4
    case SubImm(_, _) => 4
    case CallReg(_) => 2
    case JmpSlot => 6
    case Jmp(_) => 5
    case Jcc(_, _, short) => if short then 2 else 6
    case Int3 => 1
    case Other(bytes) => |bytes|
    case Invalid => 0
  }

  /** Instruction encodings form a prefix code: what follows an instruction does not change it. */
  ghost predicate PrefixCode(isa: Isa) {
    forall w1, w2 | |w1| == 16 && |w2| == 16 ::
      SameFront(w1, w2, Size(Decode(isa, w1))) ==> Decode(isa, w2) == Decode(isa, w1)
  }

  ghost predicate SameFront(w1: seq<Byte>, w2: seq<Byte>, n: nat) {
    0 < n <= |w1| && n <= |w2| && w1[..n] == w2[..n]
  }

  // ---- The bytes of the instructions the engine emits ------------------------------------

  function Encode(i: Insn): (bs: seq<Byte>)
    requires Emitted(i)
    ensures |bs| == Size(i)
  {
    match i
    case Push(r) => if r < 8 then [0x50 + r] else [0x41, 0x50 + (r - 8)]
    case Pop(r) => if r < 8 then [0x58 + r] else [0x41, 0x58 + (r - 8)]
    case PushF => [0x9C]
    case PopF => [0x9D]
    case MovImm(r, imm) => [0x48, 0xB8 + r] + LeBytes(imm, 8)
    case MovRsp(r) => [0x48, 0x89, 0xE0 + r]
    case AddImm(r, n) => [0x48, 0x83, 0xC0 + r, n]
    case SubImm(r, n) => [0x48, 0x83, 0xE8 + r, n]
    case CallReg(r) => [0xFF, 0xD0 + r]
    case JmpSlot => [0xFF, 0x25, 0, 0, 0, 0]
    case Jcc(cc, rel, _) => [0x0F, 0x80 + cc] + LeBytes(rel, 4)
  }

  predicate Emitted(i: Insn) {
    match i
    case Push(_) => true
    case Pop(_) => true
    case PushF => true
    case PopF => true
    case MovImm(_, _) => true
    case MovRsp(_) => true
    case AddImm(_, n) => n < 0x80
    case SubImm(_, n) => n < 0x80
    case CallReg(_) => true
    case JmpSlot => true
    case Jcc(cc, rel, short) => 0 <= cc < 16 && 0 <= rel < 0x8000_0000 && !short
    case _ => false
  }

  /** Whatever follows them in memory, emitted bytes decode to the instruction they encode. */
  lemma DecodeEncode(isa: Isa, i: Insn, w: seq<Byte>)
    requires Emitted(i)
    requires |w| == 16 && w[..Size(i)] == Encode(i)
    ensures Decode(isa, w) == i
  {
    var bs := Encode(i);
    assert forall k :: 0 <= k < Size(i) ==> w[k] == bs[k];
    match i
    case MovImm(r, imm) =>
      assert w[2..10] == LeBytes(imm, 8);
      LeWord(imm);
    case Jcc(cc, rel, _) =>
      assert w[2..6] == LeBytes(rel, 4);
      LeRoundTrip(rel, 4);
      Pow256Of8();
    case _ =>
  }

  function Fetch(isa: Isa, m: Memory, pc: int): Insn {
    Decode(isa, Read(m, pc, 16))
  }

  lemma FetchEmitted(isa: Isa, m: Memory, pc: int, i: Insn)
    requires Emitted(i)
    requires Holds(m, pc, Encode(i))
    ensures Fetch(isa, m, pc) == i
  {
    assert Read(m, pc, 16)[..Size(i)] == Encode(i);
    DecodeEncode(isa, i, Read(m, pc, 16));
  }

  // ---- Executing ---------------------------------------------------------------------------

  function Test(k: int, f: Word): bool {
    var cf, pf, zf, sf, of := f % 2 == 1, f / 4 % 2 == 1, f / 64 % 2 == 1, f / 128 % 2 == 1, f / 2048 % 2 == 1;
    if k == 0 then of
    else if k == 1 then cf
    else if k == 2 then zf
    else if k == 3 then cf || zf
    else if k == 4 then sf
    else if k == 5 then pf
    else if k == 6 then sf != of
    else zf || sf != of
  }

  /** Condition code `cc` of the Jcc family: odd codes negate the even code before them. */
  function Cond(cc: int, f: Word): bool {
    if cc % 2 == 0 then Test(cc / 2, f) else !Test(cc / 2, f)
  }

  predicate IsStraight(isa: Isa, i: Insn) {
    match i
    case Push(_) => true
    case Pop(_) => true
    case PushF => true
    case PopF => true
    case MovImm(_, _) => true
    case MovRsp(_) => true
    case AddImm(_, _) => true
    case SubImm(_, _) => true
    case Other(bytes) => isa.straight(bytes)
    case _ => false
  }

  function PushWord(c: Core, v: Word): Core {
    var sp := Plus(c.regs[RSP], -8);
    c.(regs := c.regs[RSP := sp], mem := Store(c.mem, sp, v))
  }

  /** What a straight instruction does, wherever it is placed. */
  function Straight(isa: Isa, i: Insn, c: Core): Core
    requires IsStraight(isa, i)
  {
    match i
    case Push(r) => PushWord(c, c.regs[r])
    case PushF => PushWord(c, c.flags)
    case Pop(r) => c.(regs := c.regs[RSP := Plus(c.regs[RSP], 8)][r := Load(c.mem, c.regs[RSP])])
    case PopF => c.(regs := c.regs[RSP := Plus(c.regs[RSP], 8)], flags := Load(c.mem, c.regs[RSP]))
    case MovImm(r, imm) => c.(regs := c.regs[r := imm])
    case MovRsp(r) => c.(regs := c.regs[r := c.regs[RSP]])
    case AddImm(r, n) => c.(regs := c.regs[r := Plus(c.regs[r], n)], flags := isa.arith(c.regs[r], n))
    case SubImm(r, n) => c.(regs := c.regs[r := Plus(c.regs[r], 0 - n)], flags := isa.arith(c.regs[r], 0 - n))
    case Other(bytes) => isa.effect(bytes, c)
  }

  function Next(i: Insn, pc: Word): Word {
    Wrap(pc + Size(i))
  }

  function Target(i: Insn, pc: Word): Word
    requires i.Jmp? || i.Jcc?
  {
    Wrap(pc + Size(i) + i.rel)
  }

  function Exec(isa: Isa, i: Insn, s: Cpu): Option<Cpu> {
    if IsStraight(isa, i) then Some(Cpu(Straight(isa, i, s.core), Next(i, s.pc)))
    else match i
      case Jmp(_) => Some(s.(pc := Target(i, s.pc)))
      case Jcc(cc, _, _) => Some(s.(pc := if Cond(cc, s.core.flags) then Target(i, s.pc) else Next(i, s.pc)))
      case JmpSlot => Some(s.(pc := Load(s.core.mem, s.pc + 6)))
      case CallReg(r) => Some(Cpu(PushWord(s.core, Next(i, s.pc)), s.core.regs[r]))
      case Other(bytes) => Some(isa.jump(bytes, s.pc, s.core))
      case _ => None
  }

  // ---- Footprints ----------------------------------------------------------------------------

  ghost function Reads(isa: Isa, i: Insn, s: Cpu): iset<int> {
    match i
    case Pop(_) => Extent(s.core.regs[RSP], 8)
    case PopF => Extent(s.core.regs[RSP], 8)
    case JmpSlot => Extent(s.pc + 6, 8)
    case Other(bytes) => isa.loads(bytes, s.pc, s.core.regs, s.core.flags)
    case _ => iset{}
  }

  ghost function Writes(isa: Isa, i: Insn, s: Cpu): iset<int> {
    match i
    case Push(_) => Extent(Plus(s.core.regs[RSP], -8), 8)
    case PushF => Extent(Plus(s.core.regs[RSP], -8), 8)
    case CallReg(_) => Extent(Plus(s.core.regs[RSP], -8), 8)
    case Other(bytes) => isa.stores(bytes, s.pc, s.core.regs, s.core.flags)
    case _ => iset{}
  }

  /** Two cores an instruction cannot tell apart: same registers, flags and extended state, and the
      same memory everywhere but on `d`. */
  ghost predicate Alike(c1: Core, c2: Core, d: iset<int>) {
    c1.regs == c2.regs && c1.flags == c2.flags && c1.extended == c2.extended && SameOff(c1.mem, c2.mem, d)
  }

  /** The footprints of the instructions left to the `Isa` are honest: what is not loaded does not
      matter, and what is not stored does not change. */
  ghost predicate Honest(isa: Isa) {
    forall bytes: seq<Byte>, pc: Word, c1: Core, c2: Core, d: iset<int> :: HonestAt(isa, bytes, pc, c1, c2, d)
  }

  ghost predicate HonestAt(isa: Isa, bytes: seq<Byte>, pc: Word, c1: Core, c2: Core, d: iset<int>) {
    var stores := isa.stores(bytes, pc, c1.regs, c1.flags);
    var t1 := OtherExec(isa, bytes, pc, c1);
    var t2 := OtherExec(isa, bytes, pc, c2);
    && (Alike(c1, c2, d) && isa.loads(bytes, pc, c1.regs, c1.flags) !! d ==>
          t1.pc == t2.pc && Alike(t1.core, t2.core, d - stores))
    && (forall x: int :: x !in stores ==> t1.core.mem(x) == c1.mem(x))
  }

  function OtherExec(isa: Isa, bytes: seq<Byte>, pc: Word, c: Core): Cpu {
    if isa.straight(bytes) then Cpu(isa.effect(bytes, c), Wrap(pc + |bytes|)) else isa.jump(bytes, pc, c)
  }

  /** An instruction reads only its read set: cores alike off `d` stay alike, and what it writes
      becomes alike too. */
  lemma ExecAlike(isa: Isa, i: Insn, s1: Cpu, s2: Cpu, d: iset<int>)
    requires Honest(isa)
    requires s1.pc == s2.pc && Alike(s1.core, s2.core, d)
    requires Reads(isa, i, s1) !! d
    ensures Exec(isa, i, s1).Some? <==> Exec(isa, i, s2).Some?
    ensures Exec(isa, i, s1).Some? ==>
              var t1, t2 := Exec(isa, i, s1).value, Exec(isa, i, s2).value;
              t1.pc == t2.pc && Alike(t1.core, t2.core, d - Writes(isa, i, s1))
  {
    if i.Other? {
      assert HonestAt(isa, i.bytes, s1.pc, s1.core, s2.core, d);
    } else if i.Pop? || i.PopF? {
      forall x: int | InExtent(s1.core.regs[RSP], 8, x) ensures s1.core.mem(x) == s2.core.mem(x) {
        assert x in Reads(isa, i, s1);
      }
      LoadSame(s1.core.mem, s2.core.mem, s1.core.regs[RSP]);
    } else if i.JmpSlot? {
      forall x: int | s1.pc + 6 <= x < s1.pc + 14 ensures s1.core.mem(x) == s2.core.mem(x) {
        assert x in Reads(isa, i, s1);
      }
      LoadSame(s1.core.mem, s2.core.mem, s1.pc + 6);
    } else if i.Push? || i.PushF? || i.CallReg? {
      var v := if i.Push? then s1.core.regs[i.r] else if i.PushF? then s1.core.flags else Next(i, s1.pc);
      PushAlike(s1.core, s2.core, v, d);
    }
  }

  lemma PushAlike(c1: Core, c2: Core, v: Word, d: iset<int>)
    requires Alike(c1, c2, d)
    ensures Alike(PushWord(c1, v), PushWord(c2, v), d - Extent(Plus(c1.regs[RSP], -8), 8))
  {
  }

  /** An instruction writes only its write set. */
  lemma ExecFrame(isa: Isa, i: Insn, s: Cpu, x: int)
    requires Honest(isa)
    requires Exec(isa, i, s).Some? && x !in Writes(isa, i, s)
    ensures Exec(isa, i, s).value.core.mem(x) == s.core.mem(x)
  {
    if i.Other? {
      assert HonestAt(isa, i.bytes, s.pc, s.core, s.core, iset{});
    }
  }
}

/** Moving the instructions at a hook site into a fresh code block: `buildRelocatedCode` and
    `generatePatchBytes` on x86-64. */
module Relocator {
  import opened Words
  import opened Memory
  import opened X86
  import opened Machine

  const PATCH_SIZE: nat := 14

  /** An instruction of the original code with the sixteen bytes it was decoded from. */
  datatype Unit = Unit(insn: Insn, window: seq<Byte>)

  ghost predicate Genuine(isa: Isa, u: Unit) {
    |u.window| == 16 && Decode(isa, u.window) == u.insn && 0 < Size(u.insn) <= 16
  }

  function UnitAt(isa: Isa, m: Memory, pc: int): Unit {
    Unit(Fetch(isa, m, pc), Read(m, pc, 16))
  }

  /** What `analyzeInstruction` reports: any immediate counts as a PC-relative target. */
  function Analyze(isa: Isa, i: Insn, pc: Word): Analysis {
    match i
    case Jmp(_) => Analysis(true, true, false, Target(i, pc))
    case Jcc(_, _, _) => Analysis(true, true, false, Target(i, pc))
    case JmpSlot => Analysis(true, true, false, Next(i, pc))
    case MovImm(_, imm) => Analysis(true, false, false, imm)
    case AddImm(_, n) => Analysis(true, false, false, Wrap(n))
    case SubImm(_, n) => Analysis(true, false, false, Wrap(n))
    case CallReg(_) => Analysis(false, false, true, 0)
    case Other(bytes) => isa.analysis(bytes, pc)
    case _ => Analysis(false, false, false, 0)
  }

  function Xor1(cc: Byte): Byte {
    if cc % 2 == 0 then cc + 1 else cc - 1
  }

  /** `jmp [rip+0]` and the quad it loads: 14 bytes that reach any 64-bit target. */
  function AbsoluteJump(target: Word): (bs: seq<Byte>)
    ensures |bs| == PATCH_SIZE
  {
    Encode(JmpSlot) + LeBytes(target, 8)
  }

  /** Skip over an absolute jump when the negated condition holds. */
  function ConditionalJump(cc: Byte, target: Word): seq<Byte> {
    [0x0F, (0x80 + Xor1(cc)) % 256] + LeBytes(14, 4) + AbsoluteJump(target)
  }

  /** The code emitted for one instruction; None where the builder gives up.  The CALL arm ends in
      a jump to a label that is never bound, which the assembler cannot resolve. */
  function Piece(isa: Isa, u: Unit, pc: Word): Option<seq<Byte>>
    requires |u.window| == 16 && Size(u.insn) <= 16
  {
    var a := Analyze(isa, u.insn, pc);
    var first := u.window[0];
    if a.isPcRelative && first == 0xE9 then Some(AbsoluteJump(a.target))
    else if a.isPcRelative && first == 0xE8 then None
    else if a.isPcRelative && a.isBranch && !a.isCall then
      var cc := if 0x70 <= first <= 0x7F then first - 0x70
                else if first == 0x0F then Minus8(u.window[1], 0x80)
                else 0;
      Some(ConditionalJump(cc, a.target))
    else Some(u.window[..Size(u.insn)])
  }

  // ---- The block a site covers -------------------------------------------------------------

  function BlockSize(block: seq<Unit>): nat {
    if block == [] then 0 else Size(block[0].insn) + BlockSize(block[1..])
  }

  /** Whole instructions from `pc` until `minBytes` are covered; None if one does not decode. */
  function BlockAt(isa: Isa, m: Memory, pc: int, minBytes: int): Option<seq<Unit>>
    decreases minBytes
  {
    if minBytes <= 0 then Some([])
    else
      var u := UnitAt(isa, m, pc);
      if Size(u.insn) == 0 then None
      else match BlockAt(isa, m, pc + Size(u.insn), minBytes - Size(u.insn))
        case None => None
        case Some(rest) => Some([u] + rest)
  }

  /** The emitted block: a piece for every instruction, then the jump back. */
  function Emit(isa: Isa, block: seq<Unit>, pc: Word): Option<seq<Byte>>
    requires forall u <- block :: |u.window| == 16 && Size(u.insn) <= 16
  {
    if block == [] then Some(AbsoluteJump(pc))
    else match (Piece(isa, block[0], pc), Emit(isa, block[1..], Next(block[0].insn, pc)))
      case (Some(bs), Some(rest)) => Some(bs + rest)
      case _ => None
  }

  // ---- The fragment that is rewritten faithfully --------------------------------------------

  /** Instructions that neither branch nor look at the program counter, E9 jumps, Jcc, and transfers that
      do not look at the program counter: returns, jumps to a register. */
  ghost predicate InFragment(isa: Isa, i: Insn) {
    match i
    case Jmp(_) => true
    case Jcc(_, _, _) => true
    case Other(bytes) => |bytes| > 0 && (Falls(isa, bytes) || Transfers(isa, bytes))
    case _ => IsStraight(isa, i)
  }

  ghost predicate Falls(isa: Isa, bytes: seq<Byte>)
    requires |bytes| > 0
  {
    isa.straight(bytes) && bytes[0] != 0xE8 && forall pc :: !isa.analysis(bytes, pc).isBranch
  }

  /** Wherever it is placed it goes to the same address with the same effect, and Capstone reports no
      PC-relative target. */
  ghost predicate Transfers(isa: Isa, bytes: seq<Byte>) {
    && !isa.straight(bytes)
    && (forall pc :: !isa.analysis(bytes, pc).isPcRelative)
    && (forall pc1: Word, pc2: Word, c: Core :: isa.jump(bytes, pc1, c) == isa.jump(bytes, pc2, c))
  }

  ghost predicate Relocatable(isa: Isa, block: seq<Unit>) {
    forall u <- block :: Genuine(isa, u) && InFragment(isa, u.insn)
  }

  lemma PieceInFragment(isa: Isa, u: Unit, pc: Word)
    requires Genuine(isa, u) && InFragment(isa, u.insn)
    ensures Piece(isa, u, pc) == Some(
              match u.insn
              case Jmp(_) => AbsoluteJump(Target(u.insn, pc))
              case Jcc(cc, _, _) => ConditionalJump(cc, Target(u.insn, pc))
              case _ => u.window[..Size(u.insn)])
    ensures u.insn.Jcc? ==> 0 <= u.insn.cc < 16
  {
    hide AbsoluteJump, ConditionalJump, Next, Target;
    if !u.insn.Jmp? && !u.insn.Jcc? {
      StraightPiece(isa, u, pc);
    }
  }

  lemma StraightPiece(isa: Isa, u: Unit, pc: Word)
    requires Genuine(isa, u) && InFragment(isa, u.insn) && !u.insn.Jmp? && !u.insn.Jcc?
    ensures Piece(isa, u, pc) == Some(u.window[..Size(u.insn)])
  {
    hide AbsoluteJump, ConditionalJump, Next, Target;
    if u.insn.Other? && Transfers(isa, u.insn.bytes) {
      assert !Analyze(isa, u.insn, pc).isPcRelative;
      return;
    }
    assert !Analyze(isa, u.insn, pc).isBranch;
    assert u.window[0] != 0xE9;
    assert u.window[0] != 0xE8 by {
      if u.insn.Other? {
        assert u.insn.bytes[0] == u.window[0];
      }
    }
  }

  predicate Leaves(isa: Isa, i: Insn, flags: Word) {
    i.Jmp? || (i.Jcc? && Cond(i.cc, flags)) || (i.Other? && !isa.straight(i.bytes))
  }

  ghost function After(isa: Isa, i: Insn, s: Cpu): Cpu
    requires InFragment(isa, i)
  {
    Exec(isa, i, s).value
  }

  /** Executing the block's own instructions one after the other until control leaves it. */
  ghost function BlockRun(isa: Isa, block: seq<Unit>, s: Cpu): Cpu
    requires Relocatable(isa, block)
    decreases |block|
  {
    if block == [] then s
    else
      var t := After(isa, block[0].insn, s);
      if Leaves(isa, block[0].insn, s.core.flags) then t else BlockRun(isa, block[1..], t)
  }

  /** Nothing the block executes writes into `region`. */
  ghost predicate Untouched(isa: Isa, block: seq<Unit>, s: Cpu, region: iset<int>)
    requires Relocatable(isa, block)
    decreases |block|
  {
    block == [] || (
      && Writes(isa, block[0].insn, s) !! region
      && (Leaves(isa, block[0].insn, s.core.flags) || Untouched(isa, block[1..], After(isa, block[0].insn, s), region)))
  }

  lemma FallsThrough(isa: Isa, i: Insn, s: Cpu)
    requires InFragment(isa, i) && !Leaves(isa, i, s.core.flags)
    ensures After(isa, i, s).pc == Next(i, s.pc)
    ensures s.pc + Size(i) < WORD_SPAN ==> After(isa, i, s).pc == s.pc + Size(i)
  {
  }

  function Raw(block: seq<Unit>): seq<Byte>
    requires forall u <- block :: |u.window| == 16 && Size(u.insn) <= 16
  {
    if block == [] then [] else block[0].window[..Size(block[0].insn)] + Raw(block[1..])
  }

  lemma FetchUnit(isa: Isa, m: Memory, pc: int, u: Unit)
    requires PrefixCode(isa) && Genuine(isa, u)
    requires Holds(m, pc, u.window[..Size(u.insn)])
    ensures Fetch(isa, m, pc) == u.insn
  {
    var n := Size(u.insn);
    assert Read(m, pc, 16)[..n] == u.window[..n];
    assert SameFront(u.window, Read(m, pc, 16), n);
  }

  /** Code that is not written to is still there after an instruction. */
  lemma CodeKept(isa: Isa, i: Insn, s: Cpu, a: int, bs: seq<Byte>, region: iset<int>)
    requires Honest(isa) && InFragment(isa, i)
    requires Holds(s.core.mem, a, bs)
    requires Extent(a, |bs|) <= region && Writes(isa, i, s) !! region
    ensures Holds(After(isa, i, s).core.mem, a, bs)
  {
    forall x: int | a <= x < a + |bs| ensures After(isa, i, s).core.mem(x) == bs[x - a] {
      assert x in Extent(a, |bs|);
      ExecFrame(isa, i, s, x);
    }
  }

  /** The machine executes the instruction that lies at its program counter. */
  lemma StepUnit(m: Machine, u: Unit, s: State)
    requires PrefixCode(m.isa) && Genuine(m.isa, u) && InFragment(m.isa, u.insn)
    requires Holds(s.core.mem, s.pc, u.window[..Size(u.insn)])
    requires s.pc !in Stops(m)
    ensures Step(m, s) == Some(At(After(m.isa, u.insn, Cpu(s.core, s.pc)), s.calls))
  {
    FetchUnit(m.isa, s.core.mem, s.pc, u);
  }

  function At(s: Cpu, calls: seq<Call>): State {
    State(s.core, s.pc, calls)
  }

  lemma ExtentInside(a: int, n: nat, b: int, k: nat, region: iset<int>)
    requires Extent(a, n) <= region
    requires a <= b && b + k <= a + n
    ensures Extent(b, k) <= region
  {
    forall x: int | x in Extent(b, k) ensures x in region {
      assert x in Extent(a, n);
    }
  }

  /** The unpatched code at `s.pc` runs as `BlockRun` says. */
  lemma {:induction false} OriginalRuns(m: Machine, block: seq<Unit>, s: Cpu, calls: seq<Call>, region: iset<int>)
    returns (k: nat)
    requires PrefixCode(m.isa) && Honest(m.isa) && Relocatable(m.isa, block)
    requires Holds(s.core.mem, s.pc, Raw(block))
    requires s.pc + BlockSize(block) < WORD_SPAN
    requires Extent(s.pc, BlockSize(block)) <= region && region !! Stops(m)
    requires Untouched(m.isa, block, s, region)
    ensures k <= |block| && (block != [] ==> k >= 1)
    ensures Run(m, At(s, calls), k) == Some(At(BlockRun(m.isa, block, s), calls))
    decreases |block|
  {
    hide Step, Exec, Honest, PrefixCode, Holds, Decode, Writes, InFragment;
    if block == [] {
      return 0;
    }
    var u, rest := block[0], block[1..];
    var i, n := u.insn, Size(u.insn);
    HoldsConcat(s.core.mem, s.pc, u.window[..n], Raw(rest));
    assert s.pc in Extent(s.pc, BlockSize(block));
    StepUnit(m, u, At(s, calls));
    var t := After(m.isa, i, s);
    if Leaves(m.isa, i, s.core.flags) {
      k := 1;
      assert Run(m, At(t, calls), 0) == Some(At(t, calls));
    } else {
      FallsThrough(m.isa, i, s);
      ExtentInside(s.pc, BlockSize(block), s.pc + n, BlockSize(rest), region);
      RawSize(rest);
      CodeKept(m.isa, i, s, s.pc + n, Raw(rest), region);
      k := OriginalRuns(m, rest, t, calls, region);
      k := k + 1;
    }
  }

  lemma {:induction false} RawSize(block: seq<Unit>)
    requires forall u <- block :: |u.window| == 16 && Size(u.insn) <= 16
    ensures |Raw(block)| == BlockSize(block)
  {
    if block != [] {
      RawSize(block[1..]);
    }
  }

  // ---- Running the emitted block ----------------------------------------------------------------

  /** `FF 25 00000000` and a quad transfer control to the quad. */
  lemma AbsoluteJumpRuns(m: Machine, s: State, target: Word)
    requires Holds(s.core.mem, s.pc, AbsoluteJump(target))
    requires s.pc !in Stops(m)
    ensures Step(m, s) == Some(s.(pc := target))
  {
    HoldsConcat(s.core.mem, s.pc, Encode(JmpSlot), LeBytes(target, 8));
    StepEmitted(m, s, JmpSlot);
    LoadHeld(s.core.mem, s.pc + 6, target);
  }

  lemma Xor1Negates(cc: Byte, flags: Word)
    requires cc < 16
    ensures Xor1(cc) < 16
    ensures Cond(Xor1(cc), flags) == !Cond(cc, flags)
  {
  }

  lemma ConditionalJumpBytes(cc: Byte, target: Word)
    requires cc < 16
    ensures ConditionalJump(cc, target) == Encode(Jcc(Xor1(cc), 14, false)) + AbsoluteJump(target)
  {
  }

  /** The negated Jcc skips exactly the fourteen bytes of the absolute jump behind it. */
  lemma ConditionalJumpRuns(m: Machine, s: State, cc: Byte, target: Word)
    requires cc < 16
    requires Holds(s.core.mem, s.pc, ConditionalJump(cc, target))
    requires s.pc + 20 < WORD_SPAN
    requires s.pc !in Stops(m) && s.pc + 6 !in Stops(m)
    ensures if Cond(cc, s.core.flags) then Run(m, s, 2) == Some(s.(pc := target))
            else Run(m, s, 1) == Some(s.(pc := s.pc + 20))
  {
    hide Decode, Holds, Encode, NativeCall;
    Xor1Negates(cc, s.core.flags);
    var skip := Jcc(Xor1(cc), 14, false);
    ConditionalJumpBytes(cc, target);
    HoldsConcat(s.core.mem, s.pc, Encode(skip), AbsoluteJump(target));
    StepEmitted(m, s, skip);
    if Cond(cc, s.core.flags) {
      var s' := s.(pc := s.pc + 6);
      assert Step(m, s) == Some(s');
      AbsoluteJumpRuns(m, s', target);
      assert Run(m, s', 1) == Run(m, s'.(pc := target), 0);
    } else {
      assert Step(m, s) == Some(s.(pc := s.pc + 20));
    }
  }

  /** The relocated block, placed anywhere, does to the processor what the original block does,
      and leaves for the same address. */
  lemma {:induction false} RelocatedRuns(m: Machine, block: seq<Unit>, s: Cpu, r: Word, calls: seq<Call>,
                                         region: iset<int>)
    returns (n: nat)
    requires PrefixCode(m.isa) && Honest(m.isa) && Relocatable(m.isa, block)
    requires Emit(m.isa, block, s.pc).Some?
    requires var code := Emit(m.isa, block, s.pc).value;
             Holds(s.core.mem, r, code) && r + |code| < WORD_SPAN && Extent(r, |code|) <= region
    requires region !! Stops(m) && Untouched(m.isa, block, s, region)
    ensures n >= 1
    ensures Run(m, State(s.core, r, calls), n) == Some(At(BlockRun(m.isa, block, s), calls))
    decreases |block|
  {
    hide Exec, Honest, PrefixCode, Holds, Fetch, Decode, Piece, Writes, InFragment;
    var code := Emit(m.isa, block, s.pc).value;
    var here := State(s.core, r, calls);
    if block == [] {
      assert r in Extent(r, |code|);
      AbsoluteJumpRuns(m, here, s.pc);
      assert Run(m, At(s, calls), 0) == Some(At(s, calls));
      return 1;
    }
    var u, rest := block[0], block[1..];
    var i := u.insn;
    PieceInFragment(m.isa, u, s.pc);
    var piece := Piece(m.isa, u, s.pc).value;
    var tail := Emit(m.isa, rest, Next(i, s.pc)).value;
    assert code == piece + tail;
    HoldsConcat(s.core.mem, r, piece, tail);
    var t := After(m.isa, i, s);
    ExtentInside(r, |code|, r, |piece|, region);
    n := PieceRuns(m, u, s, r, calls);
    if Leaves(m.isa, i, s.core.flags) {
      return;
    }
    FallsThrough(m.isa, i, s);
    var r' := r + |piece|;
    ExtentInside(r, |code|, r', |tail|, region);
    CodeKept(m.isa, i, s, r', tail, region);
    var k := RelocatedRuns(m, rest, t, r', calls, region);
    RunOn(m, here, n, k);
    n := n + k;
  }

  /** One piece does what its instruction does: it goes where the instruction goes, or on to the
      next piece with the same registers, flags and memory. */
  lemma PieceRuns(m: Machine, u: Unit, s: Cpu, r: Word, calls: seq<Call>) returns (n: nat)
    requires PrefixCode(m.isa) && Genuine(m.isa, u) && InFragment(m.isa, u.insn)
    requires Piece(m.isa, u, s.pc).Some?
    requires var piece := Piece(m.isa, u, s.pc).value;
             Holds(s.core.mem, r, piece) && r + |piece| < WORD_SPAN && Extent(r, |piece|) !! Stops(m)
    ensures n >= 1
    ensures var t := After(m.isa, u.insn, s);
            Run(m, State(s.core, r, calls), n) ==
              Some(if Leaves(m.isa, u.insn, s.core.flags) then At(t, calls)
                   else State(t.core, r + |Piece(m.isa, u, s.pc).value|, calls))
  {
    hide Decode, Holds, Encode, Straight, NativeCall, Fetch, Honest, PrefixCode;
    var i := u.insn;
    PieceInFragment(m.isa, u, s.pc);
    var piece := Piece(m.isa, u, s.pc).value;
    var here := State(s.core, r, calls);
    assert r in Extent(r, |piece|);
    if i.Jmp? {
      AbsoluteJumpRuns(m, here, Target(i, s.pc));
      assert Run(m, here.(pc := Target(i, s.pc)), 0).Some?;
      return 1;
    } else if i.Jcc? {
      assert r + 6 in Extent(r, |piece|);
      ConditionalJumpRuns(m, here, i.cc, Target(i, s.pc));
      return if Cond(i.cc, s.core.flags) then 2 else 1;
    } else {
      StepUnit(m, u, here);
      var t := At(After(m.isa, i, Cpu(s.core, r)), calls);
      if !Leaves(m.isa, i, s.core.flags) {
        FallsThrough(m.isa, i, Cpu(s.core, r));
      }
      assert Run(m, t, 0) == Some(t);
      return 1;
    }
  }

  /** Any other instruction that transfers control or uses the program counter is copied as well.  The copy
      does what the instruction does at its own place exactly when the instruction does the same at both. */
  lemma CopiedElsewhere(m: Machine, u: Unit, s: Cpu, r: Word, calls: seq<Call>)
    requires PrefixCode(m.isa) && Genuine(m.isa, u) && u.insn.Other? && !m.isa.straight(u.insn.bytes)
    requires var a := Analyze(m.isa, u.insn, s.pc);
             !a.isPcRelative || (u.window[0] != 0xE9 && u.window[0] != 0xE8 && (!a.isBranch || a.isCall))
    requires Holds(s.core.mem, r, u.window[..Size(u.insn)]) && r !in Stops(m)
    ensures Piece(m.isa, u, s.pc) == Some(u.window[..Size(u.insn)])
    ensures Step(m, State(s.core, r, calls)) == Some(At(Exec(m.isa, u.insn, s).value, calls)) <==>
              m.isa.jump(u.insn.bytes, r, s.core) == m.isa.jump(u.insn.bytes, s.pc, s.core)
  {
    FetchUnit(m.isa, s.core.mem, r, u);
  }

  // ---- buildRelocatedCode ---------------------------------------------------------------------------

  lemma UnitGenuine(isa: Isa, m: Memory, pc: int)
    ensures var u := UnitAt(isa, m, pc);
            && |u.window| == 16 && Size(u.insn) <= 15
            && (Size(u.insn) > 0 ==> Genuine(isa, u))
            && Holds(m, pc, u.window[..Size(u.insn)])
  {
  }

  /** The units of a block are whole instructions read from memory. */
  lemma {:induction false} BlockGenuine(isa: Isa, m: Memory, pc: int, minBytes: int)
    requires BlockAt(isa, m, pc, minBytes).Some?
    ensures var block := BlockAt(isa, m, pc, minBytes).value;
            && (forall u <- block :: Genuine(isa, u))
            && Holds(m, pc, Raw(block))
    decreases minBytes
  {
    hide Fetch, Decode, Read, Holds;
    if minBytes <= 0 {
      EmptyHeld(m, pc);
    } else {
      var u := UnitAt(isa, m, pc);
      var n := Size(u.insn);
      UnitGenuine(isa, m, pc);
      BlockGenuine(isa, m, pc + n, minBytes - n);
      var rest := BlockAt(isa, m, pc + n, minBytes - n).value;
      assert ([u] + rest)[1..] == rest;
      HoldsConcat(m, pc, u.window[..n], Raw(rest));
    }
  }

  lemma EmptyHeld(m: Memory, a: int)
    ensures Holds(m, a, [])
  {
  }

  /** The block ends at the first instruction boundary at or past `minBytes`. */
  lemma {:induction false} BlockBoundary(isa: Isa, m: Memory, pc: int, minBytes: int)
    requires BlockAt(isa, m, pc, minBytes).Some?
    ensures var block := BlockAt(isa, m, pc, minBytes).value;
            && BlockSize(block) >= minBytes
            && (minBytes >= 0 ==> BlockSize(block) < minBytes + 15)
            && (forall j :: 0 <= j < |block| ==> BlockSize(block[..j]) < minBytes)
    decreases minBytes
  {
    hide Fetch, Decode, Read;
    if minBytes > 0 {
      var u := UnitAt(isa, m, pc);
      var n := Size(u.insn);
      var rest := BlockAt(isa, m, pc + n, minBytes - n).value;
      var block := [u] + rest;
      UnitGenuine(isa, m, pc);
      BlockBoundary(isa, m, pc + n, minBytes - n);
      assert (minBytes - n < 0 ==> rest == []);
      assert block[1..] == rest;
      forall j | 0 <= j < |block| ensures BlockSize(block[..j]) < minBytes {
        if j > 0 {
          assert block[..j][1..] == rest[..j - 1];
        }
      }
    }
  }

  /** Bytes and size the builder returns; None where it throws. */
  function Relocated(isa: Isa, m: Memory, pc: Word, minBytes: int): Option<(seq<Byte>, nat)>
    decreases minBytes
  {
    if minBytes <= 0 then Some((AbsoluteJump(pc), 0))
    else
      var u := UnitAt(isa, m, pc);
      if Size(u.insn) == 0 then None
      else match Piece(isa, u, pc)
        case None => None
        case Some(bs) => Prepend(bs, Size(u.insn), Relocated(isa, m, Next(u.insn, pc), minBytes - Size(u.insn)))
  }

  function Prepend(bs: seq<Byte>, n: nat, r: Option<(seq<Byte>, nat)>): Option<(seq<Byte>, nat)> {
    match r
    case None => None
    case Some((rest, k)) => Some((bs + rest, n + k))
  }

  lemma PrependTwice(xs: seq<Byte>, n: nat, ys: seq<Byte>, k: nat, r: Option<(seq<Byte>, nat)>)
    ensures Prepend(xs, n, Prepend(ys, k, r)) == Prepend(xs + ys, n + k, r)
    ensures Prepend([], 0, r) == r
  {
    if r.Some? {
      assert xs + (ys + r.value.0) == xs + ys + r.value.0;
      assert [] + r.value.0 == r.value.0;
    }
  }

  lemma RelocatedStep(isa: Isa, m: Memory, pc: Word, minBytes: int)
    requires pc + 16 < WORD_SPAN
    ensures var u := UnitAt(isa, m, pc);
            && |u.window| == 16 && Size(u.insn) <= 15
            && Relocated(isa, m, pc, minBytes) ==
                 if minBytes <= 0 then Some((AbsoluteJump(pc), 0))
                 else if Size(u.insn) == 0 || Piece(isa, u, pc).None? then None
                 else Prepend(Piece(isa, u, pc).value, Size(u.insn),
                              Relocated(isa, m, pc + Size(u.insn), minBytes - Size(u.insn)))
  {
    hide Fetch, Decode, Read, Piece, Size, Prepend, AbsoluteJump;
    UnitGenuine(isa, m, pc);
    var u := UnitAt(isa, m, pc);
    assert Next(u.insn, pc) == pc + Size(u.insn);
  }

  /** The builder's loop: one instruction at a time into the assembler's buffer. */
  method BuildRelocatedCode(isa: Isa, m: Memory, source: Word, minBytes: nat)
    returns (code: Option<seq<Byte>>, bytesConsumed: nat)
    requires source + minBytes + 32 < WORD_SPAN
    ensures match Relocated(isa, m, source, minBytes)
            case None => code.None?
            case Some((bytes, n)) => code == Some(bytes) && bytesConsumed == n
  {
    hide Fetch, Decode, Read, Piece, Relocated, AbsoluteJump;
    var buffer: seq<Byte> := [];
    var srcOffset := 0;
    PrependTwice([], 0, [], 0, Relocated(isa, m, source, minBytes));
    while srcOffset < minBytes
      invariant srcOffset < minBytes + 15
      invariant Relocated(isa, m, source, minBytes) ==
                Prepend(buffer, srcOffset, Relocated(isa, m, source + srcOffset, minBytes - srcOffset))
      decreases minBytes - srcOffset
    {
      var u := UnitAt(isa, m, source + srcOffset);
      var insnSize := Size(u.insn);
      RelocatedStep(isa, m, source + srcOffset, minBytes - srcOffset);
      if insnSize == 0 {
        return None, 0;
      }
      var piece := Piece(isa, u, source + srcOffset);
      if piece.None? {
        return None, 0;
      }
      PrependTwice(buffer, srcOffset, piece.value, insnSize,
        Relocated(isa, m, source + srcOffset + insnSize, minBytes - srcOffset - insnSize));
      buffer := buffer + piece.value;
      srcOffset := srcOffset + insnSize;
    }
    RelocatedStep(isa, m, source + srcOffset, minBytes - srcOffset);
    return Some(buffer + AbsoluteJump(source + srcOffset)), srcOffset;
  }

  /** The builder's result is the emission of the block at the site. */
  lemma {:induction false} RelocatedIsEmitted(isa: Isa, m: Memory, pc: Word, minBytes: int)
    requires pc + minBytes + 32 < WORD_SPAN
    requires Relocated(isa, m, pc, minBytes).Some?
    ensures BlockAt(isa, m, pc, minBytes).Some?
    ensures var block := BlockAt(isa, m, pc, minBytes).value;
            && (forall u <- block :: |u.window| == 16 && Size(u.insn) <= 16)
            && Emit(isa, block, pc) == Some(Relocated(isa, m, pc, minBytes).value.0)
            && BlockSize(block) == Relocated(isa, m, pc, minBytes).value.1
    decreases minBytes
  {
    hide Fetch, Decode, Read, Piece, Size, Prepend, AbsoluteJump, Relocated, Emit, BlockAt, BlockSize;
    BlockAtStep(isa, m, pc, minBytes);
    if minBytes <= 0 {
      NothingEmitted(isa, m, pc, minBytes);
    } else {
      RelocatedStep(isa, m, pc, minBytes);
      var u := UnitAt(isa, m, pc);
      var n := Size(u.insn);
      Prepended(Piece(isa, u, pc).value, n, Relocated(isa, m, pc + n, minBytes - n));
      RelocatedIsEmitted(isa, m, pc + n, minBytes - n);
      EmitStep(isa, u, BlockAt(isa, m, pc + n, minBytes - n).value, pc);
    }
  }

  /** Some instruction of the block is a call with a PC-relative target. */
  predicate Calls(isa: Isa, block: seq<Unit>, pc: Word)
    requires forall u <- block :: |u.window| == 16
  {
    block != [] && (CallsAt(isa, block[0], pc) || Calls(isa, block[1..], Next(block[0].insn, pc)))
  }

  predicate CallsAt(isa: Isa, u: Unit, pc: Word)
    requires |u.window| == 16
  {
    u.window[0] == 0xE8 && Analyze(isa, u.insn, pc).isPcRelative
  }

  /** The builder gives up exactly when an instruction does not decode or one is such a call. */
  lemma {:induction false} GivesUp(isa: Isa, m: Memory, pc: Word, minBytes: int)
    requires pc + minBytes + 32 < WORD_SPAN
    ensures match BlockAt(isa, m, pc, minBytes)
            case None => Relocated(isa, m, pc, minBytes).None?
            case Some(block) =>
              && (forall u <- block :: |u.window| == 16)
              && (Relocated(isa, m, pc, minBytes).None? <==> Calls(isa, block, pc))
    decreases minBytes
  {
    hide Fetch, Decode, Read, Piece, Size, AbsoluteJump, Relocated, BlockAt, BlockSize, CallsAt;
    BlockAtStep(isa, m, pc, minBytes);
    if minBytes <= 0 {
      NothingEmitted(isa, m, pc, minBytes);
    } else {
      RelocatedStep(isa, m, pc, minBytes);
      var u := UnitAt(isa, m, pc);
      var n := Size(u.insn);
      PieceGivesUp(isa, u, pc);
      if n > 0 {
        GivesUp(isa, m, pc + n, minBytes - n);
        var rest := BlockAt(isa, m, pc + n, minBytes - n);
        if rest.Some? {
          assert ([u] + rest.value)[1..] == rest.value;
        }
      }
    }
  }

  lemma PieceGivesUp(isa: Isa, u: Unit, pc: Word)
    requires |u.window| == 16 && Size(u.insn) <= 16
    ensures Piece(isa, u, pc).None? <==> CallsAt(isa, u, pc)
  {
  }

  lemma BlockAtStep(isa: Isa, m: Memory, pc: Word, minBytes: int)
    ensures var u := UnitAt(isa, m, pc);
            BlockAt(isa, m, pc, minBytes) ==
              if minBytes <= 0 then Some([])
              else if Size(u.insn) == 0 then None
              else match BlockAt(isa, m, pc + Size(u.insn), minBytes - Size(u.insn))
                case None => None
                case Some(rest) => Some([u] + rest)
  {
    hide Fetch, Decode, Read, Size;
  }

  lemma NothingEmitted(isa: Isa, m: Memory, pc: Word, minBytes: int)
    requires minBytes <= 0
    ensures Relocated(isa, m, pc, minBytes) == Some((AbsoluteJump(pc), 0))
    ensures Emit(isa, [], pc) == Some(AbsoluteJump(pc)) && BlockSize([]) == 0
  {
  }

  /** One more instruction in front of a block. */
  lemma EmitStep(isa: Isa, u: Unit, rest: seq<Unit>, pc: Word)
    requires |u.window| == 16 && Size(u.insn) <= 16 && forall v <- rest :: |v.window| == 16 && Size(v.insn) <= 16
    ensures BlockSize([u] + rest) == Size(u.insn) + BlockSize(rest)
    ensures Emit(isa, [u] + rest, pc) ==
              match (Piece(isa, u, pc), Emit(isa, rest, Next(u.insn, pc)))
              case (Some(bs), Some(more)) => Some(bs + more)
              case _ => None
  {
    hide Piece, Size, AbsoluteJump;
    assert ([u] + rest)[1..] == rest;
  }

  lemma Prepended(bs: seq<Byte>, n: nat, r: Option<(seq<Byte>, nat)>)
    ensures Prepend(bs, n, r).Some? <==> r.Some?
    ensures r.Some? ==> Prepend(bs, n, r).value == (bs + r.value.0, n + r.value.1)
  {
  }

  /** Relocation preserves meaning: from any state, the block at the site and its relocated copy
      lead to the same registers, flags, memory and program counter. */
  lemma RelocationPreservesMeaning(m: Machine, c: Core, source: Word, minBytes: nat, r: Word, calls: seq<Call>)
    returns (k: nat, n: nat)
    requires PrefixCode(m.isa) && Honest(m.isa)
    requires source + minBytes + 32 < WORD_SPAN
    requires Relocated(m.isa, c.mem, source, minBytes).Some?
    requires BlockAt(m.isa, c.mem, source, minBytes).Some?
    requires Relocatable(m.isa, BlockAt(m.isa, c.mem, source, minBytes).value)
    requires var (code, size) := Relocated(m.isa, c.mem, source, minBytes).value;
             var code' := Extent(source, size) + Extent(r, |code|);
             && Holds(c.mem, r, code) && r + |code| < WORD_SPAN
             && code' !! Stops(m)
             && Untouched(m.isa, BlockAt(m.isa, c.mem, source, minBytes).value, Cpu(c, source), code')
    ensures minBytes > 0 ==> k >= 1
    ensures Run(m, State(c, source, calls), k).Some?
    ensures Run(m, State(c, r, calls), n) == Run(m, State(c, source, calls), k)
  {
    hide Step, Run, Decode, Holds, BlockRun, Untouched, Honest, PrefixCode;
    var block := BlockAt(m.isa, c.mem, source, minBytes).value;
    var (code, size) := Relocated(m.isa, c.mem, source, minBytes).value;
    var region := Extent(source, size) + Extent(r, |code|);
    RelocatedIsEmitted(m.isa, c.mem, source, minBytes);
    BlockGenuine(m.isa, c.mem, source, minBytes);
    BlockBoundary(m.isa, c.mem, source, minBytes);
    k := OriginalRuns(m, block, Cpu(c, source), calls, region);
    n := RelocatedRuns(m, block, Cpu(c, source), r, calls, region);
  }

  // ---- A branch outside the fragment -----------------------------------------------------------------

  /** A short `EB` jump has no condition code, but the builder takes it for condition code 0 and
      emits a conditional jump: the copy goes to the target exactly when the overflow flag is set,
      and falls on to the next instruction otherwise. */
  lemma ShortJumpNeedsOverflow(m: Machine, u: Unit, pc: Word, s: State, target: Word) returns (n: nat)
    requires |u.window| == 16 && Size(u.insn) == 2 && u.window[0] == 0xEB
    requires Analyze(m.isa, u.insn, pc) == Analysis(true, true, false, target)
    requires Holds(s.core.mem, s.pc, ConditionalJump(0, target)) && s.pc + 20 < WORD_SPAN
    requires s.pc !in Stops(m) && s.pc + 6 !in Stops(m)
    ensures Piece(m.isa, u, pc) == Some(ConditionalJump(0, target))
    ensures Run(m, s, n).Some?
    ensures Run(m, s, n) == Some(s.(pc := if Test(0, s.core.flags) then target else s.pc + 20))
    ensures target != s.pc + 20 ==> (Run(m, s, n).value.pc == target <==> s.core.flags / 2048 % 2 == 1)
  {
    hide Analyze, ConditionalJump;
    ConditionalJumpRuns(m, s, 0, target);
    n := if Test(0, s.core.flags) then 2 else 1;
  }

  // ---- generatePatchBytes --------------------------------------------------------------------------------

  /** Writes the fourteen patch bytes, and only those, into the buffer. */
  method GeneratePatchBytes(buf: array<Byte>, jumpTarget: Word)
    requires buf.Length >= PATCH_SIZE
    modifies buf
    ensures buf[..PATCH_SIZE] == AbsoluteJump(jumpTarget)
    ensures buf[PATCH_SIZE..] == old(buf[PATCH_SIZE..])
  {
    buf[0] := 0xFF;
    buf[1] := 0x25;
    buf[2], buf[3], buf[4], buf[5] := 0, 0, 0, 0;
    var quad := LeBytes(jumpTarget, 8);
    var i := 0;
    while i < 8
      invariant 0 <= i <= 8
      invariant buf[..6] == Encode(JmpSlot)
      invariant buf[6..6 + i] == quad[..i]
      invariant buf[PATCH_SIZE..] == old(buf[PATCH_SIZE..])
    {
      buf[6 + i] := quad[i];
      i := i + 1;
    }
    assert buf[..PATCH_SIZE] == buf[..6] + buf[6..14];
  }
}

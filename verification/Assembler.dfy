/** `buildTrampoline` as it is written: a sequence of calls on an assembler. */
module Assembler {
  import opened Words
  import opened X86
  import opened Machine
  import opened Relocator
  import opened Trampoline

  /** The assembler's code buffer, with the instructions it holds. */
  class Buffer {
    var bytes: seq<Byte>
    ghost var insns: seq<Insn>

    ghost predicate Valid()
      reads this
    {
      AllEmitted(insns) && bytes == EncodeAll(insns)
    }

    constructor ()
      ensures Valid() && insns == []
    {
      bytes, insns := [], [];
    }

    method Emit(i: Insn)
      requires Valid() && Emitted(i)
      modifies this
      ensures Valid() && insns == old(insns) + [i]
    {
      EncodeConcat(insns, [i]);
      assert EncodeAll([i]) == Encode(i) + EncodeAll([]);
      bytes, insns := bytes + Encode(i), insns + [i];
    }
  }

  method SaveRegisters(a: Buffer)
    requires a.Valid()
    modifies a
    ensures a.Valid() && a.insns == old(a.insns) + ([PushF] + Pushes(SAVED))
  {
    hide EncodeAll, Encode, AllEmitted;
    SaveLow(a);
    SaveHigh(a);
    assert [PushF] + Pushes(SAVED) == LOW_PUSHES + HIGH_PUSHES by {
      SavedInTwo();
    }
  }

  const LOW_PUSHES: seq<Insn> := [PushF, Push(RAX), Push(RCX), Push(RDX), Push(RBX), Push(RBP), Push(RSI), Push(RDI)]
  const HIGH_PUSHES: seq<Insn> := [Push(8), Push(9), Push(10), Push(11), Push(12), Push(13), Push(14), Push(15)]
  const HIGH_POPS: seq<Insn> := [Pop(15), Pop(14), Pop(13), Pop(12), Pop(11), Pop(10), Pop(9), Pop(8)]
  const LOW_POPS: seq<Insn> := [Pop(RDI), Pop(RSI), Pop(RBP), Pop(RBX), Pop(RDX), Pop(RCX), Pop(RAX), PopF]

  lemma SavedInTwo()
    ensures [PushF] + Pushes(SAVED) == LOW_PUSHES + HIGH_PUSHES
    ensures Pops(SAVED) + [PopF] == HIGH_POPS + LOW_POPS
  {
  }

  method SaveLow(a: Buffer)
    requires a.Valid()
    modifies a
    ensures a.Valid() && a.insns == old(a.insns) + LOW_PUSHES
  {
    hide EncodeAll, Encode, AllEmitted;
    a.Emit(PushF);
    a.Emit(Push(RAX)); a.Emit(Push(RCX)); a.Emit(Push(RDX)); a.Emit(Push(RBX)); a.Emit(Push(RBP));
    a.Emit(Push(RSI)); a.Emit(Push(RDI));
  }

  method SaveHigh(a: Buffer)
    requires a.Valid()
    modifies a
    ensures a.Valid() && a.insns == old(a.insns) + HIGH_PUSHES
  {
    hide EncodeAll, Encode, AllEmitted;
    a.Emit(Push(8)); a.Emit(Push(9)); a.Emit(Push(10)); a.Emit(Push(11));
    a.Emit(Push(12)); a.Emit(Push(13)); a.Emit(Push(14)); a.Emit(Push(15));
  }

  method RestoreHigh(a: Buffer)
    requires a.Valid()
    modifies a
    ensures a.Valid() && a.insns == old(a.insns) + HIGH_POPS
  {
    hide EncodeAll, Encode, AllEmitted;
    a.Emit(Pop(15)); a.Emit(Pop(14)); a.Emit(Pop(13)); a.Emit(Pop(12));
    a.Emit(Pop(11)); a.Emit(Pop(10)); a.Emit(Pop(9)); a.Emit(Pop(8));
  }

  method RestoreLow(a: Buffer)
    requires a.Valid()
    modifies a
    ensures a.Valid() && a.insns == old(a.insns) + LOW_POPS
  {
    hide EncodeAll, Encode, AllEmitted;
    a.Emit(Pop(RDI)); a.Emit(Pop(RSI)); a.Emit(Pop(RBP)); a.Emit(Pop(RBX));
    a.Emit(Pop(RDX)); a.Emit(Pop(RCX)); a.Emit(Pop(RAX));
    a.Emit(PopF);
  }

  method RestoreRegisters(a: Buffer)
    requires a.Valid()
    modifies a
    ensures a.Valid() && a.insns == old(a.insns) + (Pops(SAVED) + [PopF])
  {
    hide EncodeAll, Encode, AllEmitted;
    RestoreHigh(a);
    RestoreLow(a);
    assert Pops(SAVED) + [PopF] == HIGH_POPS + LOW_POPS by {
      SavedInTwo();
    }
  }

  /** Both arguments, the stack reservation, and the call of the first dispatch function. */
  method CallOnEnter(a: Buffer, abi: Abi, t: Stub)
    requires a.Valid()
    modifies a
    ensures a.Valid() && a.insns == old(a.insns) + (Arguments(abi, t) + [CallReg(RAX)])
  {
    hide EncodeAll, Encode, AllEmitted;
    if abi.Windows? {
      a.Emit(MovRsp(RCX));
      a.Emit(MovImm(RDX, t.data));
      a.Emit(SubImm(RSP, 0x28));
    } else {
      a.Emit(MovRsp(RDI));
      a.Emit(MovImm(RSI, t.data));
      a.Emit(SubImm(RSP, 0x8));
    }
    a.Emit(MovImm(RAX, t.onEnter));
    a.Emit(CallReg(RAX));
  }

  /** The second call, with the snapshot address recomputed from the stack pointer. */
  method CallOnLeave(a: Buffer, abi: Abi, t: Stub, onLeaveFn: Word)
    requires a.Valid()
    modifies a
    ensures a.Valid() && a.insns == old(a.insns) + (Between(abi, t, onLeaveFn) + [CallReg(RAX)])
  {
    hide EncodeAll, Encode, AllEmitted;
    if abi.Windows? {
      a.Emit(MovRsp(RCX));
      a.Emit(AddImm(RCX, 0x28));
    } else {
      a.Emit(MovRsp(RDI));
      a.Emit(AddImm(RDI, 0x8));
    }
    a.Emit(MovImm(DataArg(abi), t.data));
    a.Emit(MovImm(RAX, onLeaveFn));
    a.Emit(CallReg(RAX));
  }

  /** The code block built for a hook: what `TrampolineRuns` executes. */
  method BuildTrampoline(abi: Abi, onEnterFn: Word, onLeaveFn: Option<Word>, userData: Word, relocatedAddr: Word)
    returns (code: seq<Byte>)
    ensures var t := Stub(onEnterFn, onLeaveFn, userData, relocatedAddr);
            AllEmitted(TrampolineInsns(abi, t)) && code == TrampolineBytes(abi, t)
  {
    hide EncodeAll, Encode, Pushes, Pops, Arguments, Between, AbsoluteJump, AllEmitted;
    var t := Stub(onEnterFn, onLeaveFn, userData, relocatedAddr);
    var a := new Buffer();
    SaveRegisters(a);
    CallOnEnter(a, abi, t);
    if onLeaveFn.Some? {
      CallOnLeave(a, abi, t, onLeaveFn.value);
    }
    a.Emit(AddImm(RSP, if abi.Windows? then 0x28 else 0x8));
    RestoreRegisters(a);
    assert a.insns == TrampolineInsns(abi, t);
    code := a.bytes + AbsoluteJump(relocatedAddr);
  }
}

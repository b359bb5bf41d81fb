/** The trampoline: save everything, call the dispatch functions, restore everything, go on in the
    relocated code.  `buildTrampoline` on x86-64, for both calling conventions. */
module Trampoline {
  import opened Words
  import opened Memory
  import opened X86
  import opened Machine
  import opened Relocator

  datatype Stub = Stub(onEnter: Word, onLeave: Option<Word>, data: Word, relocated: Word)

  /** The registers in the order they are pushed; the flags go first, rsp is not saved. */
  const SAVED: seq<Reg> := [0, 1, 2, 3, 5, 6, 7, 8, 9, 10, 11, 12, 13, 14, 15]

  /** Stack below the snapshot that a call needs: shadow space on Windows, and eight bytes to
      bring the stack back to a multiple of sixteen. */
  function Reserve(abi: Abi): nat {
    if abi.SystemV? then 8 else 0x28
  }

  function Pushes(rs: seq<Reg>): seq<Insn> {
    seq(|rs|, k requires 0 <= k < |rs| => Push(rs[k]))
  }

  function Pops(rs: seq<Reg>): seq<Insn> {
    seq(|rs|, k requires 0 <= k < |rs| => Pop(rs[|rs| - 1 - k]))
  }

  function Arguments(abi: Abi, t: Stub): seq<Insn> {
    [MovRsp(ContextArg(abi)), MovImm(DataArg(abi), t.data), SubImm(RSP, Reserve(abi)), MovImm(RAX, t.onEnter)]
  }

  function Prologue(abi: Abi, t: Stub): seq<Insn> {
    [PushF] + Pushes(SAVED) + Arguments(abi, t)
  }

  function Between(abi: Abi, t: Stub, onLeave: Word): seq<Insn> {
    [MovRsp(ContextArg(abi)), AddImm(ContextArg(abi), Reserve(abi)), MovImm(DataArg(abi), t.data), MovImm(RAX, onLeave)]
  }

  function Epilogue(abi: Abi): seq<Insn> {
    [AddImm(RSP, Reserve(abi))] + Pops(SAVED) + [PopF]
  }

  predicate AllEmitted(code: seq<Insn>) {
    forall i <- code :: Emitted(i)
  }

  function EncodeAll(code: seq<Insn>): seq<Byte>
    requires AllEmitted(code)
  {
    if code == [] then [] else Encode(code[0]) + EncodeAll(code[1..])
  }

  function TrampolineInsns(abi: Abi, t: Stub): seq<Insn> {
    Prologue(abi, t) + [CallReg(RAX)]
    + (if t.onLeave.Some? then Between(abi, t, t.onLeave.value) + [CallReg(RAX)] else [])
    + Epilogue(abi)
  }

  // ---- Straight stretches of emitted code -----------------------------------------------------

  ghost predicate Plain(isa: Isa, code: seq<Insn>) {
    forall i <- code :: Emitted(i) && IsStraight(isa, i)
  }

  function StraightAll(isa: Isa, code: seq<Insn>, c: Core): Core
    requires forall i <- code :: IsStraight(isa, i)
  {
    if code == [] then c else StraightAll(isa, code[1..], Straight(isa, code[0], c))
  }

  /** All stores of the stretch fall into [lo, hi). */
  ghost predicate StoresIn(isa: Isa, code: seq<Insn>, c: Core, lo: int, hi: int)
    requires Plain(isa, code)
  {
    code == [] || (
      && (forall x: int :: x in Writes(isa, code[0], Cpu(c, 0)) ==> lo <= x < hi)
      && StoresIn(isa, code[1..], Straight(isa, code[0], c), lo, hi))
  }

  lemma {:induction false} StraightConcat(isa: Isa, xs: seq<Insn>, ys: seq<Insn>, c: Core, lo: int, hi: int)
    requires Plain(isa, xs) && Plain(isa, ys)
    ensures Plain(isa, xs + ys)
    ensures StraightAll(isa, xs + ys, c) == StraightAll(isa, ys, StraightAll(isa, xs, c))
    ensures StoresIn(isa, xs + ys, c, lo, hi) <==>
              StoresIn(isa, xs, c, lo, hi) && StoresIn(isa, ys, StraightAll(isa, xs, c), lo, hi)
  {
    if xs == [] {
      assert xs + ys == ys;
    } else {
      assert (xs + ys)[1..] == xs[1..] + ys;
      StraightConcat(isa, xs[1..], ys, Straight(isa, xs[0], c), lo, hi);
    }
  }

  /** What a stretch stores is all that changes in memory. */
  lemma {:induction false} StraightFrame(isa: Isa, code: seq<Insn>, c: Core, lo: int, hi: int, x: int)
    requires Plain(isa, code) && StoresIn(isa, code, c, lo, hi)
    requires !(lo <= x < hi)
    ensures StraightAll(isa, code, c).mem(x) == c.mem(x)
  {
    if code != [] {
      StraightFrame(isa, code[1..], Straight(isa, code[0], c), lo, hi, x);
      InsnFrame(isa, code[0], c, x);
    }
  }

  lemma InsnFrame(isa: Isa, i: Insn, c: Core, x: int)
    requires Emitted(i) && IsStraight(isa, i)
    requires x !in Writes(isa, i, Cpu(c, 0))
    ensures Straight(isa, i, c).mem(x) == c.mem(x)
  {
  }

  /** Nothing the engine emits touches the extended state. */
  lemma {:induction false} ExtendedKept(isa: Isa, code: seq<Insn>, c: Core)
    requires Plain(isa, code)
    ensures StraightAll(isa, code, c).extended == c.extended
  {
    if code != [] {
      ExtendedKept(isa, code[1..], Straight(isa, code[0], c));
    }
  }

  /** The machine runs a stretch of emitted code that does not store into itself. */
  lemma {:induction false} StretchRuns(m: Machine, code: seq<Insn>, rest: seq<Byte>, s: State, lo: int, hi: int)
    requires Plain(m.isa, code)
    requires Holds(s.core.mem, s.pc, EncodeAll(code) + rest)
    requires s.pc + |EncodeAll(code) + rest| < WORD_SPAN
    requires Extent(s.pc, |EncodeAll(code)|) !! Stops(m)
    requires StoresIn(m.isa, code, s.core, lo, hi)
    requires s.pc + |EncodeAll(code) + rest| <= lo || hi <= s.pc
    ensures var c := StraightAll(m.isa, code, s.core);
            && Run(m, s, |code|) == Some(State(c, s.pc + |EncodeAll(code)|, s.calls))
            && Holds(c.mem, s.pc + |EncodeAll(code)|, rest)
    decreases |code|
  {
    hide Decode, Straight, Encode, Fetch, Holds, Writes;
    if code == [] {
      assert EncodeAll(code) + rest == rest;
    } else {
      var i := code[0];
      var more := EncodeAll(code[1..]) + rest;
      assert EncodeAll(code) + rest == Encode(i) + more;
      HoldsConcat(s.core.mem, s.pc, Encode(i), more);
      assert s.pc in Extent(s.pc, |EncodeAll(code)|);
      StepStraight(m, s, i);
      var s' := State(Straight(m.isa, i, s.core), s.pc + Size(i), s.calls);
      MoreHeld(m.isa, i, s.core, s'.pc, more, lo, hi);
      forall x: int | x in Extent(s'.pc, |EncodeAll(code[1..])|) ensures x !in Stops(m) {
        assert x in Extent(s.pc, |EncodeAll(code)|);
      }
      StretchRuns(m, code[1..], rest, s', lo, hi);
    }
  }

  lemma StepStraight(m: Machine, s: State, i: Insn)
    requires Emitted(i) && IsStraight(m.isa, i)
    requires Holds(s.core.mem, s.pc, Encode(i))
    requires s.pc !in Stops(m) && s.pc + Size(i) < WORD_SPAN
    ensures Step(m, s) == Some(State(Straight(m.isa, i, s.core), s.pc + Size(i), s.calls))
  {
    hide Decode, Holds, Encode, Fetch, Straight, Step, Emitted;
    StepEmitted(m, s, i);
  }

  lemma MoreHeld(isa: Isa, i: Insn, c: Core, a: int, bs: seq<Byte>, lo: int, hi: int)
    requires Emitted(i) && IsStraight(isa, i)
    requires Holds(c.mem, a, bs)
    requires forall x: int :: x in Writes(isa, i, Cpu(c, 0)) ==> lo <= x < hi
    requires a + |bs| <= lo || hi <= a
    ensures Holds(Straight(isa, i, c).mem, a, bs)
  {
    forall x: int | a <= x < a + |bs| ensures Straight(isa, i, c).mem(x) == bs[x - a] {
      InsnFrame(isa, i, c, x);
    }
  }

  // ---- Saving and restoring ------------------------------------------------------------------------

  predicate NoRsp(rs: seq<Reg>) {
    forall k :: 0 <= k < |rs| ==> rs[k] != RSP
  }

  function Values(rs: seq<Reg>, regs: Regs): seq<Word> {
    seq(|rs|, k requires 0 <= k < |rs| => regs[rs[k]])
  }

  /** A row of pushes stores the registers one below the other and moves the stack pointer. */
  lemma {:induction false} PushAll(isa: Isa, rs: seq<Reg>, c: Core, sp: int)
    requires NoRsp(rs) && c.regs[RSP] == sp && 8 * |rs| <= sp
    ensures Plain(isa, Pushes(rs)) && StoresIn(isa, Pushes(rs), c, sp - 8 * |rs|, sp)
    ensures StraightAll(isa, Pushes(rs), c) ==
              c.(regs := c.regs[RSP := sp - 8 * |rs|], mem := StoreDown(c.mem, sp, Values(rs, c.regs)))
    decreases |rs|
  {
    hide Store;
    if rs == [] {
      assert c.regs[RSP := sp] == c.regs;
    } else {
      var c1 := Straight(isa, Push(rs[0]), c);
      assert rs[0] != RSP;
      assert Pushes(rs)[1..] == Pushes(rs[1..]);
      PushOne(c, c.regs[rs[0]], sp);
      PushAll(isa, rs[1..], c1, sp - 8);
      assert Values(rs, c.regs)[1..] == Values(rs[1..], c1.regs);
      StoresWiden(isa, Pushes(rs[1..]), c1, sp - 8 * |rs|, sp - 8, sp);
    }
  }

  lemma PushOne(c: Core, v: Word, sp: int)
    requires c.regs[RSP] == sp >= 8
    ensures PushWord(c, v) == c.(regs := c.regs[RSP := sp - 8], mem := Store(c.mem, sp - 8, v))
  {
  }

  lemma {:induction false} StoresWiden(isa: Isa, code: seq<Insn>, c: Core, lo: int, hi: int, hi': int)
    requires Plain(isa, code) && StoresIn(isa, code, c, lo, hi) && hi <= hi'
    ensures StoresIn(isa, code, c, lo, hi')
  {
    if code != [] {
      StoresWiden(isa, code[1..], Straight(isa, code[0], c), lo, hi, hi');
    }
  }

  predicate Distinct(rs: seq<Reg>) {
    forall j, k :: 0 <= j < k < |rs| ==> rs[j] != rs[k]
  }

  /** The row of pops loads every register from the place its push used and stores nothing. */
  lemma {:induction false} PopAll(isa: Isa, rs: seq<Reg>, c: Core, sp: int)
    requires NoRsp(rs) && Distinct(rs) && c.regs[RSP] == sp && sp + 8 * |rs| < WORD_SPAN
    ensures Plain(isa, Pops(rs)) && StoresIn(isa, Pops(rs), c, 0, 0)
    ensures var c' := StraightAll(isa, Pops(rs), c);
            && c' == c.(regs := c'.regs)
            && c'.regs[RSP] == sp + 8 * |rs|
            && (forall k :: 0 <= k < |rs| ==> c'.regs[rs[k]] == Load(c.mem, sp + 8 * (|rs| - 1 - k)))
            && (forall r: Reg :: r != RSP && r !in rs ==> c'.regs[r] == c.regs[r])
    decreases |rs|
  {
    hide Load;
    if rs != [] {
      var n := |rs| - 1;
      var c1 := Straight(isa, Pop(rs[n]), c);
      assert rs[n] != RSP;
      assert Pops(rs)[0] == Pop(rs[n]);
      assert Pops(rs)[1..] == Pops(rs[..n]);
      assert c1 == c.(regs := c.regs[RSP := sp + 8][rs[n] := Load(c.mem, sp)]);
      PopAll(isa, rs[..n], c1, sp + 8);
      var c' := StraightAll(isa, Pops(rs), c);
      assert rs[n] !in rs[..n];
      forall k | 0 <= k < |rs| ensures c'.regs[rs[k]] == Load(c.mem, sp + 8 * (|rs| - 1 - k)) {
        if k < n {
          assert rs[..n][k] == rs[k];
          assert c'.regs[rs[..n][k]] == Load(c1.mem, (sp + 8) + 8 * (n - 1 - k));
        }
      }
    }
  }

  // ---- The snapshot -----------------------------------------------------------------------------------

  /** Where the snapshot at `context` keeps register number `k` of `SAVED`; the flags come above. */
  function Slot(context: int, k: nat): int {
    context + 8 * (14 - k)
  }

  /** The snapshot at `context` holds these registers and flags. */
  ghost predicate Snapshot(m: Memory, context: int, regs: Regs, flags: Word) {
    && (forall k :: 0 <= k < |SAVED| ==> Load(m, Slot(context, k)) == regs[SAVED[k]])
    && Load(m, context + 120) == flags
  }

  /** The layout word by word: r15 at the bottom, rax under the flags. */
  lemma SnapshotLayout(m: Memory, context: int, regs: Regs, flags: Word)
    ensures Snapshot(m, context, regs, flags) <==>
              && Load(m, context) == regs[15] && Load(m, context + 8) == regs[14]
              && Load(m, context + 16) == regs[13] && Load(m, context + 24) == regs[12]
              && Load(m, context + 32) == regs[11] && Load(m, context + 40) == regs[10]
              && Load(m, context + 48) == regs[9] && Load(m, context + 56) == regs[8]
              && Load(m, context + 64) == regs[RDI] && Load(m, context + 72) == regs[RSI]
              && Load(m, context + 80) == regs[RBP] && Load(m, context + 88) == regs[RBX]
              && Load(m, context + 96) == regs[RDX] && Load(m, context + 104) == regs[RCX]
              && Load(m, context + 112) == regs[RAX] && Load(m, context + 120) == flags
  {
    hide Load;
    assert SAVED[0] == 0 && SAVED[1] == 1 && SAVED[2] == 2 && SAVED[3] == 3 && SAVED[4] == 5;
    assert SAVED[5] == 6 && SAVED[6] == 7 && SAVED[7] == 8 && SAVED[8] == 9 && SAVED[9] == 10;
    assert SAVED[10] == 11 && SAVED[11] == 12 && SAVED[12] == 13 && SAVED[13] == 14 && SAVED[14] == 15;
  }

  lemma SavedRegisters()
    ensures |SAVED| == 15 && NoRsp(SAVED) && Distinct(SAVED)
    ensures forall r: Reg :: r in SAVED <==> r != RSP
  {
    forall r: Reg ensures r in SAVED <==> r != RSP {
      var k := if r < 4 then r else if r == 4 then 0 else r - 1;
      assert r != RSP ==> SAVED[k] == r;
    }
  }

  lemma StraightCons(isa: Isa, i: Insn, code: seq<Insn>, c: Core, lo: int, hi: int)
    requires Plain(isa, [i]) && Plain(isa, code)
    ensures Plain(isa, [i] + code)
    ensures StraightAll(isa, [i] + code, c) == StraightAll(isa, code, Straight(isa, i, c))
    ensures StoresIn(isa, [i] + code, c, lo, hi) <==>
              (forall x: int :: x in Writes(isa, i, Cpu(c, 0)) ==> lo <= x < hi) &&
              StoresIn(isa, code, Straight(isa, i, c), lo, hi)
  {
    assert i in [i];
    assert ([i] + code)[1..] == code;
  }

  /** Four register-only instructions in a row. */
  lemma Straight4(isa: Isa, i1: Insn, i2: Insn, i3: Insn, i4: Insn, c: Core, lo: int, hi: int)
    requires Plain(isa, [i1]) && Plain(isa, [i2]) && Plain(isa, [i3]) && Plain(isa, [i4])
    requires RegisterOnly(i1) && RegisterOnly(i2) && RegisterOnly(i3) && RegisterOnly(i4)
    ensures Plain(isa, [i1, i2, i3, i4]) && StoresIn(isa, [i1, i2, i3, i4], c, lo, hi)
    ensures StraightAll(isa, [i1, i2, i3, i4], c) ==
              Straight(isa, i4, Straight(isa, i3, Straight(isa, i2, Straight(isa, i1, c))))
  {
    hide Straight;
    var c1 := Straight(isa, i1, c);
    var c2 := Straight(isa, i2, c1);
    var c3 := Straight(isa, i3, c2);
    StraightCons(isa, i4, [], c3, lo, hi);
    StraightCons(isa, i3, [i4] + [], c2, lo, hi);
    StraightCons(isa, i2, [i3] + ([i4] + []), c1, lo, hi);
    StraightCons(isa, i1, [i2] + ([i3] + ([i4] + [])), c, lo, hi);
    assert [i1] + ([i2] + ([i3] + ([i4] + []))) == [i1, i2, i3, i4];
  }

  predicate RegisterOnly(i: Insn) {
    i.MovRsp? || i.MovImm? || i.AddImm? || i.SubImm?
  }

  /** The prologue leaves a faithful snapshot and passes its address to the dispatch function. */
  lemma PrologueSaves(isa: Isa, abi: Abi, t: Stub, c: Core, sp: int)
    requires c.regs[RSP] == sp >= 256
    ensures Plain(isa, Prologue(abi, t)) && StoresIn(isa, Prologue(abi, t), c, sp - 128, sp)
    ensures var c' := StraightAll(isa, Prologue(abi, t), c);
            && Snapshot(c'.mem, sp - 128, c.regs, c.flags)
            && c'.regs[RSP] == sp - 128 - Reserve(abi)
            && c'.regs[ContextArg(abi)] == sp - 128
            && c'.regs[DataArg(abi)] == t.data
            && c'.regs[RAX] == t.onEnter
  {
    hide Load, Store, StraightAll, StoresIn, Arguments, Prologue, Values, Slot;
    PushesSave(isa, c, sp);
    var c1 := Straight(isa, PushF, c);
    PrologueTail(isa, abi, t, StraightAll(isa, Pushes(SAVED), c1), sp - 128);
    PrologueJoined(isa, abi, t, c, sp);
  }

  /** Pushing the flags and then the registers leaves a faithful snapshot. */
  lemma PushesSave(isa: Isa, c: Core, sp: int)
    requires c.regs[RSP] == sp >= 256
    ensures var c1 := Straight(isa, PushF, c);
            && Plain(isa, Pushes(SAVED)) && StoresIn(isa, Pushes(SAVED), c1, sp - 128, sp - 8)
            && StraightAll(isa, Pushes(SAVED), c1).regs[RSP] == sp - 128
            && Snapshot(StraightAll(isa, Pushes(SAVED), c1).mem, sp - 128, c.regs, c.flags)
  {
    hide Load, Store, StoresIn, Pushes, StraightAll;
    SavedRegisters();
    var c1 := Straight(isa, PushF, c);
    PushOne(c, c.flags, sp);
    PushAll(isa, SAVED, c1, sp - 8);
    var c2 := StraightAll(isa, Pushes(SAVED), c1);
    var words := [c.flags] + Values(SAVED, c.regs);
    assert Values(SAVED, c1.regs) == Values(SAVED, c.regs);
    assert words[1..] == Values(SAVED, c.regs);
    assert c2.mem == StoreDown(c.mem, sp, words);
    forall k | 0 <= k < |SAVED| ensures Load(c2.mem, Slot(sp - 128, k)) == c.regs[SAVED[k]] {
      StoreDownLoad(c.mem, sp, words, k + 1);
    }
    StoreDownLoad(c.mem, sp, words, 0);
  }

  lemma PrologueTail(isa: Isa, abi: Abi, t: Stub, c: Core, context: int)
    requires c.regs[RSP] == context >= 128
    ensures Plain(isa, Arguments(abi, t)) && StoresIn(isa, Arguments(abi, t), c, context, context + 128)
    ensures var c' := StraightAll(isa, Arguments(abi, t), c);
            && c'.mem == c.mem
            && c'.regs[RSP] == context - Reserve(abi)
            && c'.regs[ContextArg(abi)] == context
            && c'.regs[DataArg(abi)] == t.data
            && c'.regs[RAX] == t.onEnter
  {
    var args := Arguments(abi, t);
    Straight4(isa, args[0], args[1], args[2], args[3], c, context, context + 128);
    assert Plus(context, 0 - Reserve(abi)) == context - Reserve(abi);
  }

  lemma PrologueJoined(isa: Isa, abi: Abi, t: Stub, c: Core, sp: int)
    requires c.regs[RSP] == sp >= 256
    requires Plain(isa, Pushes(SAVED)) && Plain(isa, Arguments(abi, t))
    requires var c1 := Straight(isa, PushF, c);
             && StoresIn(isa, Pushes(SAVED), c1, sp - 128, sp - 8)
             && StoresIn(isa, Arguments(abi, t), StraightAll(isa, Pushes(SAVED), c1), sp - 128, sp)
    ensures Plain(isa, Prologue(abi, t)) && StoresIn(isa, Prologue(abi, t), c, sp - 128, sp)
    ensures StraightAll(isa, Prologue(abi, t), c) ==
              StraightAll(isa, Arguments(abi, t), StraightAll(isa, Pushes(SAVED), Straight(isa, PushF, c)))
  {
    hide Store, StraightAll, StoresIn, Load;
    var c1 := Straight(isa, PushF, c);
    PushOne(c, c.flags, sp);
    StoresWiden(isa, Pushes(SAVED), c1, sp - 128, sp - 8, sp);
    StraightConcat(isa, Pushes(SAVED), Arguments(abi, t), c1, sp - 128, sp);
    StraightCons(isa, PushF, Pushes(SAVED) + Arguments(abi, t), c, sp - 128, sp);
    assert Prologue(abi, t) == [PushF] + (Pushes(SAVED) + Arguments(abi, t));
  }

  /** Popping the registers and then the flags loads them from the snapshot. */
  lemma PopsRestore(isa: Isa, c: Core, context: int)
    requires c.regs[RSP] == context && context + 128 < WORD_SPAN
    ensures Plain(isa, Pops(SAVED) + [PopF]) && StoresIn(isa, Pops(SAVED) + [PopF], c, 0, 0)
    ensures var c' := StraightAll(isa, Pops(SAVED) + [PopF], c);
            && Snapshot(c.mem, context, c'.regs, c'.flags)
            && c'.regs[RSP] == context + 128
            && c'.mem == c.mem
  {
    hide Load, Pops;
    SavedRegisters();
    PopAll(isa, SAVED, c, context);
    var c2 := StraightAll(isa, Pops(SAVED), c);
    var c3 := Straight(isa, PopF, c2);
    assert Plus(context + 120, 8) == context + 128;
    StraightCons(isa, PopF, [], c2, 0, 0);
    StraightConcat(isa, Pops(SAVED), [PopF] + [], c, 0, 0);
    assert [PopF] + [] == [PopF];
    forall k | 0 <= k < |SAVED| ensures Load(c.mem, Slot(context, k)) == c3.regs[SAVED[k]] {
      assert c3.regs[SAVED[k]] == c2.regs[SAVED[k]];
    }
  }

  /** The epilogue loads every register and the flags from the snapshot as it is then. */
  lemma EpilogueRestores(isa: Isa, abi: Abi, c: Core, context: int)
    requires c.regs[RSP] == context - Reserve(abi) && context + 128 < WORD_SPAN
    ensures Plain(isa, Epilogue(abi)) && StoresIn(isa, Epilogue(abi), c, 0, 0)
    ensures var c' := StraightAll(isa, Epilogue(abi), c);
            && Snapshot(c.mem, context, c'.regs, c'.flags)
            && c'.regs[RSP] == context + 128
            && c'.mem == c.mem
  {
    hide Load, Pops, Snapshot, StoresIn;
    var c1 := Straight(isa, AddImm(RSP, Reserve(abi)), c);
    assert Plus(context - Reserve(abi), Reserve(abi)) == context;
    PopsRestore(isa, c1, context);
    StraightCons(isa, AddImm(RSP, Reserve(abi)), Pops(SAVED) + [PopF], c, 0, 0);
    assert Epilogue(abi) == [AddImm(RSP, Reserve(abi))] + (Pops(SAVED) + [PopF]);
  }

  // ---- The whole trampoline ---------------------------------------------------------------------------

  lemma {:induction false} EncodeConcat(xs: seq<Insn>, ys: seq<Insn>)
    requires AllEmitted(xs) && AllEmitted(ys)
    ensures AllEmitted(xs + ys)
    ensures EncodeAll(xs + ys) == EncodeAll(xs) + EncodeAll(ys)
  {
    hide Encode;
    if xs == [] {
      assert xs + ys == ys;
    } else {
      EncodeConcat(xs[1..], ys);
      assert (xs + ys)[1..] == xs[1..] + ys;
    }
  }

  function WithCall(code: seq<Insn>): seq<Insn> {
    code + [CallReg(RAX)]
  }

  /** Code at `pc` that neither the stack above `context` nor a dispatch function reaches. */
  ghost predicate OutOfReach(m: Machine, pc: int, n: nat, context: int) {
    forall x: int :: pc <= x < pc + n ==> UntouchedAt(m, context, x)
  }

  ghost predicate UntouchedAt(m: Machine, context: int, x: int) {
    !MayTouch(m, context, x) && x !in Stops(m)
  }

  /** One dispatch: the straight code before the call, the call, the function, its return. */
  lemma DispatchRuns(m: Machine, code: seq<Insn>, rest: seq<Byte>, s: State, context: int, sp: int)
    requires WellBehaved(m)
    requires Plain(m.isa, code) && AllEmitted(WithCall(code))
    requires Holds(s.core.mem, s.pc, EncodeAll(WithCall(code)) + rest)
    requires s.pc + |EncodeAll(WithCall(code)) + rest| < WORD_SPAN
    requires OutOfReach(m, s.pc, |EncodeAll(WithCall(code)) + rest|, context)
    requires StoresIn(m.isa, code, s.core, m.stackLow, context + 128)
    requires m.stackLow + 8 <= sp <= context && 8 <= sp
    requires var c := StraightAll(m.isa, code, s.core);
             && c.regs[RSP] == sp && c.regs[ContextArg(m.abi)] == context
             && c.regs[RAX] in m.natives
    ensures s.pc + |EncodeAll(WithCall(code))| < WORD_SPAN
    ensures var c := StraightAll(m.isa, code, s.core);
            var ret := s.pc + |EncodeAll(WithCall(code))|;
            var back := m.native(c.regs[RAX], PushWord(c, ret));
            && Run(m, s, |code| + 2) ==
                 Some(State(back, ret, s.calls + [Call(c.regs[RAX], context, c.regs[DataArg(m.abi)], sp)]))
            && Holds(back.mem, ret, rest)
            && back.regs[RSP] == sp
  {
    hide Decode, Holds, Straight, Encode, StraightAll, StoresIn, Fetch, Load, Store, Step;
    var bytes := EncodeAll(WithCall(code)) + rest;
    var callBytes := Encode(CallReg(RAX));
    EncodeConcat(code, [CallReg(RAX)]);
    assert EncodeAll([CallReg(RAX)]) == callBytes + EncodeAll([]);
    assert bytes == EncodeAll(code) + (callBytes + rest);
    ReachGap(m, s.pc, |bytes|, context);
    StretchRuns(m, code, callBytes + rest, s, m.stackLow, context + 128);
    var c := StraightAll(m.isa, code, s.core);
    var s1 := State(c, s.pc + |EncodeAll(code)|, s.calls);
    HoldsConcat(c.mem, s1.pc, callBytes, rest);
    CallRuns(m, s1, context, sp, callBytes, rest);
    RunOn(m, s, |code|, 2);
  }

  /** Code out of reach lies wholly below or wholly above the reachable stack. */
  lemma ReachGap(m: Machine, pc: int, n: nat, context: int)
    requires OutOfReach(m, pc, n, context) && m.stackLow < context + 128
    ensures n > 0 ==> pc + n <= m.stackLow || context + 128 <= pc
    ensures Extent(pc, n) !! Stops(m)
  {
    assert pc <= m.stackLow < pc + n ==> UntouchedAt(m, context, m.stackLow);
    assert n > 0 ==> UntouchedAt(m, context, pc);
    forall x: int | x in Extent(pc, n) ensures x !in Stops(m) {
      assert UntouchedAt(m, context, x);
    }
  }

  lemma CallEnters(m: Machine, s: State)
    requires Holds(s.core.mem, s.pc, Encode(CallReg(RAX)))
    requires s.pc !in Stops(m) && s.pc + 2 < WORD_SPAN
    ensures Step(m, s) == Some(State(PushWord(s.core, s.pc + 2), s.core.regs[RAX], s.calls))
  {
    hide Decode, Encode, Store, Load, Straight, PushWord;
    StepEmitted(m, s, CallReg(RAX));
  }

  /** A dispatch function returns to the address its caller pushed. */
  lemma NativeReturns(m: Machine, s: State, ret: Word, sp: int)
    requires s.pc in m.natives && s.core.regs[RSP] == sp - 8 && 8 <= sp < WORD_SPAN
    requires Load(s.core.mem, sp - 8) == ret
    ensures Step(m, s) == Some(State(m.native(s.pc, s.core), ret,
              s.calls + [Call(s.pc, s.core.regs[ContextArg(m.abi)], s.core.regs[DataArg(m.abi)], sp)]))
  {
    hide Load;
    assert Plus(s.core.regs[RSP], 8) == sp;
  }

  /** `call rax` into a dispatch function and back. */
  lemma CallRuns(m: Machine, s: State, context: int, sp: int, callBytes: seq<Byte>, rest: seq<Byte>)
    requires WellBehaved(m) && callBytes == Encode(CallReg(RAX))
    requires Holds(s.core.mem, s.pc, callBytes) && Holds(s.core.mem, s.pc + 2, rest)
    requires s.pc + 2 + |rest| < WORD_SPAN
    requires OutOfReach(m, s.pc, 2 + |rest|, context)
    requires m.stackLow + 8 <= sp <= context && 8 <= sp
    requires s.core.regs[RSP] == sp && s.core.regs[ContextArg(m.abi)] == context
    requires s.core.regs[RAX] in m.natives
    ensures var fn := s.core.regs[RAX];
            var back := m.native(fn, PushWord(s.core, s.pc + 2));
            && Run(m, s, 2) ==
              Some(State(back, s.pc + 2, s.calls + [Call(fn, context, s.core.regs[DataArg(m.abi)], sp)]))
            && Holds(back.mem, s.pc + 2, rest)
            && back.regs[RSP] == sp
  {
    hide Decode, Encode, Store, Load, Step;
    var fn := s.core.regs[RAX];
    assert UntouchedAt(m, context, s.pc);
    CallEnters(m, s);
    PushOne(s.core, s.pc + 2, sp);
    var c := PushWord(s.core, s.pc + 2);
    var s1 := State(c, fn, s.calls);
    LoadStored(s.core.mem, sp - 8, s.pc + 2);
    NativeReturns(m, s1, s.pc + 2, sp);
    var s2 := Step(m, s1).value;
    assert Run(m, s2, 0) == Some(s2);
    assert Run(m, s1, 1) == Run(m, s2, 0);
    assert Returns(m, fn, c);
    assert Plus(sp - 8, 8) == sp;
    forall x: int | s.pc + 2 <= x < s.pc + 2 + |rest| ensures s2.core.mem(x) == rest[x - (s.pc + 2)] {
      assert UntouchedAt(m, context, x);
      StoreFrame(s.core.mem, sp - 8, s.pc + 2, x);
    }
  }

  lemma BetweenPasses(isa: Isa, abi: Abi, t: Stub, fn: Word, c: Core, context: int, lo: int, hi: int)
    requires c.regs[RSP] == context - Reserve(abi) && 0 <= context < WORD_SPAN
    ensures Plain(isa, Between(abi, t, fn)) && StoresIn(isa, Between(abi, t, fn), c, lo, hi)
    ensures var c' := StraightAll(isa, Between(abi, t, fn), c);
            && c'.mem == c.mem
            && c'.regs[RSP] == context - Reserve(abi)
            && c'.regs[ContextArg(abi)] == context
            && c'.regs[DataArg(abi)] == t.data
            && c'.regs[RAX] == fn
  {
    var code := Between(abi, t, fn);
    Straight4(isa, code[0], code[1], code[2], code[3], c, lo, hi);
    assert Plus(context - Reserve(abi), Reserve(abi)) == context;
  }

  /** The bytes of the trampoline's code block. */
  function TrampolineBytes(abi: Abi, t: Stub): seq<Byte>
    requires AllEmitted(TrampolineInsns(abi, t))
  {
    EncodeAll(TrampolineInsns(abi, t)) + AbsoluteJump(t.relocated)
  }

  lemma TrampolineEmitted(abi: Abi, t: Stub)
    ensures AllEmitted(Prologue(abi, t)) && AllEmitted(Epilogue(abi))
    ensures forall fn: Word :: AllEmitted(Between(abi, t, fn))
    ensures AllEmitted(TrampolineInsns(abi, t))
  {
  }

  /** The dispatch calls a trampoline makes when it is entered with its snapshot at `context`. */
  function Dispatches(abi: Abi, t: Stub, context: Word): seq<Call> {
    var sp := Plus(context, 0 - Reserve(abi));
    [Call(t.onEnter, context, t.data, sp)]
    + (if t.onLeave.Some? then [Call(t.onLeave.value, context, t.data, sp)] else [])
  }

  /** The code after the first dispatch: the second one if there is any, then the way out. */
  function Remainder(abi: Abi, t: Stub): seq<Byte> {
    TrampolineEmitted(abi, t);
    var out := EncodeAll(Epilogue(abi)) + AbsoluteJump(t.relocated);
    if t.onLeave.Some? then EncodeAll(WithCall(Between(abi, t, t.onLeave.value))) + out else out
  }

  lemma TrampolineSplit(abi: Abi, t: Stub)
    ensures AllEmitted(TrampolineInsns(abi, t)) && AllEmitted(WithCall(Prologue(abi, t)))
    ensures TrampolineBytes(abi, t) == EncodeAll(WithCall(Prologue(abi, t))) + Remainder(abi, t)
  {
    hide Encode, Prologue, Epilogue, Between, AbsoluteJump;
    TrampolineEmitted(abi, t);
    var first := WithCall(Prologue(abi, t));
    if t.onLeave.Some? {
      var second := WithCall(Between(abi, t, t.onLeave.value));
      EncodeConcat(second, Epilogue(abi));
      EncodeConcat(first, second + Epilogue(abi));
      assert TrampolineInsns(abi, t) == first + (second + Epilogue(abi));
    } else {
      EncodeConcat(first, Epilogue(abi));
      assert TrampolineInsns(abi, t) == first + Epilogue(abi);
    }
  }

  /** The code at `s.pc` is `bytes`, undisturbed by the stack above `context` and by dispatches. */
  ghost predicate Placed(m: Machine, s: State, bytes: seq<Byte>, context: int) {
    && Holds(s.core.mem, s.pc, bytes)
    && s.pc + |bytes| < WORD_SPAN
    && OutOfReach(m, s.pc, |bytes|, context)
  }

  ghost predicate StackRoom(m: Machine, context: int) {
    m.stackLow + 128 <= context && 128 <= context && context + 128 < WORD_SPAN
  }

  /** The two integer arguments of a function: rdi and rsi, or on Windows rcx and rdx. */
  predicate InRegisters(abi: Abi, regs: Regs, first: Word, second: Word) {
    match abi
    case SystemV => regs[7] == first && regs[6] == second
    case Windows => regs[1] == first && regs[2] == second
  }

  lemma FirstDispatch(m: Machine, t: Stub, rest: seq<Byte>, s: State, context: Word) returns (seen: Core, mid: State)
    requires WellBehaved(m) && StackRoom(m, context)
    requires t.onEnter in m.natives
    requires s.core.regs[RSP] == context + 128
    requires AllEmitted(WithCall(Prologue(m.abi, t)))
    requires Placed(m, s, EncodeAll(WithCall(Prologue(m.abi, t))) + rest, context)
    ensures Run(m, s, |Prologue(m.abi, t)| + 2) == Some(mid)
    ensures Placed(m, mid, rest, context)
    ensures mid.core == m.native(t.onEnter, seen) && mid.core.regs[RSP] == context - Reserve(m.abi)
    ensures mid.calls == s.calls + [Call(t.onEnter, context, t.data, context - Reserve(m.abi))]
    ensures Snapshot(seen.mem, context, s.core.regs, s.core.flags)
    ensures seen.regs[ContextArg(m.abi)] == context && seen.extended == s.core.extended
    ensures InRegisters(m.abi, seen.regs, context, t.data)
    ensures forall x: int :: !(m.stackLow <= x < context + 128) ==> seen.mem(x) == s.core.mem(x)
  {
    hide Holds, Straight, Encode, StraightAll, StoresIn, Load, Store, Step, Run, Prologue, EncodeAll, Returns;
    var sp: int := context - Reserve(m.abi);
    var code := Prologue(m.abi, t);
    PrologueSaves(m.isa, m.abi, t, s.core, context + 128);
    StoresWidenLow(m.isa, code, s.core, context, context + 128, m.stackLow);
    ExtendedKept(m.isa, code, s.core);
    DispatchRuns(m, code, rest, s, context, sp);
    var c := StraightAll(m.isa, code, s.core);
    var ret := s.pc + |EncodeAll(WithCall(code))|;
    PushOne(c, ret, sp);
    seen := PushWord(c, ret);
    mid := State(m.native(t.onEnter, seen), ret, s.calls + [Call(t.onEnter, context, t.data, sp)]);
    forall x: int | !(m.stackLow <= x < context + 128) ensures seen.mem(x) == s.core.mem(x) {
      StoreFrame(c.mem, sp - 8, ret, x);
      StraightFrame(m.isa, code, s.core, m.stackLow, context + 128, x);
    }
    SnapshotSame(c.mem, seen.mem, context, s.core.regs, s.core.flags, sp - 8, ret);
  }

  lemma SnapshotSame(m1: Memory, m2: Memory, context: int, regs: Regs, flags: Word, a: int, w: Word)
    requires Snapshot(m1, context, regs, flags)
    requires m2 == Store(m1, a, w) && a + 8 <= context
    ensures Snapshot(m2, context, regs, flags)
  {
    hide Load, Store;
    forall b: int | context <= b ensures Load(m2, b) == Load(m1, b) {
      forall x: int | b <= x < b + 8 ensures m2(x) == m1(x) {
        StoreFrame(m1, a, w, x);
      }
      LoadSame(m2, m1, b);
    }
  }

  lemma SecondDispatch(m: Machine, t: Stub, fn: Word, rest: seq<Byte>, s: State, context: Word)
    returns (again: Core, mid: State)
    requires WellBehaved(m) && StackRoom(m, context)
    requires fn in m.natives
    requires s.core.regs[RSP] == context - Reserve(m.abi)
    requires AllEmitted(WithCall(Between(m.abi, t, fn)))
    requires Placed(m, s, EncodeAll(WithCall(Between(m.abi, t, fn))) + rest, context)
    ensures Run(m, s, 6) == Some(mid)
    ensures Placed(m, mid, rest, context)
    ensures mid.core == m.native(fn, again) && mid.core.regs[RSP] == context - Reserve(m.abi)
    ensures mid.calls == s.calls + [Call(fn, context, t.data, context - Reserve(m.abi))]
    ensures again.regs[ContextArg(m.abi)] == context && again.extended == s.core.extended
    ensures InRegisters(m.abi, again.regs, context, t.data)
    ensures forall x: int :: !(m.stackLow <= x < context) ==> again.mem(x) == s.core.mem(x)
  {
    hide Holds, Straight, Encode, StraightAll, StoresIn, Load, Store, Step, Run, EncodeAll, Returns;
    var sp: int := context - Reserve(m.abi);
    var code := Between(m.abi, t, fn);
    BetweenPasses(m.isa, m.abi, t, fn, s.core, context, m.stackLow, context + 128);
    ExtendedKept(m.isa, code, s.core);
    DispatchRuns(m, code, rest, s, context, sp);
    var c := StraightAll(m.isa, code, s.core);
    var ret := s.pc + |EncodeAll(WithCall(code))|;
    PushOne(c, ret, sp);
    again := PushWord(c, ret);
    mid := State(m.native(fn, again), ret, s.calls + [Call(fn, context, t.data, sp)]);
    forall x: int | !(m.stackLow <= x < context) ensures again.mem(x) == s.core.mem(x) {
      StoreFrame(c.mem, sp - 8, ret, x);
    }
  }

  lemma WayOut(m: Machine, t: Stub, s: State, context: Word) returns (end: State)
    requires StackRoom(m, context) && AllEmitted(Epilogue(m.abi))
    requires s.core.regs[RSP] == context - Reserve(m.abi)
    requires Placed(m, s, EncodeAll(Epilogue(m.abi)) + AbsoluteJump(t.relocated), context)
    ensures Run(m, s, |Epilogue(m.abi)| + 1) == Some(end)
    ensures end.pc == t.relocated && end.calls == s.calls
    ensures Snapshot(s.core.mem, context, end.core.regs, end.core.flags)
    ensures end.core.regs[RSP] == context + 128 && end.core.mem == s.core.mem && end.core.extended == s.core.extended
  {
    hide Holds, Straight, Encode, StraightAll, StoresIn, Load, Store, Step, EncodeAll, Epilogue, Snapshot;
    var code := Epilogue(m.abi);
    var jump := AbsoluteJump(t.relocated);
    EpilogueRestores(m.isa, m.abi, s.core, context);
    ExtendedKept(m.isa, code, s.core);
    ReachGap(m, s.pc, |EncodeAll(code) + jump|, context);
    ExtentInside(s.pc, |EncodeAll(code) + jump|, s.pc, |EncodeAll(code)|, Extent(s.pc, |EncodeAll(code) + jump|));
    StretchRuns(m, code, jump, s, 0, 0);
    var s1 := State(StraightAll(m.isa, code, s.core), s.pc + |EncodeAll(code)|, s.calls);
    assert s1.pc in Extent(s.pc, |EncodeAll(code) + jump|);
    AbsoluteJumpRuns(m, s1, t.relocated);
    end := s1.(pc := t.relocated);
    assert Run(m, end, 0) == Some(end);
    RunOn(m, s, |code|, 1);
  }

  /** Entered with any registers and flags, the trampoline shows every dispatch function the same
      snapshot of them, and leaves for the relocated code with the registers and flags that the
      snapshot holds at the end, on the stack it was entered with.  The extended state is not in the
      snapshot: it is what the last dispatch function leaves. */
  lemma TrampolineRuns(m: Machine, t: Stub, s: State, context: Word)
    returns (n: nat, seen: Core, again: Core, end: State)
    requires WellBehaved(m) && StackRoom(m, context)
    requires t.onEnter in m.natives && (t.onLeave.Some? ==> t.onLeave.value in m.natives)
    requires s.core.regs[RSP] == context + 128
    requires AllEmitted(TrampolineInsns(m.abi, t))
    requires Placed(m, s, TrampolineBytes(m.abi, t), context)
    ensures Run(m, s, n) == Some(end)
    ensures end.pc == t.relocated && end.calls == s.calls + Dispatches(m.abi, t, context)
    ensures Snapshot(seen.mem, context, s.core.regs, s.core.flags)
    ensures seen.regs[ContextArg(m.abi)] == context && again.regs[ContextArg(m.abi)] == context
    ensures forall x: int :: !(m.stackLow <= x < context + 128) ==> seen.mem(x) == s.core.mem(x)
    ensures forall x: int :: !(m.stackLow <= x < context) ==> again.mem(x) == m.native(t.onEnter, seen).mem(x)
    ensures seen.extended == s.core.extended && again.extended == m.native(t.onEnter, seen).extended
    ensures end.core.mem ==
              (if t.onLeave.Some? then m.native(t.onLeave.value, again) else m.native(t.onEnter, seen)).mem
    ensures end.core.extended == if t.onLeave.Some? then m.native(t.onLeave.value, again).extended else again.extended
    ensures Snapshot(end.core.mem, context, end.core.regs, end.core.flags)
    ensures end.core.regs[RSP] == s.core.regs[RSP]
  {
    hide Holds, Encode, Run, Step, Prologue, Epilogue, Between, Snapshot, EncodeAll, AbsoluteJump, Placed, WellBehaved;
    TrampolineEmitted(m.abi, t);
    TrampolineSplit(m.abi, t);
    assert Plus(context, 0 - Reserve(m.abi)) == context - Reserve(m.abi);
    var mid: State;
    seen, mid := FirstDispatch(m, t, Remainder(m.abi, t), s, context);
    n := |Prologue(m.abi, t)| + 2;
    if t.onLeave.Some? {
      var fn := t.onLeave.value;
      var last;
      assert AllEmitted(WithCall(Between(m.abi, t, fn)));
      again, last := SecondDispatch(m, t, fn, EncodeAll(Epilogue(m.abi)) + AbsoluteJump(t.relocated), mid, context);
      RunOn(m, s, n, 6);
      n, mid := n + 6, last;
    } else {
      again := seen.(mem := mid.core.mem, extended := mid.core.extended);
    }
    end := WayOut(m, t, mid, context);
    RunOn(m, s, n, |Epilogue(m.abi)| + 1);
    n := n + |Epilogue(m.abi)| + 1;
  }

  lemma {:induction false} StoresWidenLow(isa: Isa, code: seq<Insn>, c: Core, lo: int, hi: int, lo': int)
    requires Plain(isa, code) && StoresIn(isa, code, c, lo, hi) && lo' <= lo
    ensures StoresIn(isa, code, c, lo', hi)
  {
    if code != [] {
      StoresWidenLow(isa, code[1..], Straight(isa, code[0], c), lo, hi, lo');
    }
  }

  // ---- Transparency of one passage -----------------------------------------------------------------------

  /** The callbacks leave the snapshot, and everything above it, as they found it. */
  ghost predicate Quiet(m: Machine) {
    forall fn: Word, c: Core :: fn in m.natives ==> LeavesSnapshot(m, fn, c)
  }

  ghost predicate LeavesSnapshot(m: Machine, fn: Word, c: Core) {
    forall x: int :: c.regs[ContextArg(m.abi)] <= x && x !in m.engine ==> m.native(fn, c).mem(x) == c.mem(x)
  }

  /** The callbacks leave the vector, x87 and MXCSR state as they found it. */
  ghost predicate KeepsExtended(m: Machine) {
    forall fn: Word, c: Core :: fn in m.natives ==> ExtendedAt(m, fn, c)
  }

  ghost predicate ExtendedAt(m: Machine, fn: Word, c: Core) {
    m.native(fn, c).extended == c.extended
  }

  lemma SnapshotKept(m1: Memory, m2: Memory, context: int, regs: Regs, flags: Word)
    requires Snapshot(m1, context, regs, flags)
    requires forall x: int :: context <= x < context + 128 ==> m1(x) == m2(x)
    ensures Snapshot(m2, context, regs, flags)
  {
    hide Load;
    forall b: int | context <= b <= context + 120 ensures Load(m2, b) == Load(m1, b) {
      LoadSame(m2, m1, b);
    }
  }

  /** One snapshot determines the registers it was taken from, the stack pointer aside. */
  lemma SnapshotDetermines(m: Memory, context: int, regs1: Regs, regs2: Regs, flags1: Word, flags2: Word)
    requires Snapshot(m, context, regs1, flags1) && Snapshot(m, context, regs2, flags2)
    requires regs1[RSP] == regs2[RSP]
    ensures regs1 == regs2 && flags1 == flags2
  {
    hide Load;
    SavedRegisters();
    forall r: Reg ensures regs1[r] == regs2[r] {
      if r != RSP {
        assert r in SAVED;
        var k :| 0 <= k < |SAVED| && SAVED[k] == r;
        assert Load(m, Slot(context, k)) == regs1[SAVED[k]] == regs2[SAVED[k]];
      }
    }
  }

  /** With callbacks that leave the snapshot alone the trampoline changes no register, no flag, and
      no memory but the stack below the program's stack pointer and the engine's own data.  The extended
      state comes out as it went in if and only if the callbacks together leave it so. */
  lemma TrampolineIsIdentity(m: Machine, t: Stub, s: State, context: Word)
    returns (n: nat, seen: Core, again: Core, end: State)
    requires WellBehaved(m) && Quiet(m) && StackRoom(m, context)
    requires t.onEnter in m.natives && (t.onLeave.Some? ==> t.onLeave.value in m.natives)
    requires s.core.regs[RSP] == context + 128
    requires AllEmitted(TrampolineInsns(m.abi, t))
    requires Placed(m, s, TrampolineBytes(m.abi, t), context)
    requires forall x: int :: context <= x < context + 128 ==> x !in m.engine
    ensures Run(m, s, n) == Some(end)
    ensures end.pc == t.relocated && end.calls == s.calls + Dispatches(m.abi, t, context)
    ensures end.core.regs == s.core.regs && end.core.flags == s.core.flags
    ensures forall x: int :: !(m.stackLow <= x < context + 128) && x !in m.engine ==> end.core.mem(x) == s.core.mem(x)
    ensures seen.extended == s.core.extended && again.extended == m.native(t.onEnter, seen).extended
    ensures end.core.extended == s.core.extended <==>
              (if t.onLeave.Some? then m.native(t.onLeave.value, again) else m.native(t.onEnter, seen)).extended ==
                  s.core.extended
    ensures KeepsExtended(m) ==> end.core.extended == s.core.extended
  {
    hide Holds, Run, TrampolineInsns, TrampolineBytes, Snapshot, Placed, Dispatches;
    n, seen, again, end := TrampolineRuns(m, t, s, context);
    assert Returns(m, t.onEnter, seen) && LeavesSnapshot(m, t.onEnter, seen);
    assert KeepsExtended(m) ==>
        ExtendedAt(m, t.onEnter, seen) && (t.onLeave.Some? ==> ExtendedAt(m, t.onLeave.value, again));
    var mid := m.native(t.onEnter, seen).mem;
    if t.onLeave.Some? {
      assert Returns(m, t.onLeave.value, again) && LeavesSnapshot(m, t.onLeave.value, again);
    }
    SnapshotKept(seen.mem, end.core.mem, context, s.core.regs, s.core.flags);
    SnapshotDetermines(end.core.mem, context, s.core.regs, end.core.regs, s.core.flags, end.core.flags);
  }

  /** The stack is aligned to sixteen bytes at every dispatch call exactly when the code was entered
      with the alignment of a function's first instruction (section 3.2.2 of the System V AMD64
      psABI). */
  lemma DispatchAligned(abi: Abi, t: Stub, context: Word)
    requires 128 <= context && context + 128 < WORD_SPAN
    ensures forall k :: 0 <= k < |Dispatches(abi, t, context)| ==>
              (Dispatches(abi, t, context)[k].sp % 16 == 0 <==> (context + 128) % 16 == 8)
  {
    var sp := Plus(context, 0 - Reserve(abi));
    assert sp == context - Reserve(abi);
    assert sp % 16 == 0 <==> (context + 128) % 16 == 8;
  }
}

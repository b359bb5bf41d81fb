/** What the registries keep in memory: for every live hook and breakpoint the patch, the trampoline
    and the relocated copy of the original instructions, whatever else is set or removed. */
module Sites {
  import opened Words
  import opened Memory
  import opened X86
  import opened Machine
  import opened Relocator
  import opened Trampoline
  import opened PatchLog
  import opened Process
  import opened Registry
  import opened LiveCode
  import I = Interceptor
  import S = SoftwareBreakpoint
  import H = HardwareBreakpoint
  import D = DebugRegisters

  /** What the registries build code with: processor, calling convention, dispatch functions. */
  datatype Builder = Builder(isa: Isa, abi: Abi, onHit: Word, onEnter: Word, onLeave: Word, onHwHit: Word)

  function BreakpointStub(b: Builder, e: S.BreakpointEntry): Stub {
    Stub(b.onHit, None, e.self, e.relocatedCode)
  }

  function HookStub(b: Builder, e: I.HookEntry): Stub {
    Stub(b.onEnter, Some(b.onLeave), e.self, e.relocatedCode)
  }

  function HwStub(b: Builder, e: H.HwBreakpointEntry): Stub
    requires e.relocatedCode.Some?
  {
    Stub(b.onHwHit, None, e.self, e.relocatedCode.value)
  }

  // ---- Building from patched code ---------------------------------------------------------------------

  /** The builder relocates a block out of patched code as it would out of the original code, if no
      patch lies on the block. */
  lemma {:induction false} RelocatedSame(isa: Isa, base: Memory, m: Memory, pc: Word, minBytes: int)
    requires PrefixCode(isa) && pc + minBytes + 32 < WORD_SPAN
    requires BlockAt(isa, base, pc, minBytes).Some? && Relocatable(isa, BlockAt(isa, base, pc, minBytes).value)
    requires forall x: int :: InExtent(pc, BlockSize(BlockAt(isa, base, pc, minBytes).value), x) ==> m(x) == base(x)
    ensures var block := BlockAt(isa, base, pc, minBytes).value;
            && Emit(isa, block, pc).Some?
            && Relocated(isa, m, pc, minBytes) == Some((Emit(isa, block, pc).value, BlockSize(block)))
    decreases minBytes
  {
    hide Fetch, Decode, Read, Piece, Size, Prepend, AbsoluteJump, Relocated, Emit, BlockAt, BlockSize, PrefixCode;
    hide Relocatable;
    BlockAtStep(isa, base, pc, minBytes);
    if minBytes <= 0 {
      NothingEmitted(isa, m, pc, minBytes);
    } else {
      var u := UnitAt(isa, base, pc);
      var n := Size(u.insn);
      var block := BlockAt(isa, base, pc, minBytes).value;
      var rest := BlockAt(isa, base, pc + n, minBytes - n).value;
      UnitGenuine(isa, base, pc);
      FirstOfBlock(isa, u, rest);
      PieceSame(isa, base, m, pc);
      RelocatedStep(isa, m, pc, minBytes);
      EmitStep(isa, u, rest, pc);
      forall x: int | InExtent(pc + n, BlockSize(rest), x) ensures m(x) == base(x) {
        assert InExtent(pc, BlockSize(block), x);
      }
      RelocatedSame(isa, base, m, pc + n, minBytes - n);
      Prepended(Piece(isa, u, pc).value, n, Relocated(isa, m, pc + n, minBytes - n));
    }
  }

  lemma FirstOfBlock(isa: Isa, u: Unit, rest: seq<Unit>)
    requires Relocatable(isa, [u] + rest)
    ensures Genuine(isa, u) && InFragment(isa, u.insn) && Relocatable(isa, rest)
    ensures forall v <- rest :: |v.window| == 16 && Size(v.insn) <= 16
    ensures BlockSize([u] + rest) == Size(u.insn) + BlockSize(rest)
  {
    assert u in [u] + rest;
    assert ([u] + rest)[1..] == rest;
  }

  lemma PieceSame(isa: Isa, base: Memory, m: Memory, pc: Word)
    requires PrefixCode(isa)
    requires var u := UnitAt(isa, base, pc); Genuine(isa, u) && InFragment(isa, u.insn)
    requires forall x: int :: InExtent(pc, Size(Fetch(isa, base, pc)), x) ==> m(x) == base(x)
    ensures UnitAt(isa, m, pc).insn == UnitAt(isa, base, pc).insn
    ensures Piece(isa, UnitAt(isa, base, pc), pc).Some?
    ensures Piece(isa, UnitAt(isa, m, pc), pc) == Piece(isa, UnitAt(isa, base, pc), pc)
  {
    hide Decode, Piece, PrefixCode, InFragment, AbsoluteJump, ConditionalJump, Target;
    var u, v := UnitAt(isa, base, pc), UnitAt(isa, m, pc);
    var n := Size(u.insn);
    forall x: int | pc <= x < pc + n ensures m(x) == u.window[..n][x - pc] {
      assert InExtent(pc, n, x);
    }
    FetchUnit(isa, m, pc, u);
    assert v.window[..n] == u.window[..n];
    assert Genuine(isa, v);
    PieceInFragment(isa, u, pc);
    PieceInFragment(isa, v, pc);
  }

  /** The instructions at `addr` in the original code are not touched by a live patch. */
  ghost predicate Unpatched(isa: Isa, base: Memory, c: Code, addr: Word, minBytes: int) {
    match BlockAt(isa, base, addr, minBytes)
    case None => true
    case Some(block) => Vacant(c, addr, BlockSize(block))
  }

  /** The block is the relocated copy of the original instructions at `addr`, if these are in the
      fragment. */
  ghost predicate CopyOf(isa: Isa, base: Memory, addr: Word, minBytes: int, code: seq<Byte>) {
    match BlockAt(isa, base, addr, minBytes)
    case None => true
    case Some(block) => Relocatable(isa, block) ==> Emit(isa, block, addr) == Some(code)
  }

  lemma BuiltIsCopy(isa: Isa, base: Memory, c: Code, addr: Word, minBytes: int)
    requires PrefixCode(isa) && addr + minBytes + 32 < WORD_SPAN
    requires Apart(base, c) && Unpatched(isa, base, c, addr, minBytes)
    requires Relocated(isa, c.mem, addr, minBytes).Some?
    ensures CopyOf(isa, base, addr, minBytes, Relocated(isa, c.mem, addr, minBytes).value.0)
  {
    hide Fetch, Decode, Relocated, Emit, BlockAt, BlockSize, PrefixCode, Relocatable;
    var block := BlockAt(isa, base, addr, minBytes);
    if block.Some? && Relocatable(isa, block.value) {
      forall x: int | InExtent(addr, BlockSize(block.value), x) ensures c.mem(x) == base(x) {
      }
      RelocatedSame(isa, base, c.mem, addr, minBytes);
    }
  }

  // ---- What is kept for each entry -------------------------------------------------------------------

  ghost predicate HoldsTrampoline(abi: Abi, t: Stub, blocks: map<Word, seq<Byte>>, trampoline: Word) {
    trampoline in blocks && AllEmitted(TrampolineInsns(abi, t)) && blocks[trampoline] == TrampolineBytes(abi, t)
  }

  ghost predicate HoldsCopy(isa: Isa, base: Memory, addr: Word, minBytes: int, blocks: map<Word, seq<Byte>>,
                            relocated: Word) {
    relocated in blocks && CopyOf(isa, base, addr, minBytes, blocks[relocated])
  }

  ghost predicate BreakpointDeployed(b: Builder, base: Memory, m: Memory, blocks: map<Word, seq<Byte>>,
                                     e: S.BreakpointEntry) {
    && HoldsCopy(b.isa, base, e.address, S.BP_INSN_SIZE, blocks, e.relocatedCode)
    && HoldsTrampoline(b.abi, BreakpointStub(b, e), blocks, e.trampolineCode)
    && |e.originalBytes| == S.BP_INSN_SIZE && Holds(m, e.address, [0xCC])
  }

  /** A replacement has no trampoline; its jump goes to the replacing function. */
  ghost predicate HookDeployed(b: Builder, base: Memory, m: Memory, blocks: map<Word, seq<Byte>>, e: I.HookEntry) {
    && HoldsCopy(b.isa, base, e.target, PATCH_SIZE, blocks, e.relocatedCode)
    && |e.originalBytes| == PATCH_SIZE
    && (e.trampolineCode.Some? ==>
          HoldsTrampoline(b.abi, HookStub(b, e), blocks, e.trampolineCode.value) &&
          Holds(m, e.target, AbsoluteJump(e.trampolineCode.value)))
  }

  ghost predicate Deployed(b: Builder, base: Memory, c: Code) {
    && (forall id <- c.bps :: BreakpointDeployed(b, base, c.mem, c.blocks, c.bps[id]))
    && (forall id <- c.hooks :: HookDeployed(b, base, c.mem, c.blocks, c.hooks[id]))
  }

  /** An execute breakpoint in a debug register changes no byte; the others have no code. */
  ghost predicate HwDeployed(b: Builder, base: Memory, blocks: map<Word, seq<Byte>>, e: H.HwBreakpointEntry) {
    if e.kind.Execute? then
      && e.relocatedCode.Some? && e.trampolineCode.Some?
      && HoldsCopy(b.isa, base, e.address, 1, blocks, e.relocatedCode.value)
      && HoldsTrampoline(b.abi, HwStub(b, e), blocks, e.trampolineCode.value)
    else e.relocatedCode.None? && e.trampolineCode.None?
  }

  ghost predicate BreaksDeployed(b: Builder, base: Memory, c: Code) {
    forall id <- c.hws :: HwDeployed(b, base, c.blocks, c.hws[id])
  }

  // ---- What does not disturb an entry ------------------------------------------------------------------

  ghost predicate Undisturbed(c: Code, d: Code, p: Patch, blocks: set<Word>) {
    && (forall x: int :: Covers(p, x) ==> d.mem(x) == c.mem(x))
    && (forall a <- blocks :: a in c.blocks ==> a in d.blocks && d.blocks[a] == c.blocks[a])
  }

  lemma BreakpointStays(b: Builder, base: Memory, c: Code, d: Code, e: S.BreakpointEntry)
    requires BreakpointDeployed(b, base, c.mem, c.blocks, e) && Undisturbed(c, d, S.PatchOf(e), S.BlocksOf(e))
    ensures BreakpointDeployed(b, base, d.mem, d.blocks, e)
  {
    hide CopyOf, AllEmitted, TrampolineInsns, TrampolineBytes;
    assert e.relocatedCode in S.BlocksOf(e) && e.trampolineCode in S.BlocksOf(e);
    forall x: int | InExtent(e.address, 1, x) ensures d.mem(x) == c.mem(x) {
      assert Covers(S.PatchOf(e), x);
    }
    HoldsSame(c.mem, d.mem, e.address, [0xCC]);
  }

  lemma HookStays(b: Builder, base: Memory, c: Code, d: Code, e: I.HookEntry)
    requires HookDeployed(b, base, c.mem, c.blocks, e) && Undisturbed(c, d, I.PatchOf(e), I.BlocksOf(e))
    ensures HookDeployed(b, base, d.mem, d.blocks, e)
  {
    hide CopyOf, AllEmitted, TrampolineInsns, TrampolineBytes, AbsoluteJump, Holds;
    assert e.relocatedCode in I.BlocksOf(e);
    if e.trampolineCode.Some? {
      var t := e.trampolineCode.value;
      assert t in I.BlocksOf(e);
      forall x: int | InExtent(e.target, PATCH_SIZE, x) ensures d.mem(x) == c.mem(x) {
        assert Covers(I.PatchOf(e), x);
      }
      HoldsSame(c.mem, d.mem, e.target, AbsoluteJump(t));
    }
  }

  /** A new patch on a vacant window and new blocks disturb nobody. */
  lemma AddingDisturbsNobody(c: Code, d: Code, addr: Word, bytes: seq<Byte>, added: set<Word>)
    requires Vacant(c, addr, |bytes|) && d.mem == Write(c.mem, addr, bytes) && Grown(c.blocks, d.blocks, added)
    ensures forall id <- c.hooks :: Undisturbed(c, d, I.PatchOf(c.hooks[id]), I.BlocksOf(c.hooks[id]))
    ensures forall id <- c.bps :: Undisturbed(c, d, S.PatchOf(c.bps[id]), S.BlocksOf(c.bps[id]))
  {
    hide I.BlocksOf, S.BlocksOf;
    forall a | a in c.blocks ensures a in d.blocks && d.blocks[a] == c.blocks[a] {
      assert a in Without(d.blocks, added);
    }
    forall id | id in c.hooks ensures Undisturbed(c, d, I.PatchOf(c.hooks[id]), I.BlocksOf(c.hooks[id])) {
      assert I.PatchOf(c.hooks[id]) in HookPatches(c) + BreakpointPatches(c);
    }
    forall id | id in c.bps ensures Undisturbed(c, d, S.PatchOf(c.bps[id]), S.BlocksOf(c.bps[id])) {
      assert S.PatchOf(c.bps[id]) in HookPatches(c) + BreakpointPatches(c);
    }
  }

  // ---- Every change ------------------------------------------------------------------------------------

  /** What `set` built, out of the code there was. */
  ghost predicate BreakpointBuilt(b: Builder, m: Memory, blocks: map<Word, seq<Byte>>, e: S.BreakpointEntry) {
    && e.relocatedCode in blocks && Relocated(b.isa, m, e.address, S.BP_INSN_SIZE).Some?
    && blocks[e.relocatedCode] == Relocated(b.isa, m, e.address, S.BP_INSN_SIZE).value.0
    && HoldsTrampoline(b.abi, BreakpointStub(b, e), blocks, e.trampolineCode)
  }

  lemma BreakpointDeploys(b: Builder, base: Memory, c: Code, d: Code, e: S.BreakpointEntry)
    requires Sound(c) && Apart(base, c) && Deployed(b, base, c) && PrefixCode(b.isa)
    requires BreakpointAdded(c, d, e, [0xCC]) && BreakpointBuilt(b, c.mem, d.blocks, e)
    requires e.address + S.BP_INSN_SIZE + 32 < WORD_SPAN
    requires Vacant(c, e.address, 1) && Unpatched(b.isa, base, c, e.address, S.BP_INSN_SIZE)
    ensures Deployed(b, base, d)
  {
    hide BreakpointDeployed, HookDeployed, Apart, Vacant, Undisturbed, Sound, Unpatched, PrefixCode, Relocated;
    hide HoldsTrampoline, Grown, S.BlocksOf, I.BlocksOf, Write;
    AddingDisturbsNobody(c, d, e.address, [0xCC], S.BlocksOf(e));
    BuiltIsCopy(b.isa, base, c, e.address, S.BP_INSN_SIZE);
    WrittenHeld(c.mem, e.address, [0xCC]);
    assert BreakpointDeployed(b, base, d.mem, d.blocks, e) by {
      NewBreakpoint(b, base, d.mem, d.blocks, e);
    }
    forall id | id in c.bps ensures BreakpointDeployed(b, base, d.mem, d.blocks, c.bps[id]) {
      BreakpointStays(b, base, c, d, c.bps[id]);
    }
    forall id | id in c.hooks ensures HookDeployed(b, base, d.mem, d.blocks, c.hooks[id]) {
      HookStays(b, base, c, d, c.hooks[id]);
    }
  }

  lemma WrittenHeld(m: Memory, a: int, bs: seq<Byte>)
    ensures Holds(Write(m, a, bs), a, bs)
  {
  }

  lemma NewBreakpoint(b: Builder, base: Memory, m: Memory, blocks: map<Word, seq<Byte>>, e: S.BreakpointEntry)
    requires e.relocatedCode in blocks && CopyOf(b.isa, base, e.address, S.BP_INSN_SIZE, blocks[e.relocatedCode])
    requires HoldsTrampoline(b.abi, BreakpointStub(b, e), blocks, e.trampolineCode)
    requires |e.originalBytes| == S.BP_INSN_SIZE && Holds(m, e.address, [0xCC])
    ensures BreakpointDeployed(b, base, m, blocks, e)
  {
  }

  /** What `attach` or `replace` built. */
  ghost predicate HookBuilt(b: Builder, m: Memory, blocks: map<Word, seq<Byte>>, e: I.HookEntry) {
    && e.relocatedCode in blocks && Relocated(b.isa, m, e.target, PATCH_SIZE).Some?
    && blocks[e.relocatedCode] == Relocated(b.isa, m, e.target, PATCH_SIZE).value.0
    && (e.trampolineCode.Some? ==> HoldsTrampoline(b.abi, HookStub(b, e), blocks, e.trampolineCode.value))
  }

  lemma HookDeploys(b: Builder, base: Memory, c: Code, d: Code, e: I.HookEntry, destination: Word)
    requires Sound(c) && Apart(base, c) && Deployed(b, base, c) && PrefixCode(b.isa)
    requires HookAdded(c, d, e, AbsoluteJump(destination)) && HookBuilt(b, c.mem, d.blocks, e)
    requires e.trampolineCode.Some? ==> e.trampolineCode.value == destination
    requires e.target + PATCH_SIZE + 32 < WORD_SPAN
    requires Vacant(c, e.target, PATCH_SIZE) && Unpatched(b.isa, base, c, e.target, PATCH_SIZE)
    ensures Deployed(b, base, d)
  {
    hide BreakpointDeployed, HookDeployed, Apart, Vacant, Undisturbed, Sound, Unpatched, PrefixCode, Relocated;
    hide HoldsTrampoline, Grown, S.BlocksOf, I.BlocksOf, Write, AbsoluteJump;
    AddingDisturbsNobody(c, d, e.target, AbsoluteJump(destination), I.BlocksOf(e));
    BuiltIsCopy(b.isa, base, c, e.target, PATCH_SIZE);
    WrittenHeld(c.mem, e.target, AbsoluteJump(destination));
    assert HookDeployed(b, base, d.mem, d.blocks, e) by {
      NewHook(b, base, d.mem, d.blocks, e);
    }
    forall id | id in c.bps ensures BreakpointDeployed(b, base, d.mem, d.blocks, c.bps[id]) {
      BreakpointStays(b, base, c, d, c.bps[id]);
    }
    forall id | id in c.hooks ensures HookDeployed(b, base, d.mem, d.blocks, c.hooks[id]) {
      HookStays(b, base, c, d, c.hooks[id]);
    }
  }

  lemma NewHook(b: Builder, base: Memory, m: Memory, blocks: map<Word, seq<Byte>>, e: I.HookEntry)
    requires e.relocatedCode in blocks && CopyOf(b.isa, base, e.target, PATCH_SIZE, blocks[e.relocatedCode])
    requires |e.originalBytes| == PATCH_SIZE
    requires e.trampolineCode.Some? ==>
               HoldsTrampoline(b.abi, HookStub(b, e), blocks, e.trampolineCode.value) &&
               Holds(m, e.target, AbsoluteJump(e.trampolineCode.value))
    ensures HookDeployed(b, base, m, blocks, e)
  {
  }

  /** Entries of `d` were there in `c`, and nothing has disturbed them. */
  lemma StaysDeployed(b: Builder, base: Memory, c: Code, d: Code)
    requires Deployed(b, base, c)
    requires forall id <- d.bps :: id in c.bps && d.bps[id] == c.bps[id] &&
              Undisturbed(c, d, S.PatchOf(d.bps[id]), S.BlocksOf(d.bps[id]))
    requires forall id <- d.hooks :: id in c.hooks && d.hooks[id] == c.hooks[id] &&
              Undisturbed(c, d, I.PatchOf(d.hooks[id]), I.BlocksOf(d.hooks[id]))
    ensures Deployed(b, base, d)
  {
    hide BreakpointDeployed, HookDeployed, Undisturbed, S.BlocksOf, I.BlocksOf;
    forall id | id in d.bps ensures BreakpointDeployed(b, base, d.mem, d.blocks, d.bps[id]) {
      BreakpointStays(b, base, c, d, d.bps[id]);
    }
    forall id | id in d.hooks ensures HookDeployed(b, base, d.mem, d.blocks, d.hooks[id]) {
      HookStays(b, base, c, d, d.hooks[id]);
    }
  }

  /** Changes outside the other patches and among other blocks disturb nobody. */
  lemma {:induction false} OutsideDisturbsNobody(c: Code, d: Code, p: Patch, blocks: set<Word>, gone: set<Word>)
    requires Shrunk(c.blocks, d.blocks, gone) && blocks !! gone
    requires forall x: int :: Covers(p, x) ==> d.mem(x) == c.mem(x)
    ensures Undisturbed(c, d, p, blocks)
  {
  }

  lemma UndoneElsewhere(base: Memory, m: Memory, live: set<Patch>, p: Patch, q: Patch)
    requires Consistent(base, m, live) && p in live && q in live && p != q
    ensures forall x: int :: Covers(q, x) ==> Undo(m, p)(x) == m(x)
  {
    LiveDisjoint(base, m, live, p, q);
  }

  lemma OthersOwn<E(!new)>(byId: map<nat, E>, blocks: E -> set<Word>, i: nat, j: nat)
    requires OwnedApart(byId, blocks) && i in byId && j in byId && i != j
    ensures blocks(byId[i]) !! blocks(byId[j])
  {
  }

  lemma HookTakenStays(b: Builder, base: Memory, c: Code, d: Code, id: nat)
    requires Sound(c) && Apart(base, c) && Deployed(b, base, c) && HookTaken(c, d, id)
    ensures Deployed(b, base, d)
  {
    hide Deployed, Consistent, Undisturbed, InStep, OwnedApart, Owned, Undo, Shrunk, I.BlocksOf, S.BlocksOf, H.Bookkept;
    hide PatchesApart;
    var gone := I.BlocksOf(c.hooks[id]);
    var p := I.PatchOf(c.hooks[id]);
    var live := HookPatches(c) + BreakpointPatches(c);
    HookLocated();
    KeysKeepPatchesApart(c.hooks, c.byTarget, c.nextHook, I.KeyOf, I.PatchOf);
    OwnedHas(c.hooks, I.BlocksOf, id);
    assert p in HookPatches(c);
    forall j | j in d.bps ensures Undisturbed(c, d, S.PatchOf(d.bps[j]), S.BlocksOf(d.bps[j])) {
      assert S.PatchOf(c.bps[j]) in BreakpointPatches(c);
      UndoneElsewhere(base, c.mem, live, p, S.PatchOf(c.bps[j]));
      OwnedHas(c.bps, S.BlocksOf, j);
      OutsideDisturbsNobody(c, d, S.PatchOf(d.bps[j]), S.BlocksOf(d.bps[j]), gone);
    }
    forall j | j in d.hooks ensures Undisturbed(c, d, I.PatchOf(d.hooks[j]), I.BlocksOf(d.hooks[j])) {
      assert I.PatchOf(c.hooks[j]) in HookPatches(c);
      TwoPatches(c.hooks, I.PatchOf, id, j);
      UndoneElsewhere(base, c.mem, live, p, I.PatchOf(c.hooks[j]));
      OthersOwn(c.hooks, I.BlocksOf, id, j);
      OutsideDisturbsNobody(c, d, I.PatchOf(d.hooks[j]), I.BlocksOf(d.hooks[j]), gone);
    }
    StaysDeployed(b, base, c, d);
  }

  lemma TwoPatches<E(!new)>(byId: map<nat, E>, patch: E -> Patch, i: nat, j: nat)
    requires PatchesApart(byId, patch) && i in byId && j in byId && i != j
    ensures patch(byId[i]) != patch(byId[j])
  {
  }

  lemma BreakpointTakenStays(b: Builder, base: Memory, c: Code, d: Code, id: nat)
    requires Sound(c) && Apart(base, c) && Deployed(b, base, c) && BreakpointTaken(c, d, id)
    ensures Deployed(b, base, d)
  {
    hide Deployed, Consistent, Undisturbed, InStep, OwnedApart, Owned, Undo, Shrunk, I.BlocksOf, S.BlocksOf, H.Bookkept;
    hide PatchesApart;
    var gone := S.BlocksOf(c.bps[id]);
    var p := S.PatchOf(c.bps[id]);
    var live := HookPatches(c) + BreakpointPatches(c);
    BreakpointLocated();
    KeysKeepPatchesApart(c.bps, c.byAddress, c.nextBp, S.KeyOf, S.PatchOf);
    OwnedHas(c.bps, S.BlocksOf, id);
    assert p in BreakpointPatches(c);
    forall j | j in d.hooks ensures Undisturbed(c, d, I.PatchOf(d.hooks[j]), I.BlocksOf(d.hooks[j])) {
      assert I.PatchOf(c.hooks[j]) in HookPatches(c);
      UndoneElsewhere(base, c.mem, live, p, I.PatchOf(c.hooks[j]));
      OwnedHas(c.hooks, I.BlocksOf, j);
      OutsideDisturbsNobody(c, d, I.PatchOf(d.hooks[j]), I.BlocksOf(d.hooks[j]), gone);
    }
    forall j | j in d.bps ensures Undisturbed(c, d, S.PatchOf(d.bps[j]), S.BlocksOf(d.bps[j])) {
      assert S.PatchOf(c.bps[j]) in BreakpointPatches(c);
      TwoPatches(c.bps, S.PatchOf, id, j);
      UndoneElsewhere(base, c.mem, live, p, S.PatchOf(c.bps[j]));
      OthersOwn(c.bps, S.BlocksOf, id, j);
      OutsideDisturbsNobody(c, d, S.PatchOf(d.bps[j]), S.BlocksOf(d.bps[j]), gone);
    }
    StaysDeployed(b, base, c, d);
  }

  /** Undoing patches in any order leaves every byte outside them alone. */
  lemma {:induction false} UndoIdsFrame<E(!new)>(m: Memory, byId: map<nat, E>, patch: E -> Patch, order: seq<nat>,
                                                 x: int)
    requires forall id <- order :: id in byId
    requires forall id <- byId :: !Covers(patch(byId[id]), x)
    ensures UndoIds(m, byId, patch, order)(x) == m(x)
    decreases |order|
  {
    if order != [] {
      UndoIdsFrame(m, byId, patch, order[..|order| - 1], x);
      assert order[|order| - 1] in order;
    }
  }

  lemma UndoAllElsewhere<E(!new)>(base: Memory, m: Memory, byId: map<nat, E>, patch: E -> Patch, order: seq<nat>,
                                  others: set<Patch>, q: Patch)
    requires Patched(base, m, PatchesOf(byId, patch), others) && q in others && forall id <- order :: id in byId
    ensures forall x: int :: Covers(q, x) ==> UndoIds(m, byId, patch, order)(x) == m(x)
  {
    hide Consistent, UndoIds;
    forall x: int | Covers(q, x) ensures UndoIds(m, byId, patch, order)(x) == m(x) {
      forall id | id in byId ensures !Covers(patch(byId[id]), x) {
        var p := patch(byId[id]);
        assert p in PatchesOf(byId, patch);
        LiveDisjoint(base, m, PatchesOf(byId, patch) + others, p, q);
        assert !(Covers(p, x) && Covers(q, x));
      }
      UndoIdsFrame(m, byId, patch, order, x);
    }
  }

  lemma HooksTakenStays(b: Builder, base: Memory, c: Code, d: Code, order: seq<nat>)
    requires Sound(c) && Apart(base, c) && Deployed(b, base, c) && HooksTaken(c, d, order)
    ensures Deployed(b, base, d)
  {
    hide Deployed, Patched, Undisturbed, InStep, OwnedApart, Owned, UndoIds, Shrunk, I.BlocksOf, S.BlocksOf, H.Bookkept;
    forall j | j in d.bps ensures Undisturbed(c, d, S.PatchOf(d.bps[j]), S.BlocksOf(d.bps[j])) {
      UndoAllElsewhere(base, c.mem, c.hooks, I.PatchOf, order, BreakpointPatches(c), S.PatchOf(c.bps[j]));
      OwnedHas(c.bps, S.BlocksOf, j);
      OutsideDisturbsNobody(c, d, S.PatchOf(d.bps[j]), S.BlocksOf(d.bps[j]), HookBlocks(c));
    }
    StaysDeployed(b, base, c, d);
  }

  lemma BreakpointsTakenStay(b: Builder, base: Memory, c: Code, d: Code, order: seq<nat>)
    requires Sound(c) && Apart(base, c) && Deployed(b, base, c) && BreakpointsTaken(c, d, order)
    ensures Deployed(b, base, d)
  {
    hide Deployed, Patched, Undisturbed, InStep, OwnedApart, Owned, UndoIds, Shrunk, I.BlocksOf, S.BlocksOf, H.Bookkept;
    PatchedSwap(base, c.mem, HookPatches(c), BreakpointPatches(c));
    forall j | j in d.hooks ensures Undisturbed(c, d, I.PatchOf(d.hooks[j]), I.BlocksOf(d.hooks[j])) {
      UndoAllElsewhere(base, c.mem, c.bps, S.PatchOf, order, HookPatches(c), I.PatchOf(c.hooks[j]));
      OwnedHas(c.hooks, I.BlocksOf, j);
      OutsideDisturbsNobody(c, d, I.PatchOf(d.hooks[j]), I.BlocksOf(d.hooks[j]), BreakpointBlocks(c));
    }
    StaysDeployed(b, base, c, d);
  }

  // ---- Execute breakpoints -----------------------------------------------------------------------------

  lemma HwStays(b: Builder, base: Memory, c: Code, d: Code, e: H.HwBreakpointEntry)
    requires HwDeployed(b, base, c.blocks, e)
    requires forall a <- H.BlocksOf(e) :: a in c.blocks ==> a in d.blocks && d.blocks[a] == c.blocks[a]
    ensures HwDeployed(b, base, d.blocks, e)
  {
    hide CopyOf, AllEmitted, TrampolineInsns, TrampolineBytes;
    if e.kind.Execute? {
      assert e.relocatedCode.value in H.BlocksOf(e) && e.trampolineCode.value in H.BlocksOf(e);
    }
  }

  /** New blocks disturb no execute breakpoint. */
  lemma BreaksStayGrown(b: Builder, base: Memory, c: Code, d: Code, added: set<Word>)
    requires BreaksDeployed(b, base, c) && d.hws == c.hws && Grown(c.blocks, d.blocks, added)
    ensures BreaksDeployed(b, base, d)
  {
    hide HwDeployed, H.BlocksOf;
    forall id | id in d.hws ensures HwDeployed(b, base, d.blocks, d.hws[id]) {
      GrownSame(c.blocks, d.blocks, added);
      HwStays(b, base, c, d, d.hws[id]);
    }
  }

  lemma GrownSame(before: map<Word, seq<Byte>>, after: map<Word, seq<Byte>>, added: set<Word>)
    requires Grown(before, after, added)
    ensures forall a <- before :: a in after && after[a] == before[a]
  {
    forall a | a in before ensures a in after && after[a] == before[a] {
      assert a in Without(after, added);
    }
  }

  /** Nor do blocks that go with others. */
  lemma BreaksStayShrunk(b: Builder, base: Memory, c: Code, d: Code, gone: set<Word>)
    requires BreaksDeployed(b, base, c) && Shrunk(c.blocks, d.blocks, gone)
    requires forall id <- d.hws :: id in c.hws && d.hws[id] == c.hws[id] && H.BlocksOf(d.hws[id]) !! gone
    ensures BreaksDeployed(b, base, d)
  {
    hide HwDeployed, H.BlocksOf;
    forall id | id in d.hws ensures HwDeployed(b, base, d.blocks, d.hws[id]) {
      HwStays(b, base, c, d, d.hws[id]);
    }
  }

  lemma BreaksStayWithout(b: Builder, base: Memory, c: Code, d: Code, gone: set<Word>)
    requires Sound(c) && BreaksDeployed(b, base, c) && Shrunk(c.blocks, d.blocks, gone) && d.hws == c.hws
    requires gone <= HookBlocks(c) || gone <= BreakpointBlocks(c)
    ensures BreaksDeployed(b, base, d)
  {
    hide InStep, OwnedApart, Owned, BreaksDeployed, H.BlocksOf, H.Bookkept, Shrunk;
    forall id | id in d.hws ensures H.BlocksOf(d.hws[id]) !! gone {
      OwnedHas(c.hws, H.BlocksOf, id);
    }
    BreaksStayShrunk(b, base, c, d, gone);
  }

  /** What `set` built for an execute breakpoint. */
  ghost predicate HwBuilt(b: Builder, m: Memory, blocks: map<Word, seq<Byte>>, e: H.HwBreakpointEntry) {
    if e.kind.Execute? then
      && e.relocatedCode.Some? && e.trampolineCode.Some?
      && e.relocatedCode.value in blocks && Relocated(b.isa, m, e.address, 1).Some?
      && blocks[e.relocatedCode.value] == Relocated(b.isa, m, e.address, 1).value.0
      && HoldsTrampoline(b.abi, HwStub(b, e), blocks, e.trampolineCode.value)
    else e.relocatedCode.None? && e.trampolineCode.None?
  }

  lemma HwDeploys(b: Builder, base: Memory, c: Code, d: Code, e: H.HwBreakpointEntry)
    requires BreaksDeployed(b, base, c) && HwAdded(c, d, e) && HwBuilt(b, c.mem, d.blocks, e)
    requires e.address + 33 < WORD_SPAN
    requires e.kind.Execute? ==> PrefixCode(b.isa) && Apart(base, c) && Unpatched(b.isa, base, c, e.address, 1)
    ensures BreaksDeployed(b, base, d)
  {
    hide HwDeployed, Apart, PrefixCode, Unpatched, Relocated, H.BlocksOf, CopyOf, HoldsTrampoline;
    if e.kind.Execute? {
      BuiltIsCopy(b.isa, base, c, e.address, 1);
    }
    assert HwDeployed(b, base, d.blocks, e) by {
      NewHw(b, base, d.blocks, e);
    }
    GrownSame(c.blocks, d.blocks, H.BlocksOf(e));
    forall id | id in c.hws ensures HwDeployed(b, base, d.blocks, c.hws[id]) {
      HwStays(b, base, c, d, c.hws[id]);
    }
  }

  lemma NewHw(b: Builder, base: Memory, blocks: map<Word, seq<Byte>>, e: H.HwBreakpointEntry)
    requires if e.kind.Execute? then
               && e.relocatedCode.Some? && e.trampolineCode.Some?
               && HoldsCopy(b.isa, base, e.address, 1, blocks, e.relocatedCode.value)
               && HoldsTrampoline(b.abi, HwStub(b, e), blocks, e.trampolineCode.value)
             else e.relocatedCode.None? && e.trampolineCode.None?
    ensures HwDeployed(b, base, blocks, e)
  {
  }

  /** Hardware breakpoints come and go elsewhere. */
  lemma HwAddedStays(b: Builder, base: Memory, c: Code, d: Code, e: H.HwBreakpointEntry)
    requires Deployed(b, base, c) && HwAdded(c, d, e)
    ensures Deployed(b, base, d)
  {
    hide Deployed, I.BlocksOf, S.BlocksOf, H.BlocksOf;
    forall a | a in c.blocks ensures a in d.blocks && d.blocks[a] == c.blocks[a] {
      assert a in Without(d.blocks, H.BlocksOf(e));
    }
    StaysDeployed(b, base, c, d);
  }

  lemma HwGoneStays(b: Builder, base: Memory, c: Code, d: Code, gone: set<Word>)
    requires Sound(c) && Deployed(b, base, c)
    requires gone <= HardwareBlocks(c) && Shrunk(c.blocks, d.blocks, gone)
    requires d.mem == c.mem && SameHooks(c, d) && SameBreakpoints(c, d)
    ensures Deployed(b, base, d)
  {
    hide Deployed, Undisturbed, InStep, OwnedApart, Owned, Shrunk, I.BlocksOf, S.BlocksOf, H.Bookkept;
    forall j | j in d.bps ensures Undisturbed(c, d, S.PatchOf(d.bps[j]), S.BlocksOf(d.bps[j])) {
      OwnedHas(c.bps, S.BlocksOf, j);
      OutsideDisturbsNobody(c, d, S.PatchOf(d.bps[j]), S.BlocksOf(d.bps[j]), gone);
    }
    forall j | j in d.hooks ensures Undisturbed(c, d, I.PatchOf(d.hooks[j]), I.BlocksOf(d.hooks[j])) {
      OwnedHas(c.hooks, I.BlocksOf, j);
      OutsideDisturbsNobody(c, d, I.PatchOf(d.hooks[j]), I.BlocksOf(d.hooks[j]), gone);
    }
    StaysDeployed(b, base, c, d);
  }

  lemma HwTakenStays(b: Builder, base: Memory, c: Code, d: Code, id: nat)
    requires Sound(c) && Deployed(b, base, c) && HwTaken(c, d, id)
    ensures Deployed(b, base, d)
  {
    hide Deployed, Sound, Owned, H.BlocksOf, Shrunk;
    OwnedHas(c.hws, H.BlocksOf, id);
    HwGoneStays(b, base, c, d, H.BlocksOf(c.hws[id]));
  }

  // ---- All that a call keeps ---------------------------------------------------------------------------

  lemma AttachBuilt(i: I.Interceptor, onHit: Word, onHwHit: Word, answers: Answers, m: Memory,
                    before: map<Word, seq<Byte>>, after: map<Word, seq<Byte>>, e: I.HookEntry)
    requires i.BuiltFor(e.target, answers, m, before, after) && e.self == answers.entry
    requires e.relocatedCode == answers.relocated.value && e.trampolineCode == answers.trampoline
    ensures HookBuilt(Builder(i.isa, i.abi, onHit, i.dispatch, i.dispatchLeave, onHwHit), m, after, e)
  {
    hide Relocated, AllEmitted, TrampolineInsns, TrampolineBytes;
  }

  lemma SetBuilt(s: S.SoftwareBreakpoints, b: Builder, answers: Answers, m: Memory, before: map<Word, seq<Byte>>,
                 after: map<Word, seq<Byte>>, e: S.BreakpointEntry)
    requires b.isa == s.isa && b.abi == s.abi && b.onHit == s.dispatch
    requires s.Buildable(e.address, answers, m) && s.BuiltFor(e.address, answers, m, before, after)
    requires e == s.EntryFor(e.address, answers, m)
    ensures BreakpointBuilt(b, m, after, e)
  {
    hide Relocated, AllEmitted, TrampolineInsns, TrampolineBytes;
  }

  lemma HwSetBuilt(h: H.HardwareBreakpoints, b: Builder, answers: Answers, m: Memory, before: map<Word, seq<Byte>>,
                   after: map<Word, seq<Byte>>, e: H.HwBreakpointEntry, kind: D.HwBpType, size: int)
    requires b.isa == h.isa && b.abi == h.abi && b.onHwHit == h.dispatch
    requires e == H.EntryFor(e.address, kind, size, answers).(slot := e.slot)
    requires kind.Execute? ==> h.CodeFor(e.address, answers, m, before, after)
    ensures HwBuilt(b, m, after, e)
  {
    hide Relocated, AllEmitted, TrampolineInsns, TrampolineBytes;
  }

  lemma BreaksKeptAddedHook(b: Builder, base: Memory, c: Code, d: Code, e: I.HookEntry, bytes: seq<Byte>)
    requires Sound(c) && BreaksDeployed(b, base, c) && HookAdded(c, d, e, bytes)
    ensures BreaksDeployed(b, base, d)
  {
    hide Sound, BreaksDeployed, Grown, Shrunk, Owned, I.BlocksOf, S.BlocksOf;
    BreaksStayGrown(b, base, c, d, I.BlocksOf(e));
  }

  lemma BreaksKeptAddedBreakpoint(b: Builder, base: Memory, c: Code, d: Code, e: S.BreakpointEntry)
    requires Sound(c) && BreaksDeployed(b, base, c) && BreakpointAdded(c, d, e, [0xCC])
    ensures BreaksDeployed(b, base, d)
  {
    hide Sound, BreaksDeployed, Grown, Shrunk, Owned, I.BlocksOf, S.BlocksOf;
    BreaksStayGrown(b, base, c, d, S.BlocksOf(e));
  }

  lemma BreaksKeptTakenHook(b: Builder, base: Memory, c: Code, d: Code, id: nat)
    requires Sound(c) && BreaksDeployed(b, base, c) && HookTaken(c, d, id)
    ensures BreaksDeployed(b, base, d)
  {
    hide Sound, BreaksDeployed, Grown, Shrunk, Owned, I.BlocksOf, S.BlocksOf;
    OwnedHas(c.hooks, I.BlocksOf, id);
    BreaksStayWithout(b, base, c, d, I.BlocksOf(c.hooks[id]));
  }

  lemma BreaksKeptTakenHooks(b: Builder, base: Memory, c: Code, d: Code, order: seq<nat>)
    requires Sound(c) && BreaksDeployed(b, base, c) && HooksTaken(c, d, order)
    ensures BreaksDeployed(b, base, d)
  {
    hide Sound, BreaksDeployed, Grown, Shrunk, Owned, I.BlocksOf, S.BlocksOf;
    BreaksStayWithout(b, base, c, d, HookBlocks(c));
  }

  lemma BreaksKeptTakenBreakpoint(b: Builder, base: Memory, c: Code, d: Code, id: nat)
    requires Sound(c) && BreaksDeployed(b, base, c) && BreakpointTaken(c, d, id)
    ensures BreaksDeployed(b, base, d)
  {
    hide Sound, BreaksDeployed, Grown, Shrunk, Owned, I.BlocksOf, S.BlocksOf;
    OwnedHas(c.bps, S.BlocksOf, id);
    BreaksStayWithout(b, base, c, d, S.BlocksOf(c.bps[id]));
  }

  lemma BreaksKeptTakenBreakpoints(b: Builder, base: Memory, c: Code, d: Code, order: seq<nat>)
    requires Sound(c) && BreaksDeployed(b, base, c) && BreakpointsTaken(c, d, order)
    ensures BreaksDeployed(b, base, d)
  {
    hide Sound, BreaksDeployed, Grown, Shrunk, Owned, I.BlocksOf, S.BlocksOf;
    BreaksStayWithout(b, base, c, d, BreakpointBlocks(c));
  }

  /** `attach` and `replace`: the patches stay apart exactly when the window was vacant, and all sites stay
      deployed when besides no patch lies on the instructions under the window. */
  lemma HookIn(b: Builder, base: Memory, c: Code, d: Code, e: I.HookEntry, destination: Word)
    requires Sound(c) && HookAdded(c, d, e, AbsoluteJump(destination)) && HookBuilt(b, c.mem, d.blocks, e)
    requires e.trampolineCode.Some? ==> e.trampolineCode.value == destination
    requires e.target + PATCH_SIZE + 32 < WORD_SPAN
    ensures Sound(d)
    ensures BreaksDeployed(b, base, c) ==> BreaksDeployed(b, base, d)
    ensures Apart(base, c) ==> (Apart(base, d) <==> Vacant(c, e.target, PATCH_SIZE))
    ensures (Apart(base, c) && Deployed(b, base, c) && PrefixCode(b.isa) && Vacant(c, e.target, PATCH_SIZE) &&
             Unpatched(b.isa, base, c, e.target, PATCH_SIZE)) ==> Deployed(b, base, d)
  {
    hide Sound, HookAdded, HookBuilt, Apart, Deployed, BreaksDeployed, PrefixCode, Vacant, Unpatched, AbsoluteJump;
    HookEnters(c, d, e, AbsoluteJump(destination));
    if BreaksDeployed(b, base, c) {
      BreaksKeptAddedHook(b, base, c, d, e, AbsoluteJump(destination));
    }
    if Apart(base, c) {
      HookApart(base, c, d, e, AbsoluteJump(destination));
      if Deployed(b, base, c) && PrefixCode(b.isa) && Vacant(c, e.target, PATCH_SIZE)
         && Unpatched(b.isa, base, c, e.target, PATCH_SIZE) {
        HookDeploys(b, base, c, d, e, destination);
      }
    }
  }

  lemma HookOut(b: Builder, base: Memory, c: Code, d: Code, id: nat)
    requires Sound(c) && HookTaken(c, d, id)
    ensures Sound(d)
    ensures BreaksDeployed(b, base, c) ==> BreaksDeployed(b, base, d)
    ensures Apart(base, c) ==> Apart(base, d)
    ensures Apart(base, c) && Deployed(b, base, c) ==> Deployed(b, base, d)
  {
    hide Sound, HookTaken, Apart, Deployed, BreaksDeployed;
    HookLeaves(c, d, id);
    if BreaksDeployed(b, base, c) {
      BreaksKeptTakenHook(b, base, c, d, id);
    }
    if Apart(base, c) {
      HookLeavesApart(base, c, d, id);
      if Deployed(b, base, c) {
        HookTakenStays(b, base, c, d, id);
      }
    }
  }

  lemma HooksOut(b: Builder, base: Memory, c: Code, d: Code, order: seq<nat>)
    requires Sound(c) && HooksTaken(c, d, order)
    ensures Sound(d)
    ensures BreaksDeployed(b, base, c) ==> BreaksDeployed(b, base, d)
    ensures Apart(base, c) ==> Apart(base, d)
    ensures Apart(base, c) && Deployed(b, base, c) ==> Deployed(b, base, d)
  {
    hide Sound, HooksTaken, Apart, Deployed, BreaksDeployed;
    AllHooksLeave(c, d, order);
    if BreaksDeployed(b, base, c) {
      BreaksKeptTakenHooks(b, base, c, d, order);
    }
    if Apart(base, c) {
      AllHooksLeaveApart(base, c, d, order);
      if Deployed(b, base, c) {
        HooksTakenStays(b, base, c, d, order);
      }
    }
  }

  /** The same for `set` and the removals. */
  lemma BreakpointIn(b: Builder, base: Memory, c: Code, d: Code, e: S.BreakpointEntry)
    requires Sound(c) && BreakpointAdded(c, d, e, [0xCC]) && BreakpointBuilt(b, c.mem, d.blocks, e)
    requires e.address + S.BP_INSN_SIZE + 32 < WORD_SPAN
    ensures Sound(d)
    ensures BreaksDeployed(b, base, c) ==> BreaksDeployed(b, base, d)
    ensures Apart(base, c) ==> (Apart(base, d) <==> Vacant(c, e.address, S.BP_INSN_SIZE))
    ensures (Apart(base, c) && Deployed(b, base, c) && PrefixCode(b.isa) && Vacant(c, e.address, S.BP_INSN_SIZE) &&
             Unpatched(b.isa, base, c, e.address, S.BP_INSN_SIZE)) ==> Deployed(b, base, d)
  {
    hide Sound, BreakpointAdded, BreakpointBuilt, Apart, Deployed, BreaksDeployed, PrefixCode, Vacant, Unpatched;
    BreakpointEnters(c, d, e, [0xCC]);
    if BreaksDeployed(b, base, c) {
      BreaksKeptAddedBreakpoint(b, base, c, d, e);
    }
    if Apart(base, c) {
      BreakpointApart(base, c, d, e, [0xCC]);
      if Deployed(b, base, c) && PrefixCode(b.isa) && Vacant(c, e.address, 1)
         && Unpatched(b.isa, base, c, e.address, S.BP_INSN_SIZE) {
        BreakpointDeploys(b, base, c, d, e);
      }
    }
  }

  lemma BreakpointOut(b: Builder, base: Memory, c: Code, d: Code, id: nat)
    requires Sound(c) && BreakpointTaken(c, d, id)
    ensures Sound(d)
    ensures BreaksDeployed(b, base, c) ==> BreaksDeployed(b, base, d)
    ensures Apart(base, c) ==> Apart(base, d)
    ensures Apart(base, c) && Deployed(b, base, c) ==> Deployed(b, base, d)
  {
    hide Sound, BreakpointTaken, Apart, Deployed, BreaksDeployed;
    BreakpointLeaves(c, d, id);
    if BreaksDeployed(b, base, c) {
      BreaksKeptTakenBreakpoint(b, base, c, d, id);
    }
    if Apart(base, c) {
      BreakpointLeavesApart(base, c, d, id);
      if Deployed(b, base, c) {
        BreakpointTakenStays(b, base, c, d, id);
      }
    }
  }

  lemma BreakpointsOut(b: Builder, base: Memory, c: Code, d: Code, order: seq<nat>)
    requires Sound(c) && BreakpointsTaken(c, d, order)
    ensures Sound(d)
    ensures BreaksDeployed(b, base, c) ==> BreaksDeployed(b, base, d)
    ensures Apart(base, c) ==> Apart(base, d)
    ensures Apart(base, c) && Deployed(b, base, c) ==> Deployed(b, base, d)
  {
    hide Sound, BreakpointsTaken, Apart, Deployed, BreaksDeployed;
    AllBreakpointsLeave(c, d, order);
    if BreaksDeployed(b, base, c) {
      BreaksKeptTakenBreakpoints(b, base, c, d, order);
    }
    if Apart(base, c) {
      AllBreakpointsLeaveApart(base, c, d, order);
      if Deployed(b, base, c) {
        BreakpointsTakenStay(b, base, c, d, order);
      }
    }
  }

  lemma HwIn(b: Builder, base: Memory, c: Code, d: Code, id: nat, address: Word, typeStr: string, size: int,
             answers: Answers)
    requires Sound(c) && HwSet(c, d, id, address, typeStr, size, answers) && HwBuilt(b, c.mem, d.blocks, d.hws[id])
    requires H.Bookkept(d.hws, d.byHwAddress, d.nextHw, d.used, d.blocks.Keys) && address + 33 < WORD_SPAN
    ensures Sound(d)
    ensures Apart(base, c) ==> Apart(base, d)
    ensures Deployed(b, base, c) ==> Deployed(b, base, d)
    ensures (BreaksDeployed(b, base, c) &&
             (typeStr == "execute" ==> PrefixCode(b.isa) && Apart(base, c) && Unpatched(b.isa, base, c, address, 1)))
            ==> BreaksDeployed(b, base, d)
  {
    hide Sound, Apart, Deployed, BreaksDeployed, H.Bookkept, H.BlocksOf, Grown, HwBuilt, PrefixCode, Unpatched;
    HwEntered(c, d, id, address, typeStr, size, answers);
    H.TypeNames(typeStr);
    hide H.ParseType;
    var e := d.hws[id];
    if Apart(base, c) {
      StaysApart(base, c, d);
    }
    if Deployed(b, base, c) {
      HwAddedStays(b, base, c, d, e);
    }
    if BreaksDeployed(b, base, c) &&
       (typeStr == "execute" ==> PrefixCode(b.isa) && Apart(base, c) && Unpatched(b.isa, base, c, address, 1)) {
      HwDeploys(b, base, c, d, e);
    }
  }

  lemma HwGone(b: Builder, base: Memory, c: Code, d: Code, id: nat)
    requires Sound(c) && HwTaken(c, d, id)
    requires H.Bookkept(d.hws, d.byHwAddress, d.nextHw, d.used, d.blocks.Keys)
    ensures Sound(d)
    ensures Apart(base, c) ==> Apart(base, d)
    ensures Deployed(b, base, c) ==> Deployed(b, base, d)
    ensures BreaksDeployed(b, base, c) ==> BreaksDeployed(b, base, d)
  {
    hide Sound, Apart, Deployed, BreaksDeployed, H.Bookkept, H.BlocksOf, Shrunk;
    HwOut(c, d, id);
    if Apart(base, c) {
      StaysApart(base, c, d);
    }
    if Deployed(b, base, c) {
      HwTakenStays(b, base, c, d, id);
    }
    if BreaksDeployed(b, base, c) {
      BreaksKeptTaken(b, base, c, d, id);
    }
  }

  lemma BreaksKeptTaken(b: Builder, base: Memory, c: Code, d: Code, id: nat)
    requires Sound(c) && BreaksDeployed(b, base, c) && HwTaken(c, d, id)
    ensures BreaksDeployed(b, base, d)
  {
    hide BreaksDeployed, InStep, OwnedApart, Owned, H.BlocksOf, H.SlotsExact, Shrunk;
    forall j | j in d.hws ensures H.BlocksOf(d.hws[j]) !! H.BlocksOf(c.hws[id]) {
      OthersOwn(c.hws, H.BlocksOf, id, j);
    }
    BreaksStayShrunk(b, base, c, d, H.BlocksOf(c.hws[id]));
  }

  lemma HwsGone(b: Builder, base: Memory, c: Code, d: Code)
    requires Sound(c) && HwsTaken(c, d)
    requires H.Bookkept(d.hws, d.byHwAddress, d.nextHw, d.used, d.blocks.Keys)
    ensures Sound(d) && BreaksDeployed(b, base, d)
    ensures Apart(base, c) ==> Apart(base, d)
    ensures Deployed(b, base, c) ==> Deployed(b, base, d)
  {
    hide Sound, Apart, Deployed, H.Bookkept, Owned, Shrunk, HwDeployed;
    AllHwsOut(c, d);
    if Apart(base, c) {
      StaysApart(base, c, d);
    }
    if Deployed(b, base, c) {
      HwGoneStays(b, base, c, d, HardwareBlocks(c));
    }
  }

  /** Nothing is set. */
  lemma NothingDeployed(b: Builder, base: Memory, c: Code)
    requires c.hooks == map[] && c.bps == map[] && c.hws == map[]
    ensures Deployed(b, base, c) && BreaksDeployed(b, base, c)
  {
  }
}

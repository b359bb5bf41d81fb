/** Program code, code blocks and the three registries as one value, and what every change keeps. */
module LiveCode {
  import opened Words
  import opened Memory
  import opened PatchLog
  import opened Process
  import opened Registry
  import I = Interceptor
  import S = SoftwareBreakpoint
  import H = HardwareBreakpoint
  import D = DebugRegisters

  // ---- Shared code blocks and shared program memory --------------------------------------------------

  /** Every live code block has exactly one owner. */
  ghost predicate Shares(hooks: set<Word>, software: set<Word>, hardware: set<Word>, live: set<Word>) {
    && hooks !! software && hooks !! hardware && software !! hardware
    && hooks + software + hardware == live
  }

  /** The patches of two registries, none overlapping, over otherwise original code. */
  ghost predicate Patched(base: Memory, m: Memory, mine: set<Patch>, others: set<Patch>) {
    mine !! others && Consistent(base, m, mine + others)
  }

  lemma PatchedSwap(base: Memory, m: Memory, mine: set<Patch>, others: set<Patch>)
    ensures Patched(base, m, mine, others) <==> Patched(base, m, others, mine)
  {
    assert mine + others == others + mine;
  }

  lemma PatchAdded(base: Memory, m: Memory, mine: set<Patch>, others: set<Patch>, e: Edit)
    requires Patched(base, m, mine, others) && e.bytes != []
    requires forall p <- mine + others :: Disjoint(p, Saving(m, e))
    ensures Patched(base, Write(m, e.addr, e.bytes), mine + {Saving(m, e)}, others)
  {
    hide Consistent;
    EditConsistent(base, m, mine + others, e);
    assert mine + {Saving(m, e)} + others == mine + others + {Saving(m, e)};
    assert Saving(m, e) !in others by {
      assert Covers(Saving(m, e), e.addr);
    }
  }

  lemma PatchGone(base: Memory, m: Memory, mine: set<Patch>, others: set<Patch>, p: Patch)
    requires Patched(base, m, mine, others) && p in mine
    ensures Patched(base, Undo(m, p), mine - {p}, others)
  {
    hide Consistent;
    UndoConsistent(base, m, mine + others, p);
    assert mine + others - {p} == mine - {p} + others;
  }

  lemma PatchesGone<E(!new)>(base: Memory, m: Memory, byId: map<nat, E>, patch: E -> Patch, order: seq<nat>,
                             others: set<Patch>)
    requires Lists(order, byId.Keys) && PatchesApart(byId, patch)
    requires Patched(base, m, PatchesOf(byId, patch), others)
    ensures Patched(base, UndoIds(m, byId, patch, order), {}, others)
  {
    hide Consistent, UndoIds;
    UndoAllRestores(base, m, byId, patch, order, others);
    assert {} + others == others;
  }

  lemma NothingPatched(base: Memory, m: Memory)
    requires Patched(base, m, {}, {})
    ensures Same(m, base)
  {
    var none: set<Patch> := {};
    assert none + none == none;
    NoPatchesLeft(base, m);
  }

  /** No live patch touches the window. */
  ghost predicate Clear(patches: set<Patch>, addr: Word, n: nat) {
    forall p, x: int :: p in patches && Covers(p, x) ==> !InExtent(addr, n, x)
  }

  lemma ClearIsDisjoint(m: Memory, patches: set<Patch>, e: Edit)
    requires Clear(patches, e.addr, |e.bytes|)
    ensures forall p <- patches :: Disjoint(p, Saving(m, e))
  {
  }

  lemma SharesMore(hooks: set<Word>, software: set<Word>, hardware: set<Word>, live: set<Word>, added: set<Word>)
    requires Shares(hooks, software, hardware, live) && added !! live
    ensures Shares(hooks + added, software, hardware, live + added)
    ensures Shares(hooks, software + added, hardware, live + added)
    ensures Shares(hooks, software, hardware + added, live + added)
  {
  }

  lemma SharesLess(hooks: set<Word>, software: set<Word>, hardware: set<Word>, live: set<Word>, gone: set<Word>)
    requires Shares(hooks, software, hardware, live)
    ensures gone <= hooks ==> Shares(hooks - gone, software, hardware, live - gone)
    ensures gone <= software ==> Shares(hooks, software - gone, hardware, live - gone)
    ensures gone <= hardware ==> Shares(hooks, software, hardware - gone, live - gone)
  {
  }

  // ---- Patches apart -----------------------------------------------------------------------------------

  /** A new patch keeps the patches apart exactly when it touches none of them. */
  lemma PatchedIff(base: Memory, m: Memory, mine: set<Patch>, others: set<Patch>, e: Edit)
    requires Patched(base, m, mine, others) && e.bytes != [] && Saving(m, e) !in mine
    ensures Patched(base, Write(m, e.addr, e.bytes), mine + {Saving(m, e)}, others) <==>
              Clear(mine + others, e.addr, |e.bytes|)
  {
    hide Consistent;
    var p := Saving(m, e);
    if Clear(mine + others, e.addr, |e.bytes|) {
      ClearIsDisjoint(m, mine + others, e);
      PatchAdded(base, m, mine, others, e);
    } else if Patched(base, Write(m, e.addr, e.bytes), mine + {p}, others) {
      var q, x: int :| q in mine + others && Covers(q, x) && InExtent(e.addr, |e.bytes|, x);
      assert Covers(p, x) && q != p;
      LiveDisjoint(base, Write(m, e.addr, e.bytes), mine + {p} + others, p, q);
    }
  }

  lemma LiveDisjoint(base: Memory, m: Memory, live: set<Patch>, p: Patch, q: Patch)
    requires Consistent(base, m, live) && p in live && q in live && p != q
    ensures Disjoint(p, q)
  {
  }

  /** No entry has its patch where a new key is. */
  lemma KeysElsewhere<E(!new)>(byId: map<nat, E>, byKey: map<Word, E>, next: nat, key: E -> Word, patch: E -> Patch,
                               e: E)
    requires InStep(byId, byKey, next, key) && key(e) !in byKey && forall x: E :: patch(x).addr == key(x)
    ensures patch(e) !in PatchesOf(byId, patch)
  {
  }

  /** Program code, live blocks and the three registries as one value. */
  datatype Code = Code(
    mem: Memory,
    blocks: map<Word, seq<Byte>>,
    hooks: map<nat, I.HookEntry>, byTarget: map<Word, I.HookEntry>, nextHook: nat,
    bps: map<nat, S.BreakpointEntry>, byAddress: map<Word, S.BreakpointEntry>, nextBp: nat,
    hws: map<nat, H.HwBreakpointEntry>, byHwAddress: map<Word, H.HwBreakpointEntry>, nextHw: nat, used: D.Bits
  )

  ghost function HookBlocks(c: Code): set<Word> {
    Owned(c.hooks, I.BlocksOf)
  }

  ghost function BreakpointBlocks(c: Code): set<Word> {
    Owned(c.bps, S.BlocksOf)
  }

  ghost function HardwareBlocks(c: Code): set<Word> {
    Owned(c.hws, H.BlocksOf)
  }

  ghost function HookPatches(c: Code): set<Patch> {
    PatchesOf(c.hooks, I.PatchOf)
  }

  ghost function BreakpointPatches(c: Code): set<Patch> {
    PatchesOf(c.bps, S.PatchOf)
  }

  /** The maps of each registry agree, and every live block has one owner. */
  ghost predicate Sound(c: Code) {
    && InStep(c.hooks, c.byTarget, c.nextHook, I.KeyOf) && OwnedApart(c.hooks, I.BlocksOf)
    && InStep(c.bps, c.byAddress, c.nextBp, S.KeyOf) && OwnedApart(c.bps, S.BlocksOf)
    && H.Bookkept(c.hws, c.byHwAddress, c.nextHw, c.used, c.blocks.Keys)
    && Shares(HookBlocks(c), BreakpointBlocks(c), HardwareBlocks(c), c.blocks.Keys)
  }

  /** The patches lie apart over otherwise original code. */
  ghost predicate Apart(base: Memory, c: Code) {
    Patched(base, c.mem, HookPatches(c), BreakpointPatches(c))
  }

  predicate SameHooks(c: Code, d: Code) {
    d.hooks == c.hooks && d.byTarget == c.byTarget && d.nextHook == c.nextHook
  }

  predicate SameBreakpoints(c: Code, d: Code) {
    d.bps == c.bps && d.byAddress == c.byAddress && d.nextBp == c.nextBp
  }

  predicate SameHardware(c: Code, d: Code) {
    d.hws == c.hws && d.byHwAddress == c.byHwAddress && d.nextHw == c.nextHw && d.used == c.used
  }

  /** No live patch touches the window. */
  ghost predicate Vacant(c: Code, addr: Word, n: nat) {
    Clear(HookPatches(c) + BreakpointPatches(c), addr, n)
  }

  /** A hook or replacement comes in: its entry, its blocks and its patch. */
  ghost predicate HookAdded(c: Code, d: Code, e: I.HookEntry, bytes: seq<Byte>) {
    && e.target !in c.byTarget && Grown(c.blocks, d.blocks, I.BlocksOf(e))
    && |bytes| > 0 && e.originalBytes == Read(c.mem, e.target, |bytes|)
    && d.mem == Write(c.mem, e.target, bytes)
    && d.hooks == c.hooks[c.nextHook := e] && d.byTarget == c.byTarget[e.target := e] && d.nextHook == c.nextHook + 1
    && SameBreakpoints(c, d) && SameHardware(c, d)
  }

  /** It goes, and takes exactly these along. */
  ghost predicate HookTaken(c: Code, d: Code, id: nat) {
    && id in c.hooks
    && var e := c.hooks[id];
       && d.mem == Undo(c.mem, I.PatchOf(e)) && Shrunk(c.blocks, d.blocks, I.BlocksOf(e))
       && d.hooks == Without(c.hooks, {id}) && d.byTarget == Without(c.byTarget, {e.target}) && d.nextHook == c.nextHook
       && SameBreakpoints(c, d) && SameHardware(c, d)
  }

  /** All of them go, in some order. */
  ghost predicate HooksTaken(c: Code, d: Code, order: seq<nat>) {
    && Lists(order, c.hooks.Keys)
    && d.mem == UndoIds(c.mem, c.hooks, I.PatchOf, order) && Shrunk(c.blocks, d.blocks, HookBlocks(c))
    && d.hooks == map[] && d.byTarget == map[] && d.nextHook == c.nextHook
    && SameBreakpoints(c, d) && SameHardware(c, d)
  }

  lemma HookEnters(c: Code, d: Code, e: I.HookEntry, bytes: seq<Byte>)
    requires Sound(c) && HookAdded(c, d, e, bytes)
    ensures Sound(d) && c.nextHook !in c.hooks
  {
    hide InStep, OwnedApart, Owned, PatchesOf, Write, Read, I.BlocksOf, H.Bookkept;
    Inserted(c.hooks, c.byTarget, c.nextHook, I.KeyOf, I.BlocksOf, e);
    HookLocated();
    KeysKeepPatchesApart(c.hooks, c.byTarget, c.nextHook, I.KeyOf, I.PatchOf);
    SharesMore(HookBlocks(c), BreakpointBlocks(c), HardwareBlocks(c), c.blocks.Keys, I.BlocksOf(e));
    H.OtherLive(c.hws, c.byHwAddress, c.nextHw, c.used, c.blocks.Keys, d.blocks.Keys);
  }

  /** The patches stay apart exactly when the new window was vacant. */
  lemma HookApart(base: Memory, c: Code, d: Code, e: I.HookEntry, bytes: seq<Byte>)
    requires Sound(c) && Apart(base, c) && HookAdded(c, d, e, bytes)
    ensures Apart(base, d) <==> Vacant(c, e.target, |bytes|)
  {
    hide InStep, OwnedApart, Owned, PatchesOf, Patched, PatchesApart, Write, Read, I.BlocksOf, H.Bookkept, Grown;
    hide Shares;
    HookLocated();
    KeysKeepPatchesApart(c.hooks, c.byTarget, c.nextHook, I.KeyOf, I.PatchOf);
    PatchInserted(c.hooks, I.PatchOf, c.nextHook, e);
    KeysElsewhere(c.hooks, c.byTarget, c.nextHook, I.KeyOf, I.PatchOf, e);
    PatchedIff(base, c.mem, HookPatches(c), BreakpointPatches(c), Edit(e.target, bytes));
  }

  lemma HookLeaves(c: Code, d: Code, id: nat)
    requires Sound(c) && HookTaken(c, d, id)
    ensures Sound(d)
  {
    hide InStep, OwnedApart, Owned, Undo, I.BlocksOf, H.Bookkept;
    var e := c.hooks[id];
    Removed(c.hooks, c.byTarget, c.nextHook, I.KeyOf, I.BlocksOf, id);
    OwnedHas(c.hooks, I.BlocksOf, id);
    SharesLess(HookBlocks(c), BreakpointBlocks(c), HardwareBlocks(c), c.blocks.Keys, I.BlocksOf(e));
    H.OtherLive(c.hws, c.byHwAddress, c.nextHw, c.used, c.blocks.Keys, d.blocks.Keys);
  }

  lemma HookLeavesApart(base: Memory, c: Code, d: Code, id: nat)
    requires Sound(c) && Apart(base, c) && HookTaken(c, d, id)
    ensures Apart(base, d)
  {
    hide InStep, OwnedApart, Owned, PatchesOf, Patched, PatchesApart, Undo, I.BlocksOf, H.Bookkept, Shrunk, Shares;
    HookLocated();
    KeysKeepPatchesApart(c.hooks, c.byTarget, c.nextHook, I.KeyOf, I.PatchOf);
    PatchRemoved(c.hooks, I.PatchOf, id);
    PatchGone(base, c.mem, HookPatches(c), BreakpointPatches(c), I.PatchOf(c.hooks[id]));
  }

  lemma AllHooksLeave(c: Code, d: Code, order: seq<nat>)
    requires Sound(c) && HooksTaken(c, d, order)
    ensures Sound(d)
  {
    hide InStep, OwnedApart, Owned, UndoIds, H.Bookkept;
    NothingRegistered(c.nextHook, I.KeyOf, I.BlocksOf);
    SharesLess(HookBlocks(c), BreakpointBlocks(c), HardwareBlocks(c), c.blocks.Keys, HookBlocks(c));
    assert HookBlocks(c) - HookBlocks(c) == {};
    H.OtherLive(c.hws, c.byHwAddress, c.nextHw, c.used, c.blocks.Keys, d.blocks.Keys);
  }

  lemma AllHooksLeaveApart(base: Memory, c: Code, d: Code, order: seq<nat>)
    requires Sound(c) && Apart(base, c) && HooksTaken(c, d, order)
    ensures Apart(base, d)
  {
    hide InStep, OwnedApart, Owned, PatchesOf, Patched, PatchesApart, UndoIds, H.Bookkept, Shrunk, Shares;
    HookLocated();
    KeysKeepPatchesApart(c.hooks, c.byTarget, c.nextHook, I.KeyOf, I.PatchOf);
    PatchesGone(base, c.mem, c.hooks, I.PatchOf, order, BreakpointPatches(c));
    NoPatches(I.PatchOf);
  }

  // ---- The same for breakpoints ------------------------------------------------------------------------

  ghost predicate BreakpointAdded(c: Code, d: Code, e: S.BreakpointEntry, bytes: seq<Byte>) {
    && e.address !in c.byAddress && Grown(c.blocks, d.blocks, S.BlocksOf(e))
    && |bytes| > 0 && e.originalBytes == Read(c.mem, e.address, |bytes|)
    && d.mem == Write(c.mem, e.address, bytes)
    && d.bps == c.bps[c.nextBp := e] && d.byAddress == c.byAddress[e.address := e] && d.nextBp == c.nextBp + 1
    && SameHooks(c, d) && SameHardware(c, d)
  }

  ghost predicate BreakpointTaken(c: Code, d: Code, id: nat) {
    && id in c.bps
    && var e := c.bps[id];
       && d.mem == Undo(c.mem, S.PatchOf(e)) && Shrunk(c.blocks, d.blocks, S.BlocksOf(e))
       && d.bps == Without(c.bps, {id}) && d.byAddress == Without(c.byAddress, {e.address}) && d.nextBp == c.nextBp
       && SameHooks(c, d) && SameHardware(c, d)
  }

  ghost predicate BreakpointsTaken(c: Code, d: Code, order: seq<nat>) {
    && Lists(order, c.bps.Keys)
    && d.mem == UndoIds(c.mem, c.bps, S.PatchOf, order) && Shrunk(c.blocks, d.blocks, BreakpointBlocks(c))
    && d.bps == map[] && d.byAddress == map[] && d.nextBp == c.nextBp
    && SameHooks(c, d) && SameHardware(c, d)
  }

  lemma BreakpointEnters(c: Code, d: Code, e: S.BreakpointEntry, bytes: seq<Byte>)
    requires Sound(c) && BreakpointAdded(c, d, e, bytes)
    ensures Sound(d) && c.nextBp !in c.bps
  {
    hide InStep, OwnedApart, Owned, PatchesOf, Write, Read, S.BlocksOf, H.Bookkept;
    Inserted(c.bps, c.byAddress, c.nextBp, S.KeyOf, S.BlocksOf, e);
    BreakpointLocated();
    KeysKeepPatchesApart(c.bps, c.byAddress, c.nextBp, S.KeyOf, S.PatchOf);
    SharesMore(HookBlocks(c), BreakpointBlocks(c), HardwareBlocks(c), c.blocks.Keys, S.BlocksOf(e));
    H.OtherLive(c.hws, c.byHwAddress, c.nextHw, c.used, c.blocks.Keys, d.blocks.Keys);
  }

  lemma BreakpointApart(base: Memory, c: Code, d: Code, e: S.BreakpointEntry, bytes: seq<Byte>)
    requires Sound(c) && Apart(base, c) && BreakpointAdded(c, d, e, bytes)
    ensures Apart(base, d) <==> Vacant(c, e.address, |bytes|)
  {
    hide InStep, OwnedApart, Owned, PatchesOf, Patched, PatchesApart, Write, Read, S.BlocksOf, H.Bookkept, Grown;
    hide Shares, Clear;
    BreakpointLocated();
    KeysKeepPatchesApart(c.bps, c.byAddress, c.nextBp, S.KeyOf, S.PatchOf);
    PatchInserted(c.bps, S.PatchOf, c.nextBp, e);
    KeysElsewhere(c.bps, c.byAddress, c.nextBp, S.KeyOf, S.PatchOf, e);
    PatchedSwap(base, c.mem, HookPatches(c), BreakpointPatches(c));
    PatchedIff(base, c.mem, BreakpointPatches(c), HookPatches(c), Edit(e.address, bytes));
    PatchedSwap(base, d.mem, HookPatches(d), BreakpointPatches(d));
    assert HookPatches(c) + BreakpointPatches(c) == BreakpointPatches(c) + HookPatches(c);
  }

  lemma BreakpointLeaves(c: Code, d: Code, id: nat)
    requires Sound(c) && BreakpointTaken(c, d, id)
    ensures Sound(d)
  {
    hide InStep, OwnedApart, Owned, Undo, S.BlocksOf, H.Bookkept;
    var e := c.bps[id];
    Removed(c.bps, c.byAddress, c.nextBp, S.KeyOf, S.BlocksOf, id);
    OwnedHas(c.bps, S.BlocksOf, id);
    SharesLess(HookBlocks(c), BreakpointBlocks(c), HardwareBlocks(c), c.blocks.Keys, S.BlocksOf(e));
    H.OtherLive(c.hws, c.byHwAddress, c.nextHw, c.used, c.blocks.Keys, d.blocks.Keys);
  }

  lemma BreakpointLeavesApart(base: Memory, c: Code, d: Code, id: nat)
    requires Sound(c) && Apart(base, c) && BreakpointTaken(c, d, id)
    ensures Apart(base, d)
  {
    hide InStep, OwnedApart, Owned, PatchesOf, Patched, PatchesApart, Undo, S.BlocksOf, H.Bookkept, Shrunk, Shares;
    BreakpointLocated();
    KeysKeepPatchesApart(c.bps, c.byAddress, c.nextBp, S.KeyOf, S.PatchOf);
    PatchRemoved(c.bps, S.PatchOf, id);
    PatchedSwap(base, c.mem, HookPatches(c), BreakpointPatches(c));
    PatchGone(base, c.mem, BreakpointPatches(c), HookPatches(c), S.PatchOf(c.bps[id]));
    PatchedSwap(base, d.mem, HookPatches(d), BreakpointPatches(d));
  }

  lemma AllBreakpointsLeave(c: Code, d: Code, order: seq<nat>)
    requires Sound(c) && BreakpointsTaken(c, d, order)
    ensures Sound(d)
  {
    hide InStep, OwnedApart, Owned, UndoIds, H.Bookkept;
    NothingRegistered(c.nextBp, S.KeyOf, S.BlocksOf);
    SharesLess(HookBlocks(c), BreakpointBlocks(c), HardwareBlocks(c), c.blocks.Keys, BreakpointBlocks(c));
    assert BreakpointBlocks(c) - BreakpointBlocks(c) == {};
    H.OtherLive(c.hws, c.byHwAddress, c.nextHw, c.used, c.blocks.Keys, d.blocks.Keys);
  }

  lemma AllBreakpointsLeaveApart(base: Memory, c: Code, d: Code, order: seq<nat>)
    requires Sound(c) && Apart(base, c) && BreakpointsTaken(c, d, order)
    ensures Apart(base, d)
  {
    hide InStep, OwnedApart, Owned, PatchesOf, Patched, PatchesApart, UndoIds, H.Bookkept, Shrunk, Shares;
    BreakpointLocated();
    KeysKeepPatchesApart(c.bps, c.byAddress, c.nextBp, S.KeyOf, S.PatchOf);
    PatchedSwap(base, c.mem, HookPatches(c), BreakpointPatches(c));
    PatchesGone(base, c.mem, c.bps, S.PatchOf, order, HookPatches(c));
    PatchedSwap(base, d.mem, HookPatches(d), {});
    NoPatches(S.PatchOf);
  }

  // ---- Hardware breakpoints patch nothing ------------------------------------------------------------------

  ghost predicate HwAdded(c: Code, d: Code, e: H.HwBreakpointEntry) {
    && e.address !in c.byHwAddress && Grown(c.blocks, d.blocks, H.BlocksOf(e))
    && d.mem == c.mem
    && d.hws == c.hws[c.nextHw := e] && d.byHwAddress == c.byHwAddress[e.address := e] && d.nextHw == c.nextHw + 1
    && SameHooks(c, d) && SameBreakpoints(c, d)
  }

  /** The entry that `set` makes: this breakpoint, in the lowest free slot. */
  ghost predicate HwSet(c: Code, d: Code, id: nat, address: Word, typeStr: string, size: int, answers: Answers) {
    && H.ParseType(typeStr).Some? && id == c.nextHw && id in d.hws
    && H.InFirstFree(d.hws[id], address, H.ParseType(typeStr).value, size, answers, c.used)
    && HwAdded(c, d, d.hws[id])
  }

  lemma HwSetNow(c: Code, d: Code, address: Word, typeStr: string, size: int, answers: Answers, e: H.HwBreakpointEntry)
    requires H.ParseType(typeStr).Some? && address !in c.byHwAddress
    requires H.InFirstFree(e, address, H.ParseType(typeStr).value, size, answers, c.used)
    requires d.hws == c.hws[c.nextHw := e] && d.byHwAddress == c.byHwAddress[address := e] && d.nextHw == c.nextHw + 1
    requires d.mem == c.mem && Grown(c.blocks, d.blocks, H.BlocksOf(e))
    requires SameHooks(c, d) && SameBreakpoints(c, d)
    ensures HwSet(c, d, c.nextHw, address, typeStr, size, answers)
  {
  }

  ghost predicate HwTaken(c: Code, d: Code, id: nat) {
    && id in c.hws
    && var e := c.hws[id];
       && d.mem == c.mem && Shrunk(c.blocks, d.blocks, H.BlocksOf(e))
       && d.hws == Without(c.hws, {id}) && d.byHwAddress == Without(c.byHwAddress, {e.address}) && d.nextHw == c.nextHw
       && SameHooks(c, d) && SameBreakpoints(c, d)
  }

  ghost predicate HwsTaken(c: Code, d: Code) {
    && d.mem == c.mem && Shrunk(c.blocks, d.blocks, HardwareBlocks(c))
    && d.hws == map[] && d.byHwAddress == map[] && d.nextHw == c.nextHw
    && SameHooks(c, d) && SameBreakpoints(c, d)
  }

  lemma HwEnters(c: Code, d: Code, e: H.HwBreakpointEntry)
    requires Sound(c) && HwAdded(c, d, e)
    requires H.Bookkept(d.hws, d.byHwAddress, d.nextHw, d.used, d.blocks.Keys)
    ensures Sound(d)
  {
    hide InStep, OwnedApart, Owned, H.BlocksOf, H.SlotsExact;
    Inserted(c.hws, c.byHwAddress, c.nextHw, H.KeyOf, H.BlocksOf, e);
    SharesMore(HookBlocks(c), BreakpointBlocks(c), HardwareBlocks(c), c.blocks.Keys, H.BlocksOf(e));
  }

  lemma HwEntered(c: Code, d: Code, id: nat, address: Word, typeStr: string, size: int, answers: Answers)
    requires Sound(c) && HwSet(c, d, id, address, typeStr, size, answers)
    requires H.Bookkept(d.hws, d.byHwAddress, d.nextHw, d.used, d.blocks.Keys)
    ensures Sound(d)
  {
    hide Sound, HwAdded, H.Bookkept, H.ParseType, H.InFirstFree;
    HwEnters(c, d, d.hws[id]);
  }

  lemma HwOut(c: Code, d: Code, id: nat)
    requires Sound(c) && HwTaken(c, d, id)
    requires H.Bookkept(d.hws, d.byHwAddress, d.nextHw, d.used, d.blocks.Keys)
    ensures Sound(d)
  {
    hide InStep, OwnedApart, Owned, H.BlocksOf, H.SlotsExact;
    OwnedHas(c.hws, H.BlocksOf, id);
    Removed(c.hws, c.byHwAddress, c.nextHw, H.KeyOf, H.BlocksOf, id);
    SharesLess(HookBlocks(c), BreakpointBlocks(c), HardwareBlocks(c), c.blocks.Keys, H.BlocksOf(c.hws[id]));
  }

  lemma AllHwsOut(c: Code, d: Code)
    requires Sound(c) && HwsTaken(c, d)
    requires H.Bookkept(d.hws, d.byHwAddress, d.nextHw, d.used, d.blocks.Keys)
    ensures Sound(d)
  {
    hide InStep, OwnedApart, Owned, H.Bookkept;
    NothingRegistered(c.nextHw, H.KeyOf, H.BlocksOf);
    assert HardwareBlocks(c) - HardwareBlocks(c) == {};
    SharesLess(HookBlocks(c), BreakpointBlocks(c), HardwareBlocks(c), c.blocks.Keys, HardwareBlocks(c));
  }

  /** Memory and patches are what they were. */
  lemma StaysApart(base: Memory, c: Code, d: Code)
    requires Apart(base, c) && d.mem == c.mem && SameHooks(c, d) && SameBreakpoints(c, d)
    ensures Apart(base, d)
  {
    hide Patched;
  }

  lemma HookLocated()
    ensures forall e :: I.PatchOf(e).addr == I.KeyOf(e)
  {
  }

  lemma BreakpointLocated()
    ensures forall e :: S.PatchOf(e).addr == S.KeyOf(e)
  {
  }

  lemma NothingKept(base: Memory, c: Code)
    requires Sound(c) && c.hooks == map[] && c.bps == map[] && c.hws == map[]
    ensures c.blocks == map[]
    ensures Apart(base, c) ==> Same(c.mem, base)
  {
    hide Consistent, H.Bookkept;
    NothingRegistered(c.nextHook, I.KeyOf, I.BlocksOf);
    NothingRegistered(c.nextBp, S.KeyOf, S.BlocksOf);
    NothingRegistered(c.nextHw, H.KeyOf, H.BlocksOf);
    NoPatches(I.PatchOf);
    NoPatches(S.PatchOf);
    assert c.blocks.Keys == {};
    if Apart(base, c) {
      NothingPatched(base, c.mem);
    }
  }

  lemma StartsKept(base: Memory, c: Code)
    requires c.mem == base && c.blocks == map[] && c.hooks == map[] && c.bps == map[] && c.hws == map[]
    requires InStep(c.hooks, c.byTarget, c.nextHook, I.KeyOf) && InStep(c.bps, c.byAddress, c.nextBp, S.KeyOf)
    requires H.Bookkept(c.hws, c.byHwAddress, c.nextHw, c.used, c.blocks.Keys)
    ensures Sound(c) && Apart(base, c)
  {
    NothingRegistered(c.nextHook, I.KeyOf, I.BlocksOf);
    NothingRegistered(c.nextBp, S.KeyOf, S.BlocksOf);
    NothingRegistered(c.nextHw, H.KeyOf, H.BlocksOf);
    assert HookPatches(c) == {} && BreakpointPatches(c) == {};
  }

  lemma SoundParts(c: Code)
    requires Sound(c)
    ensures InStep(c.hooks, c.byTarget, c.nextHook, I.KeyOf) && OwnedApart(c.hooks, I.BlocksOf) &&
              HookBlocks(c) <= c.blocks.Keys
    ensures InStep(c.bps, c.byAddress, c.nextBp, S.KeyOf) && OwnedApart(c.bps, S.BlocksOf) &&
              BreakpointBlocks(c) <= c.blocks.Keys
    ensures H.Bookkept(c.hws, c.byHwAddress, c.nextHw, c.used, c.blocks.Keys)
  {
  }

  // ---- Nested calls, overlapping windows included -----------------------------------------------------

  datatype Key = HookKey(id: nat) | BreakpointKey(id: nat)

  /** `attach`, `replace` or `set` made the entry `k`, wherever its window is. */
  ghost predicate Made(c: Code, d: Code, k: Key) {
    match k
    case HookKey(id) =>
      && id == c.nextHook && id !in c.hooks && id in d.hooks
      && exists bytes :: HookAdded(c, d, d.hooks[id], bytes)
    case BreakpointKey(id) =>
      && id == c.nextBp && id !in c.bps && id in d.bps
      && exists bytes :: BreakpointAdded(c, d, d.bps[id], bytes)
  }

  /** `detach`, `revert` or `remove` took it out again. */
  ghost predicate Unmade(c: Code, d: Code, k: Key) {
    match k
    case HookKey(id) => HookTaken(c, d, id)
    case BreakpointKey(id) => BreakpointTaken(c, d, id)
  }

  /** A run in which every entry is taken out after all entries made later: nothing, or an entry made,
      such a run, the entry taken out, and such a run again. */
  datatype Run = Nothing | Around(key: Key, made: Code, inside: Run, ending: Code, unmade: Code, rest: Run)

  ghost predicate RunsTo(c: Code, run: Run, d: Code)
    decreases run
  {
    match run
    case Nothing => d == c
    case Around(key, made, inside, ending, unmade, rest) =>
      Made(c, made, key) && RunsTo(made, inside, ending) && Unmade(ending, unmade, key) && RunsTo(unmade, rest, d)
  }

  /** The same code, blocks and entries; only the next ids may differ. */
  ghost predicate Alike(c: Code, d: Code) {
    && Same(d.mem, c.mem) && d.blocks == c.blocks
    && d.hooks == c.hooks && d.byTarget == c.byTarget && d.bps == c.bps && d.byAddress == c.byAddress &&
      SameHardware(c, d)
  }

  lemma UndoSame(m1: Memory, m2: Memory, p: Patch)
    requires Same(m1, m2)
    ensures Same(Undo(m1, p), Undo(m2, p))
  {
  }

  lemma PairRestores(c: Code, made: Code, ending: Code, unmade: Code, k: Key)
    requires Made(c, made, k) && Alike(made, ending) && Unmade(ending, unmade, k)
    ensures Alike(c, unmade)
  {
    hide Write, Read, I.BlocksOf, S.BlocksOf, Same;
    match k
    case HookKey(id) =>
      var e := made.hooks[id];
      var bytes :| HookAdded(c, made, e, bytes);
      WriteUndone(c.mem, e.target, bytes);
      UndoSame(ending.mem, made.mem, I.PatchOf(e));
      SameTwice(unmade.mem, Undo(made.mem, I.PatchOf(e)), c.mem);
    case BreakpointKey(id) =>
      var e := made.bps[id];
      var bytes :| BreakpointAdded(c, made, e, bytes);
      WriteUndone(c.mem, e.address, bytes);
      UndoSame(ending.mem, made.mem, S.PatchOf(e));
      SameTwice(unmade.mem, Undo(made.mem, S.PatchOf(e)), c.mem);
  }

  lemma SameTwice(m1: Memory, m2: Memory, m3: Memory)
    requires (Same(m1, m2) || Same(m2, m1)) && (Same(m2, m3) || Same(m3, m2))
    ensures Same(m1, m3) && Same(m3, m1)
  {
  }

  /** Entries taken out in the reverse order, overlapping windows included: every byte of code, every
      block and every entry is as it was. */
  lemma {:induction false} NestedRunRestores(c: Code, run: Run, d: Code)
    requires RunsTo(c, run, d)
    ensures Alike(c, d)
    decreases run
  {
    hide Made, Unmade, Same;
    match run
    case Nothing =>
      SameSelf(c.mem);
    case Around(key, made, inside, ending, unmade, rest) =>
      NestedRunRestores(made, inside, ending);
      PairRestores(c, made, ending, unmade, key);
      NestedRunRestores(unmade, rest, d);
      SameTwice(d.mem, unmade.mem, c.mem);
  }

  lemma SameSelf(m: Memory)
    ensures Same(m, m)
  {
  }
}

/** From the registries to the machine: what all live breakpoints and hooks leave in memory are the
    installed sites of one world, so the transparency theorem applies to the whole process. */
module Deployment {
  import opened Words
  import opened Memory
  import opened X86
  import opened Machine
  import opened Relocator
  import opened Trampoline
  import opened Transparency
  import opened PatchLog
  import opened Process
  import opened Registry
  import L = LiveCode
  import opened Sites
  import I = Interceptor
  import S = SoftwareBreakpoint
  import H = HardwareBreakpoint
  import D = DebugRegisters

  // ---- The world of all live entries -------------------------------------------------------------------

  /** The original instructions that a site covers. */
  function BlockIn(isa: Isa, base: Memory, addr: Word, minBytes: int): seq<Unit> {
    match BlockAt(isa, base, addr, minBytes)
    case None => []
    case Some(block) => block
  }

  function BreakpointSite(b: Builder, base: Memory, e: S.BreakpointEntry): Site {
    Site(e.address, Trap, BlockIn(b.isa, base, e.address, S.BP_INSN_SIZE), e.trampolineCode, BreakpointStub(b, e))
  }

  function HookSite(b: Builder, base: Memory, e: I.HookEntry): Site
    requires e.trampolineCode.Some?
  {
    Site(e.target, Jump, BlockIn(b.isa, base, e.target, PATCH_SIZE), e.trampolineCode.value, HookStub(b, e))
  }

  function HwSite(b: Builder, base: Memory, e: H.HwBreakpointEntry): Site
    requires e.trampolineCode.Some? && e.relocatedCode.Some?
  {
    Site(e.address, Debug, BlockIn(b.isa, base, e.address, 1), e.trampolineCode.value, HwStub(b, e))
  }

  /** Watchpoints on data are no sites: no code goes with them. */
  predicate IsBreak(c: L.Code, a: Word) {
    H.ExecuteAt(c.byHwAddress, a) && c.byHwAddress[a].relocatedCode.Some?
  }

  /** A replacement is no site: it is there to be noticed. */
  predicate IsHook(c: L.Code, a: Word) {
    a in c.byTarget && c.byTarget[a].trampolineCode.Some?
  }

  ghost function SitesOf(b: Builder, base: Memory, c: L.Code): map<Word, Site> {
    map a | a in c.byHwAddress.Keys + c.byAddress.Keys + c.byTarget.Keys
            && (IsBreak(c, a) || a in c.byAddress || IsHook(c, a)) ::
      if IsBreak(c, a) then HwSite(b, base, c.byHwAddress[a])
      else if a in c.byAddress then BreakpointSite(b, base, c.byAddress[a])
      else HookSite(b, base, c.byTarget[a])
  }

  /** Where the processor raises a debug exception, and where the trap handler resumes then. */
  ghost function BreaksOf(c: L.Code): map<Word, Word> {
    map a | a in c.byHwAddress && IsBreak(c, a) :: c.byHwAddress[a].trampolineCode.value
  }

  /** The machine that runs the patched process. */
  ghost predicate Represents(w: World, b: Builder, base: Memory, c: L.Code) {
    && w.machine.isa == b.isa && w.machine.abi == b.abi
    && w.machine.traps == (map a | a in c.byAddress :: c.byAddress[a].trampolineCode)
    && w.machine.breaks == BreaksOf(c)
    && w.sites == SitesOf(b, base, c)
  }

  /** Code blocks lie apart from each other and from every patched window. */
  ghost predicate Separate(c: L.Code) {
    && BlocksApart(c.blocks)
    && forall p, a, x: int :: p in L.HookPatches(c) + L.BreakpointPatches(c) && Covers(p, x) ==>
      !InBlock(c.blocks, a, x)
  }

  // ---- Every site is installed ---------------------------------------------------------------------------

  /** The patched window and both code blocks, as the processor sees them. */
  lemma WindowAndBlocks(w: World, site: Site, m: Memory, blocks: map<Word, seq<Byte>>)
    requires WellFormedSite(w, site) && Holds(m, site.addr, PatchBytes(site))
    requires site.trampoline in blocks && blocks[site.trampoline] == TrampolineBytes(w.machine.abi, site.t)
    requires site.t.relocated in blocks && Emit(w.machine.isa, site.block, site.addr) == Some(blocks[site.t.relocated])
    requires BlocksApart(blocks)
    requires forall a, x: int :: InExtent(site.addr, |PatchBytes(site)|, x) ==> !InBlock(blocks, a, x)
    ensures SiteInstalled(w, site, Physical(m, blocks))
  {
    hide WellFormedSite, TrampolineBytes, Emit, PatchBytes, AbsoluteJump, Physical;
    BlockVisible(m, blocks, site.trampoline);
    BlockVisible(m, blocks, site.t.relocated);
    forall x: int | site.addr <= x < site.addr + |PatchBytes(site)|
      ensures Physical(m, blocks)(x) == PatchBytes(site)[x - site.addr]
    {
      assert InExtent(site.addr, |PatchBytes(site)|, x);
      ProgramVisible(m, blocks, x);
    }
  }

  lemma SiteHasBlock(w: World, site: Site)
    requires WellFormedSite(w, site)
    ensures site.block != [] && Relocatable(w.machine.isa, site.block)
  {
  }

  lemma BlockInIs(isa: Isa, base: Memory, addr: Word, minBytes: int)
    requires BlockIn(isa, base, addr, minBytes) != []
    ensures BlockAt(isa, base, addr, minBytes) == Some(BlockIn(isa, base, addr, minBytes))
  {
  }

  /** A live entry of the maps under which the signal handler and the world look sites up. */
  lemma TrapResumes(w: World, c: L.Code, id: nat)
    requires L.Sound(c) && id in c.bps
    requires w.machine.traps == (map a | a in c.byAddress :: c.byAddress[a].trampolineCode)
    ensures TrapHandler(w.machine.traps, Plus(c.bps[id].address, 1)) == Some(c.bps[id].trampolineCode)
  {
    hide L.Shares, OwnedApart, Owned, L.H.Bookkept;
    assert Plus(Plus(c.bps[id].address, 1), -1) == c.bps[id].address;
    KeyPresent(c.bps, c.byAddress, c.nextBp, S.KeyOf, id);
  }

  /** Every live breakpoint: its trap byte, trampoline and relocated instruction are in place, the
      original instruction is where the reference has it, and its trap resumes at the trampoline. */
  lemma BreakpointInstalled(w: World, b: Builder, base: Memory, c: L.Code, id: nat)
    requires L.Sound(c) && Deployed(b, base, c) && Separate(c) && id in c.bps
    requires w.machine.isa == b.isa && w.machine.abi == b.abi && WellFormedSite(w, BreakpointSite(b, base, c.bps[id]))
    requires w.machine.traps == (map a | a in c.byAddress :: c.byAddress[a].trampolineCode)
    ensures var e, site := c.bps[id], BreakpointSite(b, base, c.bps[id]);
            && SiteInstalled(w, site, Physical(c.mem, c.blocks))
            && Holds(base, e.address, Raw(site.block))
            && TrapHandler(w.machine.traps, Plus(e.address, 1)) == Some(e.trampolineCode)
  {
    hide L.Sound, WellFormedSite, TrampolineBytes, Emit, BlockAt, BlockIn, AllEmitted, TrampolineInsns, TrapHandler;
    hide Physical, Raw, SiteInstalled, InBlock, Relocatable;
    var e, site := c.bps[id], BreakpointSite(b, base, c.bps[id]);
    TrapResumes(w, c, id);
    assert BreakpointDeployed(b, base, c.mem, c.blocks, e);
    SiteHasBlock(w, site);
    BlockInIs(b.isa, base, e.address, S.BP_INSN_SIZE);
    BlockGenuine(b.isa, base, e.address, S.BP_INSN_SIZE);
    assert S.PatchOf(e) in L.HookPatches(c) + L.BreakpointPatches(c);
    forall a, x: int | InExtent(e.address, 1, x) ensures !InBlock(c.blocks, a, x) {
      assert Covers(S.PatchOf(e), x);
    }
    WindowAndBlocks(w, site, c.mem, c.blocks);
  }

  /** Every live hook: its jump, trampoline and relocated instructions are in place. */
  lemma HookInstalled(w: World, b: Builder, base: Memory, c: L.Code, id: nat)
    requires Deployed(b, base, c) && Separate(c) && id in c.hooks && c.hooks[id].trampolineCode.Some?
    requires w.machine.isa == b.isa && w.machine.abi == b.abi && WellFormedSite(w, HookSite(b, base, c.hooks[id]))
    ensures var e, site := c.hooks[id], HookSite(b, base, c.hooks[id]);
            SiteInstalled(w, site, Physical(c.mem, c.blocks)) && Holds(base, e.target, Raw(site.block))
  {
    hide WellFormedSite, TrampolineBytes, Emit, BlockAt, BlockIn, AllEmitted, TrampolineInsns;
    hide Physical, Raw, SiteInstalled, InBlock, Relocatable, AbsoluteJump;
    var e, site := c.hooks[id], HookSite(b, base, c.hooks[id]);
    assert HookDeployed(b, base, c.mem, c.blocks, e);
    SiteHasBlock(w, site);
    BlockInIs(b.isa, base, e.target, PATCH_SIZE);
    BlockGenuine(b.isa, base, e.target, PATCH_SIZE);
    assert I.PatchOf(e) in L.HookPatches(c) + L.BreakpointPatches(c);
    forall a, x: int | InExtent(e.target, PATCH_SIZE, x) ensures !InBlock(c.blocks, a, x) {
      assert Covers(I.PatchOf(e), x);
    }
    WindowAndBlocks(w, site, c.mem, c.blocks);
  }

  /** Every live execute breakpoint: trampoline and relocated instruction are in place, and whatever DR6 says
      the trap handler resumes at the trampoline. */
  lemma HwInstalled(w: World, b: Builder, base: Memory, c: L.Code, id: nat)
    requires L.Sound(c) && BreaksDeployed(b, base, c) && Separate(c) && id in c.hws && c.hws[id].kind.Execute?
    requires c.hws[id].trampolineCode.Some? && c.hws[id].relocatedCode.Some?
    requires w.machine.isa == b.isa && w.machine.abi == b.abi && WellFormedSite(w, HwSite(b, base, c.hws[id]))
    ensures var e, site := c.hws[id], HwSite(b, base, c.hws[id]);
            && SiteInstalled(w, site, Physical(c.mem, c.blocks)) && Holds(base, e.address, Raw(site.block))
            && BreaksOf(c)[e.address] == e.trampolineCode.value
            && forall dr6: D.Bits, action :: |dr6| == 64 && H.Chosen(c.byHwAddress, e.address, dr6, action) ==>
                 action == H.Redirect(BreaksOf(c)[e.address])
  {
    hide WellFormedSite, TrampolineBytes, Emit, BlockAt, BlockIn, AllEmitted, TrampolineInsns;
    hide Physical, Raw, SiteInstalled, InBlock, Relocatable, InStep, OwnedApart, Owned, L.Shares, H.SlotsExact;
    var e, site := c.hws[id], HwSite(b, base, c.hws[id]);
    assert HwDeployed(b, base, c.blocks, e);
    SiteHasBlock(w, site);
    BlockInIs(b.isa, base, e.address, 1);
    BlockGenuine(b.isa, base, e.address, 1);
    WindowAndBlocks(w, site, c.mem, c.blocks);
    HwAt(c, id);
  }

  lemma HwAt(c: L.Code, id: nat)
    requires L.Sound(c) && id in c.hws
    ensures c.hws[id].address in c.byHwAddress && c.byHwAddress[c.hws[id].address] == c.hws[id]
  {
    hide OwnedApart, Owned, L.Shares, H.SlotsExact;
  }

  /** Which entry a site of the world belongs to. */
  ghost predicate IsSiteOf(b: Builder, base: Memory, c: L.Code, a: Word, site: Site) {
    || (exists id :: id in c.bps && c.bps[id].address == a && site == BreakpointSite(b, base, c.bps[id]))
    || (exists id ::
          && id in c.hooks && c.hooks[id].target == a && c.hooks[id].trampolineCode.Some?
          && site == HookSite(b, base, c.hooks[id]))
    || IsBreakOf(b, base, c, a, site)
  }

  ghost predicate IsBreakOf(b: Builder, base: Memory, c: L.Code, a: Word, site: Site) {
    exists id ::
      && id in c.hws && c.hws[id].address == a && c.hws[id].kind.Execute?
      && c.hws[id].trampolineCode.Some? && c.hws[id].relocatedCode.Some? && site == HwSite(b, base, c.hws[id])
  }

  lemma HwOfKey(c: L.Code, a: Word) returns (id: nat)
    requires L.Sound(c) && a in c.byHwAddress
    ensures id in c.hws && c.hws[id] == c.byHwAddress[a] && c.hws[id].address == a
  {
    hide L.Shares, OwnedApart, Owned, H.SlotsExact;
    id :| id in c.hws && c.hws[id] == c.byHwAddress[a];
  }

  lemma BreakpointOfKey(c: L.Code, a: Word) returns (id: nat)
    requires L.Sound(c) && a in c.byAddress
    ensures id in c.bps && c.bps[id] == c.byAddress[a] && c.bps[id].address == a
  {
    hide L.Shares, OwnedApart, Owned, H.Bookkept;
    id :| id in c.bps && c.bps[id] == c.byAddress[a];
  }

  lemma HookOfKey(c: L.Code, a: Word) returns (id: nat)
    requires L.Sound(c) && a in c.byTarget
    ensures id in c.hooks && c.hooks[id] == c.byTarget[a] && c.hooks[id].target == a
  {
    hide L.Shares, OwnedApart, Owned, H.Bookkept;
    id :| id in c.hooks && c.hooks[id] == c.byTarget[a];
  }

  lemma SitesAreEntries(b: Builder, base: Memory, c: L.Code, a: Word)
    requires L.Sound(c) && a in SitesOf(b, base, c)
    ensures IsSiteOf(b, base, c, a, SitesOf(b, base, c)[a])
  {
    hide L.Sound, BlockIn, BreakpointSite, HookSite, HwSite;
    var id;
    if IsBreak(c, a) {
      id := HwOfKey(c, a);
    } else if a in c.byAddress {
      id := BreakpointOfKey(c, a);
    } else {
      id := HookOfKey(c, a);
    }
  }

  lemma SiteIsInstalled(w: World, b: Builder, base: Memory, c: L.Code, a: Word)
    requires L.Sound(c) && Deployed(b, base, c) && BreaksDeployed(b, base, c) && Separate(c)
    requires Represents(w, b, base, c) && WellFormed(w) && a in w.sites
    ensures SiteInstalled(w, w.sites[a], Physical(c.mem, c.blocks)) && Holds(base, a, Raw(w.sites[a].block))
  {
    hide L.Sound, Deployed, BreaksDeployed, Separate, WellFormedSite, SiteInstalled, Physical, Raw, BreakpointSite;
    hide HookSite;
    hide TrapHandler;
    SitesAreEntries(b, base, c, a);
    var site := w.sites[a];
    if IsBreakOf(b, base, c, a, site) {
      var id :| id in c.hws && c.hws[id].address == a && c.hws[id].kind.Execute? && c.hws[id].trampolineCode.Some? &&
        c.hws[id].relocatedCode.Some? && site == HwSite(b, base, c.hws[id]);
      HwInstalled(w, b, base, c, id);
    } else if id :| id in c.bps && c.bps[id].address == a && site == BreakpointSite(b, base, c.bps[id]) {
      BreakpointInstalled(w, b, base, c, id);
    } else {
      var id :| id in c.hooks && c.hooks[id].target == a && c.hooks[id].trampolineCode.Some? &&
          site == HookSite(b, base, c.hooks[id]);
      HookInstalled(w, b, base, c, id);
    }
  }

  /** All sites at once, whatever was set and removed before. */
  lemma AllInstalled(w: World, b: Builder, base: Memory, c: L.Code)
    requires L.Sound(c) && Deployed(b, base, c) && BreaksDeployed(b, base, c) && Separate(c)
    requires Represents(w, b, base, c) && WellFormed(w)
    ensures Installed(w, Physical(c.mem, c.blocks)) && Original(w, base)
  {
    hide L.Sound, Deployed, BreaksDeployed, Separate, Represents, SiteInstalled, Physical, WellFormedSite, Original;
    forall a | a in w.sites ensures SiteInstalled(w, w.sites[a], Physical(c.mem, c.blocks)) {
      SiteIsInstalled(w, b, base, c, a);
    }
    AllOriginal(w, b, base, c);
  }

  lemma AllOriginal(w: World, b: Builder, base: Memory, c: L.Code)
    requires L.Sound(c) && Deployed(b, base, c) && BreaksDeployed(b, base, c) && Separate(c)
    requires Represents(w, b, base, c) && WellFormed(w)
    ensures Original(w, base)
  {
    hide L.Sound, Deployed, BreaksDeployed, Separate, Represents, SiteInstalled, Physical, Holds, Raw;
    hide TrampolineCode, RelocatedCode, OutOfStack, AllEmitted, Emit, PatchBytes, BlockSize, PrefixCode, Honest;
    hide WellBehaved, Quiet;
    forall a | a in w.sites ensures Holds(base, a, Raw(w.sites[a].block)) {
      SiteIsInstalled(w, b, base, c, a);
    }
  }

  // ---- Nothing else has changed ---------------------------------------------------------------------------

  /** No function is replaced, no address has both an execute breakpoint and a patch, and no execute
      breakpoint follows an INT3, where both would claim one trap. */
  ghost predicate OnlySites(c: L.Code) {
    && (forall id <- c.hooks :: c.hooks[id].trampolineCode.Some?)
    && (forall a :: IsBreak(c, a) ==> a !in c.byAddress && a !in c.byTarget && Plus(a, -1) !in c.byAddress)
  }

  /** Patches that lie apart are at different addresses. */
  lemma KeysApart(b: Builder, base: Memory, c: L.Code, id: nat, jd: nat)
    requires L.Apart(base, c) && Deployed(b, base, c) && id in c.bps && jd in c.hooks
    ensures c.bps[id].address != c.hooks[jd].target
  {
    hide Consistent, HoldsCopy, HoldsTrampoline;
    var p, q := S.PatchOf(c.bps[id]), I.PatchOf(c.hooks[jd]);
    assert BreakpointDeployed(b, base, c.mem, c.blocks, c.bps[id]) &&
        HookDeployed(b, base, c.mem, c.blocks, c.hooks[jd]);
    assert p in L.BreakpointPatches(c) && q in L.HookPatches(c) && p != q;
    L.LiveDisjoint(base, c.mem, L.HookPatches(c) + L.BreakpointPatches(c), p, q);
    assert Covers(p, p.addr) && Covers(q, q.addr);
  }

  lemma BreakpointAt(b: Builder, base: Memory, c: L.Code, id: nat)
    requires L.Sound(c) && OnlySites(c) && id in c.bps
    ensures var k := c.bps[id].address;
            k in SitesOf(b, base, c) && SitesOf(b, base, c)[k] == BreakpointSite(b, base, c.bps[id])
  {
    hide L.Shares, OwnedApart, Owned, L.H.Bookkept, BlockIn, BreakpointSite, HookSite;
    assert c.bps[id].address in c.byAddress;
  }

  lemma HookAt(b: Builder, base: Memory, c: L.Code, id: nat)
    requires L.Sound(c) && L.Apart(base, c) && Deployed(b, base, c) && OnlySites(c) && id in c.hooks
    requires c.hooks[id].trampolineCode.Some?
    ensures var k := c.hooks[id].target;
            k in SitesOf(b, base, c) && SitesOf(b, base, c)[k] == HookSite(b, base, c.hooks[id])
  {
    hide L.Shares, OwnedApart, Owned, L.H.Bookkept, BlockIn, BreakpointSite, HookSite, L.Apart, Deployed;
    var k := c.hooks[id].target;
    assert k in c.byTarget && c.byTarget[k] == c.hooks[id];
    if k in c.byAddress {
      var jd :| jd in c.bps && c.bps[jd] == c.byAddress[k];
      assert c.bps[jd].address == k;
      KeysApart(b, base, c, jd, id);
    }
  }

  lemma BreakAt(b: Builder, base: Memory, c: L.Code, id: nat)
    requires L.Sound(c) && id in c.hws && c.hws[id].kind.Execute?
    requires c.hws[id].trampolineCode.Some? && c.hws[id].relocatedCode.Some?
    ensures var k := c.hws[id].address;
            k in SitesOf(b, base, c) && SitesOf(b, base, c)[k] == HwSite(b, base, c.hws[id])
  {
    hide L.Sound, BlockIn, BreakpointSite, HookSite, HwSite;
    HwAt(c, id);
  }

  /** Every block is the trampoline or the copy of a site. */
  lemma BlockOfSite(b: Builder, base: Memory, c: L.Code, a: Word) returns (k: Word)
    requires L.Sound(c) && L.Apart(base, c) && Deployed(b, base, c) && BreaksDeployed(b, base, c) && OnlySites(c)
    requires a in c.blocks
    ensures k in SitesOf(b, base, c)
    ensures SitesOf(b, base, c)[k].trampoline == a || SitesOf(b, base, c)[k].t.relocated == a
  {
    hide InStep, OwnedApart, H.Bookkept, BlockIn, L.Apart, Deployed, SitesOf, IsBreak, HoldsCopy, HoldsTrampoline;
    if a in L.HookBlocks(c) {
      var id :| id in c.hooks && a in I.BlocksOf(c.hooks[id]);
      k := c.hooks[id].target;
      HookAt(b, base, c, id);
    } else if a in L.BreakpointBlocks(c) {
      var id :| id in c.bps && a in S.BlocksOf(c.bps[id]);
      k := c.bps[id].address;
      BreakpointAt(b, base, c, id);
    } else {
      var id :| id in c.hws && a in H.BlocksOf(c.hws[id]);
      k := c.hws[id].address;
      assert HwDeployed(b, base, c.blocks, c.hws[id]);
      BreakAt(b, base, c, id);
    }
  }

  /** A live patch is the patch of a site. */
  lemma PatchOfSite(w: World, b: Builder, base: Memory, c: L.Code, p: Patch, x: int)
    requires L.Sound(c) && L.Apart(base, c) && Deployed(b, base, c) && OnlySites(c)
    requires Represents(w, b, base, c) && WellFormed(w)
    requires p in L.HookPatches(c) + L.BreakpointPatches(c) && Covers(p, x)
    ensures PatchedBySome(w, x)
  {
    hide L.Sound, L.Apart, Deployed, SitesOf, BlockIn, AbsoluteJump, TrampolineCode, RelocatedCode, HoldsCopy;
    hide HoldsTrampoline, IsBreak, BreaksOf;
    DeployedSizes(b, base, c);
    if p in L.HookPatches(c) {
      var id :| id in c.hooks && p == I.PatchOf(c.hooks[id]);
      HookAt(b, base, c, id);
      assert PatchedAt(w, w.sites[c.hooks[id].target], x);
    } else {
      var id :| id in c.bps && p == S.PatchOf(c.bps[id]);
      BreakpointAt(b, base, c, id);
      assert PatchedAt(w, w.sites[c.bps[id].address], x);
    }
  }

  lemma DeployedSizes(b: Builder, base: Memory, c: L.Code)
    requires Deployed(b, base, c)
    ensures forall id <- c.hooks :: |c.hooks[id].originalBytes| == PATCH_SIZE
    ensures forall id <- c.bps :: |c.bps[id].originalBytes| == S.BP_INSN_SIZE
  {
    hide HoldsCopy, HoldsTrampoline;
    forall id | id in c.hooks ensures |c.hooks[id].originalBytes| == PATCH_SIZE {
      assert HookDeployed(b, base, c.mem, c.blocks, c.hooks[id]);
    }
    forall id | id in c.bps ensures |c.bps[id].originalBytes| == S.BP_INSN_SIZE {
      assert BreakpointDeployed(b, base, c.mem, c.blocks, c.bps[id]);
    }
  }

  lemma DeployedBlocks(b: Builder, base: Memory, c: L.Code, w: World, k: Word)
    requires L.Sound(c) && Deployed(b, base, c) && BreaksDeployed(b, base, c) && Separate(c)
    requires Represents(w, b, base, c) && WellFormed(w) && k in w.sites
    ensures var site := w.sites[k];
            && site.trampoline in c.blocks && |c.blocks[site.trampoline]| == |TrampolineCode(w, site)|
            && site.t.relocated in c.blocks && |c.blocks[site.t.relocated]| == |RelocatedCode(w, site)|
  {
    hide L.Sound, TrampolineBytes, Emit, BlockAt, BlockIn, AllEmitted, TrampolineInsns, Relocatable, SitesOf, Holds;
    hide WellFormedSite, Separate, BreaksOf, CopyOf;
    var site := w.sites[k];
    SitesAreEntries(b, base, c, k);
    if IsBreakOf(b, base, c, k, site) {
      var id :| id in c.hws && c.hws[id].address == k && c.hws[id].kind.Execute? && c.hws[id].trampolineCode.Some? &&
        c.hws[id].relocatedCode.Some? && site == HwSite(b, base, c.hws[id]);
      assert HwDeployed(b, base, c.blocks, c.hws[id]);
      BlocksHeld(w, site, base, c.blocks, 1);
    } else if id :| id in c.bps && c.bps[id].address == k && site == BreakpointSite(b, base, c.bps[id]) {
      assert BreakpointDeployed(b, base, c.mem, c.blocks, c.bps[id]);
      BlocksHeld(w, site, base, c.blocks, S.BP_INSN_SIZE);
    } else {
      var id :| id in c.hooks && c.hooks[id].target == k && c.hooks[id].trampolineCode.Some? &&
        site == HookSite(b, base, c.hooks[id]);
      assert HookDeployed(b, base, c.mem, c.blocks, c.hooks[id]);
      BlocksHeld(w, site, base, c.blocks, PATCH_SIZE);
    }
  }

  lemma BlocksHeld(w: World, site: Site, base: Memory, blocks: map<Word, seq<Byte>>, minBytes: int)
    requires WellFormedSite(w, site) && site.block == BlockIn(w.machine.isa, base, site.addr, minBytes)
    requires HoldsTrampoline(w.machine.abi, site.t, blocks, site.trampoline)
    requires HoldsCopy(w.machine.isa, base, site.addr, minBytes, blocks, site.t.relocated)
    ensures |blocks[site.trampoline]| == |TrampolineCode(w, site)|
    ensures |blocks[site.t.relocated]| == |RelocatedCode(w, site)|
  {
    hide TrampolineBytes, Emit, BlockAt, BlockIn, AllEmitted, TrampolineInsns, Relocatable;
    SiteHasBlock(w, site);
    BlockInIs(w.machine.isa, base, site.addr, minBytes);
  }

  /** Wherever the program may look, the process has the program's memory. */
  lemma NothingElseChanged(w: World, b: Builder, base: Memory, c: L.Code)
    requires L.Sound(c) && L.Apart(base, c) && Deployed(b, base, c) && BreaksDeployed(b, base, c)
    requires Separate(c) && OnlySites(c)
    requires Represents(w, b, base, c) && WellFormed(w)
    ensures SameOff(base, Physical(c.mem, c.blocks), Dark(w))
  {
    hide L.Sound, Deployed, BreaksDeployed, Separate, WellFormed, TrampolineCode, RelocatedCode, SitesOf;
    forall x: int | x !in Dark(w) ensures Physical(c.mem, c.blocks)(x) == base(x) {
      assert !DarkAt(w, x);
      forall a ensures !InBlock(c.blocks, a, x) {
        if InBlock(c.blocks, a, x) {
          var k := BlockOfSite(b, base, c, a);
          BlockIsDark(w, b, base, c, k, a, x);
        }
      }
      ProgramVisible(c.mem, c.blocks, x);
      if c.mem(x) != base(x) {
        var p :| p in L.HookPatches(c) + L.BreakpointPatches(c) && Covers(p, x);
        PatchOfSite(w, b, base, c, p, x);
      }
    }
  }

  lemma BlockIsDark(w: World, b: Builder, base: Memory, c: L.Code, k: Word, a: Word, x: int)
    requires L.Sound(c) && Deployed(b, base, c) && BreaksDeployed(b, base, c) && Separate(c)
    requires Represents(w, b, base, c) && WellFormed(w)
    requires k in w.sites && (w.sites[k].trampoline == a || w.sites[k].t.relocated == a) && InBlock(c.blocks, a, x)
    ensures PatchedBySome(w, x)
  {
    hide L.Sound, Deployed, BreaksDeployed, Separate, Represents, TrampolineCode, RelocatedCode, PatchBytes, Emit;
    hide AllEmitted;
    hide Relocatable;
    DeployedBlocks(b, base, c, w, k);
    assert PatchedAt(w, w.sites[k], x);
  }

  // ---- The calls a site makes ------------------------------------------------------------------------------

  /** A dispatch call made by a thread whose stack pointer was `top` at the site: the snapshot takes 128
      bytes, and below it are eight bytes and on Windows the shadow space. */
  function CallAt(abi: Abi, fn: Word, self: Word, top: Word): Call
    requires 256 <= top
  {
    var context: Word := top - 128;
    match abi
    case SystemV => Call(fn, context, self, context - 8)
    case Windows => Call(fn, context, self, context - 0x28)
  }

  lemma CallsOfStub(abi: Abi, t: Stub, top: Word)
    requires 256 <= top
    ensures t.onLeave.None? ==> Dispatches(abi, t, Plus(top, -128)) == [CallAt(abi, t.onEnter, t.data, top)]
    ensures t.onLeave.Some? ==>
              Dispatches(abi, t, Plus(top, -128)) ==
                [CallAt(abi, t.onEnter, t.data, top), CallAt(abi, t.onLeave.value, t.data, top)]
  {
  }

  /** A hook calls the enter function and then the leave function, each once, with the snapshot pointer and
      the entry; a software breakpoint and an execute breakpoint call their hit function once. */
  lemma SiteCalls(w: World, b: Builder, base: Memory, s: Cpu)
    requires s.pc in w.sites && w.machine.abi == b.abi && 256 <= s.core.regs[RSP]
    ensures forall e: I.HookEntry :: e.trampolineCode.Some? && w.sites[s.pc] == HookSite(b, base, e) ==>
              OwedAt(w, s) == [CallAt(b.abi, b.onEnter, e.self, s.core.regs[RSP]),
                               CallAt(b.abi, b.onLeave, e.self, s.core.regs[RSP])]
    ensures forall e: S.BreakpointEntry :: w.sites[s.pc] == BreakpointSite(b, base, e) ==>
              OwedAt(w, s) == [CallAt(b.abi, b.onHit, e.self, s.core.regs[RSP])]
    ensures forall e: H.HwBreakpointEntry ::
              (e.trampolineCode.Some? && e.relocatedCode.Some? && w.sites[s.pc] == HwSite(b, base, e)) ==>
                OwedAt(w, s) == [CallAt(b.abi, b.onHwHit, e.self, s.core.regs[RSP])]
  {
    hide Dispatches, BlockIn, CallAt;
    CallsOfStub(w.machine.abi, w.sites[s.pc].t, s.core.regs[RSP]);
  }

  /** So for every live hook. */
  lemma HookCalls(w: World, b: Builder, base: Memory, c: L.Code, id: nat, s: Cpu)
    requires L.Sound(c) && L.Apart(base, c) && Deployed(b, base, c) && OnlySites(c)
    requires w.sites == SitesOf(b, base, c) && w.machine.abi == b.abi
    requires id in c.hooks && c.hooks[id].trampolineCode.Some? && s.pc == c.hooks[id].target && 256 <= s.core.regs[RSP]
    ensures OwedAt(w, s) == [CallAt(b.abi, b.onEnter, c.hooks[id].self, s.core.regs[RSP]),
                             CallAt(b.abi, b.onLeave, c.hooks[id].self, s.core.regs[RSP])]
  {
    hide L.Sound, L.Apart, Deployed, OnlySites, SitesOf, BlockIn, OwedAt, CallAt, HookSite, BreakpointSite, HwSite;
    HookAt(b, base, c, id);
    SiteCalls(w, b, base, s);
  }

  /** For every live software breakpoint. */
  lemma BreakpointCalls(w: World, b: Builder, base: Memory, c: L.Code, id: nat, s: Cpu)
    requires L.Sound(c) && OnlySites(c)
    requires w.sites == SitesOf(b, base, c) && w.machine.abi == b.abi
    requires id in c.bps && s.pc == c.bps[id].address && 256 <= s.core.regs[RSP]
    ensures OwedAt(w, s) == [CallAt(b.abi, b.onHit, c.bps[id].self, s.core.regs[RSP])]
  {
    hide L.Sound, OnlySites, SitesOf, BlockIn, OwedAt, CallAt, HookSite, BreakpointSite, HwSite;
    BreakpointAt(b, base, c, id);
    SiteCalls(w, b, base, s);
  }

  /** For every live execute breakpoint. */
  lemma HwCalls(w: World, b: Builder, base: Memory, c: L.Code, id: nat, s: Cpu)
    requires L.Sound(c) && BreaksDeployed(b, base, c)
    requires w.sites == SitesOf(b, base, c) && w.machine.abi == b.abi
    requires id in c.hws && c.hws[id].kind.Execute? && s.pc == c.hws[id].address && 256 <= s.core.regs[RSP]
    ensures OwedAt(w, s) == [CallAt(b.abi, b.onHwHit, c.hws[id].self, s.core.regs[RSP])]
  {
    HwHasCode(b, base, c, id);
    hide L.Sound, BreaksDeployed, SitesOf, BlockIn, OwedAt, CallAt, HookSite, BreakpointSite, HwSite;
    BreakAt(b, base, c, id);
    SiteCalls(w, b, base, s);
  }

  lemma HwHasCode(b: Builder, base: Memory, c: L.Code, id: nat)
    requires BreaksDeployed(b, base, c) && id in c.hws && c.hws[id].kind.Execute?
    ensures c.hws[id].trampolineCode.Some? && c.hws[id].relocatedCode.Some?
  {
    assert HwDeployed(b, base, c.blocks, c.hws[id]);
  }

  /** And these are the calls made on the way through the site. */
  lemma SiteMakesCalls(w: World, site: Site, p: State) returns (n: nat, end: State)
    requires WellFormed(w) && site.addr in w.sites && w.sites[site.addr] == site
    requires Installed(w, p.core.mem) && p.pc == site.addr
    requires StackRoom(w.machine, p.core.regs[RSP] as int - 128) && p.core.regs[RSP] <= w.stackHigh
    ensures Run(w.machine, p, n) == Some(end) && end.pc == site.t.relocated
    ensures end.calls == p.calls + OwedAt(w, Cpu(p.core, p.pc))
  {
    hide WellFormed, Installed, Run, Dispatches;
    n, end := SiteDispatched(w, site, p);
  }

  /** The whole claim for the process as the registries have it: with every live breakpoint and hook in
      memory, after any calls, it runs like the unpatched program, and each time a site is reached its
      dispatches are made once. */
  lemma ProcessIsTransparent(w: World, b: Builder, base: Memory, c: L.Code, s: Cpu, n: nat)
    returns (k: nat, k': nat, p': State)
    requires L.Sound(c) && L.Apart(base, c) && Deployed(b, base, c) && BreaksDeployed(b, base, c)
    requires Separate(c) && OnlySites(c)
    requires Represents(w, b, base, c) && WellFormed(w)
    requires s.core.mem == base && BehavesFor(w, s, iset{}, n)
    ensures k >= n && (SingleStepped(w) ==> k == n)
    ensures Run(Bare(w.machine), At(s, []), k).Some?
    ensures Run(w.machine, State(s.core.(mem := Physical(c.mem, c.blocks)), s.pc, []), k') == Some(p')
    ensures var t := Run(Bare(w.machine), At(s, []), k).value;
            && p'.pc == t.pc
            && Alike(t.core, p'.core, Dark(w) + Moves(w, s, iset{}, n).1)
    ensures p'.calls == Owed(w, s, n)
  {
    hide L.Sound, L.Apart, Deployed, BreaksDeployed, Separate, OnlySites, Represents, WellFormed, BehavesFor, Installed;
    hide Original;
    hide Run, Moves, Owed, SingleStepped, Dark, Physical;
    AllInstalled(w, b, base, c);
    NothingElseChanged(w, b, base, c);
    var p := State(s.core.(mem := Physical(c.mem, c.blocks)), s.pc, []);
    assert Dark(w) + iset{} == Dark(w);
    k, k', p' := SitesAreTransparent(w, s, p, iset{}, n);
    assert [] + Owed(w, s, n) == Owed(w, s, n);
  }
}

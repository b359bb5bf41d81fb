/** The program with breakpoints and hooks set runs like the program without them.

    The unpatched program is the reference.  A stack byte below the stack pointer is junk once a
    site has been passed, until the program writes it again; a program that never reads junk, its
    own patched code or the engine's memory cannot tell the two runs apart. */
module Transparency {
  import opened Words
  import opened Memory
  import opened X86
  import opened Machine
  import opened Relocator
  import opened Trampoline

  /** How the processor gets from a site to its trampoline: an INT3 byte, a 14-byte jump, or the debug
      exception of an execute breakpoint, which changes no byte. */
  datatype Entry = Trap | Jump | Debug

  /** A breakpoint or a hook, with the instructions it covers and the addresses of its two code blocks. */
  datatype Site = Site(addr: Word, entry: Entry, block: seq<Unit>, trampoline: Word, t: Stub)

  /** The patched process: the machine and its live sites by address.  The program's stack lies in
      [machine.stackLow, stackHigh). */
  datatype World = World(machine: Machine, sites: map<Word, Site>, stackHigh: int)

  // ---- What is in memory -----------------------------------------------------------------------

  function PatchBytes(site: Site): seq<Byte> {
    match site.entry
    case Trap => [0xCC]
    case Jump => AbsoluteJump(site.trampoline)
    case Debug => []
  }

  ghost predicate WellFormedSite(w: World, site: Site) {
    var m := w.machine;
    && Relocatable(m.isa, site.block) && site.block != []
    && Emit(m.isa, site.block, site.addr).Some?
    && AllEmitted(TrampolineInsns(m.abi, site.t))
    && |PatchBytes(site)| <= BlockSize(site.block)
    && site.addr + BlockSize(site.block) < WORD_SPAN
    && site.trampoline + |TrampolineCode(w, site)| < WORD_SPAN
    && site.t.relocated + |RelocatedCode(w, site)| < WORD_SPAN
    && site.t.onEnter in m.natives
    && (site.t.onLeave.Some? ==> site.t.onLeave.value in m.natives)
    && (site.entry.Trap? ==> site.addr in m.traps && m.traps[site.addr] == site.trampoline)
    && (if site.entry.Debug? then site.addr in m.breaks && m.breaks[site.addr] == site.trampoline
        else site.addr !in m.breaks)
    && OutOfStack(w, Extent(site.addr, BlockSize(site.block)))
    && OutOfStack(w, Extent(site.trampoline, |TrampolineCode(w, site)|))
    && OutOfStack(w, Extent(site.t.relocated, |RelocatedCode(w, site)|))
    && Extent(site.trampoline, |TrampolineCode(w, site)|) !! Stops(m)
    && Extent(site.t.relocated, |RelocatedCode(w, site)|) !! Stops(m)
  }

  function TrampolineCode(w: World, site: Site): seq<Byte>
    requires AllEmitted(TrampolineInsns(w.machine.abi, site.t))
  {
    TrampolineBytes(w.machine.abi, site.t)
  }

  function RelocatedCode(w: World, site: Site): seq<Byte>
    requires forall u <- site.block :: |u.window| == 16 && Size(u.insn) <= 16
    requires Emit(w.machine.isa, site.block, site.addr).Some?
  {
    Emit(w.machine.isa, site.block, site.addr).value
  }

  /** Code lies neither in the stack nor in the engine's data, and is no dispatch function. */
  ghost predicate OutOfStack(w: World, code: iset<int>) {
    && (forall x: int :: x in code ==> !(w.machine.stackLow <= x < w.stackHigh))
    && code !! w.machine.engine
    && code !! w.machine.natives
  }

  ghost predicate WellFormed(w: World) {
    && PrefixCode(w.machine.isa) && Honest(w.machine.isa)
    && WellBehaved(w.machine) && Quiet(w.machine) && KeepsExtended(w.machine)
    && (forall x: int :: w.machine.stackLow <= x < w.stackHigh ==> x !in w.machine.engine)
    && (forall b <- w.sites :: w.sites[b].addr == b && WellFormedSite(w, w.sites[b]))
    && (forall a <- w.machine.breaks :: a in w.sites)
  }

  /** Every site's patch and code blocks are in memory. */
  ghost predicate Installed(w: World, mem: Memory)
    requires WellFormed(w)
  {
    forall b <- w.sites :: SiteInstalled(w, w.sites[b], mem)
  }

  ghost predicate SiteInstalled(w: World, site: Site, mem: Memory)
    requires WellFormedSite(w, site)
  {
    && Holds(mem, site.addr, PatchBytes(site))
    && Holds(mem, site.trampoline, TrampolineCode(w, site))
    && Holds(mem, site.t.relocated, RelocatedCode(w, site))
  }

  /** The unpatched program has its original instructions at every site. */
  ghost predicate Original(w: World, mem: Memory)
    requires WellFormed(w)
  {
    forall b <- w.sites :: Holds(mem, b, Raw(w.sites[b].block))
  }

  ghost predicate PatchedAt(w: World, site: Site, x: int)
    requires WellFormedSite(w, site)
  {
    || InExtent(site.addr, |PatchBytes(site)|, x)
    || InExtent(site.trampoline, |TrampolineCode(w, site)|, x)
    || InExtent(site.t.relocated, |RelocatedCode(w, site)|, x)
  }

  ghost predicate PatchedBySome(w: World, x: int)
    requires WellFormed(w)
  {
    exists b :: b in w.sites && PatchedAt(w, w.sites[b], x)
  }

  /** What the program must not read: patches, code blocks, the engine. */
  ghost predicate DarkAt(w: World, x: int)
    requires WellFormed(w)
  {
    PatchedBySome(w, x) || x in w.machine.engine || x in w.machine.natives
  }

  ghost function Dark(w: World): iset<int>
    requires WellFormed(w)
  {
    iset x: int | DarkAt(w, x)
  }

  /** What the program must not write: all that, and the instructions under a site. */
  ghost predicate GuardedAt(w: World, x: int)
    requires WellFormed(w)
  {
    DarkAt(w, x) || exists b :: b in w.sites && InExtent(b, BlockSize(w.sites[b].block), x)
  }

  ghost function Guarded(w: World): iset<int>
    requires WellFormed(w)
  {
    iset x: int | GuardedAt(w, x)
  }

  // ---- The reference run ---------------------------------------------------------------------------

  /** The machine without the engine. */
  function Bare(m: Machine): Machine {
    m.(natives := iset{}, traps := map[], breaks := map[])
  }

  predicate BelowTop(w: World, top: int, x: int) {
    w.machine.stackLow <= x < top
  }

  ghost function Below(w: World, s: Cpu): iset<int> {
    iset x: int | BelowTop(w, s.core.regs[RSP], x)
  }

  /** The block under a site reads neither dark memory nor junk and writes nothing guarded. */
  ghost predicate BlockSafe(isa: Isa, block: seq<Unit>, s: Cpu, dark: iset<int>, guarded: iset<int>, junk: iset<int>)
    requires Relocatable(isa, block)
    decreases |block|
  {
    block == [] || (
      var i := block[0].insn;
      && Reads(isa, i, s) !! dark + junk
      && Writes(isa, i, s) !! guarded
      && (Leaves(isa, i, s.core.flags) ||
          BlockSafe(isa, block[1..], After(isa, i, s), dark, guarded, junk - Writes(isa, i, s))))
  }

  ghost function BlockJunk(isa: Isa, block: seq<Unit>, s: Cpu, junk: iset<int>): iset<int>
    requires Relocatable(isa, block)
    decreases |block|
  {
    if block == [] then junk
    else
      var i := block[0].insn;
      var junk' := junk - Writes(isa, i, s);
      if Leaves(isa, i, s.core.flags) then junk' else BlockJunk(isa, block[1..], After(isa, i, s), junk')
  }

  /** One move of the reference: the block under a site, or one instruction elsewhere. */
  ghost function Move(w: World, s: Cpu): Option<Cpu>
    requires WellFormed(w)
  {
    if s.pc in w.sites then Some(BlockRun(w.machine.isa, w.sites[s.pc].block, s))
    else Exec(w.machine.isa, Fetch(w.machine.isa, s.core.mem, s.pc), s)
  }

  ghost function JunkAfter(w: World, s: Cpu, junk: iset<int>): iset<int>
    requires WellFormed(w)
  {
    if s.pc in w.sites then BlockJunk(w.machine.isa, w.sites[s.pc].block, s, junk + Below(w, s))
    else junk - Writes(w.machine.isa, Fetch(w.machine.isa, s.core.mem, s.pc), s)
  }

  /** The program behaves at this move: it has stack for a dispatch at a site, starts no instruction
      inside a patch, reads nothing dark and no junk, and writes nothing guarded. */
  ghost predicate Behaves(w: World, s: Cpu, junk: iset<int>)
    requires WellFormed(w)
  {
    if s.pc in w.sites then PassesSite(w, w.sites[s.pc], s, junk)
    else Executes(w, Fetch(w.machine.isa, s.core.mem, s.pc), s, junk)
  }

  ghost predicate PassesSite(w: World, site: Site, s: Cpu, junk: iset<int>)
    requires WellFormed(w) && WellFormedSite(w, site)
  {
    && StackRoom(w.machine, s.core.regs[RSP] as int - 128) && s.core.regs[RSP] <= w.stackHigh
    && BlockSafe(w.machine.isa, site.block, s, Dark(w), Guarded(w), junk + Below(w, s))
  }

  ghost predicate Executes(w: World, i: Insn, s: Cpu, junk: iset<int>)
    requires WellFormed(w)
  {
    && Exec(w.machine.isa, i, s).Some?
    && Extent(s.pc, Size(i)) !! Dark(w) + junk
    && Reads(w.machine.isa, i, s) !! Dark(w) + junk
    && Writes(w.machine.isa, i, s) !! Guarded(w)
  }

  ghost predicate BehavesFor(w: World, s: Cpu, junk: iset<int>, n: nat)
    requires WellFormed(w)
    decreases n
  {
    n == 0 || (
      && Behaves(w, s, junk) && Move(w, s).Some?
      && BehavesFor(w, Move(w, s).value, JunkAfter(w, s, junk), n - 1))
  }

  ghost function Moves(w: World, s: Cpu, junk: iset<int>, n: nat): (Cpu, iset<int>)
    requires WellFormed(w)
    decreases n
  {
    if n == 0 then (s, junk)
    else match Move(w, s)
      case Some(t) => Moves(w, t, JunkAfter(w, s, junk), n - 1)
      case None => (s, junk)
  }

  /** The dispatch calls owed to the sites the reference passes. */
  ghost function Owed(w: World, s: Cpu, n: nat): seq<Call>
    requires WellFormed(w)
    decreases n
  {
    if n == 0 then []
    else match Move(w, s)
      case Some(t) => OwedAt(w, s) + Owed(w, t, n - 1)
      case None => []
  }

  ghost function OwedAt(w: World, s: Cpu): seq<Call> {
    if s.pc in w.sites then Dispatches(w.machine.abi, w.sites[s.pc].t, Plus(s.core.regs[RSP], -128)) else []
  }

  // ---- The simulation ---------------------------------------------------------------------------------

  /** The patched process is where the reference is: same registers, flags and program counter, and
      the same memory wherever the program may look. */
  ghost predicate Matches(w: World, s: Cpu, p: State, junk: iset<int>)
    requires WellFormed(w)
  {
    && p.pc == s.pc
    && Alike(s.core, p.core, Dark(w) + junk)
    && Original(w, s.core.mem)
    && Installed(w, p.core.mem)
  }

  /** A block that behaves takes both runs to the same place, and what it writes is junk no more. */
  lemma {:induction false} BlockAlike(isa: Isa, block: seq<Unit>, s: Cpu, p: Cpu, dark: iset<int>, guarded: iset<int>,
                                      junk: iset<int>)
    requires Honest(isa) && Relocatable(isa, block)
    requires dark <= guarded
    requires s.pc == p.pc && Alike(s.core, p.core, dark + junk)
    requires BlockSafe(isa, block, s, dark, guarded, junk)
    ensures BlockRun(isa, block, s).pc == BlockRun(isa, block, p).pc
    ensures Alike(BlockRun(isa, block, s).core, BlockRun(isa, block, p).core, dark + BlockJunk(isa, block, s, junk))
    ensures Untouched(isa, block, s, guarded) && Untouched(isa, block, p, guarded)
    decreases |block|
  {
    hide Exec, Honest, Alike;
    if block != [] {
      var i := block[0].insn;
      ExecSome(isa, i, s);
      ExecAlike(isa, i, s, p, dark + junk);
      AlikeRegs(s.core, p.core, dark + junk);
      assert Writes(isa, i, p) == Writes(isa, i, s);
      assert (dark + junk) - Writes(isa, i, s) == dark + (junk - Writes(isa, i, s));
      if !Leaves(isa, i, s.core.flags) {
        BlockAlike(isa, block[1..], After(isa, i, s), After(isa, i, p), dark, guarded, junk - Writes(isa, i, s));
      }
    }
  }

  lemma AlikeRegs(c1: Core, c2: Core, d: iset<int>)
    requires Alike(c1, c2, d)
    ensures c1.regs == c2.regs && c1.flags == c2.flags
  {
  }

  /** What a block does not write stays. */
  lemma {:induction false} BlockFrame(isa: Isa, block: seq<Unit>, s: Cpu, region: iset<int>, x: int)
    requires Honest(isa) && Relocatable(isa, block)
    requires Untouched(isa, block, s, region) && x in region
    ensures BlockRun(isa, block, s).core.mem(x) == s.core.mem(x)
    decreases |block|
  {
    hide Exec, Honest, Writes;
    if block != [] {
      var i := block[0].insn;
      ExecSome(isa, i, s);
      ExecFrame(isa, i, s, x);
      if !Leaves(isa, i, s.core.flags) {
        BlockFrame(isa, block[1..], After(isa, i, s), region, x);
      }
    }
  }

  lemma ExecSome(isa: Isa, i: Insn, s: Cpu)
    requires InFragment(isa, i)
    ensures Exec(isa, i, s).Some?
  {
  }

  lemma OriginalKept(w: World, m1: Memory, m2: Memory)
    requires WellFormed(w) && Original(w, m1)
    requires forall x: int :: x in Guarded(w) ==> m2(x) == m1(x)
    ensures Original(w, m2)
  {
    forall b | b in w.sites ensures Holds(m2, b, Raw(w.sites[b].block)) {
      RawSize(w.sites[b].block);
      forall x: int | InExtent(b, BlockSize(w.sites[b].block), x) ensures m2(x) == m1(x) {
        assert x in Guarded(w);
      }
      HoldsSame(m1, m2, b, Raw(w.sites[b].block));
    }
  }

  lemma InstalledKept(w: World, m1: Memory, m2: Memory)
    requires WellFormed(w) && Installed(w, m1)
    requires forall x: int :: x in Guarded(w) ==> m2(x) == m1(x)
    ensures Installed(w, m2)
  {
    forall b | b in w.sites ensures SiteInstalled(w, w.sites[b], m2) {
      forall x: int | PatchedAt(w, w.sites[b], x) ensures m2(x) == m1(x) {
        assert PatchedBySome(w, x);
        assert x in Guarded(w);
      }
      SiteKept(w, w.sites[b], m1, m2);
    }
  }

  lemma SiteKept(w: World, site: Site, m1: Memory, m2: Memory)
    requires WellFormedSite(w, site) && SiteInstalled(w, site, m1)
    requires forall x: int :: PatchedAt(w, site, x) ==> m2(x) == m1(x)
    ensures SiteInstalled(w, site, m2)
  {
    hide TrampolineCode, RelocatedCode, PatchBytes;
    HoldsSame(m1, m2, site.addr, PatchBytes(site));
    HoldsSame(m1, m2, site.trampoline, TrampolineCode(w, site));
    HoldsSame(m1, m2, site.t.relocated, RelocatedCode(w, site));
  }

  /** An instruction that lies neither in the dark nor in junk is the same in both runs. */
  lemma SameFetch(w: World, s: Cpu, p: State, junk: iset<int>)
    requires WellFormed(w) && Alike(s.core, p.core, Dark(w) + junk)
    requires var i := Fetch(w.machine.isa, s.core.mem, s.pc);
             0 < Size(i) && Extent(s.pc, Size(i)) !! Dark(w) + junk
    ensures Fetch(w.machine.isa, p.core.mem, s.pc) == Fetch(w.machine.isa, s.core.mem, s.pc)
  {
    hide Decode, Dark, Read;
    var isa := w.machine.isa;
    UnitGenuine(isa, s.core.mem, s.pc);
    var u := UnitAt(isa, s.core.mem, s.pc);
    forall x: int | InExtent(s.pc, Size(u.insn), x) ensures p.core.mem(x) == s.core.mem(x) {
      assert x in Extent(s.pc, Size(u.insn));
    }
    HoldsSame(s.core.mem, p.core.mem, s.pc, u.window[..Size(u.insn)]);
    FetchUnit(isa, p.core.mem, s.pc, u);
  }

  lemma Executable(isa: Isa, m: Memory, s: Cpu)
    requires Exec(isa, Fetch(isa, m, s.pc), s).Some?
    ensures 0 < Size(Fetch(isa, m, s.pc)) && !Fetch(isa, m, s.pc).Int3?
  {
  }

  lemma NotNative(w: World, s: Cpu, n: nat, junk: iset<int>)
    requires WellFormed(w) && 0 < n && Extent(s.pc, n) !! Dark(w) + junk
    ensures s.pc !in w.machine.natives
  {
    assert s.pc in Extent(s.pc, n);
  }

  /** Outside the sites the patched process executes the same instruction. */
  lemma ExecuteMatches(w: World, s: Cpu, p: State, junk: iset<int>) returns (p': State)
    requires WellFormed(w) && Matches(w, s, p, junk)
    requires s.pc !in w.sites && Behaves(w, s, junk)
    ensures Move(w, s).Some? && Run(w.machine, p, 1) == Some(p')
    ensures Matches(w, Move(w, s).value, p', JunkAfter(w, s, junk))
    ensures p'.calls == p.calls
  {
    hide Decode, Honest, PrefixCode, Exec, Reads, Writes, WellBehaved, Quiet, KeepsExtended, Original, Installed;
    hide WellFormedSite, Fetch, Alike;
    var isa := w.machine.isa;
    var i := Fetch(isa, s.core.mem, s.pc);
    Executable(isa, s.core.mem, s);
    SameFetch(w, s, p, junk);
    NotNative(w, s, Size(i), junk);
    var p0 := Cpu(p.core, p.pc);
    ExecAlike(isa, i, s, p0, Dark(w) + junk);
    AlikeRegs(s.core, p.core, Dark(w) + junk);
    WritesSame(isa, i, s, p0);
    var t, t' := Exec(isa, i, s).value, Exec(isa, i, p0).value;
    p' := At(t', p.calls);
    assert Step(w.machine, p) == Some(p');
    assert Run(w.machine, p', 0) == Some(p');
    assert (Dark(w) + junk) - Writes(isa, i, s) == Dark(w) + (junk - Writes(isa, i, s));
    forall x: int | x in Guarded(w) ensures t.core.mem(x) == s.core.mem(x) && t'.core.mem(x) == p.core.mem(x) {
      ExecFrame(isa, i, s, x);
      ExecFrame(isa, i, p0, x);
    }
    OriginalKept(w, s.core.mem, t.core.mem);
    InstalledKept(w, p.core.mem, p'.core.mem);
  }

  lemma WritesSame(isa: Isa, i: Insn, s: Cpu, p: Cpu)
    requires s.pc == p.pc && s.core.regs == p.core.regs && s.core.flags == p.core.flags
    ensures Writes(isa, i, s) == Writes(isa, i, p)
  {
  }

  // ---- Passing a site ---------------------------------------------------------------------------------

  lemma SiteNotNative(w: World, site: Site)
    requires WellFormedSite(w, site)
    ensures site.addr !in w.machine.natives
  {
    assert Size(site.block[0].insn) > 0;
    assert site.addr as int in Extent(site.addr, BlockSize(site.block));
  }

  lemma TrapEntered(m: Machine, p: State, trampoline: Word)
    requires Holds(p.core.mem, p.pc, [0xCC]) && p.pc !in Stops(m)
    requires p.pc in m.traps && m.traps[p.pc] == trampoline
    ensures Step(m, p) == Some(p.(pc := trampoline))
  {
    TrapFetched(m.isa, p.core.mem, p.pc);
    hide Fetch;
    assert Plus(Plus(p.pc, 1), -1) == p.pc;
  }

  lemma TrapFetched(isa: Isa, m: Memory, pc: Word)
    requires Holds(m, pc, [0xCC])
    ensures Fetch(isa, m, pc) == Int3
  {
    assert m(pc) == 0xCC;
  }

  lemma BreakEntered(m: Machine, p: State)
    requires p.pc !in m.natives && p.pc in m.breaks
    ensures Step(m, p) == Some(p.(pc := m.breaks[p.pc]))
  {
  }

  /** What an installed site has at its address. */
  lemma SitePatched(w: World, site: Site, m: Memory)
    requires WellFormedSite(w, site) && SiteInstalled(w, site, m)
    ensures site.entry.Trap? ==>
              && Holds(m, site.addr, [0xCC])
              && site.addr in w.machine.traps && w.machine.traps[site.addr] == site.trampoline
    ensures site.entry.Jump? ==> Holds(m, site.addr, AbsoluteJump(site.trampoline))
    ensures if site.entry.Debug? then site.addr in w.machine.breaks && w.machine.breaks[site.addr] == site.trampoline
            else site.addr !in w.machine.breaks
  {
  }

  /** The patch sends the processor to the trampoline, through the signal or directly. */
  lemma SiteEntered(w: World, site: Site, p: State)
    requires WellFormedSite(w, site) && SiteInstalled(w, site, p.core.mem) && p.pc == site.addr
    ensures Step(w.machine, p) == Some(p.(pc := site.trampoline))
  {
    hide Step, Holds, WellFormedSite, SiteInstalled, AbsoluteJump;
    SiteNotNative(w, site);
    SitePatched(w, site, p.core.mem);
    if site.entry.Debug? {
      BreakEntered(w.machine, p);
    } else if site.entry.Trap? {
      TrapEntered(w.machine, p, site.trampoline);
    } else {
      AbsoluteJumpRuns(w.machine, p, site.trampoline);
    }
  }

  lemma {:induction false} UntouchedLess(isa: Isa, block: seq<Unit>, s: Cpu, region: iset<int>, less: iset<int>)
    requires Relocatable(isa, block)
    requires Untouched(isa, block, s, region) && less <= region
    ensures Untouched(isa, block, s, less)
    decreases |block|
  {
    hide Writes, Exec;
    if block != [] && !Leaves(isa, block[0].insn, s.core.flags) {
      UntouchedLess(isa, block[1..], After(isa, block[0].insn, s), region, less);
    }
  }

  /** Site code is out of reach of the dispatches made with the program's stack pointer at `top`. */
  lemma CodeOutOfReach(w: World, code: iset<int>, a: int, n: nat, top: int)
    requires OutOfStack(w, code) && code !! Stops(w.machine) && Extent(a, n) <= code && top <= w.stackHigh
    ensures OutOfReach(w.machine, a, n, top - 128)
  {
    var context: int := top - 128;
    forall x: int | a <= x < a + n ensures UntouchedAt(w.machine, context, x) {
      assert x in Extent(a, n);
      assert x in code;
      assert !(w.machine.stackLow <= x < w.stackHigh) && x !in w.machine.engine;
    }
  }

  /** The stack and the engine's data hold no patch. */
  lemma PatchesKept(w: World, m1: Memory, m2: Memory, top: int)
    requires WellFormed(w) && Installed(w, m1) && top <= w.stackHigh
    requires forall x: int :: !(w.machine.stackLow <= x < top) && x !in w.machine.engine ==> m2(x) == m1(x)
    ensures Installed(w, m2)
  {
    forall b | b in w.sites ensures SiteInstalled(w, w.sites[b], m2) {
      var site := w.sites[b];
      forall x: int | PatchedAt(w, site, x) ensures m2(x) == m1(x) {
        PatchOutOfStack(w, site, x);
      }
      SiteKept(w, site, m1, m2);
    }
  }

  lemma PatchOutOfStack(w: World, site: Site, x: int)
    requires WellFormedSite(w, site) && PatchedAt(w, site, x)
    ensures !(w.machine.stackLow <= x < w.stackHigh) && x !in w.machine.engine
  {
    hide TrampolineCode, RelocatedCode, PatchBytes, AllEmitted;
    if InExtent(site.addr, |PatchBytes(site)|, x) {
      assert x in Extent(site.addr, BlockSize(site.block));
    } else if InExtent(site.trampoline, |TrampolineCode(w, site)|, x) {
      assert x in Extent(site.trampoline, |TrampolineCode(w, site)|);
    } else {
      assert x in Extent(site.t.relocated, |RelocatedCode(w, site)|);
    }
  }

  /** The trampoline of an installed site can run with a snapshot at `context`. */
  lemma SitePlaced(w: World, site: Site, p: State, context: Word)
    requires WellFormedSite(w, site) && SiteInstalled(w, site, p.core.mem) && context + 128 <= w.stackHigh
    ensures AllEmitted(TrampolineInsns(w.machine.abi, site.t))
    ensures site.t.onEnter in w.machine.natives && (site.t.onLeave.Some? ==> site.t.onLeave.value in w.machine.natives)
    ensures Placed(w.machine, p.(pc := site.trampoline), TrampolineBytes(w.machine.abi, site.t), context)
  {
    hide Holds, Relocatable, TrampolineBytes, RelocatedCode, PatchBytes, TrampolineInsns, OutOfStack, AllEmitted, Emit;
    hide BlockSize, OutOfReach;
    CodeOutOfReach(w, Extent(site.trampoline, |TrampolineCode(w, site)|), site.trampoline, |TrampolineCode(w, site)|,
                   context + 128);
  }

  lemma RunFirst(m: Machine, s: State, t: State, n: nat, end: State)
    requires Step(m, s) == Some(t) && Run(m, t, n) == Some(end)
    ensures Run(m, s, n + 1) == Some(end)
  {
  }

  /** From the site through its trampoline to the relocated block: one dispatch, and nothing that
      the program may see has changed. */
  lemma SiteDispatched(w: World, site: Site, p: State) returns (n: nat, end: State)
    requires WellFormed(w) && site.addr in w.sites && w.sites[site.addr] == site
    requires Installed(w, p.core.mem) && p.pc == site.addr
    requires StackRoom(w.machine, p.core.regs[RSP] as int - 128) && p.core.regs[RSP] <= w.stackHigh
    ensures Run(w.machine, p, n) == Some(end)
    ensures end.pc == site.t.relocated
    ensures end.calls == p.calls + Dispatches(w.machine.abi, site.t, Plus(p.core.regs[RSP], -128))
    ensures end.core.regs == p.core.regs && end.core.flags == p.core.flags && end.core.extended == p.core.extended
    ensures forall x: int :: !(w.machine.stackLow <= x < p.core.regs[RSP]) && x !in w.machine.engine ==>
              end.core.mem(x) == p.core.mem(x)
  {
    hide Step, Run, TrampolineBytes, TrampolineInsns, Dispatches, WellBehaved, Quiet, KeepsExtended, WellFormedSite;
    hide SiteInstalled, Placed, AllEmitted, Honest, PrefixCode;
    var top: int := p.core.regs[RSP];
    var context := Plus(p.core.regs[RSP], -128);
    assert context == top - 128;
    assert WellFormedSite(w, site) && SiteInstalled(w, site, p.core.mem);
    SiteEntered(w, site, p);
    SitePlaced(w, site, p, context);
    var seen, again;
    n, seen, again, end := TrampolineIsIdentity(w.machine, site.t, p.(pc := site.trampoline), context);
    RunFirst(w.machine, p, p.(pc := site.trampoline), n, end);
    n := n + 1;
  }

  /** Passing a site: the patched process dispatches, then does what the block does. */
  lemma SitePasses(w: World, s: Cpu, p: State, junk: iset<int>) returns (k: nat, p': State)
    requires WellFormed(w) && Matches(w, s, p, junk)
    requires s.pc in w.sites && Behaves(w, s, junk)
    ensures Run(w.machine, p, k) == Some(p')
    ensures Matches(w, Move(w, s).value, p', JunkAfter(w, s, junk))
    ensures p'.calls == p.calls + OwedAt(w, s)
  {
    hide Step, Run, Decode, Holds, Exec, Fetch, Emit, TrampolineBytes, PatchBytes, TrampolineInsns, Dispatches;
    hide Original, Quiet, KeepsExtended, WellBehaved, BlockSafe, WellFormedSite;
    var site := w.sites[s.pc];
    var end;
    AlikeRegs(s.core, p.core, Dark(w) + junk);
    k, end := SiteDispatched(w, site, p);
    PatchesKept(w, p.core.mem, end.core.mem, p.core.regs[RSP]);
    SiteAlike(w, s, p, end, junk);
    var n;
    n, p' := BlockPasses(w, site, s, end, junk + Below(w, s));
    RunOn(w.machine, p, k, n);
    k := k + n;
  }

  /** The relocated block does to the patched process what the original block does to the program. */
  lemma BlockPasses(w: World, site: Site, s: Cpu, end: State, junk: iset<int>) returns (n: nat, p': State)
    requires WellFormed(w) && site.addr in w.sites && w.sites[site.addr] == site
    requires s.pc == site.addr && end.pc == site.t.relocated
    requires Alike(s.core, end.core, Dark(w) + junk)
    requires Original(w, s.core.mem) && Installed(w, end.core.mem)
    requires BlockSafe(w.machine.isa, site.block, s, Dark(w), Guarded(w), junk)
    ensures Run(w.machine, end, n) == Some(p')
    ensures Matches(w, BlockRun(w.machine.isa, site.block, s), p', BlockJunk(w.machine.isa, site.block, s, junk))
    ensures p'.calls == end.calls
  {
    hide Step, Run, Decode, Holds, Exec, Fetch, Emit, TrampolineBytes, PatchBytes, TrampolineInsns, Original, Quiet;
    hide KeepsExtended, WellBehaved, BlockSafe, Alike, BlockRun, BlockJunk, Honest, PrefixCode, Untouched, GuardedAt;
    hide DarkAt;
    var isa := w.machine.isa;
    var q := Cpu(end.core, s.pc);
    var code := RelocatedCode(w, site);
    RelocatedGuarded(w, site);
    BlockAlike(isa, site.block, s, q, Dark(w), Guarded(w), junk);
    UntouchedLess(isa, site.block, q, Guarded(w), Extent(site.t.relocated, |code|));
    assert SiteInstalled(w, site, end.core.mem);
    n := RelocatedRuns(w.machine, site.block, q, site.t.relocated, end.calls, Extent(site.t.relocated, |code|));
    var t := BlockRun(isa, site.block, s);
    p' := At(BlockRun(isa, site.block, q), end.calls);
    forall x: int | x in Guarded(w) ensures t.core.mem(x) == s.core.mem(x) && p'.core.mem(x) == end.core.mem(x) {
      BlockFrame(isa, site.block, s, Guarded(w), x);
      BlockFrame(isa, site.block, q, Guarded(w), x);
    }
    OriginalKept(w, s.core.mem, t.core.mem);
    InstalledKept(w, end.core.mem, p'.core.mem);
  }

  lemma SiteAlike(w: World, s: Cpu, p: State, end: State, junk: iset<int>)
    requires WellFormed(w) && Alike(s.core, p.core, Dark(w) + junk)
    requires end.core.regs == p.core.regs && end.core.flags == p.core.flags && end.core.extended == p.core.extended
    requires forall x: int :: !(w.machine.stackLow <= x < p.core.regs[RSP]) && x !in w.machine.engine ==>
              end.core.mem(x) == p.core.mem(x)
    ensures Alike(s.core, end.core, Dark(w) + (junk + Below(w, s)))
  {
    forall x: int | x !in Dark(w) + (junk + Below(w, s)) ensures s.core.mem(x) == end.core.mem(x) {
      assert x !in Below(w, s) && !BelowTop(w, s.core.regs[RSP], x);
      assert x !in Dark(w) && !DarkAt(w, x);
      assert s.core.mem(x) == p.core.mem(x);
    }
  }

  lemma RelocatedGuarded(w: World, site: Site)
    requires WellFormed(w) && site.addr in w.sites && w.sites[site.addr] == site
    ensures Extent(site.t.relocated, |RelocatedCode(w, site)|) <= Guarded(w)
    ensures Dark(w) <= Guarded(w)
  {
    forall x: int | x in Extent(site.t.relocated, |RelocatedCode(w, site)|) ensures x in Guarded(w) {
      assert PatchedAt(w, site, x);
      assert PatchedBySome(w, x);
    }
  }

  /** Transparency: as long as the program behaves, the patched process reaches the same registers,
      flags, visible memory and program counter, and makes exactly the dispatch calls of the sites
      the program passes, in order. */
  lemma {:induction false} Transparent(w: World, s: Cpu, p: State, junk: iset<int>, n: nat) returns (k: nat, p': State)
    requires WellFormed(w) && Matches(w, s, p, junk)
    requires BehavesFor(w, s, junk, n)
    ensures Run(w.machine, p, k) == Some(p')
    ensures var (s', junk') := Moves(w, s, junk, n); Matches(w, s', p', junk')
    ensures p'.calls == p.calls + Owed(w, s, n)
    decreases n
  {
    hide Step, Run, Behaves, Matches, JunkAfter, Move, OwedAt, WellFormed;
    if n == 0 {
      k, p' := 0, p;
      RunNone(w.machine, p);
    } else {
      var q;
      if s.pc in w.sites {
        k, q := SitePasses(w, s, p, junk);
      } else {
        q := ExecuteMatches(w, s, p, junk);
        k := 1;
        NothingOwed(w, s);
      }
      var t := Move(w, s).value;
      var more;
      more, p' := Transparent(w, t, q, JunkAfter(w, s, junk), n - 1);
      RunOn(w.machine, p, k, more);
      k := k + more;
    }
  }

  lemma RunNone(m: Machine, s: State)
    ensures Run(m, s, 0) == Some(s)
  {
  }

  lemma NothingOwed(w: World, s: Cpu)
    requires s.pc !in w.sites
    ensures OwedAt(w, s) == []
  {
  }

  // ---- The reference is the unpatched program -------------------------------------------------------------

  /** Every site covers a single instruction, as breakpoints do. */
  predicate SingleStepped(w: World) {
    forall b <- w.sites :: |w.sites[b].block| == 1
  }

  /** A move of the reference is one or more ordinary steps of the bare machine. */
  lemma MoveIsSteps(w: World, s: Cpu, junk: iset<int>, calls: seq<Call>) returns (k: nat)
    requires WellFormed(w) && Original(w, s.core.mem) && Behaves(w, s, junk)
    ensures Move(w, s).Some? && Original(w, Move(w, s).value.core.mem)
    ensures Run(Bare(w.machine), At(s, calls), k) == Some(At(Move(w, s).value, calls))
    ensures k >= 1 && (SingleStepped(w) ==> k == 1)
  {
    hide Decode, Exec, Fetch, Honest, PrefixCode, Writes, Reads, WellBehaved, Quiet, KeepsExtended, Emit, Holds;
    hide GuardedAt, DarkAt, Untouched, BlockRun;
    var isa := w.machine.isa;
    if s.pc in w.sites {
      var site := w.sites[s.pc];
      var code := Extent(s.pc, BlockSize(site.block));
      forall x: int | x in code ensures x in Guarded(w) {
        BlockGuarded(w, s.pc, x);
      }
      RelocatedGuarded(w, site);
      BlockAlike(isa, site.block, s, s, Dark(w), Guarded(w), junk + Below(w, s));
      UntouchedLess(isa, site.block, s, Guarded(w), code);
      k := OriginalRuns(Bare(w.machine), site.block, s, calls, code);
      forall x: int | x in Guarded(w) ensures BlockRun(isa, site.block, s).core.mem(x) == s.core.mem(x) {
        BlockFrame(isa, site.block, s, Guarded(w), x);
      }
    } else {
      var i := Fetch(isa, s.core.mem, s.pc);
      Executable(isa, s.core.mem, s);
      k := 1;
      var t := At(Move(w, s).value, calls);
      assert Step(Bare(w.machine), At(s, calls)) == Some(t);
      assert Run(Bare(w.machine), t, 0) == Some(t);
      forall x: int | x in Guarded(w) ensures t.core.mem(x) == s.core.mem(x) {
        ExecFrame(isa, i, s, x);
      }
    }
    OriginalKept(w, s.core.mem, Move(w, s).value.core.mem);
  }

  lemma BlockGuarded(w: World, b: Word, x: int)
    requires WellFormed(w) && b in w.sites && InExtent(b, BlockSize(w.sites[b].block), x)
    ensures x in Guarded(w)
  {
  }

  lemma {:induction false} MovesAreSteps(w: World, s: Cpu, junk: iset<int>, calls: seq<Call>, n: nat) returns (k: nat)
    requires WellFormed(w) && Original(w, s.core.mem) && BehavesFor(w, s, junk, n)
    ensures Run(Bare(w.machine), At(s, calls), k) == Some(At(Moves(w, s, junk, n).0, calls))
    ensures k >= n && (SingleStepped(w) ==> k == n)
    decreases n
  {
    hide Step, Run, Behaves, Original, JunkAfter, Move, WellFormed, SingleStepped;
    if n == 0 {
      k := 0;
      RunNone(Bare(w.machine), At(s, calls));
    } else {
      k := MoveIsSteps(w, s, junk, calls);
      var t := Move(w, s).value;
      var more := MovesAreSteps(w, t, JunkAfter(w, s, junk), calls, n - 1);
      RunOn(Bare(w.machine), At(s, calls), k, more);
      k := k + more;
    }
  }

  /** The whole claim: the unpatched program in `k` steps and the patched process in `k'` reach the
      same registers, flags, program counter and visible memory, and each dispatch owed was made
      once.  With breakpoints only, this holds after every step of the unpatched program. */
  lemma SitesAreTransparent(w: World, s: Cpu, p: State, junk: iset<int>, n: nat) returns (k: nat, k': nat, p': State)
    requires WellFormed(w) && Matches(w, s, p, junk) && BehavesFor(w, s, junk, n)
    ensures k >= n && (SingleStepped(w) ==> k == n)
    ensures Run(Bare(w.machine), At(s, []), k).Some? && Run(w.machine, p, k') == Some(p')
    ensures var t := Run(Bare(w.machine), At(s, []), k).value;
            && p'.pc == t.pc
            && Alike(t.core, p'.core, Dark(w) + Moves(w, s, junk, n).1)
    ensures p'.calls == p.calls + Owed(w, s, n)
  {
    hide Step, Run, Behaves, JunkAfter, Move, SingleStepped, OwedAt, Moves, Owed, BehavesFor;
    k := MovesAreSteps(w, s, junk, [], n);
    k', p' := Transparent(w, s, p, junk, n);
  }
}

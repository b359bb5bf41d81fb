/** A process the transparency theorem applies to: memory full of NOPs with one breakpoint in it.
    It shows that the theorem's conditions can be met, and what the theorem then says. */
module Sample {
  import opened Words
  import opened Memory
  import opened X86
  import opened Machine
  import opened Relocator
  import opened Trampoline
  import opened Transparency
  import opened PatchLog
  import opened Process
  import opened Registry
  import L = LiveCode
  import opened Sites
  import opened Deployment
  import S = SoftwareBreakpoint
  import I = Interceptor
  import H = HardwareBreakpoint

  const SITE: Word := 0x1000
  const TRAMPOLINE: Word := 0x10000
  const RELOCATED: Word := 0x20000
  const DISPATCH: Word := 0x30000
  const STACK_LOW: int := 0x100000
  const STACK_HIGH: int := 0x200000

  const NOP: Byte := 0x90

  // ---- A processor that knows NOP besides what the engine emits ---------------------------------------

  function NopIsa(): Isa {
    Isa((w: seq<Byte>) => if w != [] && w[0] == NOP then 1 else 0,
      (bytes: seq<Byte>) => true,
      (bytes: seq<Byte>, c: Core) => c,
      (bytes: seq<Byte>, pc: Word, c: Core) => Cpu(c, pc),
      (bytes: seq<Byte>, pc: Word, regs: Regs, flags: Word) => iset{},
      (bytes: seq<Byte>, pc: Word, regs: Regs, flags: Word) => iset{},
      (bytes: seq<Byte>, pc: Word) => Analysis(false, false, false, 0),
      (a: Word, n: int) => 0)
  }

  lemma FrontBytes(w1: seq<Byte>, w2: seq<Byte>, n: nat)
    requires |w1| == 16 && |w2| == 16 && SameFront(w1, w2, n)
    ensures forall k :: 0 <= k < n ==> w1[k] == w2[k]
    ensures n >= 5 ==> w1[1..5] == w2[1..5]
    ensures n >= 6 ==> w1[2..6] == w2[2..6]
    ensures n >= 10 ==> w1[2..10] == w2[2..10]
  {
    assert forall k :: 0 <= k < n ==> w1[k] == w1[..n][k] && w2[k] == w2[..n][k];
  }

  lemma NopPrefixCode()
    ensures PrefixCode(NopIsa())
  {
    var isa := NopIsa();
    forall w1, w2 | |w1| == 16 && |w2| == 16 && SameFront(w1, w2, Size(Decode(isa, w1)))
      ensures Decode(isa, w2) == Decode(isa, w1)
    {
      FrontBytes(w1, w2, Size(Decode(isa, w1)));
      assert w1[..1] == [w1[0]] && w2[..1] == [w2[0]];
    }
  }

  lemma NopHonest()
    ensures Honest(NopIsa())
  {
    forall bytes: seq<Byte>, pc: Word, c1: Core, c2: Core, d: iset<int>
      ensures HonestAt(NopIsa(), bytes, pc, c1, c2, d)
    {
      assert d - iset{} == d;
    }
  }

  function Nops(): Memory {
    (x: int) => NOP
  }

  lemma NopFetched(pc: Word)
    ensures Fetch(NopIsa(), Nops(), pc) == Other([NOP])
  {
    var w := Read(Nops(), pc, 16);
    assert w[0] == NOP && w[..1] == [NOP];
  }

  // ---- The process ------------------------------------------------------------------------------------

  function NopUnit(): Unit {
    Unit(Other([NOP]), seq(16, k => NOP))
  }

  lemma NopGenuine()
    ensures Genuine(NopIsa(), NopUnit()) && InFragment(NopIsa(), NopUnit().insn)
    ensures Relocatable(NopIsa(), [NopUnit()]) && BlockSize([NopUnit()]) == 1 && Raw([NopUnit()]) == [NOP]
  {
    var u := NopUnit();
    assert u.window[..1] == [NOP];
    assert [u][1..] == [] && Raw([]) == [] && BlockSize([]) == 0;
  }

  function SiteOf(data: Word): Site {
    Site(SITE, Trap, [NopUnit()], TRAMPOLINE, Stub(DISPATCH, None, data, RELOCATED))
  }

  /** A dispatch function that does nothing but return. */
  function Returning(fn: Word, c: Core): Core {
    c.(regs := c.regs[RSP := Plus(c.regs[RSP], 8)])
  }

  ghost function MachineOf(abi: Abi): Machine {
    Machine(NopIsa(), abi, iset{DISPATCH as int}, Returning, map[SITE := TRAMPOLINE], map[], STACK_LOW, iset{})
  }

  ghost function WorldOf(abi: Abi, data: Word): World {
    World(MachineOf(abi), map[SITE := SiteOf(data)], STACK_HIGH)
  }

  lemma {:induction false} EncodedSize(code: seq<Insn>)
    requires AllEmitted(code)
    ensures |EncodeAll(code)| <= 10 * |code|
  {
    hide Encode;
    if code != [] {
      EncodedSize(code[1..]);
      assert code[0] in code && Size(code[0]) <= 10;
    }
  }

  lemma TrampolineSize(abi: Abi, t: Stub)
    requires t.onLeave.None?
    ensures AllEmitted(TrampolineInsns(abi, t)) && |TrampolineBytes(abi, t)| < 500
  {
    TrampolineEmitted(abi, t);
    EncodedSize(TrampolineInsns(abi, t));
  }

  lemma NopEmitted(data: Word)
    ensures Emit(NopIsa(), SiteOf(data).block, SITE) == Some([NOP] + AbsoluteJump(SITE + 1))
  {
    hide AbsoluteJump;
    NopGenuine();
    PieceInFragment(NopIsa(), NopUnit(), SITE);
    assert NopUnit().window[..1] == [NOP];
    assert [NopUnit()][1..] == [];
    assert Emit(NopIsa(), [], SITE + 1) == Some(AbsoluteJump(SITE + 1));
  }

  lemma SiteWellFormed(abi: Abi, data: Word)
    ensures WellFormedSite(WorldOf(abi, data), SiteOf(data))
    ensures |TrampolineCode(WorldOf(abi, data), SiteOf(data))| < 500
    ensures RelocatedCode(WorldOf(abi, data), SiteOf(data)) == [NOP] + AbsoluteJump(SITE + 1)
  {
    hide TrampolineInsns, TrampolineBytes, AllEmitted, Emit, NopUnit, Relocatable, BlockSize, AbsoluteJump;
    NopGenuine();
    NopEmitted(data);
    TrampolineSize(abi, SiteOf(data).t);
  }

  lemma WorldWellFormed(abi: Abi, data: Word)
    ensures WellFormed(WorldOf(abi, data)) && SingleStepped(WorldOf(abi, data))
  {
    hide WellFormedSite, PrefixCode, Honest, NopIsa;
    NopPrefixCode();
    NopHonest();
    SiteWellFormed(abi, data);
  }

  /** The patched memory: the trap byte and the two code blocks. */
  ghost function PatchedNops(abi: Abi, data: Word): Memory {
    SiteWellFormed(abi, data);
    var w, site := WorldOf(abi, data), SiteOf(data);
    Write(Write(Write(Nops(), SITE, [0xCC]), TRAMPOLINE, TrampolineCode(w, site)), RELOCATED, RelocatedCode(w, site))
  }

  lemma NopsPatched(abi: Abi, data: Word)
    ensures WellFormed(WorldOf(abi, data))
    ensures Installed(WorldOf(abi, data), PatchedNops(abi, data)) && Original(WorldOf(abi, data), Nops())
    ensures SameOff(Nops(), PatchedNops(abi, data), Dark(WorldOf(abi, data)))
  {
    hide WellFormedSite, PrefixCode, Honest, NopIsa, NopUnit, TrampolineCode, AbsoluteJump, WellBehaved, Quiet;
    var w, site := WorldOf(abi, data), SiteOf(data);
    SiteWellFormed(abi, data);
    WorldWellFormed(abi, data);
    NopGenuine();
    forall x: int | x !in Dark(w) ensures Nops()(x) == PatchedNops(abi, data)(x) {
      assert !DarkAt(w, x) && !PatchedBySome(w, x);
      assert SITE in w.sites && !PatchedAt(w, w.sites[SITE], x);
    }
  }

  // ---- What the theorem says of it ------------------------------------------------------------------------

  ghost predicate Arriving(s: Cpu) {
    s.core.mem == Nops() && s.pc == SITE && STACK_LOW + 256 <= s.core.regs[RSP] <= STACK_HIGH
  }

  lemma NopBlock(s: Cpu, dark: iset<int>, guarded: iset<int>, junk: iset<int>)
    ensures Relocatable(NopIsa(), [NopUnit()])
    ensures BlockSafe(NopIsa(), [NopUnit()], s, dark, guarded, junk)
    ensures BlockRun(NopIsa(), [NopUnit()], s) == s.(pc := Plus(s.pc, 1))
    ensures BlockJunk(NopIsa(), [NopUnit()], s, junk) == junk
  {
    hide NopIsa, NopUnit;
    NopStep(s);
    var block := [NopUnit()];
    var t := s.(pc := Plus(s.pc, 1));
    assert block[1..] == [] && junk - iset{} == junk;
    assert After(NopIsa(), block[0].insn, s) == t;
    assert BlockSafe(NopIsa(), [], t, dark, guarded, junk);
    assert BlockRun(NopIsa(), [], t) == t && BlockJunk(NopIsa(), [], t, junk) == junk;
  }

  lemma SiteMove(abi: Abi, data: Word, s: Cpu)
    requires Arriving(s)
    ensures WellFormed(WorldOf(abi, data))
    ensures Behaves(WorldOf(abi, data), s, iset{})
    ensures Move(WorldOf(abi, data), s) == Some(s.(pc := SITE + 1))
    ensures JunkAfter(WorldOf(abi, data), s, iset{}) == Below(WorldOf(abi, data), s)
  {
    hide WellFormed, WellFormedSite, NopIsa, NopUnit, BlockSafe, BlockRun, BlockJunk, Dark, Guarded, Below, Executes;
    var w := WorldOf(abi, data);
    WorldWellFormed(abi, data);
    SiteWellFormed(abi, data);
    var junk := Below(w, s);
    assert iset{} + junk == junk;
    NopBlock(s, Dark(w), Guarded(w), junk);
  }

  /** A NOP advances the program counter and touches nothing. */
  lemma NopStep(s: Cpu)
    ensures NopUnit().insn == Other([NOP]) && Relocatable(NopIsa(), [NopUnit()])
    ensures Exec(NopIsa(), Other([NOP]), s) == Some(s.(pc := Plus(s.pc, 1)))
    ensures Reads(NopIsa(), Other([NOP]), s) == iset{} && Writes(NopIsa(), Other([NOP]), s) == iset{}
  {
    NopGenuine();
  }

  lemma NextMove(abi: Abi, data: Word, s: Cpu, junk: iset<int>)
    requires s.core.mem == Nops() && s.pc == SITE + 1 && SITE + 1 !in junk
    ensures WellFormed(WorldOf(abi, data))
    ensures Behaves(WorldOf(abi, data), s, junk)
    ensures Move(WorldOf(abi, data), s) == Some(s.(pc := SITE + 2))
  {
    hide WellFormedSite, PrefixCode, Honest, NopIsa, NopUnit, WellBehaved, Quiet, Fetch, TrampolineCode, AbsoluteJump;
    hide TrampolineInsns, AllEmitted;
    var w := WorldOf(abi, data);
    WorldWellFormed(abi, data);
    SiteWellFormed(abi, data);
    NopFetched(s.pc);
    NopStep(s);
    assert !PatchedAt(w, SiteOf(data), s.pc);
    assert !DarkAt(w, s.pc);
  }

  lemma NopBehaves(abi: Abi, data: Word, s: Cpu)
    requires Arriving(s)
    ensures WellFormed(WorldOf(abi, data))
    ensures BehavesFor(WorldOf(abi, data), s, iset{}, 2)
    ensures Moves(WorldOf(abi, data), s, iset{}, 2).0 == s.(pc := SITE + 2)
    ensures Owed(WorldOf(abi, data), s, 2) == Dispatches(abi, SiteOf(data).t, s.core.regs[RSP] - 128)
  {
    hide WellFormed, Behaves, Move, JunkAfter, NopIsa, Dispatches;
    var w := WorldOf(abi, data);
    SiteMove(abi, data, s);
    var t, junk := s.(pc := SITE + 1), JunkAfter(w, s, iset{});
    assert SITE + 1 !in junk;
    NextMove(abi, data, t, junk);
    var u, junk' := s.(pc := SITE + 2), JunkAfter(w, t, junk);
    assert BehavesFor(w, u, junk', 0) && BehavesFor(w, t, junk, 1);
    assert Moves(w, u, junk', 0).0 == u && Moves(w, t, junk, 1).0 == u;
    assert Owed(w, u, 0) == [] && Owed(w, t, 1) == [];
  }

  /** A thread that comes to the breakpoint: the patched process goes through trap, trampoline, dispatch
      and relocated NOP, and arrives where the program arrives in two steps, with one dispatch made. */
  lemma BreakpointOnNop(abi: Abi, data: Word, s: Cpu) returns (k: nat, p: State)
    requires Arriving(s)
    ensures Run(Bare(MachineOf(abi)), At(s, []), 2) == Some(At(s.(pc := SITE + 2), []))
    ensures Run(MachineOf(abi), State(s.core.(mem := PatchedNops(abi, data)), SITE, []), k) == Some(p)
    ensures p.pc == SITE + 2 && p.core.regs == s.core.regs && p.core.flags == s.core.flags
    ensures p.calls == Dispatches(abi, SiteOf(data).t, s.core.regs[RSP] - 128)
  {
    hide WellFormed, BehavesFor, Moves, Owed, Run, Installed, Original, Dark, PatchedNops, NopIsa, Dispatches;
    hide SingleStepped;
    var w := WorldOf(abi, data);
    NopsPatched(abi, data);
    WorldWellFormed(abi, data);
    NopBehaves(abi, data, s);
    var start := State(s.core.(mem := PatchedNops(abi, data)), SITE, []);
    assert Dark(w) + iset{} == Dark(w);
    assert Matches(w, s, start, iset{});
    var steps := MovesAreSteps(w, s, iset{}, [], 2);
    k, p := Transparent(w, s, start, iset{}, 2);
    assert [] + Owed(w, s, 2) == Owed(w, s, 2);
  }

  // ---- A dispatch function that uses vector registers ---------------------------------------------------

  function Clobbering(fn: Word, c: Core): Core {
    Returning(fn, c).(extended := [])
  }

  ghost function ClobberingWorld(abi: Abi, data: Word): World {
    WorldOf(abi, data).(machine := MachineOf(abi).(native := Clobbering))
  }

  lemma ClobberingPlaced(abi: Abi, data: Word, s: State, context: Word)
    requires s.core.mem == PatchedNops(abi, data) && s.pc == SITE && context + 128 <= STACK_HIGH
    ensures var w, t := ClobberingWorld(abi, data), SiteOf(data).t;
            && AllEmitted(TrampolineInsns(abi, t))
            && Placed(w.machine, s.(pc := TRAMPOLINE), TrampolineBytes(abi, t), context)
  {
    hide Emit, AllEmitted, TrampolineInsns, TrampolineBytes, Relocatable, NopIsa, NopUnit, PatchedNops;
    var w := ClobberingWorld(abi, data);
    SiteWellFormed(abi, data);
    NopsPatched(abi, data);
    assert WellFormedSite(w, SiteOf(data));
    assert SiteInstalled(w, SiteOf(data), s.core.mem) by {
      assert SITE in WorldOf(abi, data).sites;
      assert SiteInstalled(WorldOf(abi, data), SiteOf(data), s.core.mem);
    }
    SitePlaced(w, SiteOf(data), s, context);
  }

  /** Such a function breaks the promise: registers and flags come back from the snapshot, but the
      program finds other vector registers, unless they were what the function leaves. */
  lemma ClobberedOnNop(abi: Abi, data: Word, s: Cpu) returns (n: nat, end: State)
    requires Arriving(s)
    ensures Run(ClobberingWorld(abi, data).machine, State(s.core.(mem := PatchedNops(abi, data)), TRAMPOLINE, []), n) ==
              Some(end)
    ensures end.pc == RELOCATED && end.core.regs == s.core.regs && end.core.flags == s.core.flags
    ensures end.core.extended == s.core.extended <==> s.core.extended == []
  {
    hide Run, AllEmitted, TrampolineInsns, TrampolineBytes, NopIsa, PatchedNops, Placed, Dispatches;
    var m := ClobberingWorld(abi, data).machine;
    var p := State(s.core.(mem := PatchedNops(abi, data)), SITE, []);
    var context: Word := s.core.regs[RSP] - 128;
    ClobberingPlaced(abi, data, p, context);
    var seen, again;
    n, seen, again, end := TrampolineIsIdentity(m, SiteOf(data).t, p.(pc := TRAMPOLINE), context);
  }

  // ---- The same process as the registries have it ---------------------------------------------------------

  function EntryOf(data: Word): S.BreakpointEntry {
    S.BreakpointEntry(data, SITE, TRAMPOLINE, RELOCATED, [NOP], 1)
  }

  function BuilderOf(abi: Abi): Builder {
    Builder(NopIsa(), abi, DISPATCH, DISPATCH, DISPATCH, DISPATCH)
  }

  /** One software breakpoint and nothing else. */
  ghost function CodeOf(abi: Abi, data: Word): L.Code {
    SiteWellFormed(abi, data);
    var w, site, e := WorldOf(abi, data), SiteOf(data), EntryOf(data);
    L.Code(Write(Nops(), SITE, [0xCC]), map[TRAMPOLINE := TrampolineCode(w, site), RELOCATED := RelocatedCode(w, site)],
      map[], map[], 1, map[1 := e], map[SITE := e], 2, map[], map[], 1, seq(32, _ => false))
  }

  lemma CodeSound(abi: Abi, data: Word)
    ensures L.Sound(CodeOf(abi, data))
  {
    hide TrampolineCode, RelocatedCode, WellFormedSite, NopIsa, NopUnit, Write;
    var c, e := CodeOf(abi, data), EntryOf(data);
    NothingRegistered(1, I.KeyOf, I.BlocksOf);
    NothingRegistered(1, H.KeyOf, H.BlocksOf);
    NothingRegistered(1, S.KeyOf, S.BlocksOf);
    var none: map<nat, S.BreakpointEntry>, nowhere: map<Word, S.BreakpointEntry> := map[], map[];
    Inserted(none, nowhere, 1, S.KeyOf, S.BlocksOf, e);
    assert none[1 := e] == c.bps && nowhere[S.KeyOf(e) := e] == c.byAddress;
  }

  lemma CodeIsApart(abi: Abi, data: Word)
    ensures L.Apart(Nops(), CodeOf(abi, data))
  {
    hide TrampolineCode, RelocatedCode, WellFormedSite, NopIsa, NopUnit;
    var c, e := CodeOf(abi, data), EntryOf(data);
    NoPatches(S.PatchOf);
    NoPatches(I.PatchOf);
    var none: map<nat, S.BreakpointEntry> := map[];
    PatchInserted(none, S.PatchOf, 1, e);
    assert none[1 := e] == c.bps;
    var live: set<Patch> := {};
    assert Read(Nops(), SITE, 1) == [NOP];
    EditConsistent(Nops(), Nops(), live, Edit(SITE, [0xCC]));
    assert L.HookPatches(c) + L.BreakpointPatches(c) == live + {S.PatchOf(e)};
  }

  lemma CodeDeployed(abi: Abi, data: Word)
    ensures Deployed(BuilderOf(abi), Nops(), CodeOf(abi, data))
    ensures BreaksDeployed(BuilderOf(abi), Nops(), CodeOf(abi, data))
  {
    hide WellFormedSite, NopIsa, NopUnit, TrampolineInsns, AllEmitted, Emit, TrampolineBytes, BlockAt, Relocatable;
    SiteWellFormed(abi, data);
    NopEmitted(data);
    NopBlockAt();
    TrampolineSize(abi, SiteOf(data).t);
  }

  lemma NopBlockAt()
    ensures BlockAt(NopIsa(), Nops(), SITE, 1) == Some([NopUnit()])
  {
    NopFetched(SITE);
    assert Read(Nops(), SITE, 16) == NopUnit().window;
    assert BlockAt(NopIsa(), Nops(), SITE + 1, 0) == Some([]);
    assert [NopUnit()] + [] == [NopUnit()];
  }

  /** The conditions under which a process is transparent can be met together. */
  lemma NopProcess(abi: Abi, data: Word)
    ensures var w, b, c := WorldOf(abi, data), BuilderOf(abi), CodeOf(abi, data);
            && L.Sound(c) && L.Apart(Nops(), c) && Deployed(b, Nops(), c) && BreaksDeployed(b, Nops(), c)
            && Separate(c) && OnlySites(c) && Represents(w, b, Nops(), c) && WellFormed(w)
  {
    hide L.Sound, L.Apart, Deployed, BreaksDeployed, Separate, OnlySites, Represents, WellFormed;
    CodeSound(abi, data);
    CodeIsApart(abi, data);
    CodeDeployed(abi, data);
    WorldWellFormed(abi, data);
    NopRepresented(abi, data);
    NopSeparate(abi, data);
  }

  lemma NopRepresented(abi: Abi, data: Word)
    ensures Represents(WorldOf(abi, data), BuilderOf(abi), Nops(), CodeOf(abi, data))
  {
    hide WellFormedSite, NopIsa, NopUnit, BlockAt, TrampolineCode, RelocatedCode;
    NopBlockAt();
    var c := CodeOf(abi, data);
    assert (map a | a in c.byAddress :: c.byAddress[a].trampolineCode) == map[SITE := TRAMPOLINE];
    assert SitesOf(BuilderOf(abi), Nops(), c) == map[SITE := SiteOf(data)];
  }

  lemma NopSeparate(abi: Abi, data: Word)
    ensures Separate(CodeOf(abi, data)) && OnlySites(CodeOf(abi, data))
  {
    hide WellFormedSite, NopIsa, NopUnit, TrampolineCode, RelocatedCode, AbsoluteJump;
    SiteWellFormed(abi, data);
    NothingRegistered(1, H.KeyOf, H.BlocksOf);
    NoPatches(I.PatchOf);
    var c, e := CodeOf(abi, data), EntryOf(data);
    forall p | p in L.HookPatches(c) + L.BreakpointPatches(c) ensures p == S.PatchOf(e) {
    }
  }
}

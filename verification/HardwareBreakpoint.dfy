/** Breakpoints in the debug registers: the slot mask, the entry maps, the trampolines of execute
    breakpoints, and the trap handler (native_hw_breakpoint.cc, debug-register platforms). */
module HardwareBreakpoint {
  import opened Words
  import opened Memory
  import opened X86
  import opened Machine
  import opened Relocator
  import opened Trampoline
  import opened Assembler
  import opened Process
  import opened Registry
  import opened ExceptionHandler
  import opened DebugRegisters

  const MAX_BREAKPOINTS: nat := 4

  datatype HwBreakpointRecord = HwBreakpointEntry(
    self: Word,
    address: Word,
    kind: HwBpType,
    size: int,
    slot: Slot,
    trampolineCode: Option<Word>,
    relocatedCode: Option<Word>
  )

  /** The two code blocks of an entry are different blocks. */
  type HwBreakpointEntry = e: HwBreakpointRecord | e.trampolineCode.Some? ==> e.trampolineCode != e.relocatedCode
    witness HwBreakpointEntry(0, 0, Execute, 1, 0, None, None)

  function ParseType(s: string): Option<HwBpType> {
    if s == "execute" then Some(Execute)
    else if s == "write" then Some(Write)
    else if s == "readwrite" then Some(ReadWrite)
    else None
  }

  function KeyOf(e: HwBreakpointEntry): Word {
    e.address
  }

  function BlocksOf(e: HwBreakpointEntry): set<Word> {
    Opt(e.trampolineCode) + Opt(e.relocatedCode)
  }

  /** A watch on an address, as far as the processor knows its size. */
  function Watched(address: Word, kind: HwBpType, size: int): Watch {
    Watch(true, address, Some(kind), if size in {1, 2, 4, 8} then size else 1)
  }

  /** The watch an entry asks for. */
  function Wanted(e: HwBreakpointEntry): Watch {
    Watched(e.address, e.kind, e.size)
  }

  /** The three names, and no others. */
  lemma TypeNames(s: string)
    ensures ParseType(s) == Some(Execute) <==> s == "execute"
    ensures ParseType(s) == Some(Write) <==> s == "write"
    ensures ParseType(s) == Some(ReadWrite) <==> s == "readwrite"
  {
  }

  /** The entry before it has a slot; only execute breakpoints need code. */
  function EntryFor(address: Word, kind: HwBpType, size: int, answers: Answers): HwBreakpointEntry {
    HwBreakpointEntry(answers.entry, address, kind, size, 0,
      if kind.Execute? then answers.trampoline else None, if kind.Execute? then answers.relocated else None)
  }

  lemma EntryBlocks(address: Word, kind: HwBpType, size: int, answers: Answers)
    ensures var e := EntryFor(address, kind, size, answers);
            && e.kind == kind && e.size == size
            && BlocksOf(e) == (if kind.Execute? then Opt(answers.trampoline) + Opt(answers.relocated) else {})
            && e.address == address
            && forall slot: Slot :: BlocksOf(e.(slot := slot)) == BlocksOf(e)
  {
  }

  /** The entry as it was registered: in the first slot that was free. */
  ghost predicate InFirstFree(e: HwBreakpointEntry, address: Word, kind: HwBpType, size: int, answers: Answers,
                              used: Bits) {
    && e == EntryFor(address, kind, size, answers).(slot := e.slot)
    && |used| == 32 && !used[e.slot] && forall s: Slot :: s < e.slot ==> used[s]
  }

  lemma FirstFreeEntry(e: HwBreakpointEntry, address: Word, kind: HwBpType, size: int, answers: Answers, used: Bits)
    requires InFirstFree(e, address, kind, size, answers, used)
    ensures e == EntryFor(e.address, kind, size, answers).(slot := e.slot) && e.address == address
  {
  }

  /** The watch that `set` was asked for. */
  predicate AsAsked(w: Watch, address: Word, typeStr: string, size: int) {
    && w.enabled && w.address == address && w.size == (if size in {1, 2, 4, 8} then size else 1)
    && (typeStr == "execute" || typeStr == "write" || typeStr == "readwrite")
    && (typeStr == "execute" ==> w.kind == Some(Execute))
    && (typeStr == "write" ==> w.kind == Some(Write))
    && (typeStr == "readwrite" ==> w.kind == Some(ReadWrite))
  }

  lemma AskedWatch(address: Word, typeStr: string, kind: HwBpType, size: int)
    requires ParseType(typeStr) == Some(kind)
    ensures AsAsked(Watched(address, kind, size), address, typeStr, size)
  {
    TypeNames(typeStr);
  }

  // ---- Slots --------------------------------------------------------------------------------------

  ghost predicate SlotTaken(byId: map<nat, HwBreakpointEntry>, slot: Slot) {
    exists id :: id in byId && byId[id].slot == slot
  }

  /** The mask holds exactly the slots of the live entries, each used once. */
  ghost predicate SlotsExact(byId: map<nat, HwBreakpointEntry>, used: Bits) {
    && |used| == 32
    && (forall slot: Slot :: used[slot] <==> SlotTaken(byId, slot))
    && (forall i, j :: i in byId && j in byId && byId[i].slot == byId[j].slot ==> i == j)
  }

  lemma SlotGiven(byId: map<nat, HwBreakpointEntry>, used: Bits, next: nat, e: HwBreakpointEntry)
    requires SlotsExact(byId, used) && next !in byId && !used[e.slot]
    ensures SlotsExact(byId[next := e], Or(used, 1, e.slot))
  {
    var byId' := byId[next := e];
    forall slot: Slot ensures Or(used, 1, e.slot)[slot] <==> SlotTaken(byId', slot) {
      if slot == e.slot {
        assert byId'[next].slot == slot;
      } else if SlotTaken(byId, slot) {
        var id :| id in byId && byId[id].slot == slot;
        assert byId'[id].slot == slot;
      }
    }
    forall i | i in byId ensures byId[i].slot != e.slot {
      assert byId[i].slot == e.slot ==> SlotTaken(byId, e.slot);
    }
  }

  lemma SlotBack(byId: map<nat, HwBreakpointEntry>, used: Bits, id: nat)
    requires SlotsExact(byId, used) && id in byId
    ensures SlotsExact(byId - {id}, AndNot(used, 1, byId[id].slot))
  {
    var byId' := byId - {id};
    forall slot: Slot ensures AndNot(used, 1, byId[id].slot)[slot] <==> SlotTaken(byId', slot) {
      if slot != byId[id].slot && SlotTaken(byId, slot) {
        var i :| i in byId && byId[i].slot == slot;
        assert byId'[i].slot == slot;
      }
    }
  }

  lemma HolderOf(byId: map<nat, HwBreakpointEntry>, byAddress: map<Word, HwBreakpointEntry>, next: nat, slot: Slot)
    returns (a: Word)
    requires InStep(byId, byAddress, next, KeyOf) && SlotTaken(byId, slot)
    ensures a in byAddress && byAddress[a].slot == slot
  {
    var id :| id in byId && byId[id].slot == slot;
    a := KeyOf(byId[id]);
  }

  /** With fewer than four entries one of the four slots is free. */
  lemma SlotLeft(byId: map<nat, HwBreakpointEntry>, byAddress: map<Word, HwBreakpointEntry>, next: nat, used: Bits)
    requires InStep(byId, byAddress, next, KeyOf) && SlotsExact(byId, used)
    requires |byAddress| < MAX_BREAKPOINTS
    ensures !(used[0] && used[1] && used[2] && used[3])
  {
    hide InStep, SlotTaken;
    if used[0] && used[1] && used[2] && used[3] {
      var a0 := HolderOf(byId, byAddress, next, 0);
      var a1 := HolderOf(byId, byAddress, next, 1);
      var a2 := HolderOf(byId, byAddress, next, 2);
      var a3 := HolderOf(byId, byAddress, next, 3);
      assert |{a0, a1, a2, a3}| == 4;
      FewerKeys({a0, a1, a2, a3}, byAddress.Keys);
    }
  }

  lemma Fewer(byAddress: map<Word, HwBreakpointEntry>, a: Word)
    ensures |byAddress - {a}| <= |byAddress|
  {
    FewerKeys((byAddress - {a}).Keys, byAddress.Keys);
  }

  lemma {:induction false} FewerKeys(xs: set<Word>, ys: set<Word>)
    requires xs <= ys
    ensures |xs| <= |ys|
    decreases xs
  {
    if xs != {} {
      var x :| x in xs;
      FewerKeys(xs - {x}, ys - {x});
    }
  }

  lemma OtherSlots(byId: map<nat, HwBreakpointEntry>, used: Bits, id: nat)
    requires SlotsExact(byId, used) && id in byId
    ensures forall i <- byId - {id} :: byId[i].slot != byId[id].slot
  {
  }

  lemma FreedSlots(used: Bits, slot: Slot)
    requires |used| == 32
    ensures |AndNot(used, 1, slot)| == 32
    ensures forall other: Slot :: AndNot(used, 1, slot)[other] == (used[other] && other != slot)
  {
  }

  /** Maps, slot mask and code blocks agree. */
  ghost predicate Bookkept(byId: map<nat, HwBreakpointEntry>, byAddress: map<Word, HwBreakpointEntry>, next: nat,
                           used: Bits, live: set<Word>) {
    && InStep(byId, byAddress, next, KeyOf)
    && OwnedApart(byId, BlocksOf) && Owned(byId, BlocksOf) <= live
    && SlotsExact(byId, used)
    && |byAddress| <= MAX_BREAKPOINTS
  }

  /** They still agree when an entry goes away. */
  lemma Dropped(byId: map<nat, HwBreakpointEntry>, byAddress: map<Word, HwBreakpointEntry>, next: nat, used: Bits,
                blocks: map<Word, seq<Byte>>, id: nat)
    requires Bookkept(byId, byAddress, next, used, blocks.Keys) && id in byId
    ensures var e, byId', byAddress' := byId[id], Without(byId, {id}), Without(byAddress, {byId[id].address});
            && Bookkept(byId', byAddress', next, AndNot(used, 1, e.slot), Without(blocks, BlocksOf(e)).Keys)
            && Owned(byId', BlocksOf) == Owned(byId, BlocksOf) - BlocksOf(e)
  {
    hide InStep, OwnedApart, Owned, SlotsExact, AndNot, BlocksOf, Without;
    DroppedMaps(byId, byAddress, next, id);
    DroppedMask(byId, byAddress, used, id);
    KeysWithout(blocks, BlocksOf(byId[id]));
  }

  lemma DroppedMaps(byId: map<nat, HwBreakpointEntry>, byAddress: map<Word, HwBreakpointEntry>, next: nat, id: nat)
    requires InStep(byId, byAddress, next, KeyOf) && OwnedApart(byId, BlocksOf) && id in byId
    ensures InStep(Without(byId, {id}), Without(byAddress, {byId[id].address}), next, KeyOf)
    ensures OwnedApart(Without(byId, {id}), BlocksOf)
    ensures Owned(Without(byId, {id}), BlocksOf) == Owned(byId, BlocksOf) - BlocksOf(byId[id])
  {
    hide InStep, OwnedApart, Owned, BlocksOf;
    Removed(byId, byAddress, next, KeyOf, BlocksOf, id);
  }

  lemma DroppedMask(byId: map<nat, HwBreakpointEntry>, byAddress: map<Word, HwBreakpointEntry>, used: Bits, id: nat)
    requires SlotsExact(byId, used) && id in byId
    ensures SlotsExact(Without(byId, {id}), AndNot(used, 1, byId[id].slot))
    ensures |Without(byAddress, {byId[id].address})| <= |byAddress|
  {
    hide SlotsExact, AndNot;
    SlotBack(byId, used, id);
    Fewer(byAddress, byId[id].address);
  }

  lemma DroppedSlots(byId: map<nat, HwBreakpointEntry>, byAddress: map<Word, HwBreakpointEntry>, next: nat, used: Bits,
                     live: set<Word>, id: nat)
    requires Bookkept(byId, byAddress, next, used, live) && id in byId
    ensures var e, byId' := byId[id], Without(byId, {id});
            && |used| == 32
            && (forall slot: Slot :: AndNot(used, 1, e.slot)[slot] == (used[slot] && slot != e.slot))
            && (forall i <- byId' :: i in byId && byId'[i] == byId[i] && byId[i].slot != e.slot)
            && (Without(byAddress, {e.address}) != map[] ==> byAddress != map[])
  {
    hide InStep, OwnedApart, Owned, AndNot, BlocksOf, SlotsExact;
    OtherSlots(byId, used, id);
    SlotsMask(byId, used);
    FreedSlots(used, byId[id].slot);
  }

  /** They still agree when a free slot goes to a new entry. */
  lemma Entered(byId: map<nat, HwBreakpointEntry>, byAddress: map<Word, HwBreakpointEntry>, next: nat, used: Bits,
                live: set<Word>, e: HwBreakpointEntry)
    requires Bookkept(byId, byAddress, next, used, live)
    requires e.address !in byAddress && |byAddress| < MAX_BREAKPOINTS && |used| == 32 && !used[e.slot]
    requires BlocksOf(e) !! Owned(byId, BlocksOf) && BlocksOf(e) <= live
    ensures Bookkept(byId[next := e], byAddress[e.address := e], next + 1, Or(used, 1, e.slot), live)
    ensures next !in byId
    ensures forall i <- byId :: byId[i].slot != e.slot
    ensures forall slot: Slot :: Or(used, 1, e.slot)[slot] == (used[slot] || slot == e.slot)
  {
    hide InStep, OwnedApart, Owned, SlotTaken, BlocksOf, SlotsExact;
    Inserted(byId, byAddress, next, KeyOf, BlocksOf, e);
    FreeIdAndSlot(byId, byAddress, next, used, e.slot);
    SlotGiven(byId, used, next, e);
    assert byAddress[e.address := e].Keys == byAddress.Keys + {e.address};
  }

  lemma FreeIdAndSlot(byId: map<nat, HwBreakpointEntry>, byAddress: map<Word, HwBreakpointEntry>, next: nat, used: Bits,
                      slot: Slot)
    requires InStep(byId, byAddress, next, KeyOf) && SlotsExact(byId, used) && !used[slot]
    ensures next !in byId && forall i <- byId :: byId[i].slot != slot
  {
    forall i | i in byId ensures byId[i].slot != slot {
      assert byId[i].slot == slot ==> SlotTaken(byId, slot);
    }
  }

  lemma SlotsMask(byId: map<nat, HwBreakpointEntry>, used: Bits)
    requires SlotsExact(byId, used)
    ensures |used| == 32
  {
  }

  /** New code blocks are nobody's yet. */
  lemma MoreLive(byId: map<nat, HwBreakpointEntry>, byAddress: map<Word, HwBreakpointEntry>, next: nat, used: Bits,
                 live: set<Word>, live': set<Word>)
    requires Bookkept(byId, byAddress, next, used, live) && live <= live'
    ensures Bookkept(byId, byAddress, next, used, live')
    ensures Owned(byId, BlocksOf) <= live && |used| == 32
    ensures |byAddress| < MAX_BREAKPOINTS ==> !(used[0] && used[1] && used[2] && used[3])
  {
    hide InStep, OwnedApart, Owned, BlocksOf;
    if |byAddress| < MAX_BREAKPOINTS {
      SlotLeft(byId, byAddress, next, used);
    }
  }

  /** What happens to other blocks does not matter. */
  lemma OtherLive(byId: map<nat, HwBreakpointEntry>, byAddress: map<Word, HwBreakpointEntry>, next: nat, used: Bits,
                  live: set<Word>, live': set<Word>)
    requires Bookkept(byId, byAddress, next, used, live) && Owned(byId, BlocksOf) <= live'
    ensures Bookkept(byId, byAddress, next, used, live')
  {
  }

  /** The blocks of an entry still to go are live. */
  lemma BookkeptLive(byId: map<nat, HwBreakpointEntry>, byAddress: map<Word, HwBreakpointEntry>, next: nat, used: Bits,
                     live: set<Word>, todo: set<nat>, id: nat)
    requires Bookkept(byId, byAddress, next, used, live) && id in todo && id in byId
    ensures BlocksOf(byId[id]) <= live - Released(byId, BlocksOf, todo)
    ensures BlocksOf(byId[id]) <= live
  {
    hide InStep, SlotsExact, BlocksOf;
    StillLive(byId, BlocksOf, live, todo, id);
  }

  lemma AddressPresent(byId: map<nat, HwBreakpointEntry>, byAddress: map<Word, HwBreakpointEntry>, next: nat,
                       used: Bits,
                   live: set<Word>, id: nat)
    requires Bookkept(byId, byAddress, next, used, live) && id in byId
    ensures byId[id].address in byAddress
  {
    KeyPresent(byId, byAddress, next, KeyOf, id);
  }

  /** During a removal of everything: a slot is still in use only for an entry still to go. */
  ghost predicate SlotsLeft(byId: map<nat, HwBreakpointEntry>, todo: set<nat>, was: Bits, used: Bits) {
    && |was| == |used| == 32
    && forall slot: Slot :: used[slot] ==> was[slot] && forall id :: id in byId && id !in todo ==> byId[id].slot != slot
  }

  lemma NothingBookkept(byId: map<nat, HwBreakpointEntry>, byAddress: map<Word, HwBreakpointEntry>, next: nat,
                        was: Bits,
                        live: set<Word>, used: Bits, live': set<Word>)
    requires Bookkept(byId, byAddress, next, was, live) && SlotsLeft(byId, {}, was, used)
    ensures Bookkept(map[], map[], next, used, live') && forall slot: Slot :: !used[slot]
    ensures Owned(byId, BlocksOf) <= live
  {
    hide InStep, Owned, OwnedApart, BlocksOf;
    NothingRegistered(next, KeyOf, BlocksOf);
    forall slot: Slot ensures !used[slot] && !SlotTaken(map[], slot) {
      assert was[slot] ==> SlotTaken(byId, slot);
    }
  }

  // ---- Which entry a trap belongs to ----------------------------------------------------------------

  datatype TrapAction = Redirect(trampoline: Word) | Hit(entry: HwBreakpointEntry) | NotHandled

  predicate ExecuteAt(byAddress: map<Word, HwBreakpointEntry>, pc: Word) {
    pc in byAddress && byAddress[pc].kind.Execute? && byAddress[pc].trampolineCode.Some?
  }

  predicate Triggered(byAddress: map<Word, HwBreakpointEntry>, dr6: Bits, a: Word)
    requires |dr6| == 64
  {
    a in byAddress && dr6[byAddress[a].slot]
  }

  /** The execute entry at the program counter, or else the entry of the lowest triggered slot. */
  ghost predicate Chosen(byAddress: map<Word, HwBreakpointEntry>, pc: Word, dr6: Bits, action: TrapAction)
    requires |dr6| == 64
  {
    if ExecuteAt(byAddress, pc) then action == Redirect(byAddress[pc].trampolineCode.value)
    else match action
      case Redirect(_) => false
      case Hit(e) =>
        && (exists a :: Triggered(byAddress, dr6, a) && byAddress[a] == e)
        && (forall a :: Triggered(byAddress, dr6, a) ==> e.slot <= byAddress[a].slot)
      case NotHandled => forall a :: !Triggered(byAddress, dr6, a)
  }

  /** Whatever order the hash map has, program counter, DR6 and registry determine the entry. */
  lemma ChosenOnce(byId: map<nat, HwBreakpointEntry>, byAddress: map<Word, HwBreakpointEntry>, next: nat, used: Bits,
                   pc: Word, dr6: Bits, one: TrapAction, two: TrapAction)
    requires InStep(byId, byAddress, next, KeyOf) && SlotsExact(byId, used) && |dr6| == 64
    requires Chosen(byAddress, pc, dr6, one) && Chosen(byAddress, pc, dr6, two)
    ensures one == two
  {
    if one.Hit? && two.Hit? {
      var a :| Triggered(byAddress, dr6, a) && byAddress[a] == one.entry;
      var b :| Triggered(byAddress, dr6, b) && byAddress[b] == two.entry;
      var i :| i in byId && byId[i] == byAddress[a];
      var j :| j in byId && byId[j] == byAddress[b];
      assert one.entry.slot == two.entry.slot;
    }
  }

  // ---- The registry -----------------------------------------------------------------------------------

  /** The first breakpoint takes a reference and registers the trap handler twice; only the first id
      is kept. */
  function Listening(r: Registered): Registered {
    With(With(Stepped(r, RefEnable), Breakpoint, HardwareTrap), SingleStep, HardwareTrap)
  }

  /** The last one drops the reference and unregisters what it still knows. */
  function Deaf(r: Registered, id: nat): Registered {
    Stepped(Minus(r, id), RefDisable)
  }

  class HardwareBreakpoints {
    const code: CodeMemory
    const handler: NativeExceptionHandler
    const thread: ThreadContext
    const isa: Isa
    const abi: Abi
    const dispatch: Word
    /** Slots some other debugger had enabled before. */
    ghost const foreign: set<Slot>
    var hwById: map<nat, HwBreakpointEntry>
    var hwByAddress: map<Word, HwBreakpointEntry>
    var nextHwId: nat
    var usedSlots: Bits
    var handlerInstalled: bool
    var handlerId: nat

    ghost predicate Valid()
      reads this, code, thread
    {
      && Bookkept(hwById, hwByAddress, nextHwId, usedSlots, code.blocks.Keys)
      && Mirrored()
      && (hwByAddress != map[] ==> handlerInstalled)
    }

    /** The debug registers hold exactly what the live entries ask for. */
    ghost predicate Mirrored()
      reads this`hwById, this`usedSlots, thread
    {
      && thread.Valid() && |usedSlots| == 32
      && (forall id <- hwById :: thread.WatchAt(hwById[id].slot) == Wanted(hwById[id]))
      && (forall slot: Slot :: !usedSlots[slot] && slot !in foreign ==> !thread.WatchAt(slot).enabled)
    }

    constructor (code: CodeMemory, handler: NativeExceptionHandler, thread: ThreadContext, isa: Isa, abi: Abi,
                 dispatch: Word)
      requires thread.Valid()
      ensures Valid() && hwById == map[] && hwByAddress == map[] && nextHwId == 1 && !handlerInstalled
      ensures this.dispatch == dispatch
      ensures this.code == code && this.handler == handler && this.thread == thread && this.isa == isa &&
                this.abi == abi
      ensures foreign == set slot: Slot | 0 <= slot < 4 && thread.WatchAt(slot).enabled
    {
      this.code, this.handler, this.thread := code, handler, thread;
      this.isa, this.abi, this.dispatch := isa, abi, dispatch;
      foreign := set slot: Slot | 0 <= slot < 4 && thread.WatchAt(slot).enabled;
      hwById, hwByAddress, nextHwId := map[], map[], 1;
      usedSlots := seq(32, _ => false);
      handlerInstalled, handlerId := false, 0;
      new;
      NothingRegistered(1, KeyOf, BlocksOf);
      forall slot: Slot ensures !usedSlots[slot] && !SlotTaken(map[], slot) {
      }
    }

    /** The hit function is called once, with the snapshot and the entry. */
    function StubFor(answers: Answers): (t: Stub)
      requires answers.relocated.Some?
      ensures forall context: Word :: context >= 0x28 ==>
                var below: Word := if abi.SystemV? then context - 8 else context - 0x28;
                Dispatches(abi, t, context) == [Call(dispatch, context, answers.entry, below)]
    {
      Stub(dispatch, None, answers.entry, answers.relocated.value)
    }

    /** The first slot that is not in use, or -1. */
    method FindFreeSlot() returns (slot: int)
      requires |usedSlots| == 32
      ensures -1 <= slot < 4
      ensures slot == -1 <==> forall s: Slot :: usedSlots[s]
      ensures slot >= 0 ==> !usedSlots[slot] && forall s: Slot :: s < slot ==> usedSlots[s]
    {
      for i := 0 to 4
        invariant forall s: Slot :: s < i ==> usedSlots[s]
      {
        if !usedSlots[i] {
          return i;
        }
      }
      return -1;
    }

    method EnsureHwHandlerInstalled()
      modifies this`handlerInstalled, this`handlerId, handler
      ensures handlerInstalled
      ensures old(handlerInstalled) ==> handler.View() == old(handler.View()) && handlerId == old(handlerId)
      ensures !old(handlerInstalled) ==>
                handlerId == old(handler.nextId) && handler.View() == Listening(old(handler.View()))
    {
      if handlerInstalled {
        return;
      }
      handler.DoRefEnable();
      handlerId := handler.RegisterHandler(Breakpoint, HardwareTrap);
      var _ := handler.RegisterHandler(SingleStep, HardwareTrap);
      handlerInstalled := true;
    }

    method MaybeRemoveHwHandler()
      modifies this`handlerInstalled, this`handlerId, handler
      ensures handlerInstalled == (old(handlerInstalled) && hwByAddress != map[])
      ensures old(handlerInstalled) == handlerInstalled ==>
                handler.View() == old(handler.View()) && handlerId == old(handlerId)
      ensures old(handlerInstalled) && !handlerInstalled ==> handler.View() == Deaf(old(handler.View()), old(handlerId))
    {
      if !handlerInstalled || |hwByAddress| != 0 {
        return;
      }
      handler.UnregisterHandler(handlerId);
      handler.DoRefDisable();
      handlerInstalled := false;
      handlerId := 0;
    }

    /** hwBpSigtrapHandler: the inner search goes through the hash map in any order. */
    method HandleTrap(pc: Word, dr6: Bits) returns (action: TrapAction)
      requires Valid() && |dr6| == 64
      ensures Chosen(hwByAddress, pc, dr6, action)
    {
      hide Bookkept;
      if pc in hwByAddress && hwByAddress[pc].kind.Execute? && hwByAddress[pc].trampolineCode.Some? {
        return Redirect(hwByAddress[pc].trampolineCode.value);
      }
      for slot := 0 to 4
        invariant forall a :: Triggered(hwByAddress, dr6, a) ==> slot <= hwByAddress[a].slot
      {
        if dr6[slot] {
          var todo := hwByAddress.Keys;
          while todo != {}
            invariant todo <= hwByAddress.Keys
            invariant forall a :: a in hwByAddress && a !in todo ==> hwByAddress[a].slot != slot
            decreases |todo|
          {
            var a :| a in todo;
            if hwByAddress[a].slot == slot {
              assert Triggered(hwByAddress, dr6, a);
              return Hit(hwByAddress[a]);
            }
            todo := todo - {a};
          }
        }
      }
      return NotHandled;
    }

    /** Take the slot, program it and enter the breakpoint in both maps. */
    method Register(e: HwBreakpointEntry) returns (id: nat)
      requires Valid() && e.address !in hwByAddress && |hwByAddress| < MAX_BREAKPOINTS && handlerInstalled
      requires !usedSlots[e.slot]
      requires BlocksOf(e) !! Owned(hwById, BlocksOf) && BlocksOf(e) <= code.blocks.Keys
      modifies this`hwById, this`hwByAddress, this`nextHwId, this`usedSlots, thread
      ensures Valid()
      ensures id == old(nextHwId) && nextHwId == id + 1
      ensures hwById == old(hwById)[id := e] && hwByAddress == old(hwByAddress)[e.address := e]
      ensures thread.Valid() && thread.WatchAt(e.slot) == Watched(e.address, e.kind, e.size)
      ensures forall slot: Slot :: slot != e.slot ==> thread.WatchAt(slot) == old(thread.WatchAt(slot))
    {
      hide Bookkept, Or, WatchIn, BlocksOf, Owned;
      Entered(hwById, hwByAddress, nextHwId, usedSlots, code.blocks.Keys, e);
      usedSlots := Or(usedSlots, 1, e.slot);
      thread.SetDebugReg(e.slot, e.address, e.kind, e.size);
      id := nextHwId;
      nextHwId := nextHwId + 1;
      hwById := hwById[id := e];
      hwByAddress := hwByAddress[e.address := e];
    }

    /** Execute breakpoints get a trampoline, so that the instruction itself can still run. */
    method BuildCode(address: Word, answers: Answers) returns (built: bool)
      requires Fresh(answers, code.blocks)
      requires address + 33 < WORD_SPAN
      modifies code`blocks
      ensures built <==> Buildable(address, answers)
      ensures !built ==> code.blocks == old(code.blocks)
      ensures built ==> BuiltFor(address, answers, old(code.blocks))
      ensures built ==> Grown(old(code.blocks), code.blocks, Opt(answers.trampoline) + Opt(answers.relocated))
    {
      hide Relocated, TrampolineBytes, TrampolineInsns, AllEmitted;
      var relocated, bytesConsumed := BuildRelocatedCode(isa, code.mem, address, 1);
      if relocated.None? {
        return false;
      }
      var relocatedCode := code.Add(relocated.value, answers.relocated);
      if relocatedCode.None? {
        return false;
      }
      var trampoline := BuildTrampoline(abi, dispatch, None, answers.entry, relocatedCode.value);
      var trampolineCode := code.Add(trampoline, answers.trampoline);
      if trampolineCode.None? {
        code.Release(relocatedCode);
        assert code.blocks == old(code.blocks);
        return false;
      }
      return true;
    }

    /** Only an execute breakpoint needs code. */
    method BuildCodeFor(address: Word, kind: HwBpType, size: int, answers: Answers) returns (built: bool)
      requires Fresh(answers, code.blocks)
      requires address + 33 < WORD_SPAN
      modifies code`blocks
      ensures built <==> (kind.Execute? ==> Buildable(address, answers))
      ensures !built ==> code.blocks == old(code.blocks)
      ensures built && kind.Execute? ==> BuiltFor(address, answers, old(code.blocks))
      ensures built ==> Grown(old(code.blocks), code.blocks, BlocksOf(EntryFor(address, kind, size, answers)))
    {
      hide Buildable, BuiltFor, Fresh;
      built := true;
      if kind.Execute? {
        built := BuildCode(address, answers);
      }
    }

    /** Give the breakpoint the first free slot. */
    method Place(e: HwBreakpointEntry) returns (id: nat, placed: HwBreakpointEntry)
      requires Valid() && e.address !in hwByAddress && |hwByAddress| < MAX_BREAKPOINTS && handlerInstalled
      requires BlocksOf(e) !! Owned(hwById, BlocksOf) && BlocksOf(e) <= code.blocks.Keys
      modifies this`hwById, this`hwByAddress, this`nextHwId, this`usedSlots, thread
      ensures Valid()
      ensures placed == e.(slot := placed.slot) && |old(usedSlots)| == 32
      ensures !old(usedSlots)[placed.slot] && forall s: Slot :: s < placed.slot ==> old(usedSlots)[s]
      ensures id == old(nextHwId) && nextHwId == id + 1
      ensures hwById == old(hwById)[id := placed] && hwByAddress == old(hwByAddress)[e.address := placed]
      ensures thread.Valid() && thread.WatchAt(placed.slot) == Watched(e.address, e.kind, e.size)
      ensures forall slot: Slot :: slot != placed.slot ==> thread.WatchAt(slot) == old(thread.WatchAt(slot))
    {
      hide Bookkept, Owned, WatchIn, Wanted;
      MoreLive(hwById, hwByAddress, nextHwId, usedSlots, code.blocks.Keys, code.blocks.Keys);
      var slot := FindFreeSlot();
      placed := e.(slot := slot);
      id := Register(placed);
    }

    /** Build the code an execute breakpoint needs and give the breakpoint a slot. */
    method Enter(address: Word, kind: HwBpType, size: int, answers: Answers) returns (r: Option<nat>)
      requires Valid() && Fresh(answers, code.blocks) && handlerInstalled
      requires address + 33 < WORD_SPAN && address !in hwByAddress && |hwByAddress| < MAX_BREAKPOINTS
      modifies this`hwById, this`hwByAddress, this`nextHwId, this`usedSlots, code`blocks, thread
      ensures Valid()
      ensures r.Some? <==> (kind.Execute? ==> Buildable(address, answers))
      ensures r.None? ==> code.blocks == old(code.blocks) && unchanged(thread)
                          && hwById == old(hwById) && hwByAddress == old(hwByAddress) && nextHwId == old(nextHwId) &&
                            usedSlots == old(usedSlots)
      ensures r.Some? ==> r.value == old(nextHwId) && nextHwId == r.value + 1 && r.value in hwById
                          && InFirstFree(hwById[r.value], address, kind, size, answers, old(usedSlots))
                          && hwById == old(hwById)[r.value := hwById[r.value]] &&
                            hwByAddress == old(hwByAddress)[address := hwById[r.value]]
      ensures r.Some? ==> forall slot: Slot :: slot != hwById[r.value].slot ==>
                thread.WatchAt(slot) == old(thread.WatchAt(slot))
      ensures r.Some? ==> thread.Valid() && thread.WatchAt(hwById[r.value].slot) == Watched(address, kind, size)
      ensures r.Some? ==> Grown(old(code.blocks), code.blocks, BlocksOf(hwById[r.value]))
      ensures r.Some? && kind.Execute? ==> BuiltFor(address, answers, old(code.blocks))
    {
      hide Buildable, BuiltFor, Fresh, Wanted, WatchIn, Owned, Bookkept, Mirrored, BlocksOf, Opt, EntryFor;
      var built := BuildCodeFor(address, kind, size, answers);
      if !built {
        return None;
      }
      MoreLive(hwById, hwByAddress, nextHwId, usedSlots, old(code.blocks).Keys, code.blocks.Keys);
      EntryBlocks(address, kind, size, answers);
      var bpId, e := Place(EntryFor(address, kind, size, answers));
      return Some(bpId);
    }

    ghost predicate Buildable(address: Word, answers: Answers)
      reads code`mem
    {
      Relocated(isa, code.mem, address, 1).Some? && answers.relocated.Some? && answers.trampoline.Some?
    }

    /** The two blocks of an execute breakpoint came on top of the blocks there were. */
    ghost predicate BuiltFor(address: Word, answers: Answers, before: map<Word, seq<Byte>>)
      reads code
    {
      CodeFor(address, answers, code.mem, before, code.blocks)
    }

    ghost predicate CodeFor(address: Word, answers: Answers, m: Memory, before: map<Word, seq<Byte>>,
                            blocks: map<Word, seq<Byte>>)
    {
      && Relocated(isa, m, address, 1).Some? && answers.relocated.Some? && answers.trampoline.Some?
      && AllEmitted(TrampolineInsns(abi, StubFor(answers)))
      && blocks == before[answers.relocated.value := Relocated(isa, m, address, 1).value.0]
                         [answers.trampoline.value := TrampolineBytes(abi, StubFor(answers))]
    }

    /** A failing call leaves code, registry and debug registers alone, but the handler stays. */
    method Set(address: Word, typeStr: string, size: int, answers: Answers) returns (r: Result<nat>)
      requires Valid() && Fresh(answers, code.blocks)
      requires address + 33 < WORD_SPAN
      modifies this, code`blocks, handler, thread
      ensures Valid()
      ensures r.Ok? <==>
                && (typeStr == "execute" || typeStr == "write" || typeStr == "readwrite")
                && address !in old(hwByAddress) && |old(hwByAddress)| < 4
                && (typeStr == "execute" ==> Buildable(address, answers))
      ensures r.Error? ==> code.blocks == old(code.blocks) && unchanged(thread)
                           && hwById == old(hwById) && hwByAddress == old(hwByAddress) && nextHwId == old(nextHwId) &&
                             usedSlots == old(usedSlots)
      ensures r.Ok? ==>
                && thread.Valid() && r.value in hwById
                && AsAsked(thread.WatchAt(hwById[r.value].slot), address, typeStr, size)
      ensures handlerInstalled == (old(handlerInstalled) || old(Acceptable(address, typeStr)))
      ensures old(handlerInstalled) == handlerInstalled ==>
                handler.View() == old(handler.View()) && handlerId == old(handlerId)
      ensures !old(handlerInstalled) && handlerInstalled ==>
                handlerId == old(handler.nextId) && handler.View() == Listening(old(handler.View()))
      ensures r.Ok? ==>
                ParseType(typeStr).Some? && address !in old(hwByAddress) && r.value == old(nextHwId) &&
                    nextHwId == r.value + 1 && r.value in hwById
                        && InFirstFree(hwById[r.value], address, ParseType(typeStr).value, size, answers,
                                       old(usedSlots))
                        && hwById == old(hwById)[r.value := hwById[r.value]] &&
                          hwByAddress == old(hwByAddress)[address := hwById[r.value]]
      ensures r.Ok? ==> forall slot: Slot :: slot != hwById[r.value].slot ==>
                thread.WatchAt(slot) == old(thread.WatchAt(slot))
      ensures r.Ok? ==> Grown(old(code.blocks), code.blocks, BlocksOf(hwById[r.value]))
      ensures r.Ok? && ParseType(typeStr) == Some(Execute) ==> BuiltFor(address, answers, old(code.blocks))
    {
      hide ParseType, Bookkept, Mirrored, WatchIn, Listening, Fresh, InFirstFree, BlocksOf, Buildable, BuiltFor;
      TypeNames(typeStr);
      var kind := ParseType(typeStr);
      if kind.None? {
        return Error("Invalid hardware breakpoint type");
      }
      if address in hwByAddress {
        return Error("Hardware breakpoint already set");
      }
      if |hwByAddress| >= MAX_BREAKPOINTS {
        return Error("Maximum hardware breakpoints reached");
      }
      EnsureHwHandlerInstalled();
      AskedWatch(address, typeStr, kind.value, size);
      hide AsAsked, Watched;
      var bpId := Enter(address, kind.value, size, answers);
      return if bpId.Some? then Ok(bpId.value) else Error("Cannot build the trampoline");
    }

    ghost predicate Acceptable(address: Word, typeStr: string)
      reads this`hwByAddress
    {
      ParseType(typeStr).Some? && address !in hwByAddress && |hwByAddress| < MAX_BREAKPOINTS
    }

    /** The slot of an entry that goes away is switched off and free again. */
    method ClearSlot(slot: Slot)
      requires thread.Valid() && |usedSlots| == 32
      modifies this`usedSlots, thread
      ensures thread.Valid() && usedSlots == AndNot(old(usedSlots), 1, slot)
      ensures !thread.WatchAt(slot).enabled
      ensures forall other: Slot :: other != slot ==> thread.WatchAt(other) == old(thread.WatchAt(other))
    {
      thread.ClearDebugReg(slot);
      usedSlots := AndNot(usedSlots, 1, slot);
    }

    /** Switch the breakpoint off and release its code. */
    method ClearEntry(e: HwBreakpointEntry)
      requires thread.Valid() && |usedSlots| == 32 && BlocksOf(e) <= code.blocks.Keys
      modifies this`usedSlots, thread, code`blocks
      ensures thread.Valid() && usedSlots == AndNot(old(usedSlots), 1, e.slot)
      ensures !thread.WatchAt(e.slot).enabled
      ensures forall other: Slot :: other != e.slot ==> thread.WatchAt(other) == old(thread.WatchAt(other))
      ensures code.blocks == Without(old(code.blocks), BlocksOf(e))
    {
      ClearSlot(e.slot);
      code.Release(e.trampolineCode);
      code.Release(e.relocatedCode);
      WithoutTwice(old(code.blocks), Opt(e.trampolineCode), Opt(e.relocatedCode));
    }

    /** Remove one entry from debug registers, code memory and both maps. */
    method Drop(id: nat)
      requires Valid() && id in hwById
      modifies this`hwById, this`hwByAddress, this`usedSlots, code`blocks, thread
      ensures Valid()
      ensures var e := old(hwById)[id];
              && Shrunk(old(code.blocks), code.blocks, BlocksOf(e))
              && hwById == Without(old(hwById), {id}) && hwByAddress == Without(old(hwByAddress), {e.address})
              && Owned(hwById, BlocksOf) == old(Owned(hwById, BlocksOf)) - BlocksOf(e)
              && !thread.WatchAt(e.slot).enabled
              && forall slot: Slot :: slot != e.slot ==> thread.WatchAt(slot) == old(thread.WatchAt(slot))
    {
      hide Bookkept, Owned, Wanted, AndNot, Without, BlocksOf, WatchIn;
      var e := hwById[id];
      Dropped(hwById, hwByAddress, nextHwId, usedSlots, code.blocks, id);
      DroppedSlots(hwById, hwByAddress, nextHwId, usedSlots, code.blocks.Keys, id);
      BookkeptLive(hwById, hwByAddress, nextHwId, usedSlots, code.blocks.Keys, {id}, id);
      KeysWithout(code.blocks, BlocksOf(e));
      ClearEntry(e);
      hwByAddress := Without(hwByAddress, {e.address});
      hwById := Without(hwById, {id});
    }

    method Remove(id: nat)
      requires Valid()
      modifies this, code`blocks, handler, thread
      ensures Valid() && nextHwId == old(nextHwId)
      ensures id !in old(hwById) ==> code.blocks == old(code.blocks) && unchanged(thread)
                                     && hwById == old(hwById) && hwByAddress == old(hwByAddress) &&
                                       usedSlots == old(usedSlots)
                                     && handlerInstalled == old(handlerInstalled)
      ensures id in old(hwById) ==>
                var e := old(hwById)[id];
                && Shrunk(old(code.blocks), code.blocks, BlocksOf(e))
                && hwById == Without(old(hwById), {id}) && hwByAddress == Without(old(hwByAddress), {e.address})
                && Owned(hwById, BlocksOf) == old(Owned(hwById, BlocksOf)) - BlocksOf(e)
                && !thread.WatchAt(e.slot).enabled
                && (forall slot: Slot :: slot != e.slot ==> thread.WatchAt(slot) == old(thread.WatchAt(slot)))
                && old(handlerInstalled) && handlerInstalled == (hwByAddress != map[])
      ensures old(handlerInstalled) == handlerInstalled ==>
                handler.View() == old(handler.View()) && handlerId == old(handlerId)
      ensures old(handlerInstalled) && !handlerInstalled ==> handler.View() == Deaf(old(handler.View()), old(handlerId))
    {
      hide Bookkept, Owned, Wanted, Deaf, Without, WatchIn;
      if id !in hwById {
        return;
      }
      AddressPresent(hwById, hwByAddress, nextHwId, usedSlots, code.blocks.Keys, id);
      Drop(id);
      MaybeRemoveHwHandler();
    }

    /** Everything switched off and released, in whatever order the hash map lists the entries. */
    method RemoveAll()
      requires Valid()
      modifies this, code`blocks, handler, thread
      ensures Valid() && hwById == map[] && hwByAddress == map[] && !handlerInstalled && nextHwId == old(nextHwId)
      ensures forall slot: Slot :: slot !in foreign ==> !thread.WatchAt(slot).enabled
      ensures Shrunk(old(code.blocks), code.blocks, old(Owned(hwById, BlocksOf)))
      ensures !old(handlerInstalled) ==> handler.View() == old(handler.View())
      ensures old(handlerInstalled) ==> handler.View() == Deaf(old(handler.View()), old(handlerId))
    {
      hide Bookkept, Owned, Released, AndNot, Deaf, Wanted, WatchIn, BlocksOf;
      var todo := hwById.Keys;
      ReleasedStart(hwById, BlocksOf);
      while todo != {}
        invariant todo <= hwById.Keys
        invariant thread.Valid() && |usedSlots| == 32
        invariant SlotsLeft(hwById, todo, old(usedSlots), usedSlots)
        invariant forall slot: Slot :: !usedSlots[slot] && slot !in foreign ==> !thread.WatchAt(slot).enabled
        invariant code.blocks == Without(old(code.blocks), Released(hwById, BlocksOf, todo))
        modifies this`usedSlots, code`blocks, thread
        decreases |todo|
      {
        var id :| id in todo;
        ReleasedStep(hwById, BlocksOf, todo, id);
        WithoutTwice(old(code.blocks), Released(hwById, BlocksOf, todo), BlocksOf(hwById[id]));
        FreedSlots(usedSlots, hwById[id].slot);
        BookkeptLive(hwById, hwByAddress, nextHwId, old(usedSlots), old(code.blocks).Keys, todo, id);
        KeysWithout(old(code.blocks), Released(hwById, BlocksOf, todo));
        ClearEntry(hwById[id]);
        todo := todo - {id};
      }
      hwById := map[];
      hwByAddress := map[];
      NothingBookkept(old(hwById), old(hwByAddress), nextHwId, old(usedSlots), old(code.blocks).Keys, usedSlots,
                      code.blocks.Keys);
      MaybeRemoveHwHandler();
    }
  }
}

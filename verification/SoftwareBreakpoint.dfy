/** INT3 breakpoints: the entry maps, the patched byte, the code blocks, and the handler that is
    installed with the first breakpoint and removed with the last (native_breakpoint.cc). */
module SoftwareBreakpoint {
  import opened Words
  import opened Memory
  import opened X86
  import opened Machine
  import opened Relocator
  import opened Trampoline
  import opened Assembler
  import opened PatchLog
  import opened Process
  import opened Registry
  import opened ExceptionHandler

  const BP_INSN_SIZE: nat := 1

  datatype BreakpointRecord = BreakpointEntry(
    self: Word,
    address: Word,
    trampolineCode: Word,
    relocatedCode: Word,
    originalBytes: seq<Byte>,
    originalInsnSize: nat
  )

  /** The two code blocks of an entry are different blocks. */
  type BreakpointEntry = e: BreakpointRecord | e.trampolineCode != e.relocatedCode
    witness BreakpointEntry(0, 0, 0, 1, [], 0)

  function KeyOf(e: BreakpointEntry): Word {
    e.address
  }

  function BlocksOf(e: BreakpointEntry): set<Word> {
    {e.trampolineCode, e.relocatedCode}
  }

  function PatchOf(e: BreakpointEntry): Patch {
    Patch(e.address, e.originalBytes)
  }

  /** The first breakpoint takes a reference and registers the trap handler. */
  function Listening(r: Registered): Registered {
    With(Stepped(r, RefEnable), Breakpoint, BreakpointTrap)
  }

  /** The last one unregisters it and drops the reference. */
  function Deaf(r: Registered, id: nat): Registered {
    Stepped(Minus(r, id), RefDisable)
  }

  class SoftwareBreakpoints {
    const code: CodeMemory
    const handler: NativeExceptionHandler
    const isa: Isa
    const abi: Abi
    const dispatch: Word
    var bpById: map<nat, BreakpointEntry>
    var bpByAddress: map<Word, BreakpointEntry>
    var nextBpId: nat
    var handlerInstalled: bool
    var handlerId: nat

    ghost predicate Valid()
      reads this, code
    {
      && InStep(bpById, bpByAddress, nextBpId, KeyOf)
      && OwnedApart(bpById, BlocksOf)
      && Owned(bpById, BlocksOf) <= code.blocks.Keys
      && (bpByAddress != map[] ==> handlerInstalled)
    }

    constructor (code: CodeMemory, handler: NativeExceptionHandler, isa: Isa, abi: Abi, dispatch: Word)
      ensures Valid() && bpById == map[] && bpByAddress == map[] && !handlerInstalled && nextBpId == 1
      ensures this.code == code && this.handler == handler && this.isa == isa && this.abi == abi &&
                this.dispatch == dispatch
    {
      this.code, this.handler, this.isa, this.abi, this.dispatch := code, handler, isa, abi, dispatch;
      bpById, bpByAddress, nextBpId, handlerInstalled, handlerId := map[], map[], 1, false, 0;
    }

    /** The map the signal handler searches: from patched addresses to trampolines. */
    function Traps(): map<Word, Word>
      reads this
    {
      map a | a in bpByAddress :: bpByAddress[a].trampolineCode
    }

    /** breakpointSigtrapHandler: look one byte back, resume at the trampoline. */
    method HandleTrap(reportedPc: Word) returns (resume: Option<Word>)
      ensures resume == TrapHandler(Traps(), reportedPc)
    {
      var bpAddr := Plus(reportedPc, -1);
      if bpAddr !in bpByAddress {
        return None;
      }
      return Some(bpByAddress[bpAddr].trampolineCode);
    }

    /** The hit function is called once, with the snapshot and the entry. */
    function StubFor(answers: Answers): (t: Stub)
      requires answers.relocated.Some?
      ensures forall context: Word :: context >= 0x28 ==>
                var below: Word := if abi.SystemV? then context - 8 else context - 0x28;
                Dispatches(abi, t, context) == [Call(dispatch, context, answers.entry, below)]
    {
      Stub(dispatch, None, answers.entry, answers.relocated.value)
    }

    method EnsureHandlerInstalled()
      modifies this`handlerInstalled, this`handlerId, handler
      ensures handlerInstalled
      ensures old(handlerInstalled) ==> handler.View() == old(handler.View()) && handlerId == old(handlerId)
      ensures !old(handlerInstalled) ==>
                handlerId == old(handler.nextId) && handler.View() == Listening(old(handler.View()))
    {
      if handlerInstalled {
        return;
      }
      handler.DoRefEnable();
      handlerId := handler.RegisterHandler(Breakpoint, BreakpointTrap);
      handlerInstalled := true;
    }

    method MaybeRemoveHandler()
      modifies this`handlerInstalled, this`handlerId, handler
      ensures handlerInstalled == (old(handlerInstalled) && bpByAddress != map[])
      ensures old(handlerInstalled) == handlerInstalled ==>
                handler.View() == old(handler.View()) && handlerId == old(handlerId)
      ensures old(handlerInstalled) && !handlerInstalled ==> handler.View() == Deaf(old(handler.View()), old(handlerId))
    {
      if !handlerInstalled || |bpByAddress| != 0 {
        return;
      }
      handler.UnregisterHandler(handlerId);
      handler.DoRefDisable();
      handlerInstalled := false;
      handlerId := 0;
    }

    method Register(e: BreakpointEntry) returns (id: nat)
      requires Valid() && e.address !in bpByAddress && handlerInstalled
      requires BlocksOf(e) !! Owned(bpById, BlocksOf) && BlocksOf(e) <= code.blocks.Keys
      modifies this`bpById, this`bpByAddress, this`nextBpId
      ensures Valid()
      ensures id == old(nextBpId) && nextBpId == id + 1
      ensures bpById == old(bpById)[id := e] && bpByAddress == old(bpByAddress)[e.address := e]
    {
      Inserted(bpById, bpByAddress, nextBpId, KeyOf, BlocksOf, e);
      id := nextBpId;
      nextBpId := nextBpId + 1;
      bpById := bpById[id := e];
      bpByAddress := bpByAddress[e.address := e];
    }

    ghost predicate Buildable(address: Word, answers: Answers, mem: Memory) {
      Relocated(isa, mem, address, BP_INSN_SIZE).Some? && answers.relocated.Some? && answers.trampoline.Some?
    }

    /** The entry for a breakpoint set in `mem`. */
    ghost function EntryFor(address: Word, answers: Answers, mem: Memory): BreakpointEntry
      requires Buildable(address, answers, mem)
    {
      BreakpointEntry(answers.entry, address, answers.trampoline.value, answers.relocated.value,
        Read(mem, address, BP_INSN_SIZE), Relocated(isa, mem, address, BP_INSN_SIZE).value.1)
    }

    /** Its two code blocks came on top of the blocks there were. */
    ghost predicate BuiltFor(address: Word, answers: Answers, mem: Memory, before: map<Word, seq<Byte>>,
                             blocks: map<Word, seq<Byte>>)
      requires Buildable(address, answers, mem)
    {
      && AllEmitted(TrampolineInsns(abi, StubFor(answers)))
      && blocks == before[answers.relocated.value := Relocated(isa, mem, address, BP_INSN_SIZE).value.0]
                         [answers.trampoline.value := TrampolineBytes(abi, StubFor(answers))]
    }

    /** Build both code blocks; if the second one fails the first is released. */
    method BuildCode(address: Word, answers: Answers) returns (built: bool, bytesConsumed: nat)
      requires Fresh(answers, code.blocks)
      requires address + BP_INSN_SIZE + 32 < WORD_SPAN
      modifies code`blocks
      ensures built <==> Buildable(address, answers, code.mem)
      ensures !built ==> code.blocks == old(code.blocks)
      ensures built ==> BuiltFor(address, answers, code.mem, old(code.blocks), code.blocks)
                        && bytesConsumed == EntryFor(address, answers, code.mem).originalInsnSize
      ensures built ==> Grown(old(code.blocks), code.blocks, BlocksOf(EntryFor(address, answers, code.mem)))
    {
      hide Relocated, TrampolineBytes, TrampolineInsns, AllEmitted;
      var relocated;
      relocated, bytesConsumed := BuildRelocatedCode(isa, code.mem, address, BP_INSN_SIZE);
      if relocated.None? {
        return false, 0;
      }
      var relocatedCode := code.Add(relocated.value, answers.relocated);
      if relocatedCode.None? {
        return false, 0;
      }
      var trampoline := BuildTrampoline(abi, dispatch, None, answers.entry, relocatedCode.value);
      var trampolineCode := code.Add(trampoline, answers.trampoline);
      if trampolineCode.None? {
        code.Release(relocatedCode);
        assert code.blocks == old(code.blocks);
        return false, 0;
      }
      built := true;
    }

    /** Build, patch and register. */
    method Enter(address: Word, answers: Answers) returns (r: Option<nat>)
      requires Valid() && Fresh(answers, code.blocks) && handlerInstalled && address !in bpByAddress
      requires address + BP_INSN_SIZE + 32 < WORD_SPAN
      modifies this`bpById, this`bpByAddress, this`nextBpId, code
      ensures Valid()
      ensures r.Some? <==> Buildable(address, answers, old(code.mem))
      ensures r.None? ==> code.mem == old(code.mem) && code.blocks == old(code.blocks)
                          && bpById == old(bpById) && bpByAddress == old(bpByAddress) && nextBpId == old(nextBpId)
      ensures r.Some? ==> var e := EntryFor(address, answers, old(code.mem));
                          && r.value == old(nextBpId) && nextBpId == old(nextBpId) + 1
                          && bpById == old(bpById)[r.value := e] && bpByAddress == old(bpByAddress)[address := e]
                          && code.mem == Write(old(code.mem), address, [0xCC])
                          && Grown(old(code.blocks), code.blocks, BlocksOf(e))
                          && BuiltFor(address, answers, old(code.mem), old(code.blocks), code.blocks)
    {
      hide Write, InStep, OwnedApart, Owned, BuiltFor, Fresh, Relocated;
      var originalBytes := Read(code.mem, address, BP_INSN_SIZE);
      var built, bytesConsumed := BuildCode(address, answers);
      if !built {
        return None;
      }
      code.Patch(address, [0xCC]);
      var e := BreakpointEntry(answers.entry, address, answers.trampoline.value, answers.relocated.value, originalBytes,
                               bytesConsumed);
      var bpId := Register(e);
      return Some(bpId);
    }

    /** A failing build leaves code and registry alone, but the handler stays installed. */
    method Set(address: Word, answers: Answers) returns (r: Result<nat>)
      requires Valid() && Fresh(answers, code.blocks)
      requires address + BP_INSN_SIZE + 32 < WORD_SPAN
      modifies this, code, handler
      ensures Valid()
      ensures r.Ok? <==> address !in old(bpByAddress) && Buildable(address, answers, old(code.mem))
      ensures r.Error? ==> code.mem == old(code.mem) && code.blocks == old(code.blocks)
                           && bpById == old(bpById) && bpByAddress == old(bpByAddress) && nextBpId == old(nextBpId)
      ensures handlerInstalled == (old(handlerInstalled) || address !in old(bpByAddress))
      ensures old(handlerInstalled) == handlerInstalled ==>
                handler.View() == old(handler.View()) && handlerId == old(handlerId)
      ensures !old(handlerInstalled) && handlerInstalled ==>
                handlerId == old(handler.nextId) && handler.View() == Listening(old(handler.View()))
      ensures r.Ok? ==> var e := EntryFor(address, answers, old(code.mem));
                        && r.value == old(nextBpId) && nextBpId == old(nextBpId) + 1
                        && bpById == old(bpById)[r.value := e] && bpByAddress == old(bpByAddress)[address := e]
                        && code.mem == Write(old(code.mem), address, [0xCC])
                        && Grown(old(code.blocks), code.blocks, BlocksOf(e))
                        && BuiltFor(address, answers, old(code.mem), old(code.blocks), code.blocks)
    {
      hide Write, InStep, OwnedApart, Owned, BuiltFor, Fresh, Buildable, EntryFor, BlocksOf, Listening;
      if address in bpByAddress {
        return Error("Software breakpoint already set");
      }
      EnsureHandlerInstalled();
      var bpId := Enter(address, answers);
      return if bpId.Some? then Ok(bpId.value) else Error("Cannot build the trampoline");
    }

    /** Original byte back, both code blocks released. */
    method RestoreEntry(e: BreakpointEntry)
      requires BlocksOf(e) <= code.blocks.Keys
      modifies code
      ensures code.mem == Undo(old(code.mem), PatchOf(e))
      ensures code.blocks == Without(old(code.blocks), BlocksOf(e))
    {
      code.Patch(e.address, e.originalBytes);
      code.Release(Some(e.trampolineCode));
      code.Release(Some(e.relocatedCode));
      WithoutTwice(old(code.blocks), {e.trampolineCode}, {e.relocatedCode});
    }

    method Remove(id: nat)
      requires Valid()
      modifies this, code, handler
      ensures Valid() && nextBpId == old(nextBpId)
      ensures id !in old(bpById) ==>
                code.mem == old(code.mem) && code.blocks == old(code.blocks) &&
                    handlerInstalled == old(handlerInstalled)
                                     && handlerId == old(handlerId) && bpById == old(bpById) &&
                                       bpByAddress == old(bpByAddress)
      ensures id in old(bpById) ==>
                var e := old(bpById)[id];
                && code.mem == Undo(old(code.mem), PatchOf(e))
                && Shrunk(old(code.blocks), code.blocks, BlocksOf(e))
                && bpById == Without(old(bpById), {id}) && bpByAddress == Without(old(bpByAddress), {e.address})
                && Owned(bpById, BlocksOf) == old(Owned(bpById, BlocksOf)) - BlocksOf(e)
                && old(handlerInstalled) && handlerInstalled == (bpByAddress != map[])
      ensures old(handlerInstalled) == handlerInstalled ==>
                handler.View() == old(handler.View()) && handlerId == old(handlerId)
      ensures old(handlerInstalled) && !handlerInstalled ==> handler.View() == Deaf(old(handler.View()), old(handlerId))
    {
      hide Write, Undo, InStep, OwnedApart, Owned;
      if id !in bpById {
        return;
      }
      var e := bpById[id];
      OwnedHas(bpById, BlocksOf, id);
      Removed(bpById, bpByAddress, nextBpId, KeyOf, BlocksOf, id);
      KeyPresent(bpById, bpByAddress, nextBpId, KeyOf, id);
      RestoreEntry(e);
      bpByAddress := bpByAddress - {e.address};
      bpById := bpById - {id};
      MaybeRemoveHandler();
    }

    method RemoveAll() returns (ghost order: seq<nat>)
      requires Valid()
      modifies this, code, handler
      ensures Valid() && bpById == map[] && bpByAddress == map[] && !handlerInstalled && nextBpId == old(nextBpId)
      ensures Lists(order, old(bpById).Keys)
      ensures code.mem == UndoIds(old(code.mem), old(bpById), PatchOf, order)
      ensures Shrunk(old(code.blocks), code.blocks, old(Owned(bpById, BlocksOf)))
      ensures !old(handlerInstalled) ==> handler.View() == old(handler.View())
      ensures old(handlerInstalled) ==> handler.View() == Deaf(old(handler.View()), old(handlerId))
    {
      hide Write, Undo, InStep, OwnedApart, Owned, Released, BlocksOf, PatchOf;
      order := [];
      var todo := bpById.Keys;
      ReleasedStart(bpById, BlocksOf);
      while todo != {}
        invariant todo <= bpById.Keys
        invariant Lists(order, bpById.Keys - todo)
        invariant code.mem == UndoIds(old(code.mem), bpById, PatchOf, order)
        invariant code.blocks == Without(old(code.blocks), Released(bpById, BlocksOf, todo))
        modifies code
        decreases |todo|
      {
        var id :| id in todo;
        ReleasedStep(bpById, BlocksOf, todo, id);
        WithoutTwice(old(code.blocks), Released(bpById, BlocksOf, todo), BlocksOf(bpById[id]));
        StillLive(bpById, BlocksOf, old(code.blocks.Keys), todo, id);
        KeysWithout(old(code.blocks), Released(bpById, BlocksOf, todo));
        RestoreEntry(bpById[id]);
        ghost var before := order;
        order := order + [id];
        assert order[..|order| - 1] == before;
        todo := todo - {id};
      }
      bpById := map[];
      bpByAddress := map[];
      NothingRegistered(nextBpId, KeyOf, BlocksOf);
      MaybeRemoveHandler();
    }
  }
}

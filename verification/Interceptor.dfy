/** Hooks and replacements: two maps, patched code and JIT blocks (native_interceptor.cc). */
module Interceptor {
  import opened Words
  import opened Memory
  import opened X86
  import opened Machine
  import opened Relocator
  import opened Trampoline
  import opened Assembler
  import opened PatchLog
  import opened Process
  import opened Registry

  /** `self` is the address of the heap object; a replacement has no trampoline. */
  datatype HookRecord = HookEntry(
    self: Word,
    target: Word,
    trampolineCode: Option<Word>,
    relocatedCode: Word,
    originalBytes: seq<Byte>
  )

  /** The two code blocks of an entry are different blocks. */
  type HookEntry = e: HookRecord | e.trampolineCode != Some(e.relocatedCode) witness HookEntry(0, 0, None, 0, [])

  function KeyOf(e: HookEntry): Word {
    e.target
  }

  function BlocksOf(e: HookEntry): set<Word> {
    Opt(e.trampolineCode) + {e.relocatedCode}
  }

  function PatchOf(e: HookEntry): Patch {
    Patch(e.target, e.originalBytes)
  }

  class Interceptor {
    const code: CodeMemory
    const isa: Isa
    const abi: Abi
    const dispatch: Word
    const dispatchLeave: Word
    var hooksById: map<nat, HookEntry>
    var hooksByTarget: map<Word, HookEntry>
    var nextHookId: nat

    ghost predicate Valid()
      reads this, code
    {
      && InStep(hooksById, hooksByTarget, nextHookId, KeyOf)
      && OwnedApart(hooksById, BlocksOf)
      && Owned(hooksById, BlocksOf) <= code.blocks.Keys
    }

    constructor (code: CodeMemory, isa: Isa, abi: Abi, dispatch: Word, dispatchLeave: Word)
      ensures Valid() && hooksById == map[] && hooksByTarget == map[] && nextHookId == 1
      ensures this.code == code && this.isa == isa && this.abi == abi
      ensures this.dispatch == dispatch && this.dispatchLeave == dispatchLeave
    {
      this.code, this.isa, this.abi := code, isa, abi;
      this.dispatch, this.dispatchLeave := dispatch, dispatchLeave;
      hooksById, hooksByTarget, nextHookId := map[], map[], 1;
    }

    ghost predicate Builds(target: Word, answers: Answers)
      reads this, code
    {
      Relocated(isa, code.mem, target, PATCH_SIZE).Some? && answers.relocated.Some?
    }

    /** The enter function is called first, then the leave function, both with the snapshot and the entry. */
    function StubFor(answers: Answers): (t: Stub)
      requires answers.relocated.Some?
      ensures forall context: Word :: context >= 0x28 ==>
                var below: Word := if abi.SystemV? then context - 8 else context - 0x28;
                Dispatches(abi, t, context) == [Call(dispatch, context, answers.entry, below),
                                                Call(dispatchLeave, context, answers.entry, below)]
    {
      Stub(dispatch, Some(dispatchLeave), answers.entry, answers.relocated.value)
    }

    /** The relocated instructions and the trampoline came on top of the blocks there were. */
    ghost predicate BuiltFor(target: Word, answers: Answers, mem: Memory, before: map<Word, seq<Byte>>,
                             blocks: map<Word, seq<Byte>>)
    {
      && answers.relocated.Some? && answers.trampoline.Some? && Relocated(isa, mem, target, PATCH_SIZE).Some?
      && AllEmitted(TrampolineInsns(abi, StubFor(answers)))
      && blocks == before[answers.relocated.value := Relocated(isa, mem, target, PATCH_SIZE).value.0]
                         [answers.trampoline.value := TrampolineBytes(abi, StubFor(answers))]
    }

    /** Overwrite the target with an absolute jump. */
    method JumpTo(target: Word, destination: Word)
      modifies code`mem
      ensures code.mem == Write(old(code.mem), target, AbsoluteJump(destination))
    {
      var patchBuf := new Byte[16](_ => 0);
      GeneratePatchBytes(patchBuf, destination);
      code.Patch(target, patchBuf[..PATCH_SIZE]);
    }

    method Register(e: HookEntry) returns (id: nat)
      requires Valid() && e.target !in hooksByTarget
      requires BlocksOf(e) !! Owned(hooksById, BlocksOf) && BlocksOf(e) <= code.blocks.Keys
      modifies this`hooksById, this`hooksByTarget, this`nextHookId
      ensures Valid()
      ensures id == old(nextHookId) && nextHookId == id + 1
      ensures hooksById == old(hooksById)[id := e] && hooksByTarget == old(hooksByTarget)[e.target := e]
    {
      Inserted(hooksById, hooksByTarget, nextHookId, KeyOf, BlocksOf, e);
      id := nextHookId;
      nextHookId := nextHookId + 1;
      hooksById := hooksById[id := e];
      hooksByTarget := hooksByTarget[e.target := e];
    }

    method Attach(target: Word, answers: Answers) returns (r: Result<nat>)
      requires Valid() && Fresh(answers, code.blocks)
      requires target + PATCH_SIZE + 32 < WORD_SPAN
      modifies this, code
      ensures Valid()
      ensures r.Ok? <==> target !in old(hooksByTarget) && old(Builds(target, answers)) && answers.trampoline.Some?
      ensures r.Error? ==> code.mem == old(code.mem) && code.blocks == old(code.blocks)
                           && hooksById == old(hooksById) && hooksByTarget == old(hooksByTarget) &&
                             nextHookId == old(nextHookId)
      ensures r.Ok? ==>
                var e := HookEntry(answers.entry, target, answers.trampoline, answers.relocated.value,
                                   Read(old(code.mem), target, PATCH_SIZE));
                && r.value == old(nextHookId) && nextHookId == old(nextHookId) + 1
                && hooksById == old(hooksById)[r.value := e] && hooksByTarget == old(hooksByTarget)[target := e]
                && code.mem == Write(old(code.mem), target, AbsoluteJump(answers.trampoline.value))
                && Grown(old(code.blocks), code.blocks, BlocksOf(e))
                && BuiltFor(target, answers, old(code.mem), old(code.blocks), code.blocks)
    {
      hide Relocated, TrampolineBytes, TrampolineInsns, AbsoluteJump, Write, Read, InStep, OwnedApart, Owned;
      hide AllEmitted;
      if target in hooksByTarget {
        return Error("Already hooked");
      }
      var originalBytes := Read(code.mem, target, PATCH_SIZE);
      var relocated, bytesConsumed := BuildRelocatedCode(isa, code.mem, target, PATCH_SIZE);
      if relocated.None? {
        return Error("Cannot disassemble");
      }
      var relocatedCode := code.Add(relocated.value, answers.relocated);
      if relocatedCode.None? {
        return Error("asmjit: failed to build relocated code");
      }
      var trampoline := BuildTrampoline(abi, dispatch, Some(dispatchLeave), answers.entry, relocatedCode.value);
      var trampolineCode := code.Add(trampoline, answers.trampoline);
      if trampolineCode.None? {
        code.Release(relocatedCode);
        assert code.blocks == old(code.blocks);
        return Error("asmjit: failed to build trampoline");
      }
      JumpTo(target, trampolineCode.value);
      var hookId := Register(HookEntry(answers.entry, target, trampolineCode, relocatedCode.value, originalBytes));
      return Ok(hookId);
    }

    /** Returns the code that still runs the original function. */
    method Replace(target: Word, replacement: Word, answers: Answers) returns (r: Result<Word>)
      requires Valid() && Fresh(answers, code.blocks)
      requires target + PATCH_SIZE + 32 < WORD_SPAN
      modifies this, code
      ensures Valid()
      ensures r.Ok? <==> target !in old(hooksByTarget) && old(Builds(target, answers))
      ensures r.Error? ==> code.mem == old(code.mem) && code.blocks == old(code.blocks)
                           && hooksById == old(hooksById) && hooksByTarget == old(hooksByTarget) &&
                             nextHookId == old(nextHookId)
      ensures r.Ok? ==>
                var e := HookEntry(answers.entry, target, None, answers.relocated.value,
                                   Read(old(code.mem), target, PATCH_SIZE));
                && r.value == e.relocatedCode && nextHookId == old(nextHookId) + 1
                && hooksById == old(hooksById)[old(nextHookId) := e] && hooksByTarget == old(hooksByTarget)[target := e]
                && code.mem == Write(old(code.mem), target, AbsoluteJump(replacement))
                && Grown(old(code.blocks), code.blocks, BlocksOf(e))
                && code.blocks ==
                  old(code.blocks)[e.relocatedCode := Relocated(isa, old(code.mem), target, PATCH_SIZE).value.0]
    {
      hide Relocated, AbsoluteJump, Write, Read, InStep, OwnedApart, Owned;
      if target in hooksByTarget {
        return Error("Already hooked");
      }
      var originalBytes := Read(code.mem, target, PATCH_SIZE);
      var relocated, bytesConsumed := BuildRelocatedCode(isa, code.mem, target, PATCH_SIZE);
      if relocated.None? {
        return Error("Cannot disassemble");
      }
      var relocatedCode := code.Add(relocated.value, answers.relocated);
      if relocatedCode.None? {
        return Error("asmjit: failed to build relocated code");
      }
      JumpTo(target, replacement);
      var _ := Register(HookEntry(answers.entry, target, None, relocatedCode.value, originalBytes));
      return Ok(relocatedCode.value);
    }

    /** Undo one entry: its bytes back, its blocks released, its place in both maps free. */
    method Drop(id: nat)
      requires Valid() && id in hooksById
      modifies this`hooksById, this`hooksByTarget, code
      ensures Valid()
      ensures var e := old(hooksById)[id];
              && code.mem == Undo(old(code.mem), PatchOf(e))
              && Shrunk(old(code.blocks), code.blocks, BlocksOf(e))
              && hooksById == Without(old(hooksById), {id}) && hooksByTarget == Without(old(hooksByTarget), {e.target})
              && Owned(hooksById, BlocksOf) == old(Owned(hooksById, BlocksOf)) - BlocksOf(e)
    {
      hide Write;
      var e := hooksById[id];
      OwnedHas(hooksById, BlocksOf, id);
      Removed(hooksById, hooksByTarget, nextHookId, KeyOf, BlocksOf, id);
      RestoreEntry(e);
      hooksByTarget := hooksByTarget - {e.target};
      hooksById := hooksById - {id};
    }

    method Detach(id: nat)
      requires Valid()
      modifies this`hooksById, this`hooksByTarget, code
      ensures Valid()
      ensures id !in old(hooksById) ==> code.mem == old(code.mem) && code.blocks == old(code.blocks)
                                        && hooksById == old(hooksById) && hooksByTarget == old(hooksByTarget)
      ensures id in old(hooksById) ==>
                var e := old(hooksById)[id];
                && code.mem == Undo(old(code.mem), PatchOf(e))
                && Shrunk(old(code.blocks), code.blocks, BlocksOf(e))
                && hooksById == Without(old(hooksById), {id}) &&
                  hooksByTarget == Without(old(hooksByTarget), {e.target})
    {
      if id in hooksById {
        Drop(id);
      }
    }

    /** Detach by address; the id is found by looking for the entry. */
    method Revert(target: Word) returns (ghost id: nat)
      requires Valid()
      modifies this`hooksById, this`hooksByTarget, code
      ensures Valid()
      ensures target !in old(hooksByTarget) ==> code.mem == old(code.mem) && code.blocks == old(code.blocks)
                                                && hooksById == old(hooksById) && hooksByTarget == old(hooksByTarget)
      ensures target in old(hooksByTarget) ==> id in old(hooksById) && old(hooksById)[id].target == target
      ensures target in old(hooksByTarget) ==>
                var e := old(hooksById)[id];
                && code.mem == Undo(old(code.mem), PatchOf(e))
                && Shrunk(old(code.blocks), code.blocks, BlocksOf(e))
                && hooksById == Without(old(hooksById), {id}) &&
                  hooksByTarget == Without(old(hooksByTarget), {e.target})
    {
      id := 0;
      if target in hooksByTarget {
        var found :| found in hooksById && hooksById[found] == hooksByTarget[target];
        id := found;
        Drop(found);
      }
    }

    /** Undo everything, in whatever order the hash map lists the hooks. */
    method DetachAll() returns (ghost order: seq<nat>)
      requires Valid()
      modifies this`hooksById, this`hooksByTarget, code
      ensures Valid() && hooksById == map[] && hooksByTarget == map[]
      ensures Lists(order, old(hooksById).Keys)
      ensures code.mem == UndoIds(old(code.mem), old(hooksById), PatchOf, order)
      ensures Shrunk(old(code.blocks), code.blocks, old(Owned(hooksById, BlocksOf)))
    {
      hide Write, Undo, InStep, OwnedApart, Owned, Released, BlocksOf, PatchOf;
      order := [];
      var todo := hooksById.Keys;
      ReleasedStart(hooksById, BlocksOf);
      while todo != {}
        invariant todo <= hooksById.Keys
        invariant Lists(order, hooksById.Keys - todo)
        invariant code.mem == UndoIds(old(code.mem), hooksById, PatchOf, order)
        invariant code.blocks == Without(old(code.blocks), Released(hooksById, BlocksOf, todo))
        modifies code
        decreases |todo|
      {
        var id :| id in todo;
        ReleasedStep(hooksById, BlocksOf, todo, id);
        WithoutTwice(old(code.blocks), Released(hooksById, BlocksOf, todo), BlocksOf(hooksById[id]));
        StillLive(hooksById, BlocksOf, old(code.blocks.Keys), todo, id);
        KeysWithout(old(code.blocks), Released(hooksById, BlocksOf, todo));
        RestoreEntry(hooksById[id]);
        ghost var before := order;
        order := order + [id];
        assert order[..|order| - 1] == before;
        todo := todo - {id};
      }
      hooksById := map[];
      hooksByTarget := map[];
      NothingRegistered(nextHookId, KeyOf, BlocksOf);
    }

    /** Original bytes back, both code blocks released. */
    method RestoreEntry(e: HookEntry)
      requires BlocksOf(e) <= code.blocks.Keys
      modifies code
      ensures code.mem == Undo(old(code.mem), PatchOf(e))
      ensures code.blocks == Without(old(code.blocks), BlocksOf(e))
    {
      code.Patch(e.target, e.originalBytes);
      code.Release(e.trampolineCode);
      code.Release(Some(e.relocatedCode));
      WithoutTwice(old(code.blocks), Opt(e.trampolineCode), {e.relocatedCode});
    }
  }
}

# Chromatic in Dafny

A verification model of Chromatic, an in-process instrumentation engine. The engine rewrites live machine code,
catches traps, protects pages and programs debug registers, and promises that the program it sits in cannot tell.
The project models the parts of the engine that this promise rests on and proves what they keep.

- **Code patching.** `X86` is a small x86-64: byte memory, sixteen registers, flags, stack and program counter, with
  the real byte layouts of everything the engine emits or rewrites. All other instructions are described by an `Isa`
  (length, effect, loads, stores), a parameter of every theorem that stands for Capstone and the processor. `Machine`
  adds signals and dispatch functions, `Relocator`, `Trampoline` and `Assembler` the three builders, `Transparency` the
  simulation between the patched and the unpatched process. `Arm64` has the second target's jump.
- **Registries.** `PatchLog`, `Process` and `Registry` hold what hooks and breakpoints share: overwritten bytes, JIT
  blocks, two maps over the same entries. `Interceptor`, `SoftwareBreakpoint` and `HardwareBreakpoint` (with
  `DebugRegisters`) are the three subsystems as classes, `LiveCode` is their joint state as one value. `Sites` is what
  they keep in memory for every live entry, `Deployment` shows that this is what `Transparency` is about, `Sample` is a
  small process that meets every condition of its theorems.
- **Page monitors.** `Pages` is the mask arithmetic on bits, `Watches` the protections and the recorded events,
  `MemoryAccessMonitor` the subsystem. `Ring` is the pending ring under every interleaving of signal handlers and one
  drain, step by atomic step; `PendingRing` is the same ring as a queue, `RingRuns` the link between the two.
- **Signals and teardown.** `ExceptionHandler` is the reference-counted lifecycle, `Owners` the balance of
  registrations and references, `Script` the runtime with its global invariant and the ordered cleanup, `Sessions` what
  a signal ends in: the report to the script, or the trampoline.
- **Codecs and search.** `Scanner` is the wildcard Boyer-Moore-Horspool scan, `HexCodec`, `NativePointer` and `Utf8` the
  text and memory codecs, `PatternParser` the text form of scan patterns.

Conditions of the main theorems, in the engine's terms. *Relocation and transparency* hold for the fragment of
`Relocator.InFragment`: instructions that neither branch nor use the program counter, E9 jumps, Jcc, returns and jumps
to a register. No address has both an execute breakpoint and a patch, and none follows a software breakpoint by one
byte, where both handlers would claim the same trap. The program does not read its own patched code or the engine's
memory, does not write into code under a site, has stack for one dispatch at every site, reads nothing below `rsp` after
a site until it has written it again, and callbacks leave the snapshot and the vector, x87 and MXCSR state alone; the
trampoline does not save the latter, so a callback that uses vector registers is noticed (`Sample.ClobberedOnNop`). The
calls of `Script.Runtime` need none of this: they keep the registries, block ownership, registrations and references
wherever windows and pages lie. *Undo in any order* restores the code when each window was vacant when it was patched,
for then and only then the patches lie apart (`LiveCode.HookApart`); reverse order always does
(`LiveCode.NestedRunRestores`), and `PatchLog.UndoneIff` decides every other order. *Monitoring* is exact if and only if
each monitor was enabled on free read-write pages. *Delivery* is about a ring that never holds more than 256 events;
`PendingRing.BurstDelivered` says that this is exactly the condition. A breakpoint or hook set on instructions that
another live patch overlaps gets a copy of the patched bytes; *deployment* excludes just that (`Sites.Unpatched`). Calls
into the allocator are answered by a parameter (`Answers`), fresh or failing; protection calls, `sigaction`, thread
contexts and patch writes succeed. Addresses do not wrap: an access or a block never goes round the end of the address
space, which is what bounds such as `address + 33 < WORD_SPAN` say; program counter and registers do wrap.

Where code and comments disagree the model follows the code: `buildRelocatedCode` treats every PC-relative branch that
is not E9, E8, 7x or 0F 8x as condition code 0 (`Relocator.ShortJumpNeedsOverflow`); the interval test of the fault
handler claims nothing in the last page (`Pages.RequestedByteClaimed`); `writeU8` does not mask
(`NativePointer.OneByteText`); `refDisable` never removes handlers; the SingleStep registration is never taken back.

`dafny verify dfyconfig.toml` checks the whole project.

## Model

| member | source | states |
|---|---|---|
| X86.DecodeEncode | src/core/bindings/internal/code_relocator.cc:307-391 | every instruction the engine emits decodes back to itself, whatever bytes follow it |
| Relocator.PieceInFragment | src/core/bindings/internal/code_relocator.cc:188-223 | for every instruction of the fragment: E9 becomes an absolute jump to its target, Jcc an inverted jump over an absolute jump, anything else, returns and register jumps included, is copied byte for byte |
| Relocator.CopiedElsewhere | src/core/bindings/internal/code_relocator.cc:219-223 | an instruction copied byte for byte elsewhere does there what it did at its own address if and only if its effect does not depend on where it is |
| Relocator.Xor1Negates | src/core/bindings/internal/code_relocator.cc:205-213 | for all sixteen condition codes `cc ^ 1` is the negated condition |
| Relocator.AbsoluteJumpRuns | src/core/bindings/internal/code_relocator.cc:110-116 | executing the 14 patch bytes changes nothing but the program counter, which is the target, for every 64-bit target |
| Relocator.ConditionalJumpRuns | src/core/bindings/internal/code_relocator.cc:211-217 | the rewritten Jcc goes to the target when the condition holds and otherwise falls exactly 20 bytes further, so 14 is the right distance to skip |
| Relocator.PieceRuns | src/core/bindings/internal/code_relocator.cc:188-223 | the code emitted for one instruction has the effect of that instruction, and leaves to the same place or falls to the end of the piece |
| Relocator.OriginalRuns | src/core/bindings/internal/code_relocator.cc:177-226 | the instructions at the source address, run by the machine, do what the block semantics says |
| Relocator.RelocatedRuns | src/core/bindings/internal/code_relocator.cc:177-231 | the emitted block, run from its own address, does the same and comes back behind the block through the final jump |
| Relocator.BlockGenuine | src/core/bindings/internal/code_relocator.cc:177-183 | the block consists of whole decoded instructions that are in memory one after the other |
| Relocator.BlockBoundary | src/core/bindings/internal/code_relocator.cc:177-234 | `bytesConsumed` is the first instruction boundary at or past `minBytes`: every proper prefix of the block is shorter than `minBytes` |
| Relocator.BuildRelocatedCode | src/core/bindings/internal/code_relocator.cc:121-234 | the loop returns the emitted bytes and their source size, or gives up where GivesUp says |
| Relocator.GivesUp | src/core/bindings/internal/code_relocator.cc:177-202 | the builder gives up if and only if an instruction of the block does not decode or is an E8 call with a PC-relative target |
| Relocator.RelocatedIsEmitted | src/core/bindings/internal/code_relocator.cc:177-234 | what the loop builds is the emission of the block at the source, with the block's size |
| Relocator.RelocationPreservesMeaning | src/core/bindings/internal/code_relocator.cc:177-231 | from any state, the block at the source and its relocated copy reach the same registers, flags, memory and program counter, for every block of the fragment |
| Relocator.ShortJumpNeedsOverflow | src/core/bindings/internal/code_relocator.cc:203-217 | outside the fragment: the copy of a short EB jump is taken as condition code 0 and reaches the target exactly when the overflow flag is set |
| Relocator.GeneratePatchBytes | src/core/bindings/internal/code_relocator.cc:99-117 | writes the 14 bytes of an absolute jump and leaves the rest of the buffer alone |
| Arm64.AbsoluteJumpRuns | src/core/bindings/internal/code_relocator.cc:100-108 | the ARM64 patch: two steps from its start control is at the target for every 64-bit target, and only X16 has changed |
| Arm64.GeneratePatchBytes | src/core/bindings/internal/code_relocator.cc:99-108 | writes the 16 bytes of the ARM64 jump and leaves the rest of the buffer alone |
| Trampoline.PrologueSaves | src/core/bindings/internal/code_relocator.cc:310-342 | whatever the registers and flags, the prologue leaves each of them in its own slot of the snapshot, the snapshot pointer in the first argument and the entry in the second |
| Trampoline.SnapshotLayout | src/core/bindings/internal/code_relocator.cc:310-326 | the snapshot word by word: r15 at offset 0, rax at 112, the flags at 120 |
| Trampoline.PopAll | src/core/bindings/internal/code_relocator.cc:370-385 | popping in the opposite order puts every word back into the register it was pushed from |
| Trampoline.EpilogueRestores | src/core/bindings/internal/code_relocator.cc:363-386 | the epilogue loads every register and the flags from the snapshot as it is then, and takes the stack pointer back to its entry value |
| Trampoline.DispatchRuns | src/core/bindings/internal/code_relocator.cc:344-361 | straight code, `call rax`, the dispatch function and its return come out behind the call with the code still intact |
| Trampoline.FirstDispatch | src/core/bindings/internal/code_relocator.cc:310-346 | the first dispatch function is called once, with the snapshot pointer and the entry in rdi and rsi, or rcx and rdx on Windows, and sees the entry registers and flags in the snapshot |
| Trampoline.SecondDispatch | src/core/bindings/internal/code_relocator.cc:348-361 | the second dispatch function is called with the same two arguments in the same registers, the snapshot pointer recomputed from the stack pointer |
| Trampoline.WayOut | src/core/bindings/internal/code_relocator.cc:363-390 | the last part restores from the snapshot and jumps to the relocated code |
| Trampoline.TrampolineRuns | src/core/bindings/internal/code_relocator.cc:307-391 | from any entry registers and flags: the dispatches owed are made once each with one snapshot pointer, and on exit registers and flags are the snapshot's, `rsp` is its entry value, vector, x87 and MXCSR state is what the last dispatch left, and control is at the relocated code |
| Trampoline.SnapshotDetermines | src/core/bindings/internal/code_relocator.cc:310-326 | one snapshot determines all registers, the stack pointer aside, and the flags |
| Trampoline.TrampolineIsIdentity | src/core/bindings/internal/code_relocator.cc:307-391 | with callbacks that leave the snapshot alone, the whole trampoline changes no register, no flag and no memory above the stack pointer or outside the engine; vector, x87 and MXCSR state comes out as it went in if and only if the callbacks together leave it so |
| Trampoline.DispatchAligned | src/core/bindings/internal/code_relocator.cc:328-342 | at every dispatch call the stack is 16-byte aligned exactly when `rsp` was 8 modulo 16 on entry (section 3.2.2 of the System V AMD64 psABI; the Windows variant reserves 0x28) |
| Assembler.SaveRegisters | src/core/bindings/internal/code_relocator.cc:310-326 | pushfq and fifteen pushes in this order |
| Assembler.RestoreRegisters | src/core/bindings/internal/code_relocator.cc:370-386 | the pops in exactly the opposite order, then popfq |
| Assembler.CallOnEnter | src/core/bindings/internal/code_relocator.cc:328-346 | argument setup, stack reservation and first call, per ABI |
| Assembler.CallOnLeave | src/core/bindings/internal/code_relocator.cc:348-361 | second call, with the snapshot pointer rebuilt, per ABI |
| Assembler.BuildTrampoline | src/core/bindings/internal/code_relocator.cc:245-398 | the builder's buffer is the byte sequence that TrampolineRuns and TrampolineIsIdentity are about |
| Transparency.SiteEntered | src/core/bindings/native_breakpoint.cc:75-98 | at an installed site one step leads to its trampoline, through the INT3 handler, the patched jump or the debug exception |
| Transparency.SiteDispatched | src/core/bindings/native_breakpoint.cc:124-197 | from the site to its relocated block: the dispatches owed, and nothing the program may see has changed |
| Transparency.BlockPasses | src/core/bindings/internal/code_relocator.cc:177-231 | the relocated block in the patched process and the original block in the unpatched one lead to matching states |
| Transparency.SitePasses | src/core/bindings/native_breakpoint.cc:75-197 | passing a site keeps the two processes matched and adds exactly the dispatches owed there |
| Transparency.ExecuteMatches | src/core/bindings/native_breakpoint.cc:75-197 | an instruction away from the sites keeps the two processes matched |
| Transparency.Transparent | src/core/bindings/native_breakpoint.cc:75-197 | stuttering simulation over any number of moves: the patched process reaches the same registers, flags, program counter and visible memory, and its calls are exactly those owed, in order |
| Transparency.MovesAreSteps | src/core/bindings/native_breakpoint.cc:124-197 | the reference moves are ordinary steps of the unpatched program; with breakpoints only, one move is one instruction |
| Transparency.SitesAreTransparent | src/core/bindings/native_breakpoint.cc:75-197 | whole-run transparency: for every well-behaved run of the unpatched program there is a run of the patched one to the same registers, flags, vector state, program counter and visible memory, with one dispatch for each time a site is reached |
| Deployment.WindowAndBlocks | src/core/bindings/internal/code_relocator.cc:236-241 | JIT blocks over patched program memory are what the processor fetches |
| Deployment.BreakpointInstalled | src/core/bindings/native_breakpoint.cc:124-197 | every live breakpoint, whatever else was set or removed, is an installed site over the original instruction, and its trap resumes at its trampoline |
| Deployment.HookInstalled | src/core/bindings/native_interceptor.cc:90-146 | every live hook is an installed site over the original instructions |
| Deployment.HwInstalled | src/core/bindings/native_hw_breakpoint.cc:494-593 | every live execute breakpoint is a site whose debug exception resumes at its trampoline, over instructions that are still the original ones |
| Deployment.HookCalls | src/core/bindings/native_interceptor.cc:123-127 | a thread that comes to a live hook owes the enter function and then the leave function, each once, both with the snapshot pointer 128 below its stack pointer and the entry |
| Deployment.BreakpointCalls | src/core/bindings/native_breakpoint.cc:166-177 | at a live breakpoint it owes the hit function once, with the same two arguments |
| Deployment.HwCalls | src/core/bindings/native_hw_breakpoint.cc:536-541 | at a live execute breakpoint it owes the hardware hit function once |
| Deployment.SiteMakesCalls | src/core/bindings/internal/code_relocator.cc:307-391 | and on the way through the site the machine makes exactly these calls in this order |
| Deployment.AllInstalled | src/core/bindings/native_breakpoint.cc:124-241 | for the world of all live breakpoints, hooks and execute breakpoints: every site is installed in what the processor sees, and the original code has the original instructions at every site |
| Deployment.NothingElseChanged | src/core/bindings/native_breakpoint.cc:124-241 | everywhere else, the engine's memory aside, the process has the program's original memory |
| Deployment.ProcessIsTransparent | src/core/bindings/native_breakpoint.cc:75-241 | whole-run transparency of the process as the registries have it, with any number of live breakpoints, hooks and execute breakpoints |
| Sites.RelocatedSame | src/core/bindings/internal/code_relocator.cc:177-234 | the builder makes the same copy out of patched code as out of the original code, if no patch lies on the instructions relocated |
| Sites.BreakpointIn | src/core/bindings/native_breakpoint.cc:124-197 | after `set` the patches lie apart exactly when the byte was vacant; if besides no patch lies on the instruction, all sites have their patch, trampoline and faithful copy in memory |
| Sites.BreakpointOut | src/core/bindings/native_breakpoint.cc:199-224 | removing any one breakpoint leaves all other patches, trampolines and copies in place |
| Sites.BreakpointsOut | src/core/bindings/native_breakpoint.cc:226-241 | removing all breakpoints leaves those of all hooks in place |
| Sites.HookIn | src/core/bindings/native_interceptor.cc:90-146 | the same as BreakpointIn for `attach` and `replace`, with 14 bytes |
| Sites.HookOut | src/core/bindings/native_interceptor.cc:148-171 | detaching any one hook leaves all other patches, trampolines and copies in place |
| Sites.HooksOut | src/core/bindings/native_interceptor.cc:173-186 | detaching all hooks leaves those of all breakpoints in place |
| Sites.HwIn | src/core/bindings/native_hw_breakpoint.cc:494-593 | a hardware breakpoint disturbs no patch and no code block of another |
| Sites.HwDeploys | src/core/bindings/native_hw_breakpoint.cc:529-549 | an execute breakpoint set on instructions without a patch has its trampoline and a faithful copy of them in memory |
| Sites.HwGone | src/core/bindings/native_hw_breakpoint.cc:595-624 | and neither does its removal |
| Sample.NopProcess | src/core/bindings/native_breakpoint.cc:124-197 | the conditions of ProcessIsTransparent can be met together |
| Sample.ClobberedOnNop | src/core/bindings/internal/code_relocator.cc:310-386 | a dispatch function that changes vector registers is noticed: the trampoline gives back registers and flags, but the vector state only if it was what the function leaves |
| Sample.WorldWellFormed | src/core/bindings/native_breakpoint.cc:124-197 | the conditions of the transparency theorem can be met: a process full of NOPs with one breakpoint meets them, under both calling conventions |
| Sample.BreakpointOnNop | src/core/bindings/native_breakpoint.cc:75-197 | there, from any registers and flags with stack to spare, trap, trampoline, dispatch and relocated NOP lead to where the program gets in two steps, with exactly one dispatch |
| Scanner.BuildShiftTable | src/core/bindings/native_memory.cc:164-197 | every entry is the least distance at which a pattern position before the last accepts the byte, the pattern length if none does, and 1 for a trailing wildcard |
| Scanner.ShiftSkipsNothing | src/core/bindings/native_memory.cc:199-219 | no match begins strictly inside the stretch that a shift jumps over |
| Scanner.ShiftIsSafe | src/core/bindings/native_memory.cc:216-218 | after a mismatch the shift is at least 1 and the naive scan from behind it finds the same matches |
| Scanner.NaiveIsExact | src/core/bindings/native_memory.cc:199-220 | the reference scan lists all matching offsets, overlapping ones included, each once and in ascending order |
| Scanner.BmhScan | src/core/bindings/native_memory.cc:156-221 | for every haystack and every pattern with wildcards anywhere the fast scan returns what the naive scan returns |
| PatternParser.TokensSpelled | src/core/bindings/native_memory.cc:136-140 | the words of a pattern come back whatever white space separates and surrounds them |
| PatternParser.TokensAreWords | src/core/bindings/native_memory.cc:140 | every extracted word is non-empty and without white space, for any text |
| PatternParser.StoiOfPair | src/core/bindings/native_memory.cc:48-57 | on one or two characters std::stoi with base 16 is what hexToBytes relies on, in all its cases |
| PatternParser.NumberWord | src/core/bindings/native_memory.cc:144-147 | a word of hex digits is taken as the low byte of its value, and from 2^31 on it is an error |
| PatternParser.NumberForms | src/core/bindings/native_memory.cc:144-147 | a sign, a 0x or 0X prefix and leading white space are read as std::stoi does, characters behind the digits are ignored, and values outside an int are errors |
| PatternParser.OnlyWildcards | src/core/bindings/native_memory.cc:141-147 | a position is free for ? and ?? alone; any other word is a number or an error |
| PatternParser.HalfWildcard | src/core/bindings/native_memory.cc:141-147 | a half wildcard `4?` is silently the byte 4, and `?4` is an error |
| PatternParser.PatternRoundTrip | src/core/bindings/native_memory.cc:136-152 | every pattern is read back from every way of writing it: any white space, one or two digits from either digit table, `?` or `??` |
| PatternParser.NextToken | src/core/bindings/native_memory.cc:140 | each extraction takes the next word and moves on behind it |
| PatternParser.ParsePattern | src/core/bindings/native_memory.cc:136-152 | the pattern the words stand for, or an error at the first word that is neither a wildcard nor a number |
| PatternParser.ScanMemory | src/core/bindings/native_memory.cc:395-402 | an error exactly where the pattern does not parse, otherwise exactly the matching offsets, each once, ascending; none for an empty pattern |
| Ring.OtherSlot | src/core/bindings/native_memory_access_monitor.cc:158-168 | two handlers in flight never write to the same slot |
| Ring.ReserveKeeps | src/core/bindings/native_memory_access_monitor.cc:158-161 | the atomic increment keeps the invariant, also when the 32-bit index wraps |
| Ring.FillKeeps | src/core/bindings/native_memory_access_monitor.cc:162-167 | writing one field keeps the invariant, and no reader sees the half-written slot |
| Ring.PublishKeeps | src/core/bindings/native_memory_access_monitor.cc:168 | setting `ready` publishes exactly the event reserved |
| Ring.DrainKeeps | src/core/bindings/native_memory_access_monitor.cc:300-328 | loading the indices, checking `ready`, reading the fields, handing over and advancing keep the invariant |
| Ring.ClearKeeps | src/core/bindings/native_memory_access_monitor.cc:328-330 | clearing `ready` frees the slot for the ticket 256 further on |
| Ring.StepKeeps | src/core/bindings/native_memory_access_monitor.cc:158-168 | every atomic step of every handler and of the drain keeps the invariant |
| Ring.DeliveredInOrder | src/core/bindings/native_memory_access_monitor.cc:300-335 | under any interleaving of handlers and one drain, from any index and across wrap-around, with at most 256 events unconsumed: the events handed over are those reserved, whole, once each, in reservation order |
| Ring.NothingLost | src/core/bindings/native_memory_access_monitor.cc:158-168 | an event not yet consumed is whole in its slot, or its handler is still at work on it |
| RingRuns.CallRecords | src/core/bindings/native_memory_access_monitor.cc:158-168 | reserve, five field writes and publish without interruption are one recorded access |
| RingRuns.CallDrains | src/core/bindings/native_memory_access_monitor.cc:300-335 | the atomic steps of a drain without interruption are one drain of the queue |
| RingRuns.QuietDrainDelivers | src/core/bindings/native_memory_access_monitor.cc:300-335 | a drain with no handler in flight ends with everything reserved delivered |
| RingRuns.DrainDelivers | src/core/bindings/native_memory_access_monitor.cc:300-335 | under any interleaving: when a drain rests, every event that was reserved and published when it loaded the write index has been delivered, whatever handlers came meanwhile |
| PendingRing.DistanceShrinks | src/core/bindings/native_memory_access_monitor.cc:302-331 | one turn of the drain loop shrinks (writeIdx - readIdx) mod 2^32, so each drain ends |
| PendingRing.RecordedQueue | src/core/bindings/native_memory_access_monitor.cc:158-168 | recording an access appends it to the queue the ring holds, if there is room |
| PendingRing.DrainedQueue | src/core/bindings/native_memory_access_monitor.cc:300-335 | a drain hands over the whole queue in order and leaves the ring empty |
| PendingRing.BurstDelivered | src/core/bindings/native_memory_access_monitor.cc:158-161 | without a check for a full ring: a burst between two drains arrives complete and in order if and only if it has at most 256 events |
| PendingRing.IndexAfter | src/core/bindings/native_memory_access_monitor.cc:158-161 | the write index counts the accesses modulo 2^32, whether or not the ring is full |
| Memory.WriteUndone | src/core/bindings/internal/code_relocator.cc:47-95 | the bytes saved before a patch undo it |
| PatchLog.LifoRestores | src/core/bindings/native_interceptor.cc:90-256 | any series of edits undone newest first restores every byte, overlapping windows included |
| PatchLog.UndoneIff | src/core/bindings/native_breakpoint.cc:226-241 | any number of patches, overlapping or not, undone in any order: the original code is back if and only if at every byte the patch undone last was the first one there or came upon a patch that had written the original byte |
| PatchLog.EditConsistent | src/core/bindings/native_interceptor.cc:106-138 | a patch on a window no live patch touches keeps: live patches apart, each holding original bytes, all other code original |
| PatchLog.UndoConsistent | src/core/bindings/native_interceptor.cc:159-162 | any live patch may be undone next, and the same still holds of the others |
| PatchLog.FifoRestoresIff | src/core/bindings/native_breakpoint.cc:226-241 | any number of patches undone in the order they were made give the original code if and only if every byte overwritten more than once had its original value before the last time |
| Process.CodeMemory.Release | src/core/bindings/internal/code_relocator.cc:402-406 | a block is released only while it is live, so no block is released twice on any path |
| Registry.StillLive | src/core/bindings/native_interceptor.cc:173-186 | while all entries are removed in hash-map order, the blocks of each entry still to go are live |
| Registry.Inserted | src/core/bindings/native_interceptor.cc:140-143 | adding an entry keeps both maps in step, targets unique and block ownership unique |
| Registry.Removed | src/core/bindings/native_interceptor.cc:168-170 | removing an entry by id keeps them too, and its blocks are no longer owned |
| Registry.AnyOrderRestores | src/core/bindings/native_interceptor.cc:173-186 | undoing any of the live patches in any order leaves exactly the others in place over original code |
| Registry.UndoAllRestores | src/core/bindings/native_breakpoint.cc:226-241 | undoing all entries in hash-map order leaves exactly the patches of the other registry |
| Interceptor.Interceptor.JumpTo | src/core/bindings/native_interceptor.cc:134-138 | the target window holds the absolute jump, nothing else changes |
| Interceptor.Interceptor.Attach | src/core/bindings/native_interceptor.cc:90-146 | succeeds exactly when the target is free and all builds succeed; then bytes saved, target jumps to the trampoline, both blocks live, the trampoline calls the enter and then the leave function, entry in both maps under a new id; a failing build leaves memory, blocks and maps as they were |
| Interceptor.Interceptor.Replace | src/core/bindings/native_interceptor.cc:188-228 | the same for a replacement: no trampoline, target jumps to the replacement, the relocated original is returned |
| Interceptor.Interceptor.Detach | src/core/bindings/native_interceptor.cc:148-171 | saved bytes back, the entry's blocks and only those released, entry out of both maps; an unknown id changes nothing |
| Interceptor.Interceptor.Revert | src/core/bindings/native_interceptor.cc:230-256 | the same by address: the id found is the one entry with that target |
| Interceptor.Interceptor.DetachAll | src/core/bindings/native_interceptor.cc:173-186 | every entry undone once in hash-map order, exactly the owned blocks released, both maps empty |
| SoftwareBreakpoint.SoftwareBreakpoints.HandleTrap | src/core/bindings/native_breakpoint.cc:75-98 | a trap one byte behind a live breakpoint resumes at its trampoline, any other trap is not handled |
| SoftwareBreakpoint.SoftwareBreakpoints.EnsureHandlerInstalled | src/core/bindings/native_breakpoint.cc:100-107 | the first call takes one reference and registers one handler, later calls do nothing |
| SoftwareBreakpoint.SoftwareBreakpoints.MaybeRemoveHandler | src/core/bindings/native_breakpoint.cc:109-116 | with the last breakpoint gone the handler and the reference go, otherwise nothing |
| SoftwareBreakpoint.SoftwareBreakpoints.BuildCode | src/core/bindings/native_breakpoint.cc:156-177 | both blocks are live, or neither is |
| SoftwareBreakpoint.SoftwareBreakpoints.Set | src/core/bindings/native_breakpoint.cc:124-197 | succeeds exactly when the address is free and both builds succeed; then INT3 over the saved byte, both blocks live, entry in both maps; a failure changes neither code nor maps but keeps the handler it installed |
| SoftwareBreakpoint.SoftwareBreakpoints.Remove | src/core/bindings/native_breakpoint.cc:199-224 | saved byte back, the entry's blocks released, entry out of both maps, handler removed with the last one; an unknown id changes nothing |
| SoftwareBreakpoint.SoftwareBreakpoints.RemoveAll | src/core/bindings/native_breakpoint.cc:226-241 | every entry undone once in hash-map order, exactly the owned blocks released, maps empty, handler gone |
| ExceptionHandler.LifecycleMirrors | src/core/bindings/native_exception_handler.cc:274-303 | over every sequence of enable, disable, refEnable and refDisable in which disable comes with no reference held: handlers are installed exactly while enabled, a held reference keeps them, and what is saved is never the engine's own |
| ExceptionHandler.DisorderBreaks | src/core/bindings/native_exception_handler.cc:390-402 | the condition is exact: from a good state one step goes wrong if and only if it is a disable with references held |
| ExceptionHandler.DisorderIsPermanent | src/core/bindings/native_exception_handler.cc:390-481 | after such a disable the next enable saves the engine's own handlers, and no later sequence of calls restores the original ones |
| ExceptionHandler.EnabledIff | src/core/bindings/native_exception_handler.cc:390-481 | over every run the handlers are enabled exactly when an enable, or a reference taken while none was held, came after the last disable, or were enabled to begin with and never disabled |
| ExceptionHandler.WhatEachDoes | src/core/bindings/native_exception_handler.cc:390-481 | what each of the four calls does to flag, count and dispositions in a good state |
| ExceptionHandler.WithoutIdMembers | src/core/bindings/native_exception_handler.cc:456-463 | unregistering removes exactly the entries with that id |
| ExceptionHandler.NativeExceptionHandler.DoEnable | src/core/bindings/native_exception_handler.cc:390-394 | afterwards enabled; installs the engine's handlers and saves the ones before exactly when it was not enabled |
| ExceptionHandler.NativeExceptionHandler.DoDisable | src/core/bindings/native_exception_handler.cc:396-402 | afterwards not enabled; puts the saved handlers back exactly when it was enabled and no reference is held |
| ExceptionHandler.NativeExceptionHandler.DoRefEnable | src/core/bindings/native_exception_handler.cc:465-472 | counts, and installs exactly on the first reference of a disabled handler |
| ExceptionHandler.NativeExceptionHandler.DoRefDisable | src/core/bindings/native_exception_handler.cc:474-481 | counts down and changes neither flag nor handlers, not even for the last reference |
| ExceptionHandler.NativeExceptionHandler.RegisterHandler | src/core/bindings/native_exception_handler.cc:447-454 | appends the entry under a new id |
| ExceptionHandler.NativeExceptionHandler.UnregisterHandler | src/core/bindings/native_exception_handler.cc:456-463 | removes the entries with the id and keeps the order of the others |
| DebugRegisters.FieldPut | src/core/bindings/native_hw_breakpoint.cc:336-356 | clearing a two-bit field and or-ing a value in leaves that value whatever was there, and no other bit changes |
| DebugRegisters.ArmedReadsBack | src/core/bindings/native_hw_breakpoint.cc:323-356 | the processor reads the type back, and the size if it is 1, 2, 4 or 8, otherwise one byte (section 17.2.4 of the Intel SDM, Volume 3) |
| DebugRegisters.ArmedPattern | src/core/bindings/native_hw_breakpoint.cc:323-356 | the bits themselves: R/W 00, 01 and 11, LEN 00, 01, 11 and 10 for one, two, four and eight bytes |
| DebugRegisters.OtherSlotKept | src/core/bindings/native_hw_breakpoint.cc:298-384 | the fields of two slots share no bit, so a change to one leaves the watch of the other |
| DebugRegisters.ThreadContext.SetDebugReg | src/core/bindings/native_hw_breakpoint.cc:298-358 | the slot watches the address with that type and size, in the bit patterns of the manual; the other slots watch what they did, all other DR7 bits are untouched |
| DebugRegisters.ThreadContext.ClearDebugReg | src/core/bindings/native_hw_breakpoint.cc:360-384 | the slot is off, the other slots and all other DR7 bits are untouched |
| HardwareBreakpoint.TypeNames | src/core/bindings/native_hw_breakpoint.cc:47-56 | execute, write and readwrite name the three types, and no other string names any |
| HardwareBreakpoint.SlotGiven | src/core/bindings/native_hw_breakpoint.cc:572-581 | taking a free slot keeps the mask exactly the set of live entries' slots, each used once |
| HardwareBreakpoint.SlotBack | src/core/bindings/native_hw_breakpoint.cc:360-384 | giving a slot back keeps it too |
| HardwareBreakpoint.SlotLeft | src/core/bindings/native_hw_breakpoint.cc:512-514 | with fewer than four entries a slot is free, so `findFreeSlot` cannot fail after the size check |
| HardwareBreakpoint.ChosenOnce | src/core/bindings/native_hw_breakpoint.cc:390-458 | program counter, DR6 and registry determine the entry a trap belongs to, independently of the hash-map order |
| HardwareBreakpoint.HardwareBreakpoints.FindFreeSlot | src/core/bindings/native_hw_breakpoint.cc:290-296 | the lowest free slot, and -1 exactly when all four are used |
| HardwareBreakpoint.HardwareBreakpoints.HandleTrap | src/core/bindings/native_hw_breakpoint.cc:390-458 | the execute entry at the program counter, or else an entry of the lowest triggered slot that has one, or else not handled |
| HardwareBreakpoint.HardwareBreakpoints.EnsureHwHandlerInstalled | src/core/bindings/native_hw_breakpoint.cc:467-477 | the first call takes one reference and registers two handlers, of which only the first id is kept |
| HardwareBreakpoint.HardwareBreakpoints.MaybeRemoveHwHandler | src/core/bindings/native_hw_breakpoint.cc:479-486 | with the last breakpoint gone the remembered handler and the reference go |
| HardwareBreakpoint.HardwareBreakpoints.BuildCode | src/core/bindings/native_hw_breakpoint.cc:529-549 | both blocks are live, or neither is |
| HardwareBreakpoint.HardwareBreakpoints.Set | src/core/bindings/native_hw_breakpoint.cc:494-593 | succeeds exactly when the type is execute, write or readwrite, the address is free, fewer than four are set and an execute breakpoint's code builds; then the processor watches the address for just that kind of access, the entry has the lowest free slot, both maps hold it; a failure changes neither registry, blocks nor debug registers |
| HardwareBreakpoint.HardwareBreakpoints.Remove | src/core/bindings/native_hw_breakpoint.cc:595-624 | slot off and free, the entry's blocks released, entry out of both maps, other slots untouched; an unknown id changes nothing |
| HardwareBreakpoint.HardwareBreakpoints.RemoveAll | src/core/bindings/native_hw_breakpoint.cc:626-647 | no slot of the engine is enabled, exactly the owned blocks released, maps empty, handler gone |
| Pages.MaskRoundsDown | src/core/bindings/native_memory_access_monitor.cc:208-211 | `a & ~(2^k - 1)` on bits is a minus its remainder by 2^k |
| Pages.RoundsOut | src/core/bindings/native_memory_access_monitor.cc:208-211 | for every power-of-two page size the mask arithmetic gives the smallest page-aligned interval around the requested bytes |
| Pages.RoundedToPages | src/core/bindings/native_memory_access_monitor.cc:208-211 | the bytes watched are exactly those on pages with a requested byte |
| Pages.RequestedByteClaimed | src/core/bindings/native_memory_access_monitor.cc:136-140 | a fault on a requested byte passes the handler's interval test if and only if a whole page is left behind the range: in the last page the end wraps to 0 and nothing is claimed |
| Pages.PagesClaimed | src/core/bindings/native_memory_access_monitor.cc:136-140 | before the last page the faults claimed are exactly those on pages with a requested byte |
| Pages.EmptyRange | src/core/bindings/native_memory_access_monitor.cc:208-211 | an empty range watches one page, or none when its address is aligned |
| Watches.EnableKeeps | src/core/bindings/native_memory_access_monitor.cc:205-239 | a new monitor on free read-write pages: exactly the unfired ranges are inaccessible, all else has its original protection |
| Watches.EnableNeedsFree | src/core/bindings/native_memory_access_monitor.cc:205-239 | on any other pages it does not, so the condition is exact |
| MemoryAccessMonitor.FreeIff | src/core/bindings/native_memory_access_monitor.cc:205-239 | that condition, page by page: every page with a requested byte is read-write and not watched, and no two requests share a page |
| Watches.FireKeeps | src/core/bindings/native_memory_access_monitor.cc:136-142 | after a range has fired the same holds, with that range accessible for good and nothing else about any range changed |
| Watches.DisableKeeps | src/core/bindings/native_memory_access_monitor.cc:265-270 | after a monitor is gone the same holds of the others, and its pages have their original protection |
| Watches.FireLogs | src/core/bindings/native_memory_access_monitor.cc:158-168 | a range has at most one event in its monitor's life, and one exactly when it has fired |
| Watches.EnableLogs | src/core/bindings/native_memory_access_monitor.cc:195-248 | ids are new, so this holds across all monitors ever enabled |
| MemoryAccessMonitor.RequestedFaultClaimed | src/core/bindings/native_memory_access_monitor.cc:205-248 | right after `enable` a fault on any requested byte is claimed, unless the range reaches the last page |
| MemoryAccessMonitor.AccessReported | src/core/bindings/native_memory_access_monitor.cc:88-95 | each kind of access reaches the callback under its own name, with monitor, fault address, page base and range index in their own places |
| MemoryAccessMonitor.MemoryAccessMonitors.OnFault | src/core/bindings/native_memory_access_monitor.cc:125-178 | handled exactly when some unfired range claims the address; then one such range is marked, gets its protection back and its event recorded, whatever the hash-map order; the callback will be told the kind of access by name, the address, the page base and the range |
| MemoryAccessMonitor.MemoryAccessMonitors.DrainPending | src/core/bindings/native_memory_access_monitor.cc:300-335 | calls the callbacks for what was recorded when it began, drops events of dead monitors, counts both; without overflow everything recorded has then been delivered |
| MemoryAccessMonitor.MemoryAccessMonitors.BlockRanges | src/core/bindings/native_memory_access_monitor.cc:205-239 | the ranges watched and the pages blocked, in order |
| MemoryAccessMonitor.MemoryAccessMonitors.Enable | src/core/bindings/native_memory_access_monitor.cc:184-248 | a length mismatch changes nothing; otherwise a new id, the pages blocked, one reference and two registrations; the protections stay exact if and only if the ranges were apart, read-write and not watched |
| MemoryAccessMonitor.MemoryAccessMonitors.Disable | src/core/bindings/native_memory_access_monitor.cc:250-278 | drains first, so without overflow every recorded event is delivered before its monitor goes; then unfired ranges, registrations and reference are given back |
| MemoryAccessMonitor.MemoryAccessMonitors.RestoreAll | src/core/bindings/native_memory_access_monitor.cc:285-296 | every monitor's unfired ranges, registrations and reference given back, in hash-map order; every page has its original protection |
| MemoryAccessMonitor.MemoryAccessMonitors.DisableAll | src/core/bindings/native_memory_access_monitor.cc:280-298 | drain, then the same for all monitors: no watched page, no registration, no reference left |
| Owners.SoftwareListens | src/core/bindings/native_breakpoint.cc:100-107 | a handler that comes keeps the balance: active registrations are exactly the owners', and the reference count is the number of monitors plus one for each breakpoint handler |
| Owners.SoftwareLeaves | src/core/bindings/native_breakpoint.cc:109-116 | and so does one that goes |
| Owners.HardwareListens | src/core/bindings/native_hw_breakpoint.cc:467-477 | two registrations and one reference keep the balance |
| Owners.HardwareLeaves | src/core/bindings/native_hw_breakpoint.cc:479-486 | the SingleStep registration stays behind, everything else balances |
| Owners.MonitorEnters | src/core/bindings/native_memory_access_monitor.cc:191-248 | a new monitor keeps the balance |
| Owners.MonitorLeaves | src/core/bindings/native_memory_access_monitor.cc:272-275 | a disabled monitor takes its own two registrations and no other along |
| Owners.AllMonitorsLeave | src/core/bindings/native_memory_access_monitor.cc:284-297 | disabling all monitors takes exactly theirs along |
| Owners.NobodyLeft | src/core/script.cc:19-27 | with no owner the count is 0 and only SingleStep registrations are in the list |
| Owners.Heard | src/core/bindings/native_exception_handler.cc:244-249 | every live breakpoint registry and every monitor has its handler in the list |
| Owners.OnlyOwnersHear | src/core/bindings/native_exception_handler.cc:244-249 | no other handler is in the list for these signals |
| LiveCode.HookEnters | src/core/bindings/native_interceptor.cc:90-146 | the invariant over all code (maps in step, every live block with exactly one owner) survives every hook or replacement |
| LiveCode.HookApart | src/core/bindings/native_interceptor.cc:90-146 | the live patches stay apart over otherwise original code if and only if the new window was vacant |
| LiveCode.BreakpointApart | src/core/bindings/native_breakpoint.cc:124-197 | the same for a breakpoint |
| LiveCode.NestedRunRestores | src/core/bindings/native_interceptor.cc:90-256 | attach, replace and set undone by detach, revert and remove in the reverse order, overlapping windows included, leave every byte of code, every block and every entry as it was |
| LiveCode.HookLeaves | src/core/bindings/native_interceptor.cc:148-171 | it survives the removal of any one hook |
| LiveCode.AllHooksLeave | src/core/bindings/native_interceptor.cc:173-186 | it survives detachAll in hash-map order |
| LiveCode.BreakpointEnters | src/core/bindings/native_breakpoint.cc:124-197 | it survives every new breakpoint |
| LiveCode.BreakpointLeaves | src/core/bindings/native_breakpoint.cc:199-224 | it survives the removal of any one breakpoint |
| LiveCode.AllBreakpointsLeave | src/core/bindings/native_breakpoint.cc:226-241 | it survives removeAll in hash-map order |
| Script.SignalsArrive | src/core/bindings/native_exception_handler.cc:465-472 | while anything is owned the engine's handlers are installed and the saved dispositions are the original ones |
| LiveCode.NothingKept | src/core/script.cc:19-27 | with all registries empty no block is live, and if the patches lay apart the code is byte for byte original |
| Script.NobodyHolds | src/core/script.cc:19-27 | with no owner left disable is allowed, and a disabled handler has the original dispositions |
| Script.Runtime.Start | src/core/script.cc:19-27 | a fresh engine in any process: the global invariant, no entry, no monitor, no handler enabled, an empty ring that delivers, patches apart and all sites deployed |
| Script.Runtime.Attach | src/core/bindings/native_interceptor.cc:90-146 | keeps the global invariant wherever the window is; success adds exactly this hook with its patch and blocks, failure changes no code, block or registry; patches stay apart if and only if the window was vacant; all sites stay deployed if no patch lies on the instructions |
| Script.Runtime.Replace | src/core/bindings/native_interceptor.cc:188-228 | the same for a replacement |
| Script.Runtime.Detach | src/core/bindings/native_interceptor.cc:148-171 | keeps the global invariant; takes exactly this hook, its patch and its blocks, and leaves the two other registries alone; patches stay apart and sites deployed |
| Script.Runtime.Revert | src/core/bindings/native_interceptor.cc:230-256 | keeps the global invariant; takes exactly the hook at the target |
| Script.Runtime.SetBreakpoint | src/core/bindings/native_breakpoint.cc:124-197 | keeps the global invariant wherever the address is; success adds exactly this breakpoint, failure changes no code, block or registry; patches stay apart if and only if the byte was vacant; all sites stay deployed if no patch lies on the instruction |
| Script.Runtime.RemoveBreakpoint | src/core/bindings/native_breakpoint.cc:199-224 | keeps the global invariant; takes exactly this breakpoint; patches stay apart and sites deployed |
| Script.Runtime.SetHardwareBreakpoint | src/core/bindings/native_hw_breakpoint.cc:494-593 | keeps the global invariant; success adds exactly this entry in the lowest free slot, watching as asked, and touches no code, failure changes nothing but the handler; all sites stay deployed if no patch lies on the instruction of an execute breakpoint |
| Script.Runtime.RemoveHardwareBreakpoint | src/core/bindings/native_hw_breakpoint.cc:595-624 | keeps the global invariant; takes exactly this entry and its blocks, and touches no code |
| Script.Runtime.EnableMonitor | src/core/bindings/native_memory_access_monitor.cc:184-248 | keeps the global invariant whatever the pages; a new monitor over the rounded ranges, its pages blocked, or on a length mismatch nothing; the protections stay exact if and only if the pages were free; nothing recorded is lost |
| Script.Runtime.DisableMonitor | src/core/bindings/native_memory_access_monitor.cc:250-278 | keeps the global invariant; exactly this monitor gone and its unfired pages accessible; without overflow every recorded event is delivered first |
| Script.Runtime.Fault | src/core/bindings/native_exception_handler.cc:236-262 | a page fault is handled exactly when an unfired range claims it; then exactly one range fires, however many monitors have registered the function, and its access is recorded behind the pending ones with the name, addresses and range it will be reported with; delivery is kept while fewer than 256 are pending |
| Script.Runtime.Drain | src/core/bindings/native_memory_access_monitor.cc:300-335 | calls the callbacks for everything pending, in order; without overflow everything recorded is then delivered |
| Sessions.FaultAndDrain | src/core/bindings/native_memory_access_monitor.cc:125-335 | a fault and then a drain: behind the accesses still waiting the callback is told read, write, execute or unknown as the access was, with fault address, page base and range index; an unclaimed fault is not reported |
| Sessions.Int3 | src/core/bindings/native_breakpoint.cc:75-98 | an INT3 of a live breakpoint that no hardware breakpoint claims resumes at its trampoline, whatever handlers are registered |
| Sessions.DebugException | src/core/bindings/native_hw_breakpoint.cc:390-458 | a debug exception at a live execute breakpoint resumes at its trampoline, whatever DR6 holds |
| Sessions.WatchpointHit | src/core/bindings/native_hw_breakpoint.cc:390-458 | a watchpoint hit is reported for the entry of the lowest slot whose bit is set in DR6, whatever the hash-map order |
| Script.FirstAnswerMeans | src/core/bindings/native_exception_handler.cc:244-249 | in a list that has a handler for every live registry, the first answer is the software breakpoint's trampoline or the hardware entry, and with only one of the two claiming the trap it is that one |
| Script.Runtime.Dispatch | src/core/bindings/native_exception_handler.cc:244-262 | the first handler in the list that claims the trap decides; not handled means that none of them claims it |
| Script.Runtime.Trap | src/core/bindings/native_exception_handler.cc:236-262 | a trap goes to the software breakpoint or the hardware entry it belongs to; with both, the handler registered first decides; with neither it is forwarded |
| Script.Runtime.DetachAll | src/core/bindings/native_interceptor.cc:173-186 | keeps the global invariant; no hook is left and the two other registries are untouched |
| Script.Runtime.RemoveAllBreakpoints | src/core/bindings/native_breakpoint.cc:226-241 | keeps the global invariant; no breakpoint and no handler of theirs is left |
| Script.Runtime.RemoveAllHardwareBreakpoints | src/core/bindings/native_hw_breakpoint.cc:626-647 | keeps the global invariant; no entry, no handler of theirs and no enabled slot of the engine is left |
| Script.Runtime.DisableAllMonitors | src/core/bindings/native_memory_access_monitor.cc:280-298 | keeps the global invariant; no monitor is left, every page has its original protection, without overflow everything is delivered |
| Script.Runtime.DisableExceptionHandler | src/core/bindings/native_exception_handler.cc:396-402 | keeps the global invariant when no reference is held; afterwards disabled with the original dispositions |
| Script.Runtime.EnableExceptionHandler | src/core/bindings/native_exception_handler.cc:390-394 | keeps the global invariant; afterwards enabled, with the engine's handlers on all four signals and the original ones saved |
| Script.Runtime.Cleanup | src/core/script.cc:19-27 | from every reachable state: no entry, no live block, no owner, reference count 0, original dispositions, only SingleStep registrations, no debug register of the engine enabled; code original if the patches lay apart, every page with its original protection if it was exact, every event delivered if the ring never overflowed |
| HexCodec.RoundTrip | src/core/bindings/native_memory.cc:37-57 | hexToBytes after bytesToHex is the identity on every byte sequence |
| HexCodec.DigitIff | src/core/bindings/native_memory.cc:48-57 | a character has the value n exactly if it is the n-th of 0123456789abcdef or of 0123456789ABCDEF |
| HexCodec.AnyCaseRoundTrip | src/core/bindings/native_memory.cc:48-57 | text written with the two digit tables, mixed in any way, gives the bytes back |
| HexCodec.SpaceCodes | src/core/bindings/native_memory.cc:48-57 | white space is codes 9 to 13 and 32 |
| HexCodec.BytesToHex | src/core/bindings/native_memory.cc:37-46 | two lower-case digits a byte, in order |
| HexCodec.HexToBytes | src/core/bindings/native_memory.cc:48-57 | pairs of characters by the rules of std::stoi, an odd last character by itself, an error where stoi throws |
| HexCodec.ReversedValue | src/core/typescript/src/native-pointer.ts:175-191 | the digit pairs of little-endian bytes, last pair first, read as one number are the bytes' value |
| NativePointer.ToLeHex | src/core/typescript/src/native-pointer.ts:279-286 | the low bytes of any integer, two's complement for negative ones, least significant first |
| NativePointer.OneByteText | src/core/typescript/src/native-pointer.ts:288-291 | writeU8 does not mask: its text is one byte, and the right one, if and only if the value is from -15 to 255 |
| NativePointer.Pointer.ReadU16 | src/core/typescript/src/native-pointer.ts:163-167 | the little-endian value of two bytes |
| NativePointer.Pointer.ReadU32 | src/core/typescript/src/native-pointer.ts:176-180 | the little-endian value of four bytes |
| NativePointer.Pointer.ReadU64 | src/core/typescript/src/native-pointer.ts:187-191 | the little-endian value of eight bytes |
| NativePointer.Pointer.ReadS32 | src/core/typescript/src/native-pointer.ts:182-185 | the same as a signed number |
| NativePointer.Pointer.ReadS64 | src/core/typescript/src/native-pointer.ts:193-196 | the same as a signed number, over the whole 64-bit range |
| NativePointer.Pointer.WriteU8 | src/core/typescript/src/native-pointer.ts:288-291 | one byte for the values of OneByteText, otherwise whatever the text decodes to |
| NativePointer.Pointer.WriteU64 | src/core/typescript/src/native-pointer.ts:303-306 | the eight low bytes of any integer |
| NativePointer.Pointer.WriteS8 | src/core/typescript/src/native-pointer.ts:308 | the low byte |
| NativePointer.Pointer.WriteS16 | src/core/typescript/src/native-pointer.ts:309 | the two low bytes |
| NativePointer.Pointer.WriteS32 | src/core/typescript/src/native-pointer.ts:310 | the four low bytes |
| NativePointer.ValueRoundTrip | src/core/typescript/src/native-pointer.ts:151-196 | reading back n bytes gives the value modulo 256^n; the unsigned reader gives the value itself exactly on the unsigned range, the signed reader exactly on the signed range |
| NativePointer.Pointer.WriteUtf8String | src/core/typescript/src/native-pointer.ts:352-369 | the encoding of the string and a zero byte, nothing else changes |
| NativePointer.Pointer.ReadUtf8String | src/core/typescript/src/native-pointer.ts:244-275 | the decoding of the bytes up to the first zero, at most `maxLength` |
| Utf8.StepBack | src/core/typescript/src/native-pointer.ts:256-272 | the decoder takes back exactly one encoded code point, whatever follows it |
| Utf8.RoundTrip | src/core/typescript/src/native-pointer.ts:352-369 | decoding after encoding is the identity on every UTF-16 string, lone surrogates included |
| Utf8.AfterEncoded | src/core/typescript/src/native-pointer.ts:256-272 | an encoded string is decoded to itself whatever bytes follow it, and those as they would be alone |
| Utf8.CutShows | src/core/typescript/src/native-pointer.ts:256-272 | an encoding cut anywhere: all code points before the cut, and the cut one with zero for the bits of its missing bytes |
| Utf8.StrayByte | src/core/typescript/src/native-pointer.ts:256-272 | a stray continuation byte becomes one code unit and swallows the byte behind it |
| Utf8.Damaged | src/core/typescript/src/native-pointer.ts:256-272 | E2 82 is read as U+2080, E2 as U+2000, and 82 41 as U+0081 |
| Utf8.NoZeroByte | src/core/typescript/src/native-pointer.ts:352-369 | a string without NUL has no zero byte before the terminator |
| Utf8.EncodedIsUtf8 | src/core/typescript/src/native-pointer.ts:352-369 | the bytes are the UTF-8 form of section 3 of RFC 3629 if and only if every high surrogate in the string is followed by a low one and every low one follows a high one |
| NativePointer.StringRoundTrip | src/core/typescript/src/native-pointer.ts:244-275 | a string without NUL whose encoding fits in `maxLength` is read back code unit by code unit |
| NativePointer.StringCut | src/core/typescript/src/native-pointer.ts:244-275 | with a shorter `maxLength` the string is read up to the cut, the last code point without the bits of its missing bytes |

## Left out

- x86 `CALL rel32`: the jump goes to a label that is never bound, so the builder is modelled as failing there.
- LOOP, JRCXZ and `jmp [rip+d]` in a relocated block: outside the fragment, for the same reason as the short EB jump.
- `call reg` and `call [mem]` in a relocated block: the copy pushes a return address of its own, so outside the fragment.
- RIP-relative data operands: copied unchanged by the builder, so outside the fragment.
- ARM64 relocation and trampoline: only the ARM64 patch bytes are modelled.
- asmjit and Capstone: `mov`, `push`, `pop`, `add`, `sub`, `call` and `jmp [rip]` are assumed to assemble to their standard encodings (`48 B8+r`, `50+r`, `58+r`, `48 83`, `FF D0`, `FF 25`); the decoder is a parameter.
- Failing protection calls: a throw out of `makeWritableAndPatch` in the middle of a call is not modelled.
- Negative or wrapping sizes given to `enable`: the ranges are computed as the code does, the rounding theorems are about requests inside the address space.
- Windows originals: the protection a range gets back is read-write, as on POSIX; the value VirtualProtect reports is not modelled.
- perf_event_open on Linux, Mach thread calls and vectored exception handlers: the debug-register platforms and the POSIX signal path stand for them.
- Two threads faulting on one range at once: each call of the fault handler runs to its end; only the ring is interleaved.
- Callbacks that call back into the engine, or remove their own hook while it runs.
- JavaScript callbacks of the exception handler, and `removeAllCallbacks`: the list is never read by the code modelled.
- onAccess gets its addresses as hexadecimal text; the model has them as numbers.
- DR6 is read and never cleared, as in the code; stale bits are whatever the caller passes.
- Red zone: the trampoline writes just below `rsp`, so a program that keeps data there is excluded.
- Floating-point reads and writes, hexdump, process and module enumeration, FFI, console: plumbing.
- Entries are values in the maps; in the code they are heap objects the maps point to, so aliasing between the two maps is modelled as equality of entries (`Registry.InStep`).
- SoftwareBreakpoint.SoftwareBreakpoints.Set: the three failing builds share one error text, since the callers only see that it failed.
- Interceptor.Interceptor.Attach: memory below the stack of a running thread is not tracked here, so detaching while a thread is inside the trampoline is not modelled.

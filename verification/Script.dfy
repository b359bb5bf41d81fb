/** The script runtime with all its subsystems: what every call of a script keeps, and the ordered
    teardown (script.cc). */
module Script {
  import opened Words
  import opened Memory
  import R = Relocator
  import Trampoline
  import X86
  import Machine
  import Pages
  import Ring
  import opened PendingRing
  import opened PatchLog
  import opened Process
  import opened Registry
  import opened ExceptionHandler
  import opened Watches
  import opened Owners
  import opened LiveCode
  import opened Sites
  import I = Interceptor
  import S = SoftwareBreakpoint
  import H = HardwareBreakpoint
  import M = MemoryAccessMonitor
  import D = DebugRegisters

  // ---- Registrations and dispositions -----------------------------------------------------------------------

  ghost predicate Signals(orig: Dispositions, r: Registered, o: Owners) {
    Balanced(r, o) && Mirrors(orig, r.life)
  }

  /** A subsystem's reference never changes the dispositions once they are the engine's. */
  lemma ReferencesKeepDispositions(orig: Dispositions, l: Lifecycle)
    requires Mirrors(orig, l)
    ensures Mirrors(orig, Apply(l, RefEnable)) && Mirrors(orig, Apply(l, RefDisable))
  {
    DisorderBreaks(orig, l, RefEnable);
    DisorderBreaks(orig, l, RefDisable);
  }

  predicate OthersSame(o: Owners, o': Owners, software: bool) {
    o'.monitors == o.monitors && if software then o'.hardware == o.hardware else o'.software == o.software
  }

  lemma SoftwareIn(orig: Dispositions, r: Registered, o: Owners, r': Registered, o': Owners)
    requires Signals(orig, r, o) && OthersSame(o, o', true)
    requires (r' == r && o'.software == o.software) ||
              (o.software.None? && r' == S.Listening(r) && o'.software == Some(r.nextId))
    ensures Signals(orig, r', o')
  {
    hide Balanced, Mirrors, Apply;
    if o'.software != o.software {
      SoftwareListens(r, o);
      ReferencesKeepDispositions(orig, r.life);
      assert o' == o.(software := Some(r.nextId));
    }
  }

  lemma SoftwareOut(orig: Dispositions, r: Registered, o: Owners, r': Registered, o': Owners)
    requires Signals(orig, r, o) && OthersSame(o, o', true)
    requires (r' == r && o'.software == o.software) ||
              (o.software.Some? && r' == S.Deaf(r, o.software.value) && o'.software == None)
    ensures Signals(orig, r', o')
  {
    hide Balanced, Mirrors, Apply;
    if o'.software != o.software {
      SoftwareLeaves(r, o);
      ReferencesKeepDispositions(orig, r.life);
      assert o' == o.(software := None);
    }
  }

  lemma HardwareIn(orig: Dispositions, r: Registered, o: Owners, r': Registered, o': Owners)
    requires Signals(orig, r, o) && OthersSame(o, o', false)
    requires (r' == r && o'.hardware == o.hardware) ||
              (o.hardware.None? && r' == H.Listening(r) && o'.hardware == Some(r.nextId))
    ensures Signals(orig, r', o')
  {
    hide Balanced, Mirrors, Apply;
    if o'.hardware != o.hardware {
      HardwareListens(r, o);
      ReferencesKeepDispositions(orig, r.life);
      assert o' == o.(hardware := Some(r.nextId));
    }
  }

  lemma HardwareOut(orig: Dispositions, r: Registered, o: Owners, r': Registered, o': Owners)
    requires Signals(orig, r, o) && OthersSame(o, o', false)
    requires (r' == r && o'.hardware == o.hardware) ||
              (o.hardware.Some? && r' == H.Deaf(r, o.hardware.value) && o'.hardware == None)
    ensures Signals(orig, r', o')
  {
    hide Balanced, Mirrors, Apply;
    if o'.hardware != o.hardware {
      HardwareLeaves(r, o);
      ReferencesKeepDispositions(orig, r.life);
      assert o' == o.(hardware := None);
    }
  }

  lemma MonitorIn(orig: Dispositions, r: Registered, o: Owners, id: nat, ranges: seq<WatchedRange>)
    requires Signals(orig, r, o) && id !in o.monitors
    ensures Signals(orig, M.Guarding(r),
                    o.(monitors := o.monitors[id := MonitorEntry(id, ranges, r.nextId, r.nextId + 1)]))
  {
    hide Balanced, Mirrors, Apply;
    MonitorEnters(r, o, id, ranges);
    ReferencesKeepDispositions(orig, r.life);
  }

  lemma MonitorOut(orig: Dispositions, r: Registered, o: Owners, id: nat)
    requires Signals(orig, r, o) && id in o.monitors
    ensures var e := o.monitors[id];
            Signals(orig, Stepped(Minus(Minus(r, e.segvHandlerId), e.busHandlerId), RefDisable),
                    o.(monitors := o.monitors - {id}))
  {
    hide Balanced, Mirrors, Apply;
    MonitorLeaves(r, o, id);
    ReferencesKeepDispositions(orig, r.life);
  }

  lemma MonitorsOut(orig: Dispositions, r: Registered, o: Owners)
    requires Signals(orig, r, o)
    ensures Signals(orig, M.Let(r, M.HandlerIds(o.monitors, o.monitors.Keys), |o.monitors|), o.(monitors := map[]))
  {
    hide Balanced, WithoutIds;
    AllMonitorsLeave(r, o);
  }

  /** An explicit enable or disable; a disable only while no subsystem holds a reference. */
  lemma Switched(orig: Dispositions, r: Registered, o: Owners, op: Op)
    requires Signals(orig, r, o) && (op.Enable? || op.Disable?) && Orderly(r.life, op)
    ensures Signals(orig, Stepped(r, op), o)
  {
    DisorderBreaks(orig, r.life, op);
  }

  /** A range that fires takes no registration along. */
  lemma MonitorMarked(orig: Dispositions, r: Registered, o: Owners, id: nat, i: nat)
    requires Signals(orig, r, o) && id in o.monitors && i < |o.monitors[id].ranges|
    ensures Signals(orig, r, o.(monitors := o.monitors[id := Fired(o.monitors[id], i)]))
  {
    hide Balanced;
    MonitorFires(r, o, id, i);
  }

  lemma Claimed(monitors: map<nat, MonitorEntry>, id: nat, i: nat, faultAddr: Word)
    requires M.ClaimsAt(monitors, id, i, faultAddr)
    ensures id in monitors && i < |monitors[id].ranges|
  {
  }

  lemma MonitorsHear(orig: Dispositions, r: Registered, o: Owners, kind: ExceptionType)
    requires Signals(orig, r, o) && (kind.AccessViolation? || kind.BusError?)
    ensures o.monitors != map[] ==> exists h :: h in r.handlers && h.kind == kind && h.callback.PageFault?
    ensures forall id, i, a :: M.ClaimsAt(o.monitors, id, i, a) ==> o.monitors != map[]
  {
    hide Balanced, Mirrors;
    Heard(r, o);
    if o.monitors != map[] {
      var m :| m in o.monitors;
      assert HandlerEntry(o.monitors[m].segvHandlerId, AccessViolation, PageFault) in r.handlers;
      assert HandlerEntry(o.monitors[m].busHandlerId, BusError, PageFault) in r.handlers;
    }
  }

  lemma TrapsHear(orig: Dispositions, r: Registered, o: Owners)
    requires Signals(orig, r, o)
    ensures o.software.Some? ==> exists h :: h in r.handlers && h.kind == Breakpoint && h.callback.BreakpointTrap?
    ensures o.hardware.Some? ==> exists h :: h in r.handlers && h.kind == Breakpoint && h.callback.HardwareTrap?
  {
    hide Balanced, Mirrors;
    Heard(r, o);
  }

  /** While anything is owned, the engine's handlers are the installed ones. */
  lemma SignalsArrive(orig: Dispositions, r: Registered, o: Owners)
    requires Signals(orig, r, o) && References(o) > 0
    ensures r.life.current == INSTALLED && r.life.saved == orig
  {
  }

  /** With nobody left the reference count is zero, and while the handler is off the dispositions are
      the original ones. */
  lemma NobodyHolds(orig: Dispositions, r: Registered, o: Owners)
    requires Signals(orig, r, o) && o == Owners(None, None, map[])
    ensures r.life.refCount == 0 && Orderly(r.life, Disable)
    ensures !r.life.enabled ==> r.life.current == orig
    ensures forall h <- r.handlers :: h.kind == SingleStep && h.callback == HardwareTrap
    ensures !Stepped(r, Disable).life.enabled
  {
    NobodyLeft(r);
  }

  /** What one registered handler answers to a trap. */
  ghost predicate AnswersTrap(h: HandlerEntry, soft: Option<Word>, byAddress: map<Word, H.HwBreakpointEntry>, pc: Word,
                              dr6: D.Bits,
                              action: H.TrapAction)
    requires |dr6| == 64
  {
    if h.kind == Breakpoint && h.callback.BreakpointTrap? then
      action == if soft.Some? then H.Redirect(soft.value) else H.NotHandled
    else if h.kind == Breakpoint && h.callback.HardwareTrap? then H.Chosen(byAddress, pc, dr6, action)
    else action == H.NotHandled
  }

  /** The answer of the first handler in the list that claims the trap. */
  ghost predicate FirstAnswer(handlers: seq<HandlerEntry>, soft: Option<Word>,
                              byAddress: map<Word, H.HwBreakpointEntry>, pc: Word,
                              dr6: D.Bits, outcome: H.TrapAction)
    requires |dr6| == 64
  {
    if outcome == H.NotHandled then forall h <- handlers :: AnswersTrap(h, soft, byAddress, pc, dr6, H.NotHandled)
    else exists k ::
           && 0 <= k < |handlers| && AnswersTrap(handlers[k], soft, byAddress, pc, dr6, outcome)
           && forall h <- handlers[..k] :: AnswersTrap(h, soft, byAddress, pc, dr6, H.NotHandled)
  }

  /** While every live registry has its handler in the list, the first answer is this. */
  lemma FirstAnswerMeans(handlers: seq<HandlerEntry>, soft: Option<Word>, byAddress: map<Word, H.HwBreakpointEntry>,
                         pc: Word,
                         dr6: D.Bits, outcome: H.TrapAction)
    requires |dr6| == 64 && FirstAnswer(handlers, soft, byAddress, pc, dr6, outcome)
    requires soft.Some? ==> exists h :: h in handlers && h.kind == Breakpoint && h.callback.BreakpointTrap?
    requires byAddress != map[] ==> exists h :: h in handlers && h.kind == Breakpoint && h.callback.HardwareTrap?
    ensures soft.None? ==> H.Chosen(byAddress, pc, dr6, outcome)
    ensures soft.Some? ==>
              outcome == H.Redirect(soft.value) || (outcome != H.NotHandled && H.Chosen(byAddress, pc, dr6, outcome))
    ensures soft.Some? && H.Chosen(byAddress, pc, dr6, H.NotHandled) ==> outcome == H.Redirect(soft.value)
  {
    hide H.Chosen;
    QuietHardware(byAddress, pc, dr6);
  }

  /** No watchpoint claims a trap without watchpoints, and a trap none claims leaves no other choice. */
  lemma QuietHardware(byAddress: map<Word, H.HwBreakpointEntry>, pc: Word, dr6: D.Bits)
    requires |dr6| == 64
    ensures byAddress == map[] ==> H.Chosen(byAddress, pc, dr6, H.NotHandled)
    ensures forall action :: H.Chosen(byAddress, pc, dr6, action) && H.Chosen(byAddress, pc, dr6, H.NotHandled) ==>
              action == H.NotHandled
  {
  }

  /** A process the engine has not touched. */
  lemma NobodyYet(orig: Dispositions, r: Registered)
    requires r.handlers == [] && r.life.refCount == 0 && !r.life.enabled && r.life.current == orig && Outside(orig)
    ensures Signals(orig, r, Owners(None, None, map[]))
  {
    NoMonitors();
  }

  class Runtime {
    const code: CodeMemory
    const handler: NativeExceptionHandler
    const thread: D.ThreadContext
    const interceptor: I.Interceptor
    const software: S.SoftwareBreakpoints
    const hardware: H.HardwareBreakpoints
    const monitor: M.MemoryAccessMonitors
    /** The program's code and the process's signal dispositions without the engine. */
    ghost const base: Memory
    ghost const orig: Dispositions

    ghost predicate Wired()
      reads this
    {
      && interceptor.code == code && software.code == code && hardware.code == code
      && software.handler == handler && hardware.handler == handler && monitor.handler == handler
      && hardware.thread == thread
      && software.isa == interceptor.isa && software.abi == interceptor.abi
      && hardware.isa == interceptor.isa && hardware.abi == interceptor.abi
    }

    ghost function Builders(): Builder
      reads this
    {
      Builder(interceptor.isa, interceptor.abi, software.dispatch, interceptor.dispatch, interceptor.dispatchLeave,
        hardware.dispatch)
    }

    ghost function CodeNow(): Code
      reads code, interceptor, software, hardware
    {
      Code(code.mem, code.blocks,
        interceptor.hooksById, interceptor.hooksByTarget, interceptor.nextHookId,
        software.bpById, software.bpByAddress, software.nextBpId,
        hardware.hwById, hardware.hwByAddress, hardware.nextHwId, hardware.usedSlots)
    }

    ghost function OwnersNow(): Owners
      reads software, hardware, monitor
    {
      Owners(if software.handlerInstalled then Some(software.handlerId) else None,
        if hardware.handlerInstalled then Some(hardware.handlerId) else None,
        monitor.monitors)
    }

    /** A breakpoint handler is installed while there are breakpoints. */
    ghost predicate Listening()
      reads software, hardware
    {
      && (software.bpByAddress != map[] ==> software.handlerInstalled)
      && (hardware.hwByAddress != map[] ==> hardware.handlerInstalled)
    }

    ghost predicate SignalsKept()
      reads this, handler, software, hardware, monitor
    {
      Signals(orig, handler.View(), OwnersNow())
    }

    /** What every call keeps, whatever it is called with. */
    ghost predicate Valid()
      reads this, code, handler, thread, interceptor, software, hardware, monitor, monitor.entries
    {
      && Wired() && Listening()
      && Sound(CodeNow()) && hardware.Mirrored()
      && SignalsKept()
      && monitor.Valid()
    }

    /** The live patches lie apart over otherwise original code. */
    ghost predicate CodeApart()
      reads this, code, interceptor, software, hardware
    {
      Apart(base, CodeNow())
    }

    /** Every live hook and breakpoint, execute breakpoints included, has its patch, its trampoline and its
        relocated copy in memory. */
    ghost predicate CodeDeployed()
      reads this, code, interceptor, software, hardware
    {
      Deployed(Builders(), base, CodeNow()) && BreaksDeployed(Builders(), base, CodeNow())
    }

    /** A new patch there touches neither a live patch nor, with the instructions under it, is touched by one. */
    ghost predicate Undisturbing(addr: Word, n: nat)
      reads this, code, interceptor, software, hardware
    {
      && X86.PrefixCode(interceptor.isa)
      && Vacant(CodeNow(), addr, n) && Unpatched(interceptor.isa, base, CodeNow(), addr, n)
    }

    /** No patch lies on the instruction there. */
    ghost predicate Copyable(addr: Word)
      reads this, code, interceptor, software, hardware
    {
      X86.PrefixCode(interceptor.isa) && Unpatched(interceptor.isa, base, CodeNow(), addr, 1)
    }

    /** Subsystems fresh from their constructors, in a process the engine has not touched. */
    constructor (code: CodeMemory, handler: NativeExceptionHandler, thread: D.ThreadContext,
                 interceptor: I.Interceptor, software: S.SoftwareBreakpoints, hardware: H.HardwareBreakpoints,
                 monitor: M.MemoryAccessMonitors)
      requires interceptor.code == code && software.code == code && hardware.code == code
      requires software.handler == handler && hardware.handler == handler && monitor.handler == handler
      requires hardware.thread == thread
      requires software.isa == interceptor.isa && software.abi == interceptor.abi
      requires hardware.isa == interceptor.isa && hardware.abi == interceptor.abi
      requires interceptor.Valid() && software.Valid() && hardware.Valid() && monitor.Valid()
      requires interceptor.hooksById == map[] && software.bpById == map[] && hardware.hwById == map[]
      requires monitor.monitors == map[]
      requires !software.handlerInstalled && !hardware.handlerInstalled
      requires code.blocks == map[] && handler.handlers == [] && handler.refCount == 0
      requires Outside(handler.current) && !handler.enabled
      ensures Valid() && CodeApart() && CodeDeployed() && base == code.mem && orig == handler.current
      ensures this.code == code && this.handler == handler && this.thread == thread
      ensures this.interceptor == interceptor && this.software == software && this.hardware == hardware
      ensures this.monitor == monitor
      ensures CodeNow().hooks == map[] && CodeNow().bps == map[] && CodeNow().hws == map[]
      ensures OwnersNow() == Owners(None, None, map[])
    {
      this.code, this.handler, this.thread := code, handler, thread;
      this.interceptor, this.software, this.hardware, this.monitor := interceptor, software, hardware, monitor;
      base, orig := code.mem, handler.current;
      new;
      hide Patched, InStep, OwnedApart, Owned, PatchesOf, H.Bookkept, Exact, Logged, Deployed, BreaksDeployed, Shares;
      StartsKept(base, CodeNow());
      NothingDeployed(Builders(), base, CodeNow());
      NobodyYet(orig, handler.View());
      hide Signals;
    }

    /** Such a runtime exists for every process. */
    static method Start(mem: Memory, pageSize: Word, prot: Protections, orig: Dispositions, dr: seq<Word>, dr7: D.Bits,
                        isa: X86.Isa, abi: Machine.Abi, onEnter: Word, onLeave: Word, onHit: Word, onHwHit: Word)
      returns (r: Runtime)
      requires Pages.PageSize(pageSize) && Outside(orig) && |dr| == D.SLOTS && |dr7| == 64
      ensures r.Valid() && r.CodeApart() && r.CodeDeployed()
      ensures r.base == mem && r.orig == orig && r.code.mem == mem && r.code.blocks == map[]
      ensures r.Builders() == Builder(isa, abi, onHit, onEnter, onLeave, onHwHit)
      ensures r.CodeNow().hooks == map[] && r.CodeNow().bps == map[] && r.CodeNow().hws == map[]
      ensures r.OwnersNow() == Owners(None, None, map[])
      ensures r.monitor.Protected() && r.monitor.base == prot && r.monitor.prot == prot
      ensures r.monitor.Delivering() && r.monitor.pending == [] && r.monitor.recorded == []
      ensures !r.handler.enabled && r.handler.handlers == [] && r.monitor.delivered == []
      ensures fresh(r) && fresh(r.code) && fresh(r.handler) && fresh(r.thread)
      ensures fresh(r.interceptor) && fresh(r.software) && fresh(r.hardware) && fresh(r.monitor)
      ensures fresh(r.monitor.entries)
    {
      hide Runtime.Valid, Runtime.CodeApart, Runtime.CodeDeployed, I.Interceptor.Valid, S.SoftwareBreakpoints.Valid;
      hide H.HardwareBreakpoints.Valid;
      hide M.MemoryAccessMonitors.Valid, M.MemoryAccessMonitors.Protected, M.MemoryAccessMonitors.Delivering;
      var code := new CodeMemory(mem);
      var handler := new NativeExceptionHandler(orig);
      var thread := new D.ThreadContext(dr, dr7);
      var interceptor := new I.Interceptor(code, isa, abi, onEnter, onLeave);
      var software := new S.SoftwareBreakpoints(code, handler, isa, abi, onHit);
      var hardware := new H.HardwareBreakpoints(code, handler, thread, isa, abi, onHwHit);
      var monitor := new M.MemoryAccessMonitors(handler, pageSize, prot);
      r := new Runtime(code, handler, thread, interceptor, software, hardware, monitor);
    }

    // ---- Hooks -----------------------------------------------------------------------------------

    /** A window that overlaps a live patch is accepted; only then do the patches not stay apart. */
    method Attach(target: Word, answers: Answers) returns (r: Result<nat>)
      requires Valid() && Fresh(answers, code.blocks) && target + R.PATCH_SIZE + 32 < WORD_SPAN
      modifies interceptor, code
      ensures Valid()
      ensures r.Error? ==> CodeNow() == old(CodeNow())
      ensures r.Ok? ==> r.value in interceptor.hooksById && interceptor.hooksById[r.value].trampolineCode.Some?
      ensures r.Ok? ==> var e := interceptor.hooksById[r.value];
                        && e.target == target
                        && HookAdded(old(CodeNow()), CodeNow(), e, R.AbsoluteJump(e.trampolineCode.value))
      ensures r.Ok? && old(CodeApart()) ==> (CodeApart() <==> old(Vacant(CodeNow(), target, R.PATCH_SIZE)))
      ensures old(CodeApart() && CodeDeployed() && Undisturbing(target, R.PATCH_SIZE)) ==> CodeDeployed()
    {
      hide Sound, SignalsKept, Vacant, Fresh, InStep, OwnedApart, Owned, I.BlocksOf, Listening, Apart, Unpatched;
      hide X86.PrefixCode;
      hide M.MemoryAccessMonitors.Valid, H.HardwareBreakpoints.Mirrored, Deployed, BreaksDeployed, HookBuilt, Grown;
      hide R.AbsoluteJump, Write, Read, I.Interceptor.Builds, I.Interceptor.BuiltFor;
      ghost var c := CodeNow();
      SoundParts(c);
      r := interceptor.Attach(target, answers);
      ghost var d := CodeNow();
      assert if r.Error? then d == c
             else var e := d.hooks[r.value]; HookAdded(c, d, e, R.AbsoluteJump(e.trampolineCode.value))
      by {
        assert SameBreakpoints(c, d) && SameHardware(c, d);
      }
      assert r.Ok? ==> HookBuilt(Builders(), c.mem, d.blocks, d.hooks[r.value]) by {
        if r.Ok? {
          AttachBuilt(interceptor, software.dispatch, hardware.dispatch, answers, c.mem, c.blocks, d.blocks,
                      d.hooks[r.value]);
        }
      }
      hide HookAdded;
      if r.Ok? {
        HookIn(Builders(), base, c, d, d.hooks[r.value], d.hooks[r.value].trampolineCode.value);
      }
    }

    method Replace(target: Word, replacement: Word, answers: Answers) returns (r: Result<Word>)
      requires Valid() && Fresh(answers, code.blocks) && target + R.PATCH_SIZE + 32 < WORD_SPAN
      modifies interceptor, code
      ensures Valid()
      ensures r.Error? ==> CodeNow() == old(CodeNow())
      ensures r.Ok? ==> target in interceptor.hooksByTarget
                        && interceptor.hooksByTarget[target].relocatedCode == r.value
                        && interceptor.hooksByTarget[target].trampolineCode.None?
                        && HookAdded(old(CodeNow()), CodeNow(), interceptor.hooksByTarget[target],
                                     R.AbsoluteJump(replacement))
      ensures r.Ok? && old(CodeApart()) ==> (CodeApart() <==> old(Vacant(CodeNow(), target, R.PATCH_SIZE)))
      ensures old(CodeApart() && CodeDeployed() && Undisturbing(target, R.PATCH_SIZE)) ==> CodeDeployed()
    {
      hide Sound, SignalsKept, Vacant, Fresh, InStep, OwnedApart, Owned, I.BlocksOf, Listening, Apart, Unpatched;
      hide X86.PrefixCode;
      hide M.MemoryAccessMonitors.Valid, H.HardwareBreakpoints.Mirrored, Deployed, BreaksDeployed, Grown;
      hide R.AbsoluteJump, R.Relocated, Write, Read;
      ghost var c := CodeNow();
      SoundParts(c);
      r := interceptor.Replace(target, replacement, answers);
      ghost var d := CodeNow();
      assert if r.Ok? then HookAdded(c, d, d.byTarget[target], R.AbsoluteJump(replacement)) else d == c by {
        assert SameBreakpoints(c, d) && SameHardware(c, d);
      }
      assert r.Ok? ==> HookBuilt(Builders(), c.mem, d.blocks, d.byTarget[target]);
      hide HookAdded, HookBuilt;
      if r.Ok? {
        HookIn(Builders(), base, c, d, d.byTarget[target], replacement);
      }
    }

    method Detach(id: nat)
      requires Valid()
      modifies interceptor, code
      ensures Valid()
      ensures if id in old(interceptor.hooksById) then HookTaken(old(CodeNow()), CodeNow(), id)
              else CodeNow() == old(CodeNow())
      ensures old(CodeApart()) ==> CodeApart()
      ensures old(CodeApart() && CodeDeployed()) ==> CodeDeployed()
    {
      hide Sound, SignalsKept, InStep, OwnedApart, Owned, I.BlocksOf, Listening, Apart, Deployed, BreaksDeployed;
      hide M.MemoryAccessMonitors.Valid, H.HardwareBreakpoints.Mirrored, Shrunk, Undo, UndoIds, Without, Lists;
      ghost var c := CodeNow();
      SoundParts(c);
      interceptor.Detach(id);
      ghost var d := CodeNow();
      assert if id in c.hooks then HookTaken(c, d, id) else d == c by {
        assert SameBreakpoints(c, d) && SameHardware(c, d);
      }
      hide HookTaken;
      if id in c.hooks {
        HookOut(Builders(), base, c, d, id);
      }
    }

    method Revert(target: Word)
      requires Valid()
      modifies interceptor, code
      ensures Valid()
      ensures if target in old(interceptor.hooksByTarget)
              then exists id ::
                && HookTaken(old(CodeNow()), CodeNow(), id)
                && old(interceptor.hooksById)[id].target == target
              else CodeNow() == old(CodeNow())
      ensures old(CodeApart()) ==> CodeApart()
      ensures old(CodeApart() && CodeDeployed()) ==> CodeDeployed()
    {
      hide Sound, SignalsKept, InStep, OwnedApart, Owned, I.BlocksOf, Listening, Apart, Deployed, BreaksDeployed;
      hide M.MemoryAccessMonitors.Valid, H.HardwareBreakpoints.Mirrored, Shrunk, Undo, UndoIds, Without, Lists;
      ghost var c := CodeNow();
      SoundParts(c);
      ghost var id := interceptor.Revert(target);
      ghost var d := CodeNow();
      assert if target in c.byTarget then HookTaken(c, d, id) else d == c by {
        assert SameBreakpoints(c, d) && SameHardware(c, d);
      }
      hide HookTaken;
      if target in c.byTarget {
        HookOut(Builders(), base, c, d, id);
      }
    }

    method DetachAll()
      requires Valid()
      modifies interceptor, code
      ensures Valid() && exists order :: HooksTaken(old(CodeNow()), CodeNow(), order)
      ensures CodeNow().hooks == map[]
      ensures old(CodeApart()) ==> CodeApart()
      ensures old(CodeApart() && CodeDeployed()) ==> CodeDeployed()
    {
      hide Sound, SignalsKept, InStep, OwnedApart, Owned, I.BlocksOf, Listening, Apart, Deployed, BreaksDeployed;
      hide M.MemoryAccessMonitors.Valid, H.HardwareBreakpoints.Mirrored, Shrunk, Undo, UndoIds, Without, Lists;
      ghost var c := CodeNow();
      SoundParts(c);
      ghost var order := interceptor.DetachAll();
      ghost var d := CodeNow();
      assert HooksTaken(c, d, order) by {
        assert SameBreakpoints(c, d) && SameHardware(c, d);
      }
      hide HooksTaken;
      HooksOut(Builders(), base, c, d, order);
    }

    // ---- Software breakpoints -----------------------------------------------------------------------

    method SetBreakpoint(address: Word, answers: Answers) returns (r: Result<nat>)
      requires Valid() && Fresh(answers, code.blocks) && address + 33 < WORD_SPAN
      modifies software, code, handler
      ensures Valid()
      ensures r.Error? ==> CodeNow() == old(CodeNow())
      ensures r.Ok? ==> r.value in software.bpById && software.bpById[r.value].address == address
                        && BreakpointAdded(old(CodeNow()), CodeNow(), software.bpById[r.value], [0xCC])
      ensures r.Ok? && old(CodeApart()) ==> (CodeApart() <==> old(Vacant(CodeNow(), address, S.BP_INSN_SIZE)))
      ensures old(CodeApart() && CodeDeployed() && Undisturbing(address, S.BP_INSN_SIZE)) ==> CodeDeployed()
    {
      hide Sound, Signals, Vacant, Fresh, InStep, OwnedApart, Owned, S.BlocksOf, S.Listening, Apart, Unpatched;
      hide X86.PrefixCode;
      hide M.MemoryAccessMonitors.Valid, H.HardwareBreakpoints.Mirrored, Deployed, BreaksDeployed, BreakpointBuilt;
      hide Grown;
      hide R.Relocated, Write, Read, S.SoftwareBreakpoints.Buildable, S.SoftwareBreakpoints.BuiltFor;
      hide S.SoftwareBreakpoints.EntryFor;
      ghost var c, o, view := CodeNow(), OwnersNow(), handler.View();
      SoundParts(c);
      r := software.Set(address, answers);
      assert monitor.Valid() && hardware.Mirrored();
      assert SignalsKept() by {
        assert OthersSame(o, OwnersNow(), true);
        SoftwareIn(orig, view, o, handler.View(), OwnersNow());
      }
      ghost var d := CodeNow();
      if r.Ok? {
        EntryIsFor(software, address, answers, c.mem);
        SetBuilt(software, Builders(), answers, c.mem, c.blocks, d.blocks, d.bps[r.value]);
      }
      assert if r.Ok? then BreakpointAdded(c, d, d.bps[r.value], [0xCC]) else d == c by {
        assert SameHooks(c, d) && SameHardware(c, d);
      }
      hide BreakpointAdded;
      if r.Ok? {
        BreakpointIn(Builders(), base, c, d, d.bps[r.value]);
      }
    }

    method RemoveBreakpoint(id: nat)
      requires Valid()
      modifies software, code, handler
      ensures Valid()
      ensures if id in old(software.bpById) then BreakpointTaken(old(CodeNow()), CodeNow(), id)
              else CodeNow() == old(CodeNow())
      ensures old(CodeApart()) ==> CodeApart()
      ensures old(CodeApart() && CodeDeployed()) ==> CodeDeployed()
    {
      hide Sound, Signals, InStep, OwnedApart, Owned, S.BlocksOf, S.Deaf, Undo, Without, Shrunk, Apart, Deployed;
      hide BreaksDeployed;
      hide M.MemoryAccessMonitors.Valid, H.HardwareBreakpoints.Mirrored;
      hide NativeExceptionHandler.View;
      ghost var c, o, view := CodeNow(), OwnersNow(), handler.View();
      SoundParts(c);
      software.Remove(id);
      assert monitor.Valid() && hardware.Mirrored();
      assert SignalsKept() by {
        assert OthersSame(o, OwnersNow(), true);
        SoftwareOut(orig, view, o, handler.View(), OwnersNow());
      }
      ghost var d := CodeNow();
      assert if id in c.bps then BreakpointTaken(c, d, id) else d == c by {
        assert SameHooks(c, d) && SameHardware(c, d);
      }
      hide BreakpointTaken;
      if id in c.bps {
        BreakpointOut(Builders(), base, c, d, id);
      }
    }

    method RemoveAllBreakpoints()
      requires Valid()
      modifies software, code, handler
      ensures Valid() && exists order :: BreakpointsTaken(old(CodeNow()), CodeNow(), order)
      ensures CodeNow().bps == map[] && OwnersNow().software == None
      ensures old(CodeApart()) ==> CodeApart()
      ensures old(CodeApart() && CodeDeployed()) ==> CodeDeployed()
    {
      hide Sound, Signals, InStep, OwnedApart, Owned, S.Deaf, UndoIds, Without, Lists, Shrunk, Apart, Deployed;
      hide BreaksDeployed;
      hide M.MemoryAccessMonitors.Valid, H.HardwareBreakpoints.Mirrored;
      ghost var c, o, view := CodeNow(), OwnersNow(), handler.View();
      SoundParts(c);
      ghost var order := software.RemoveAll();
      assert monitor.Valid() && hardware.Mirrored();
      assert SignalsKept() by {
        assert OthersSame(o, OwnersNow(), true);
        SoftwareOut(orig, view, o, handler.View(), OwnersNow());
      }
      ghost var d := CodeNow();
      assert BreakpointsTaken(c, d, order) by {
        assert SameHooks(c, d) && SameHardware(c, d);
      }
      hide BreakpointsTaken;
      BreakpointsOut(Builders(), base, c, d, order);
    }

    // ---- Hardware breakpoints -----------------------------------------------------------------------

    method SetHardwareBreakpoint(address: Word, typeStr: string, size: int, answers: Answers) returns (r: Result<nat>)
      requires Valid() && Fresh(answers, code.blocks) && address + 33 < WORD_SPAN
      modifies hardware, code, handler, thread
      ensures Valid()
      ensures r.Error? ==> CodeNow() == old(CodeNow())
      ensures r.Ok? ==> HwSet(old(CodeNow()), CodeNow(), r.value, address, typeStr, size, answers)
      ensures r.Ok? ==>
                && thread.Valid() && r.value in hardware.hwById
                && H.AsAsked(thread.WatchAt(hardware.hwById[r.value].slot), address, typeStr, size)
      ensures old(CodeApart()) ==> CodeApart()
      ensures old(CodeApart() && CodeDeployed() && (typeStr == "execute" ==> Copyable(address))) ==> CodeDeployed()
    {
      hide Sound, Signals, Fresh, InStep, OwnedApart, Owned, H.BlocksOf, H.Listening, H.Bookkept, H.ParseType, Grown;
      hide H.HardwareBreakpoints.Buildable, H.HardwareBreakpoints.CodeFor, H.InFirstFree, H.AsAsked;
      hide H.HardwareBreakpoints.Acceptable;
      hide M.MemoryAccessMonitors.Valid, H.HardwareBreakpoints.Mirrored, D.ThreadContext.WatchAt, H.EntryFor;
      hide HwSet, HwBuilt, Unpatched, X86.PrefixCode, Apart, Deployed, BreaksDeployed;
      ghost var c, o, view := CodeNow(), OwnersNow(), handler.View();
      SoundParts(c);
      r := hardware.Set(address, typeStr, size, answers);
      assert monitor.Valid() && hardware.Mirrored();
      assert SignalsKept() by {
        assert OthersSame(o, OwnersNow(), false);
        HardwareIn(orig, view, o, handler.View(), OwnersNow());
      }
      ghost var d := CodeNow();
      if r.Ok? {
        H.TypeNames(typeStr);
        H.FirstFreeEntry(d.hws[r.value], address, H.ParseType(typeStr).value, size, answers, c.used);
        HwSetBuilt(hardware, Builders(), answers, c.mem, c.blocks, d.blocks, d.hws[r.value],
          H.ParseType(typeStr).value, size);
        assert HwSet(c, d, r.value, address, typeStr, size, answers) by {
          HwSetNow(c, d, address, typeStr, size, answers, d.hws[r.value]);
        }
        HwIn(Builders(), base, c, d, r.value, address, typeStr, size, answers);
      } else {
        assert d == c;
      }
    }

    method RemoveHardwareBreakpoint(id: nat)
      requires Valid()
      modifies hardware, code, handler, thread
      ensures Valid()
      ensures if id in old(hardware.hwById) then HwTaken(old(CodeNow()), CodeNow(), id) else CodeNow() == old(CodeNow())
      ensures old(CodeApart()) ==> CodeApart()
      ensures old(CodeDeployed()) ==> CodeDeployed()
    {
      hide Sound, Signals, InStep, OwnedApart, Owned, H.BlocksOf, H.Deaf, H.Bookkept, Without, Shrunk, Apart, Deployed;
      hide BreaksDeployed;
      hide M.MemoryAccessMonitors.Valid, H.HardwareBreakpoints.Mirrored, D.WatchIn;
      hide NativeExceptionHandler.View;
      ghost var c, o, view := CodeNow(), OwnersNow(), handler.View();
      SoundParts(c);
      hardware.Remove(id);
      assert monitor.Valid() && hardware.Mirrored();
      assert SignalsKept() by {
        assert OthersSame(o, OwnersNow(), false);
        HardwareOut(orig, view, o, handler.View(), OwnersNow());
      }
      ghost var d := CodeNow();
      assert if id in c.hws then HwTaken(c, d, id) else d == c by {
        assert SameHooks(c, d) && SameBreakpoints(c, d);
      }
      hide HwTaken;
      if id in c.hws {
        HwGone(Builders(), base, c, d, id);
      }
    }

    method RemoveAllHardwareBreakpoints()
      requires Valid()
      modifies hardware, code, handler, thread
      ensures Valid() && HwsTaken(old(CodeNow()), CodeNow())
      ensures CodeNow().hws == map[] && OwnersNow().hardware == None
      ensures forall slot: D.Slot :: slot !in hardware.foreign ==> thread.Valid() && !thread.WatchAt(slot).enabled
      ensures old(CodeApart()) ==> CodeApart()
      ensures old(CodeDeployed()) ==> CodeDeployed()
    {
      hide Sound, Signals, InStep, OwnedApart, Owned, H.BlocksOf, H.Deaf, H.Bookkept, Without, Shrunk, Apart, Deployed;
      hide BreaksDeployed;
      hide M.MemoryAccessMonitors.Valid, D.WatchIn;
      ghost var c, o, view := CodeNow(), OwnersNow(), handler.View();
      SoundParts(c);
      hardware.RemoveAll();
      assert monitor.Valid() && hardware.Mirrored();
      assert SignalsKept() by {
        assert OthersSame(o, OwnersNow(), false);
        HardwareOut(orig, view, o, handler.View(), OwnersNow());
      }
      ghost var d := CodeNow();
      assert HwsTaken(c, d) by {
        assert SameHooks(c, d) && SameBreakpoints(c, d);
      }
      hide HwsTaken;
      HwsGone(Builders(), base, c, d);
    }

    // ---- Page monitors -----------------------------------------------------------------------------

    /** Pages that are watched already or were not read-write are accepted; only then are the
        protections not exact any more. */
    method EnableMonitor(addresses: seq<Word>, sizes: seq<int>) returns (r: Result<nat>)
      requires Valid()
      modifies monitor, handler
      ensures Valid()
      ensures r.Ok? <==> |addresses| == |sizes|
      ensures if r.Error? then monitor.monitors == old(monitor.monitors) && monitor.prot == old(monitor.prot)
              else var ranges := M.RangesFor(addresses, sizes, monitor.pageSize);
                && r.value !in old(monitor.monitors) && monitor.prot == Blocked(old(monitor.prot), ranges)
                && monitor.monitors == old(monitor.monitors)
                     [r.value := MonitorEntry(r.value, ranges, old(handler.nextId), old(handler.nextId) + 1)]
      ensures old(monitor.Protected()) ==>
                (monitor.Protected() <==>
                 (r.Ok? ==> Free(monitor.base, old(monitor.monitors), M.RangesFor(addresses, sizes, monitor.pageSize))))
      ensures monitor.recorded == old(monitor.recorded) && monitor.pending == old(monitor.pending)
      ensures old(monitor.Delivering()) ==> monitor.Delivering()
    {
      hide Sound, Signals, Free, M.Guarding, M.RangesFor, Blocked, Exact, Logged, H.HardwareBreakpoints.Mirrored;
      ghost var o, view := OwnersNow(), handler.View();
      r := monitor.Enable(addresses, sizes);
      assert SignalsKept() by {
        if r.Ok? {
          MonitorIn(orig, view, o, r.value, M.RangesFor(addresses, sizes, monitor.pageSize));
          assert OwnersNow() == o.(monitors := monitor.monitors);
        } else {
          assert OwnersNow() == o;
        }
      }
    }

    method DisableMonitor(id: nat)
      requires Valid()
      modifies monitor, monitor.entries, handler
      ensures Valid()
      ensures monitor.monitors == old(monitor.monitors) - {id}
      ensures monitor.prot ==
                if id !in old(monitor.monitors) then old(monitor.prot)
                else Restored(old(monitor.prot), old(monitor.monitors)[id].ranges)
      ensures old(monitor.Protected()) ==> monitor.Protected()
      ensures monitor.recorded == old(monitor.recorded)
      ensures old(monitor.Delivering()) ==>
                monitor.Delivering() && monitor.pending == [] && monitor.delivered == M.CallsOf(monitor.recorded)
    {
      hide Sound, Signals, Exact, Logged, Restored, Stepped, Minus, H.HardwareBreakpoints.Mirrored;
      ghost var o, view := OwnersNow(), handler.View();
      monitor.Disable(id);
      assert SignalsKept() by {
        if id in o.monitors {
          MonitorOut(orig, view, o, id);
          assert OwnersNow() == o.(monitors := o.monitors - {id});
        } else {
          assert OwnersNow() == o;
        }
      }
    }

    method DisableAllMonitors()
      requires Valid()
      modifies monitor, monitor.entries, handler
      ensures Valid() && OwnersNow().monitors == map[]
      ensures old(monitor.Protected()) ==> monitor.Protected() && forall x: int :: monitor.prot(x) == monitor.base(x)
      ensures monitor.recorded == old(monitor.recorded)
      ensures old(monitor.Delivering()) ==>
                monitor.Delivering() && monitor.pending == [] && monitor.delivered == M.CallsOf(monitor.recorded)
    {
      hide Sound, Signals, Logged, M.Let, M.HandlerIds, H.HardwareBreakpoints.Mirrored;
      ghost var o, view := OwnersNow(), handler.View();
      monitor.DisableAll();
      assert SignalsKept() by {
        MonitorsOut(orig, view, o);
        assert OwnersNow() == o.(monitors := map[]);
      }
    }

    /** globalSignalHandler on a page fault: every monitor has registered the same function, and the
        first that claims the fault ends the search.  A fault fires at most one range. */
    method Fault(kind: ExceptionType, faultAddr: Word, access: M.AccessType)
      returns (handled: bool, ghost id: nat, ghost i: nat)
      requires Valid() && (kind.AccessViolation? || kind.BusError?)
      modifies monitor, monitor.entries
      ensures Valid()
      ensures handled <==> exists jd, j :: M.ClaimsAt(old(monitor.monitors), jd, j, faultAddr)
      ensures handled ==>
                && M.ClaimsAt(old(monitor.monitors), id, i, faultAddr)
                && var e := old(monitor.monitors)[id];
                   var event := EventOf(e, i, faultAddr, M.AccessCode(access));
                   && monitor.monitors == old(monitor.monitors)[id := Fired(e, i)]
                   && monitor.recorded == old(monitor.recorded) + [event]
                   && monitor.delivered == old(monitor.delivered)
                   && monitor.pending == old(monitor.pending) + [event]
                   && M.CallOf(event) ==
                        M.OnAccess(id, faultAddr, e.ranges[i].pageBase,
                          match access
                          case Read => "read"
                          case Write => "write"
                          case Execute => "execute"
                          case UnknownAccess => "unknown",
                          i)
      ensures !handled ==> unchanged(monitor) && unchanged(monitor.entries)
      ensures old(monitor.Protected()) ==> monitor.Protected()
      ensures old(monitor.Delivering()) && old(|monitor.pending|) < Ring.MAX_PENDING ==> monitor.Delivering()
    {
      hide Sound, Signals, M.ClaimsAt, H.HardwareBreakpoints.Mirrored, M.MemoryAccessMonitors.Valid, Fired;
      hide M.MemoryAccessMonitors.Protected, M.MemoryAccessMonitors.Delivering, EventOf, M.CallOf, M.AccessCode;
      id, i := 0, 0;
      for k := 0 to |handler.handlers|
        invariant unchanged(monitor) && unchanged(monitor.entries)
        invariant forall h <- handler.handlers[..k] :: h.kind == kind && h.callback.PageFault? ==>
                    forall jd, j :: !M.ClaimsAt(monitor.monitors, jd, j, faultAddr)
      {
        if handler.handlers[k].kind == kind && handler.handlers[k].callback.PageFault? {
          handled, id, i := FaultHandler(faultAddr, access);
          if handled {
            return;
          }
        }
      }
      MonitorsHear(orig, handler.View(), OwnersNow(), kind);
      handled := false;
    }

    /** One call of the registered function. */
    method FaultHandler(faultAddr: Word, access: M.AccessType) returns (handled: bool, ghost id: nat, ghost i: nat)
      requires Valid()
      modifies monitor, monitor.entries
      ensures Valid()
      ensures handled <==> exists jd, j :: M.ClaimsAt(old(monitor.monitors), jd, j, faultAddr)
      ensures handled ==>
                && M.ClaimsAt(old(monitor.monitors), id, i, faultAddr)
                && var e := old(monitor.monitors)[id];
                   var event := EventOf(e, i, faultAddr, M.AccessCode(access));
                   && monitor.monitors == old(monitor.monitors)[id := Fired(e, i)]
                   && monitor.recorded == old(monitor.recorded) + [event]
                   && monitor.delivered == old(monitor.delivered)
                   && monitor.pending == old(monitor.pending) + [event]
                   && M.CallOf(event) ==
                        M.OnAccess(id, faultAddr, e.ranges[i].pageBase,
                          match access
                          case Read => "read"
                          case Write => "write"
                          case Execute => "execute"
                          case UnknownAccess => "unknown",
                          i)
      ensures !handled ==> unchanged(monitor) && unchanged(monitor.entries)
      ensures old(monitor.Protected()) ==> monitor.Protected()
      ensures old(monitor.Delivering()) && old(|monitor.pending|) < Ring.MAX_PENDING ==> monitor.Delivering()
    {
      hide Sound, Signals, Exact, Logged, Fired, M.ClaimsAt, H.HardwareBreakpoints.Mirrored, EventOf, M.CallOf;
      hide M.AccessCode;
      ghost var o := OwnersNow();
      handled, id, i := monitor.OnFault(faultAddr, access);
      assert SignalsKept() by {
        if handled {
          Claimed(o.monitors, id, i, faultAddr);
          MonitorMarked(orig, handler.View(), o, id, i);
          assert OwnersNow() == o.(monitors := monitor.monitors);
        } else {
          assert OwnersNow() == o;
        }
      }
    }

    /** globalSignalHandler on a trap.  With software and hardware claims on one trap the handler
        registered first decides; otherwise the only claim does, and without a claim the signal is
        forwarded. */
    method Trap(pc: Word, dr6: D.Bits) returns (outcome: H.TrapAction)
      requires Valid() && |dr6| == 64
      ensures FirstAnswer(handler.handlers, Machine.TrapHandler(software.Traps(), pc), hardware.hwByAddress, pc, dr6,
                          outcome)
      ensures var soft := Machine.TrapHandler(software.Traps(), pc);
              && (soft.None? ==> H.Chosen(hardware.hwByAddress, pc, dr6, outcome))
              && (soft.Some? ==>
                  outcome == H.Redirect(soft.value) ||
                      (outcome != H.NotHandled && H.Chosen(hardware.hwByAddress, pc, dr6, outcome)))
              && (soft.Some? && H.Chosen(hardware.hwByAddress, pc, dr6, H.NotHandled) ==>
                  outcome == H.Redirect(soft.value))
    {
      hide Sound, Signals, M.MemoryAccessMonitors.Valid, InStep, OwnedApart, Owned, H.Bookkept, H.Chosen;
      SoundParts(CodeNow());
      assert Machine.TrapHandler(software.Traps(), pc).Some? ==> software.bpByAddress != map[];
      outcome := Dispatch(pc, dr6);
      TrapsHear(orig, handler.View(), OwnersNow());
      FirstAnswerMeans(handler.handlers, Machine.TrapHandler(software.Traps(), pc), hardware.hwByAddress, pc, dr6,
                       outcome);
    }

    /** The search through the handlers registered for traps: the first that claims the trap decides. */
    method Dispatch(pc: Word, dr6: D.Bits) returns (outcome: H.TrapAction)
      requires hardware.Valid() && |dr6| == 64
      ensures FirstAnswer(handler.handlers, Machine.TrapHandler(software.Traps(), pc), hardware.hwByAddress, pc, dr6,
                          outcome)
    {
      hide Machine.TrapHandler, S.SoftwareBreakpoints.Traps, H.Chosen, H.HardwareBreakpoints.Valid;
      ghost var soft := Machine.TrapHandler(software.Traps(), pc);
      for k := 0 to |handler.handlers|
        invariant forall h <- handler.handlers[..k] :: AnswersTrap(h, soft, hardware.hwByAddress, pc, dr6, H.NotHandled)
      {
        var h := handler.handlers[k];
        if h.kind == Breakpoint {
          if h.callback.BreakpointTrap? {
            var resume := software.HandleTrap(pc);
            if resume.Some? {
              return H.Redirect(resume.value);
            }
          } else if h.callback.HardwareTrap? {
            outcome := hardware.HandleTrap(pc, dr6);
            if outcome != H.NotHandled {
              return;
            }
          }
        }
      }
      return H.NotHandled;
    }

    method Drain() returns (count: nat)
      requires Valid()
      modifies monitor, monitor.entries
      ensures Valid()
      ensures monitor.monitors == old(monitor.monitors) && monitor.prot == old(monitor.prot)
      ensures monitor.recorded == old(monitor.recorded)
      ensures old(monitor.Protected()) ==> monitor.Protected()
      ensures old(monitor.Delivering()) ==>
                && monitor.Delivering() && monitor.pending == [] && monitor.delivered == M.CallsOf(monitor.recorded)
                && monitor.delivered == old(monitor.delivered) + M.CallsOf(old(monitor.pending))
                && count == old(|monitor.pending|)
    {
      hide Sound, Signals, Exact, Logged, H.HardwareBreakpoints.Mirrored;
      count := monitor.DrainPending();
    }

    // ---- The exception handler itself ----------------------------------------------------------------

    method EnableExceptionHandler()
      requires Valid()
      modifies handler
      ensures Valid() && handler.View() == Stepped(old(handler.View()), Enable)
      ensures handler.enabled && handler.current == Dispositions(Engine, Engine, Engine, Engine) &&
                handler.saved == orig
    {
      hide Sound, Apply, H.HardwareBreakpoints.Mirrored, Balanced;
      Switched(orig, handler.View(), OwnersNow(), Enable);
      handler.DoEnable();
    }

    method DisableExceptionHandler()
      requires Valid() && Orderly(handler.State(), Disable)
      modifies handler
      ensures Valid() && handler.View() == Stepped(old(handler.View()), Disable)
      ensures !handler.enabled && handler.current == orig
    {
      hide Sound, Apply, H.HardwareBreakpoints.Mirrored, Balanced;
      Switched(orig, handler.View(), OwnersNow(), Disable);
      handler.DoDisable();
    }

    // ---- Teardown -----------------------------------------------------------------------------------

    /** From any state: no block, no reference, the original dispositions, and no registration but
        SingleStep ones; code and protections as without the engine if the patches lay apart and the
        pages were watched once. */
    method Cleanup()
      requires Valid()
      modifies monitor, monitor.entries, handler, hardware, thread, software, interceptor, code
      ensures Valid()
      ensures code.blocks == map[] && CodeNow().hooks == map[] && CodeNow().bps == map[] && CodeNow().hws == map[]
      ensures OwnersNow() == Owners(None, None, map[])
      ensures old(CodeApart()) ==> Same(code.mem, base)
      ensures old(monitor.Protected()) ==> forall x: int :: monitor.prot(x) == monitor.base(x)
      ensures handler.refCount == 0 && !handler.enabled && handler.current == orig
      ensures forall h <- handler.handlers :: h.kind == SingleStep && h.callback == HardwareTrap
      ensures forall slot: D.Slot :: slot !in hardware.foreign ==> thread.Valid() && !thread.WatchAt(slot).enabled
      ensures monitor.recorded == old(monitor.recorded)
      ensures old(monitor.Delivering()) ==> monitor.delivered == M.CallsOf(monitor.recorded)
    {
      hide Sound, Signals, Same, Exact, Logged, H.HardwareBreakpoints.Mirrored, D.WatchIn, Apply, Apart, Deployed;
      hide BreaksDeployed;
      hide HooksTaken, BreakpointsTaken, HwsTaken;
      DisableAllMonitors();
      RemoveAllHardwareBreakpoints();
      RemoveAllBreakpoints();
      DetachAll();
      NothingKept(base, CodeNow());
      NobodyHolds(orig, handler.View(), OwnersNow());
      DisableExceptionHandler();
      NobodyHolds(orig, handler.View(), OwnersNow());
    }
  }

  lemma EntryIsFor(s: S.SoftwareBreakpoints, address: Word, answers: Answers, m: Memory)
    requires s.Buildable(address, answers, m)
    ensures var e := s.EntryFor(address, answers, m); e.address == address && e.originalBytes == Read(m, address, 1)
  {
  }
}

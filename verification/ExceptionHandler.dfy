/** The global exception handler: signal dispositions, the reference count, the handler list
    (native_exception_handler.cc, POSIX side). */
module ExceptionHandler {
  import opened Words

  datatype ExceptionType = AccessViolation | BusError | Breakpoint | SingleStep | IllegalInstruction | Unknown

  /** The handler functions the engine registers. */
  datatype Callback = BreakpointTrap | HardwareTrap | PageFault

  datatype HandlerEntry = HandlerEntry(id: nat, kind: ExceptionType, callback: Callback)

  datatype Disposition = Engine | Foreign(handler: int)

  /** The dispositions of SIGSEGV, SIGBUS, SIGTRAP and SIGILL. */
  datatype Dispositions = Dispositions(segv: Disposition, bus: Disposition, trap: Disposition, ill: Disposition)

  const INSTALLED := Dispositions(Engine, Engine, Engine, Engine)

  /** Enabled flag, reference count, the process's dispositions and the saved ones. */
  datatype Lifecycle = Lifecycle(enabled: bool, refCount: int, current: Dispositions, saved: Dispositions)

  function Installing(l: Lifecycle): Lifecycle {
    l.(current := INSTALLED, saved := l.current)
  }

  function Removing(l: Lifecycle): Lifecycle {
    l.(current := l.saved)
  }

  datatype Op = Enable | Disable | RefEnable | RefDisable

  function Apply(l: Lifecycle, op: Op): Lifecycle {
    match op
    case Enable => if l.enabled then l else Installing(l.(enabled := true))
    case Disable =>
      if !l.enabled then l
      else if l.refCount > 0 then l.(enabled := false)
      else Removing(l.(enabled := false))
    case RefEnable =>
      var counted := l.(refCount := l.refCount + 1);
      if l.refCount == 0 && !l.enabled then Installing(counted.(enabled := true)) else counted
    case RefDisable => l.(refCount := l.refCount - 1)
  }

  // ---- When the dispositions follow the flag --------------------------------------------------------

  predicate Outside(orig: Dispositions) {
    orig.segv != Engine && orig.bus != Engine && orig.trap != Engine && orig.ill != Engine
  }

  /** Handlers are installed exactly while enabled, a held reference keeps them enabled, and what is
      saved is what was there before the engine. */
  predicate Mirrors(orig: Dispositions, l: Lifecycle) {
    && Outside(orig)
    && (if l.enabled then l.current == INSTALLED && l.saved == orig else l.current == orig)
    && (l.refCount > 0 ==> l.enabled)
  }

  /** An explicit disable comes only when no subsystem holds a reference. */
  predicate Orderly(l: Lifecycle, op: Op) {
    op.Disable? && l.enabled ==> l.refCount <= 0
  }

  function ApplyAll(l: Lifecycle, ops: seq<Op>): Lifecycle
    decreases |ops|
  {
    if ops == [] then l else ApplyAll(Apply(l, ops[0]), ops[1..])
  }

  predicate OrderlyAll(l: Lifecycle, ops: seq<Op>)
    decreases |ops|
  {
    ops == [] || (Orderly(l, ops[0]) && OrderlyAll(Apply(l, ops[0]), ops[1..]))
  }

  /** Over every orderly run the dispositions follow the flag, so the engine never saves its own
      handler and a removal always restores the original dispositions. */
  lemma {:induction false} LifecycleMirrors(orig: Dispositions, l: Lifecycle, ops: seq<Op>)
    requires Mirrors(orig, l) && OrderlyAll(l, ops)
    ensures Mirrors(orig, ApplyAll(l, ops))
    decreases |ops|
  {
    if ops != [] {
      LifecycleMirrors(orig, Apply(l, ops[0]), ops[1..]);
    }
  }

  // ---- When the handlers are enabled -----------------------------------------------------------------

  /** References held after some operations. */
  function RefsAfter(refs: int, ops: seq<Op>): int
    decreases |ops|
  {
    if ops == [] then refs
    else RefsAfter(if ops[0].RefEnable? then refs + 1 else if ops[0].RefDisable? then refs - 1 else refs, ops[1..])
  }

  /** Operation `k` asks for the handlers: an enable, or a reference while none is held. */
  predicate AsksAt(refs: int, ops: seq<Op>, k: nat)
    requires k < |ops|
  {
    ops[k].Enable? || (ops[k].RefEnable? && RefsAfter(refs, ops[..k]) == 0)
  }

  /** Somebody asked, and no disable came after. */
  ghost predicate AskedLast(refs: int, ops: seq<Op>) {
    exists k :: 0 <= k < |ops| && AsksAt(refs, ops, k) && Disable !in ops[k + 1..]
  }

  /** After any run, orderly or not, the handlers are enabled exactly when an enable or a first reference
      came after the last disable, or they were from the start and there was no disable. */
  lemma {:induction false} EnabledIff(l: Lifecycle, ops: seq<Op>)
    ensures ApplyAll(l, ops).enabled <==> AskedLast(l.refCount, ops) || (l.enabled && Disable !in ops)
    ensures ApplyAll(l, ops).refCount == RefsAfter(l.refCount, ops)
    decreases |ops|
  {
    if ops != [] {
      var op, rest, l' := ops[0], ops[1..], Apply(l, ops[0]);
      EnabledIff(l', rest);
      AskedFirst(l.refCount, ops);
    }
  }

  lemma AskedFirst(refs: int, ops: seq<Op>)
    requires ops != []
    ensures AskedLast(refs, ops) <==>
              AskedLast(RefsAfter(refs, ops[..1]), ops[1..]) || (AsksAt(refs, ops, 0) && Disable !in ops[1..])
  {
    var rest, refs' := ops[1..], RefsAfter(refs, ops[..1]);
    var step := if ops[0].RefEnable? then refs + 1 else if ops[0].RefDisable? then refs - 1 else refs;
    assert ops[..1][1..] == [] && RefsAfter(step, []) == step;
    forall k | 0 <= k < |rest|
      ensures AsksAt(refs', rest, k) <==> AsksAt(refs, ops, k + 1)
      ensures rest[k + 1..] == ops[k + 2..]
    {
      var upTo := ops[..k + 1];
      assert upTo[1..] == rest[..k] && upTo[0] == ops[0];
      assert RefsAfter(refs, upTo) == RefsAfter(refs', upTo[1..]);
    }
    if AskedLast(refs', rest) {
      var k :| 0 <= k < |rest| && AsksAt(refs', rest, k) && Disable !in rest[k + 1..];
      assert AsksAt(refs, ops, k + 1) && Disable !in ops[k + 1 + 1..];
    }
    if AskedLast(refs, ops) {
      var k :| 0 <= k < |ops| && AsksAt(refs, ops, k) && Disable !in ops[k + 1..];
      assert k > 0 ==> AsksAt(refs', rest, k - 1) && Disable !in rest[k - 1 + 1..];
    }
  }

  /** From every good state: an enable leaves all four signals with the engine and the original
      dispositions saved, an orderly disable brings these back, a reference on a disabled handler enables
      it, and giving a reference back changes neither flag nor dispositions. */
  lemma WhatEachDoes(orig: Dispositions, l: Lifecycle)
    requires Mirrors(orig, l)
    ensures var on := Apply(l, Enable);
            on == Lifecycle(true, l.refCount, Dispositions(Engine, Engine, Engine, Engine), orig)
    ensures l.refCount <= 0 ==> !Apply(l, Disable).enabled && Apply(l, Disable).current == orig
    ensures l.refCount == 0 ==>
              Apply(l, RefEnable) == Lifecycle(true, 1, Dispositions(Engine, Engine, Engine, Engine), orig)
    ensures Apply(l, RefEnable).refCount == l.refCount + 1 && Apply(l, Disable).refCount == l.refCount
    ensures Apply(l, RefDisable) == Lifecycle(l.enabled, l.refCount - 1, l.current, l.saved)
  {
  }

  /** The condition is exact: one step out of a good state goes wrong just when it is a disable with
      references held. */
  lemma DisorderBreaks(orig: Dispositions, l: Lifecycle, op: Op)
    requires Mirrors(orig, l)
    ensures Mirrors(orig, Apply(l, op)) <==> Orderly(l, op)
  {
  }

  /** What goes wrong: the next enable saves the engine's own handler, so from then on every
      forwarded signal comes back to the engine and no removal ever restores the original. */
  lemma {:induction false} DisorderIsPermanent(orig: Dispositions, l: Lifecycle, ops: seq<Op>)
    requires Mirrors(orig, l) && !Orderly(l, Disable)
    ensures var broken := Apply(Apply(l, Disable), Enable);
            broken.saved == INSTALLED && ApplyAll(broken, ops).current == INSTALLED
  {
    StaysCaptured(Apply(Apply(l, Disable), Enable), ops);
  }

  lemma {:induction false} StaysCaptured(l: Lifecycle, ops: seq<Op>)
    requires l.current == l.saved == INSTALLED
    ensures ApplyAll(l, ops).current == INSTALLED
    decreases |ops|
  {
    if ops != [] {
      StaysCaptured(Apply(l, ops[0]), ops[1..]);
    }
  }

  // ---- The handler list --------------------------------------------------------------------------------

  function WithoutId(handlers: seq<HandlerEntry>, id: nat): seq<HandlerEntry>
    decreases |handlers|
  {
    if handlers == [] then []
    else (if handlers[0].id == id then [] else [handlers[0]]) + WithoutId(handlers[1..], id)
  }

  lemma {:induction false} WithoutIdMembers(handlers: seq<HandlerEntry>, id: nat)
    ensures forall h :: h in WithoutId(handlers, id) <==> h in handlers && h.id != id
    decreases |handlers|
  {
    if handlers != [] {
      WithoutIdMembers(handlers[1..], id);
    }
  }

  function WithoutIds(handlers: seq<HandlerEntry>, ids: set<nat>): seq<HandlerEntry>
    decreases |handlers|
  {
    if handlers == [] then []
    else (if handlers[0].id in ids then [] else [handlers[0]]) + WithoutIds(handlers[1..], ids)
  }

  lemma {:induction false} WithoutOneMore(handlers: seq<HandlerEntry>, ids: set<nat>, id: nat)
    ensures WithoutId(WithoutIds(handlers, ids), id) == WithoutIds(handlers, ids + {id})
    ensures WithoutIds(handlers, {}) == handlers
    decreases |handlers|
  {
    if handlers != [] {
      WithoutOneMore(handlers[1..], ids, id);
      var rest := WithoutIds(handlers[1..], ids);
      assert ([handlers[0]] + rest)[1..] == rest;
      assert [] + rest == rest;
    }
  }

  lemma {:induction false} WithoutIdsMembers(handlers: seq<HandlerEntry>, ids: set<nat>)
    ensures forall h :: h in WithoutIds(handlers, ids) <==> h in handlers && h.id !in ids
    decreases |handlers|
  {
    if handlers != [] {
      WithoutIdsMembers(handlers[1..], ids);
    }
  }

  /** Everything the global handler knows. */
  datatype Registered = Registered(handlers: seq<HandlerEntry>, nextId: nat, life: Lifecycle)

  function With(r: Registered, kind: ExceptionType, callback: Callback): Registered {
    r.(handlers := r.handlers + [HandlerEntry(r.nextId, kind, callback)], nextId := r.nextId + 1)
  }

  function Minus(r: Registered, id: nat): Registered {
    r.(handlers := WithoutId(r.handlers, id))
  }

  function Stepped(r: Registered, op: Op): Registered {
    r.(life := Apply(r.life, op))
  }

  class NativeExceptionHandler {
    var handlers: seq<HandlerEntry>
    var nextId: nat
    var enabled: bool
    var refCount: int
    var current: Dispositions
    var saved: Dispositions

    function State(): Lifecycle
      reads this
    {
      Lifecycle(enabled, refCount, current, saved)
    }

    function View(): Registered
      reads this
    {
      Registered(handlers, nextId, State())
    }

    constructor (orig: Dispositions)
      ensures View() == Registered([], 1, Lifecycle(false, 0, orig, orig))
    {
      handlers, nextId, enabled, refCount, current, saved := [], 1, false, 0, orig, orig;
    }

    /** sigaction on all four signals, keeping what was there. */
    method InstallHandlers()
      modifies this`current, this`saved
      ensures State() == Installing(old(State()))
    {
      saved := current;
      current := INSTALLED;
    }

    method RemoveHandlers()
      modifies this`current
      ensures State() == Removing(old(State()))
    {
      current := saved;
    }

    method DoEnable()
      modifies this`enabled, this`current, this`saved
      ensures View() == Stepped(old(View()), Enable)
      ensures enabled && refCount == old(refCount) && handlers == old(handlers)
      ensures !old(enabled) ==>
                current == Dispositions(Engine, Engine, Engine, Engine) && saved == old(current)
      ensures old(enabled) ==> current == old(current) && saved == old(saved)
    {
      var was := enabled;
      enabled := true;
      if was {
        return;
      }
      InstallHandlers();
    }

    method DoDisable()
      modifies this`enabled, this`current
      ensures View() == Stepped(old(View()), Disable)
      ensures !enabled && refCount == old(refCount) && handlers == old(handlers) && saved == old(saved)
      ensures current == if old(enabled) && refCount <= 0 then old(saved) else old(current)
    {
      var was := enabled;
      enabled := false;
      if !was {
        return;
      }
      if refCount > 0 {
        return;
      }
      RemoveHandlers();
    }

    method DoRefEnable()
      modifies this`enabled, this`refCount, this`current, this`saved
      ensures View() == Stepped(old(View()), RefEnable)
      ensures refCount == old(refCount) + 1 && enabled == (old(enabled) || old(refCount) == 0) &&
                handlers == old(handlers)
      ensures old(refCount) == 0 && !old(enabled) ==>
                current == Dispositions(Engine, Engine, Engine, Engine) && saved == old(current)
      ensures old(refCount) != 0 || old(enabled) ==> current == old(current) && saved == old(saved)
    {
      refCount := refCount + 1;
      if refCount - 1 == 0 {
        if !enabled {
          enabled := true;
          InstallHandlers();
        }
      }
    }

    method DoRefDisable()
      modifies this`refCount
      ensures View() == Stepped(old(View()), RefDisable)
      ensures refCount == old(refCount) - 1 && enabled == old(enabled) && handlers == old(handlers)
      ensures current == old(current) && saved == old(saved)
    {
      refCount := refCount - 1;
    }

    method RegisterHandler(kind: ExceptionType, callback: Callback) returns (id: nat)
      modifies this`handlers, this`nextId
      ensures id == old(nextId) && View() == With(old(View()), kind, callback)
    {
      id := nextId;
      nextId := nextId + 1;
      handlers := handlers + [HandlerEntry(id, kind, callback)];
    }

    method UnregisterHandler(id: nat)
      modifies this`handlers
      ensures View() == Minus(old(View()), id)
    {
      handlers := WithoutId(handlers, id);
    }
  }
}

/** What a signal ends in: the report of a page fault, or the trampoline of a breakpoint. */
module Sessions {
  import M = MemoryAccessMonitor
  import Ring
  import H = HardwareBreakpoint
  import D = DebugRegisters
  import S = SoftwareBreakpoint
  import Machine
  import Deployment
  import opened Words
  import opened Script
  import opened ExceptionHandler
  import opened Watches

  /** What the callback is told of a fault. */
  function Told(id: nat, faultAddr: Word, pageBase: Word, access: M.AccessType, i: nat): M.OnAccess {
    match access
    case Read => M.OnAccess(id, faultAddr, pageBase, "read", i)
    case Write => M.OnAccess(id, faultAddr, pageBase, "write", i)
    case Execute => M.OnAccess(id, faultAddr, pageBase, "execute", i)
    case UnknownAccess => M.OnAccess(id, faultAddr, pageBase, "unknown", i)
  }

  /** A fault followed by a drain: behind the accesses that were still waiting the callback gets this one,
      with its own kind, address, page and range. */
  method FaultAndDrain(engine: Runtime, kind: ExceptionType, faultAddr: Word, access: M.AccessType)
    returns (handled: bool, ghost id: nat, ghost i: nat)
    requires engine.Valid() && (kind.AccessViolation? || kind.BusError?)
    requires engine.monitor.Delivering() && |engine.monitor.pending| < Ring.MAX_PENDING
    modifies engine.monitor, engine.monitor.entries
    ensures engine.Valid() && engine.monitor.Delivering() && engine.monitor.pending == []
    ensures handled <==> exists jd, j :: M.ClaimsAt(old(engine.monitor.monitors), jd, j, faultAddr)
    ensures handled ==> M.ClaimsAt(old(engine.monitor.monitors), id, i, faultAddr)
    ensures engine.monitor.delivered ==
              old(engine.monitor.delivered) + M.CallsOf(old(engine.monitor.pending)) +
              if handled
              then [Told(id, faultAddr, old(engine.monitor.monitors)[id].ranges[i].pageBase, access, i)]
              else []
  {
    hide Runtime.Valid, M.MemoryAccessMonitors.Delivering, M.ClaimsAt, EventOf, M.CallOf, M.AccessCode, Fired;
    hide M.MemoryAccessMonitors.Protected;
    ghost var waiting, before := engine.monitor.pending, engine.monitor.delivered;
    handled, id, i := engine.Fault(kind, faultAddr, access);
    ghost var pending := engine.monitor.pending;
    if handled {
      ghost var event := pending[|waiting|];
      M.CallsOfConcat(waiting, [event]);
      assert pending == waiting + [event];
      assert M.CallsOf([event]) == [M.CallOf(event)];
      assert before + (M.CallsOf(waiting) + [M.CallOf(event)]) == before + M.CallsOf(waiting) + [M.CallOf(event)];
    }
    var _ := engine.Drain();
  }

  lemma NobodyTriggered(byAddress: map<Word, H.HwBreakpointEntry>, pc: Word, dr6: D.Bits)
    requires |dr6| == 64 && !H.ExecuteAt(byAddress, pc) && forall a :: !H.Triggered(byAddress, dr6, a)
    ensures H.Chosen(byAddress, pc, dr6, H.NotHandled)
  {
  }

  lemma TrapBehind(software: S.SoftwareBreakpoints, address: Word)
    requires address in software.bpByAddress
    ensures Machine.TrapHandler(software.Traps(), Plus(address, 1)) ==
              Some(software.bpByAddress[address].trampolineCode)
  {
    assert Plus(Plus(address, 1), -1) == address;
  }

  /** An INT3 that no hardware breakpoint claims resumes where the machine's trap map says. */
  method Int3(engine: Runtime, address: Word, dr6: D.Bits) returns (outcome: H.TrapAction)
    requires engine.Valid() && |dr6| == 64 && address in engine.software.bpByAddress
    requires var hws := engine.hardware.hwByAddress;
             !H.ExecuteAt(hws, Plus(address, 1)) && forall a :: !H.Triggered(hws, dr6, a)
    ensures outcome == H.Redirect(engine.software.bpByAddress[address].trampolineCode)
  {
    hide Runtime.Valid, FirstAnswer, S.SoftwareBreakpoints.Traps;
    NobodyTriggered(engine.hardware.hwByAddress, Plus(address, 1), dr6);
    TrapBehind(engine.software, address);
    hide H.Triggered, H.Chosen, H.ExecuteAt, Machine.TrapHandler;
    outcome := engine.Trap(Plus(address, 1), dr6);
  }

  /** A debug exception resumes where the machine's map of them says, whatever DR6 holds. */
  method DebugException(engine: Runtime, address: Word, dr6: D.Bits) returns (outcome: H.TrapAction)
    requires engine.Valid() && |dr6| == 64 && address in Deployment.BreaksOf(engine.CodeNow())
    requires Plus(address, -1) !in engine.software.bpByAddress
    ensures outcome == H.Redirect(Deployment.BreaksOf(engine.CodeNow())[address])
  {
    hide Runtime.Valid;
    outcome := engine.Trap(address, dr6);
  }

  /** A watchpoint hit belongs to the entry of the lowest slot that DR6 reports. */
  method WatchpointHit(engine: Runtime, pc: Word, dr6: D.Bits, address: Word) returns (outcome: H.TrapAction)
    requires engine.Valid() && |dr6| == 64 && Plus(pc, -1) !in engine.software.bpByAddress
    requires var hws := engine.hardware.hwByAddress;
             && !H.ExecuteAt(hws, pc) && address in hws && dr6[hws[address].slot]
             && forall s :: 0 <= s < hws[address].slot ==> !dr6[s]
    ensures outcome == H.Hit(engine.hardware.hwByAddress[address])
  {
    hide Runtime.Valid, FirstAnswer, H.Chosen;
    LowestTriggered(engine.hardware.hwByAddress, pc, dr6, address);
    hide H.ExecuteAt;
    outcome := engine.Trap(pc, dr6);
    TriggeredOnce(engine, pc, dr6, outcome, H.Hit(engine.hardware.hwByAddress[address]));
  }

  lemma LowestTriggered(byAddress: map<Word, H.HwBreakpointEntry>, pc: Word, dr6: D.Bits, address: Word)
    requires |dr6| == 64 && !H.ExecuteAt(byAddress, pc) && address in byAddress && dr6[byAddress[address].slot]
    requires forall s :: 0 <= s < byAddress[address].slot ==> !dr6[s]
    ensures H.Chosen(byAddress, pc, dr6, H.Hit(byAddress[address]))
  {
    assert H.Triggered(byAddress, dr6, address);
  }

  lemma TriggeredOnce(engine: Runtime, pc: Word, dr6: D.Bits, one: H.TrapAction, two: H.TrapAction)
    requires engine.Valid() && |dr6| == 64
    requires H.Chosen(engine.hardware.hwByAddress, pc, dr6, one) && H.Chosen(engine.hardware.hwByAddress, pc, dr6, two)
    ensures one == two
  {
    hide H.Chosen, H.SlotsExact;
    H.ChosenOnce(engine.hardware.hwById, engine.hardware.hwByAddress, engine.hardware.nextHwId,
      engine.hardware.usedSlots, pc, dr6, one, two);
  }
}

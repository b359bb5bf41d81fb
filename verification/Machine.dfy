/** A process with the engine inside it: code runs instruction by instruction, an INT3 raises
    the signal that the engine answers, and the engine's C++ dispatch functions are entered by
    ordinary calls. */
module Machine {
  import opened Words
  import opened Memory
  import opened X86

  datatype Abi = SystemV | Windows

  /** One call of a dispatch function: which one, the two arguments, and the stack pointer at the
      call instruction. */
  datatype Call = Call(fn: Word, context: Word, data: Word, sp: Word)

  /** `natives` are the entry points of dispatch functions, `native` is what such a function does
      between its entry and its return, `traps` is the address map of the INT3 handler, `breaks` that of
      the debug exceptions raised before an instruction with an execute breakpoint.  The stack
      grows down to `stackLow`; `engine` is the memory of the engine's own data. */
  datatype Machine = Machine(
    isa: Isa,
    abi: Abi,
    natives: iset<int>,
    native: (Word, Core) -> Core,
    traps: map<Word, Word>,
    breaks: map<Word, Word>,
    stackLow: int,
    engine: iset<int>
  )

  datatype State = State(core: Core, pc: Word, calls: seq<Call>)

  function ContextArg(abi: Abi): LowReg {
    if abi.SystemV? then RDI else RCX
  }

  function DataArg(abi: Abi): LowReg {
    if abi.SystemV? then RSI else RDX
  }

  /** The signal handler sees the program counter after the INT3, so it looks one byte back; a
      hit resumes the thread at the entry's trampoline. */
  function TrapHandler(traps: map<Word, Word>, reportedPc: Word): Option<Word> {
    var address := Plus(reportedPc, -1);
    if address in traps then Some(traps[address]) else None
  }

  /** A dispatch function returns with the stack pointer its caller had.  It writes to its own
      frame, to the engine's data and, through the snapshot pointer, to the 128 bytes of the
      snapshot. */
  ghost predicate WellBehaved(m: Machine) {
    forall fn: Word, c: Core :: fn in m.natives ==> Returns(m, fn, c)
  }

  ghost predicate Returns(m: Machine, fn: Word, c: Core) {
    var r := m.native(fn, c);
    && r.regs[RSP] == Plus(c.regs[RSP], 8)
    && forall x: int :: !MayTouch(m, c.regs[ContextArg(m.abi)], x) ==> r.mem(x) == c.mem(x)
  }

  ghost predicate MayTouch(m: Machine, context: int, x: int) {
    m.stackLow <= x < context + 128 || x in m.engine
  }

  function NativeCall(m: Machine, s: State): State {
    var call := Call(s.pc, s.core.regs[ContextArg(m.abi)], s.core.regs[DataArg(m.abi)], Plus(s.core.regs[RSP], 8));
    State(m.native(s.pc, s.core), Load(s.core.mem, s.core.regs[RSP]), s.calls + [call])
  }

  /** Where the processor does not simply execute the instruction in memory. */
  ghost function Stops(m: Machine): iset<int> {
    iset x: int | x in m.natives || x in m.breaks
  }

  ghost function Step(m: Machine, s: State): Option<State> {
    if s.pc in m.natives then Some(NativeCall(m, s))
    else if s.pc in m.breaks then Some(s.(pc := m.breaks[s.pc]))
    else
      var i := Fetch(m.isa, s.core.mem, s.pc);
      if i.Int3? then
        match TrapHandler(m.traps, Plus(s.pc, 1))
        case Some(pc) => Some(s.(pc := pc))
        case None => None
      else
        match Exec(m.isa, i, Cpu(s.core, s.pc))
        case Some(t) => Some(State(t.core, t.pc, s.calls))
        case None => None
  }

  ghost function Run(m: Machine, s: State, n: nat): Option<State>
    decreases n
  {
    if n == 0 then Some(s)
    else match Step(m, s)
      case Some(t) => Run(m, t, n - 1)
      case None => None
  }

  lemma {:induction false} RunOn(m: Machine, s: State, a: nat, b: nat)
    requires Run(m, s, a).Some?
    ensures Run(m, s, a + b) == Run(m, Run(m, s, a).value, b)
    decreases a
  {
    hide Step;
    if a > 0 {
      RunOn(m, Step(m, s).value, a - 1, b);
    }
  }

  /** One step through an instruction the engine emitted. */
  lemma StepEmitted(m: Machine, s: State, i: Insn)
    requires Emitted(i) && Holds(s.core.mem, s.pc, Encode(i))
    requires s.pc !in Stops(m)
    ensures Exec(m.isa, i, Cpu(s.core, s.pc)).Some?
    ensures Step(m, s) == var t := Exec(m.isa, i, Cpu(s.core, s.pc)).value; Some(State(t.core, t.pc, s.calls))
  {
    FetchEmitted(m.isa, s.core.mem, s.pc, i);
  }
}

/**
 The LLVM IR interpreter as the debugger drives it. What one instruction does is a parameter: a function that either
 raises or gives the next block, the register values and what is left of the function's arguments.
 */
module Interpreter {
  import opened Wrappers
  import opened LlvmIrRegs
  import opened RegisterBytes

  /** The arguments of the simulated function: an input is the data not yet read, an output the data written so far. */
  type FnArgs = seq<seq<int>>

  type Registers = map<Loc, BitsValue>

  datatype ExecIn = ExecIn(
    time: nat, regs: Registers, instr: Loc, predBb: Option<nat>, bb: Option<nat>, args: FnArgs)

  datatype ExecOut =
    | Executed(predBb: Option<nat>, bb: nat, isJump: bool, regs: Registers, args: FnArgs)
    | Raised(regs: Registers, args: FnArgs)

  /** The debugged program: constant over a session. */
  datatype Target = Target(fn: IrFunction, codelineOffset: nat, timeStep: nat, exec: ExecIn -> ExecOut)

  /** The interpreter between two instructions; `instr` is the next one and None before the first run. */
  datatype Interp = Interp(
    predBb: Option<nat>, bb: Option<nat>, instr: Option<Loc>, regs: Registers, args: FnArgs, time: nat)

  predicate NotStarted(i: Interp) {
    i.predBb == None && i.bb == None && i.instr == None
  }

  /** `next(iter(bb), None)`. */
  function FirstOf(fn: IrFunction, bb: nat): (loc: Option<Loc>)
    ensures loc.Some? ==> InFunction(fn, loc.value)
  {
    if bb < |fn| && fn[bb] != [] then Some(Loc(bb, 0)) else None
  }

  /** `instr.getNextNode()`. */
  function NextNode(fn: IrFunction, loc: Loc): (next: Option<Loc>)
    ensures next.Some? ==> InFunction(fn, next.value)
  {
    var next := Loc(loc.block, loc.pos + 1);
    if InFunction(fn, next) then Some(next) else None
  }

  /** The address of an instruction: eight times its source line. */
  function Address(t: Target, loc: Loc): nat
    requires InFunction(t.fn, loc)
  {
    8 * CodeLine(t.fn, t.codelineOffset, loc)
  }

  // ---- the program run without a debugger ----

  function Entry(t: Target, start: Interp): Option<Interp> {
    var first := FirstOf(t.fn, 0);
    if first == None then None else Some(start.(bb := Some(0), instr := first))
  }

  /** One instruction; None when it raises or leaves no next instruction. */
  function BareStep(t: Target, i: Interp): (r: Option<Interp>)
    ensures r.Some? ==> r.value.instr.Some? && InFunction(t.fn, r.value.instr.value)
  {
    if i.instr == None then None
    else match t.exec(ExecIn(i.time + t.timeStep, i.regs, i.instr.value, i.predBb, i.bb, i.args))
      case Raised(_, _) => None
      case Executed(predBb, bb, isJump, regs, args) =>
        var next := if isJump then FirstOf(t.fn, bb) else NextNode(t.fn, i.instr.value);
        if next == None then None
        else Some(Interp(predBb, Some(bb), next, regs, args, i.time + t.timeStep))
  }

  /** The state after n instructions from the entry block, if the program gets that far. */
  function Bare(t: Target, start: Interp, n: nat): (r: Option<Interp>)
    ensures r.Some? ==> r.value.instr.Some? && InFunction(t.fn, r.value.instr.value)
  {
    if n == 0 then Entry(t, start)
    else
      var before := Bare(t, start, n - 1);
      if before == None then None else BareStep(t, before.value)
  }

  // ---- register typing ----

  /** Each register holds a value of its declared width. */
  ghost predicate WellTypedRegs(fn: IrFunction, regs: Registers) {
    forall loc: Loc | InFunction(fn, loc) && InstrAt(fn, loc).width.Some? ::
      loc in regs && regs[loc].width == InstrAt(fn, loc).width.value && WellTyped(regs[loc])
  }

  /** The interpreter keeps register values in their types. */
  ghost predicate KeepsTypes(t: Target) {
    forall input: ExecIn :: WellTypedRegs(t.fn, input.regs) ==> WellTypedRegs(t.fn, t.exec(input).regs)
  }
}

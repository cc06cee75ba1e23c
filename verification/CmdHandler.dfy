/**
 The handler behind the stub: it owns the interpreter, the breakpoints and the cycle limit. Functions say what each
 operation does to those; the class does it in place.
 */
module CmdHandler {
  import opened Wrappers
  import opened Digits
  import opened LlvmIrRegs
  import opened RegisterBytes
  import opened Interpreter
  import opened RegisterLayout

  /** How many more calls of runCurrentInstr may do something; `inf - 1` is `inf`. */
  datatype Limit = Finite(n: nat) | Infinite

  datatype Handler = Handler(limit: Limit, interp: Interp, breakpoints: set<nat>)

  /** What runCurrentInstr returns; a hit before the first instruction is kept apart from one after an instruction. */
  datatype RunResult =
    | CycleLimitReached
    | HitOnEntry(address: nat)
    | Hit(address: nat)
    | NoHit
    | Fault                       // an exception

  function Decrement(limit: Limit): Limit
    requires limit != Finite(0)
  {
    if limit == Infinite then Infinite else Finite(limit.n - 1)
  }

  /** One instruction of `i`, whose next instruction is known, and the breakpoint test behind it. */
  function Execute(t: Target, limit: Limit, breakpoints: set<nat>, i: Interp): (r: (Handler, RunResult))
    requires i.instr.Some?
    ensures HasInstr(t, i) ==> HasInstr(t, r.0.interp)
  {
    var time := i.time + t.timeStep;
    match t.exec(ExecIn(time, i.regs, i.instr.value, i.predBb, i.bb, i.args))
    case Raised(regs, args) =>
      (Handler(limit, i.(time := time, regs := regs, args := args), breakpoints), Fault)
    case Executed(predBb, bb, isJump, regs, args) =>
      var next := if isJump then FirstOf(t.fn, bb) else NextNode(t.fn, i.instr.value);
      var after := Handler(limit, Interp(predBb, Some(bb), next, regs, args, time), breakpoints);
      if next == None then (after, Fault)
      else if Address(t, next.value) in breakpoints then (after, Hit(Address(t, next.value)))
      else (after, NoHit)
  }

  function RunInstr(t: Target, h: Handler): (r: (Handler, RunResult))
    ensures HasInstr(t, h.interp) ==> HasInstr(t, r.0.interp)
  {
    if h.limit == Finite(0) then (h, CycleLimitReached)
    else
      var limit := Decrement(h.limit);
      if h.interp.instr.Some? then Execute(t, limit, h.breakpoints, h.interp)
      else if !NotStarted(h.interp) then (h.(limit := limit), Fault)
      else
        var first := FirstOf(t.fn, 0);
        if first == None then
          (Handler(limit, h.interp.(bb := if t.fn == [] then None else Some(0)), h.breakpoints), Fault)
        else
          var placed := h.interp.(bb := Some(0), instr := first);
          if Address(t, first.value) in h.breakpoints then
            (Handler(limit, placed, h.breakpoints), HitOnEntry(Address(t, first.value)))
          else Execute(t, limit, h.breakpoints, placed)
  }

  function AddBreakpoint(h: Handler, address: nat): (Handler, string) {
    (h.(breakpoints := h.breakpoints + {address}), "OK")
  }

  function RemoveBreakpoint(h: Handler, address: nat): (Handler, string) {
    if address in h.breakpoints then (h.(breakpoints := h.breakpoints - {address}), "OK") else (h, "E01")
  }

  function RegisterInfoReply(t: Target, index: nat): string {
    if index < |RegisterDescs(t)| then PrintDesc(RegisterDescs(t)[index], index) else "E01"
  }

  /** Every register starts with no bit known. */
  function InitialRegs(rows: seq<RegRow>): Registers {
    if rows == [] then map[]
    else
      var last := rows[|rows| - 1];
      var before := InitialRegs(rows[..|rows| - 1]);
      if last.index.Some? then before[last.loc := BitsValue(0, 0, WidthOf(last))] else before
  }

  function LinesOf(rows: seq<RegRow>): map<Loc, nat> {
    if rows == [] then map[]
    else
      var last := rows[|rows| - 1];
      LinesOf(rows[..|rows| - 1])[last.loc := last.codeline]
  }

  lemma {:induction false} LinesAreLookedUp(rows: seq<RegRow>, fn: IrFunction, offset: nat, loc: Loc)
    requires forall row <- rows :: InFunction(fn, row.loc) && row.codeline == CodeLine(fn, offset, row.loc)
    requires exists row <- rows :: row.loc == loc
    ensures loc in LinesOf(rows) && InFunction(fn, loc) && LinesOf(rows)[loc] == CodeLine(fn, offset, loc)
  {
    hide CodeLine;
    var before, last := rows[..|rows| - 1], rows[|rows| - 1];
    assert last in rows;
    if last.loc != loc {
      var row :| row in rows && row.loc == loc;
      assert row in before;
      LinesAreLookedUp(before, fn, offset, loc);
    }
  }

  /** instrCodeline holds the line of every instruction of the function. */
  lemma SessionLines(t: Target)
    ensures forall loc: Loc | InFunction(t.fn, loc) ::
      loc in LinesOf(SessionRows(t)) && LinesOf(SessionRows(t))[loc] == CodeLine(t.fn, t.codelineOffset, loc)
  {
    var rows := SessionRows(t);
    IndexIsSound(t.fn, t.codelineOffset, 1, false);
    assert Describes(rows, t.fn, t.codelineOffset, 1);
    hide AllRows, CodeLine, LinesOf, Before;
    forall loc: Loc | InFunction(t.fn, loc)
      ensures loc in LinesOf(rows) && LinesOf(rows)[loc] == CodeLine(t.fn, t.codelineOffset, loc)
    {
      assert rows[Before(t.fn, loc.block) + loc.pos].loc == loc;
      LinesAreLookedUp(rows, t.fn, t.codelineOffset, loc);
    }
  }

  lemma {:induction false} InitialRegsHold(rows: seq<RegRow>, loc: Loc, width: nat)
    requires forall row <- rows :: row.width.Some? <==> row.index.Some?
    requires forall row <- rows :: row.loc == loc ==> row.width == Some(width)
    requires exists row <- rows :: row.loc == loc
    ensures loc in InitialRegs(rows) && InitialRegs(rows)[loc] == BitsValue(0, 0, width)
  {
    var before, last := rows[..|rows| - 1], rows[|rows| - 1];
    assert last in rows;
    if last.loc != loc {
      var row :| row in rows && row.loc == loc;
      assert row in before;
      InitialRegsHold(before, loc, width);
    }
  }

  /** A session starts with every register in its type. */
  lemma InitialRegsWellTyped(t: Target)
    ensures WellTypedRegs(t.fn, InitialRegs(SessionRows(t)))
  {
    var rows := SessionRows(t);
    IndexIsSound(t.fn, t.codelineOffset, 1, false);
    assert Describes(rows, t.fn, t.codelineOffset, 1);
    hide AllRows, CodeLine, InitialRegs, Before;
    forall loc: Loc | InFunction(t.fn, loc) && InstrAt(t.fn, loc).width.Some?
      ensures loc in InitialRegs(rows) && InitialRegs(rows)[loc].width == InstrAt(t.fn, loc).width.value
      ensures WellTyped(InitialRegs(rows)[loc])
    {
      assert rows[Before(t.fn, loc.block) + loc.pos].loc == loc;
      InitialRegsHold(rows, loc, InstrAt(t.fn, loc).width.value);
    }
  }

  /** Before any instruction has run, every register reads as zeros, two digits for each of its least bytes. */
  lemma RegistersStartAtZero(t: Target, args: FnArgs, k: nat, n: nat, j: nat)
    requires k < |SessionRegisters(t)| && LeastBytes(RegisterDescs(t)[k + 1].width, n)
    ensures var reply := RegisterLayout.ReadRegister(t, InitialInterp(t, args), k + 1);
      reply.Some? && |reply.value| == 2 * n && (j < 2 * n ==> reply.value[j] == '0')
  {
    var row, rows := SessionRegisters(t)[k], SessionRows(t);
    RegisterNumbered(t, k);
    hide SessionRegisters, InitialRegs, Hexlify, IsLowerHex, LittleEndian, Before, Typed, CodeLine, Pow;
    ByteSizeIsLeast(WidthOf(row), n);
    StartsUnknown(t, row.loc);
    assert RegisterDescs(t)[k + 1].width == WidthOf(row);
    assert ToBytes(0, n).Some?;
    if j < 2 * n {
      ZeroOnWire(n, j);
    }
  }

  lemma StartsUnknown(t: Target, loc: Loc)
    requires InFunction(t.fn, loc) && InstrAt(t.fn, loc).width.Some?
    ensures var regs := InitialRegs(SessionRows(t));
      loc in regs && Known(regs[loc]) == 0 && regs[loc].width == InstrAt(t.fn, loc).width.value
  {
    var rows := SessionRows(t);
    IndexIsSound(t.fn, t.codelineOffset, 1, false);
    assert Describes(rows, t.fn, t.codelineOffset, 1);
    hide AllRows, CodeLine, InitialRegs, Before, NamesFollow, DistinctNames;
    assert rows[Before(t.fn, loc.block) + loc.pos].loc == loc;
    InitialRegsHold(rows, loc, InstrAt(t.fn, loc).width.value);
  }

  /** Every index behind the last register is answered by E01, and no other. */
  lemma RegisterInfoIff(t: Target, index: nat)
    ensures RegisterInfoReply(t, index) == "E01" <==> index >= |SessionRegisters(t)| + 1
  {
    hide SessionRegisters, Print, SizeOf;
    if index < |RegisterDescs(t)| {
      NameComesFirst(RegisterDescs(t)[index], index);
    }
  }

  lemma NameComesFirst(d: RegDesc, index: nat)
    ensures "name:" <= PrintDesc(d, index)
  {
    hide Print;
  }

  /** What one more row adds to the tables of a session. */
  lemma TablesAppend(rows: seq<RegRow>, row: RegRow)
    ensures RegisterRows(rows + [row]) == RegisterRows(rows) + if row.index.Some? then [row] else []
    ensures LinesOf(rows + [row]) == LinesOf(rows)[row.loc := row.codeline]
    ensures InitialRegs(rows + [row]) ==
      if row.index.Some? then InitialRegs(rows)[row.loc := BitsValue(0, 0, WidthOf(row))] else InitialRegs(rows)
    ensures Locs(rows + [row]) == Locs(rows) + [row.loc]
    ensures SizeOf(rows + [row]) == SizeOf(rows) + ByteSize(WidthOf(row))
  {
    assert (rows + [row])[..|rows|] == rows;
    hide ByteSize, WidthOf;
  }

  lemma DescsAppend(rows: seq<RegRow>, row: RegRow)
    ensures Descs(rows + [row]) == Descs(rows) + [RegDesc(NameOf(row), WidthOf(row), PC_BYTES + SizeOf(rows))]
  {
    hide SizeOf, NameOf, WidthOf;
    assert (rows + [row])[..|rows|] == rows;
    assert forall k: nat | k < |rows| :: (rows + [row])[..k] == rows[..k];
  }

  /** The tables a session is set up with, and the offset of the next register. */
  datatype Tables = Tables(
    registers: seq<Loc>, info: seq<RegDesc>, lines: map<Loc, nat>, values: Registers, regOffset: nat)

  function TablesOf(rows: seq<RegRow>): Tables {
    var regs := RegisterRows(rows);
    Tables(Locs(regs), [RegDesc("pc", 64, 0)] + Descs(regs), LinesOf(rows), InitialRegs(rows), PC_BYTES + SizeOf(regs))
  }

  lemma TablesNone()
    ensures TablesOf([]) == Tables([], [RegDesc("pc", 64, 0)], map[], map[], PC_BYTES)
  {
    assert [RegDesc("pc", 64, 0)] + Descs([]) == [RegDesc("pc", 64, 0)];
  }

  lemma TablesNext(rows: seq<RegRow>, r: RegRow)
    ensures var t := TablesOf(rows).(lines := TablesOf(rows).lines[r.loc := r.codeline]);
      TablesOf(rows + [r]) == if r.index == None then t else t.(
        registers := t.registers + [r.loc],
        info := t.info + [RegDesc(NameOf(r), WidthOf(r), t.regOffset)],
        values := t.values[r.loc := BitsValue(0, 0, WidthOf(r))],
        regOffset := t.regOffset + ByteSize(WidthOf(r)))
  {
    TablesAppend(rows, r);
    TablesAppend(RegisterRows(rows), r);
    DescsAppend(RegisterRows(rows), r);
    hide InitialRegs, LinesOf, RegisterRows, Locs, Descs, SizeOf, NameOf, WidthOf, ByteSize;
    var regs, pc := RegisterRows(rows), RegDesc("pc", 64, 0);
    assert regs + [] == regs;
    assert [pc] + Descs(regs + [r]) == [pc] + Descs(regs) + [RegDesc(NameOf(r), WidthOf(r), PC_BYTES + SizeOf(regs))];
  }

  /** The tables of a session, in terms of its registers and lines. */
  lemma SessionTables(t: Target)
    ensures var tables := TablesOf(SessionRows(t));
      && tables.registers == Locs(SessionRegisters(t)) && tables.info == RegisterDescs(t)
      && tables.lines == LinesOf(SessionRows(t)) && tables.values == InitialRegs(SessionRows(t))
  {
    hide AllRows, RegisterRows, Locs, Descs, LinesOf, InitialRegs, SizeOf;
  }

  function InitialInterp(t: Target, args: FnArgs): Interp {
    Interp(None, None, None, InitialRegs(SessionRows(t)), args, 0)
  }

  function InitialHandler(t: Target, args: FnArgs): Handler {
    Handler(Finite(0), InitialInterp(t, args), {})
  }

  lemma {:induction false} JoinStaysNone(regs: Registers, locs: seq<Loc>, k: nat)
    requires k <= |locs| && JoinBytes(regs, locs[..k]) == None
    ensures JoinBytes(regs, locs) == None
  {
    hide BytesOf;
    if k == |locs| {
      assert locs[..k] == locs;
    } else {
      assert locs[..|locs| - 1][..k] == locs[..k];
      JoinStaysNone(regs, locs[..|locs| - 1], k);
    }
  }

  class GdbCmdHandlerLlvmIr {
    const target: Target
    var cycleLimit: Limit
    var fnArgs: FnArgs
    var registerValue: Registers
    var registers: seq<Loc>                 // behind the program counter, which has index 0
    var registerInfo: seq<RegDesc>
    var instrCodeline: map<Loc, nat>
    var bb: Option<nat>
    var instr: Option<Loc>
    var predBb: Option<nat>
    var breakpoints: set<nat>
    var nowTime: nat

    function Control(): Handler
      reads this
    {
      Handler(cycleLimit, Interp(predBb, bb, instr, registerValue, fnArgs, nowTime), breakpoints)
    }

    /** The tables set up from the function still describe it. */
    ghost predicate Valid()
      reads this
    {
      && registers == Locs(SessionRegisters(target))
      && registerInfo == RegisterDescs(target)
      && (forall loc: Loc | InFunction(target.fn, loc) ::
            loc in instrCodeline && instrCodeline[loc] == CodeLine(target.fn, target.codelineOffset, loc))
      && HasInstr(target, Control().interp)
    }

    constructor (t: Target, args: FnArgs)
      requires Named(t.fn)
      ensures Valid() && target == t && Control() == InitialHandler(t, args)
      ensures cycleLimit == Finite(0) && breakpoints == {} && nowTime == 0 && instr == None
    {
      target := t;
      cycleLimit, fnArgs := Finite(0), args;
      bb, instr, predBb, breakpoints, nowTime := None, None, None, {}, 0;
      new;
      FillTables();
      hide Locs, SessionRegisters, RegisterDescs, CodeLine, LinesOf, InitialRegs, SessionRows;
    }

    /** The part of the constructor behind `regOffset = 8`: the tables, row by row. */
    method FillTables()
      requires Named(target.fn)
      modifies this`registers, this`registerInfo, this`instrCodeline, this`registerValue
      ensures registers == Locs(SessionRegisters(target)) && registerInfo == RegisterDescs(target)
      ensures registerValue == InitialRegs(SessionRows(target))
      ensures forall loc: Loc | InFunction(target.fn, loc) ::
        loc in instrCodeline && instrCodeline[loc] == CodeLine(target.fn, target.codelineOffset, loc)
    {
      hide AllRows, CodeLine, TablesOf, RegisterDescs, SessionRegisters, InitialRegs, LinesOf, Locs;
      SessionTables(target);
      var rows := LlvmIrIterRegs(target.codelineOffset, 1, target.fn, false);
      var tables := SetUpTables(rows);
      registers, registerInfo := tables.registers, tables.info;
      instrCodeline, registerValue := tables.lines, tables.values;
      SessionLines(target);
    }

    /** `self.instrCodeline[instr] * 8`. */
    function AddressOf(loc: Loc): (address: nat)
      requires Valid() && InFunction(target.fn, loc)
      reads this
      ensures address == Address(target, loc)
    {
      instrCodeline[loc] * 8
    }

    /** The assignments of the `finally` part. */
    method Keep(predBb: Option<nat>, bb: Option<nat>, instr: Option<Loc>)
      requires Valid() && (instr.Some? ==> InFunction(target.fn, instr.value))
      modifies this`predBb, this`bb, this`instr
      ensures Valid()
      ensures Control() == old(Control()).(interp := old(Control()).interp.(predBb := predBb, bb := bb, instr := instr))
    {
      this.predBb, this.bb, this.instr := predBb, bb, instr;
    }

    /** Time goes on by one step and the interpreter runs the instruction, writing registers and arguments. */
    method RunInstrOf(instr: Loc, predBb: Option<nat>, bb: Option<nat>) returns (out: ExecOut)
      requires Valid()
      modifies this`nowTime, this`registerValue, this`fnArgs
      ensures Valid()
      ensures var i := old(Control()).interp;
        && out == target.exec(ExecIn(i.time + target.timeStep, i.regs, instr, predBb, bb, i.args))
        && Control() == old(Control()).(
             interp := i.(time := i.time + target.timeStep, regs := out.regs, args := out.args))
    {
      nowTime := nowTime + target.timeStep;
      out := target.exec(ExecIn(nowTime, registerValue, instr, predBb, bb, fnArgs));
      registerValue, fnArgs := out.regs, out.args;
    }

    method RunCurrentInstr() returns (r: RunResult)
      requires Valid()
      modifies this
      ensures Valid() && (Control(), r) == RunInstr(target, old(Control()))
    {
      hide CodeLine, RegisterDescs, SessionRegisters, FirstOf, NextNode, Locs, Address;
      if cycleLimit == Finite(0) {
        return CycleLimitReached;
      }
      cycleLimit := Decrement(cycleLimit);
      var predBb, bb, instr := predBb, bb, instr;
      if instr == None {
        if !(bb == None && predBb == None) {
          return Fault;
        }
        if target.fn == [] {
          return Fault;
        }
        bb := Some(0);
        instr := FirstOf(target.fn, 0);
        if instr == None {
          Keep(predBb, bb, instr);
          return Fault;
        }
        var instrAddr := AddressOf(instr.value);
        if instrAddr in breakpoints {
          Keep(predBb, bb, instr);
          return HitOnEntry(instrAddr);
        }
      }
      assert RunInstr(target, old(Control())) == Execute(target, cycleLimit, breakpoints,
        Interp(predBb, bb, instr, registerValue, fnArgs, nowTime));
      hide RunInstr, Decrement, NotStarted;
      var out := RunInstrOf(instr.value, predBb, bb);
      if out.Raised? {
        Keep(predBb, bb, instr);
        return Fault;
      }
      predBb, bb := out.predBb, Some(out.bb);
      if out.isJump {
        instr := FirstOf(target.fn, out.bb);
      } else {
        instr := NextNode(target.fn, instr.value);
      }
      Keep(predBb, bb, instr);
      if instr == None {
        return Fault;
      }
      var instrAddr := AddressOf(instr.value);
      if instrAddr in breakpoints {
        return Hit(instrAddr);
      }
      return NoHit;
    }

    method HandleStep() returns (reply: string)
      requires Valid()
      modifies this`cycleLimit
      ensures Valid() && Control() == old(Control()).(limit := Finite(1)) && reply == "OK"
    {
      cycleLimit := Finite(1);
      reply := "OK";
    }

    method HandleContinue() returns (reply: string)
      requires Valid()
      modifies this`cycleLimit
      ensures Valid() && Control() == old(Control()).(limit := Infinite) && reply == "OK"
    {
      cycleLimit := Infinite;
      reply := "OK";
    }

    method HandleAddBreakpoint(address: nat) returns (reply: string)
      requires Valid()
      modifies this`breakpoints
      ensures Valid() && (Control(), reply) == AddBreakpoint(old(Control()), address)
    {
      breakpoints := breakpoints + {address};
      reply := "OK";
    }

    method HandleRemoveBreakpoint(address: nat) returns (reply: string)
      requires Valid()
      modifies this`breakpoints
      ensures Valid() && (Control(), reply) == RemoveBreakpoint(old(Control()), address)
    {
      if address in breakpoints {
        breakpoints := breakpoints - {address};
        reply := "OK";
      } else {
        reply := "E01";
      }
    }

    method HandleRegisterInfo(index: nat) returns (reply: string)
      requires Valid()
      ensures reply == RegisterInfoReply(target, index)
    {
      hide PrintDesc, RegisterDescs, CodeLine;
      if index < |registerInfo| {
        reply := PrintDesc(registerInfo[index], index);
      } else {
        reply := "E01";
      }
    }

    /** None where the source raises. */
    method HandleReadRegister(index: nat) returns (reply: Option<string>)
      requires Valid()
      ensures reply == ReadRegister(target, Control().interp, index)
    {
      hide CodeLine, Hexlify, ToBytes, RegisterDescs, SessionRegisters;
      var bytes;
      if index == PC_INDEX {
        var v := if instr == None then target.codelineOffset else instrCodeline[instr.value];
        bytes := ToBytes(v * 8, PC_BYTES);
      } else if index > |registers| {
        return None;
      } else {
        bytes := BytesOf(registerValue, registers[index - 1]);
      }
      reply := if bytes == None then None else Some(Hexlify(bytes.value));
    }

    /** None where the source raises. */
    method HandleReadRegisters() returns (reply: Option<string>)
      requires Valid()
      ensures reply == ReadRegisters(target, Control().interp)
    {
      hide CodeLine, Hexlify, ToBytes, RegisterDescs, SessionRegisters, JoinBytes;
      var pc := ToBytes(if instr == None then 0 else instrCodeline[instr.value] * 8, PC_BYTES);
      if pc == None {
        return None;
      }
      var rest := JoinRegisters();
      reply := if rest == None then None else Some(Hexlify(pc.value + rest.value));
    }

    /** The loop of handleReadRegisters behind the program counter. */
    method JoinRegisters() returns (all: Option<seq<Byte>>)
      ensures all == JoinBytes(registerValue, registers)
    {
      var values: seq<Byte> := [];
      for k := 0 to |registers|
        invariant JoinBytes(registerValue, registers[..k]) == Some(values)
      {
        hide BytesOf;
        assert registers[..k + 1][..k] == registers[..k];
        var bytes := BytesOf(registerValue, registers[k]);
        if bytes == None {
          JoinStaysNone(registerValue, registers, k + 1);
          return None;
        }
        values := values + bytes.value;
      }
      assert registers[..|registers|] == registers;
      all := Some(values);
    }
  }

  /** The loop over the rows that fills the tables of a session. */
  method SetUpTables(rows: seq<RegRow>) returns (t: Tables)
    ensures t == TablesOf(rows)
  {
    t := Tables([], [RegDesc("pc", 64, 0)], map[], map[], PC_BYTES);
    hide *;
    TablesNone();
    assert rows[..0] == [];
    for k := 0 to |rows|
      invariant t == TablesOf(rows[..k])
    {
      hide *;
      var r := rows[k];
      assert rows[..k + 1] == rows[..k] + [r];
      TablesNext(rows[..k], r);
      t := t.(lines := t.lines[r.loc := r.codeline]);
      if r.index.Some? {
        t := t.(registers := t.registers + [r.loc],
                info := t.info + [RegDesc(NameOf(r), WidthOf(r), t.regOffset)],
                values := t.values[r.loc := BitsValue(0, 0, WidthOf(r))],
                regOffset := t.regOffset + ByteSize(WidthOf(r)));
      }
    }
    assert rows[..|rows|] == rows;
  }
}

/**
 Which instruction comes next, by the lines of the source: one line further in the same block, or the first line of the
 block that is jumped to.
 */
module InstrOrder {
  import opened Wrappers
  import opened LlvmIrRegs
  import opened Interpreter
  import opened CmdHandler
  import opened ServerStub
  import opened StubRuns

  function Line(t: Target, loc: Loc): nat
    requires InFunction(t.fn, loc)
  {
    CodeLine(t.fn, t.codelineOffset, loc)
  }

  /** One line behind `loc`, in its block. */
  predicate Follows(t: Target, loc: Loc, next: Loc) {
    InFunction(t.fn, loc) && InFunction(t.fn, next) && next.block == loc.block && Line(t, next) == Line(t, loc) + 1
  }

  /** Of the instructions of block b, the one with the least line. */
  ghost predicate Leads(t: Target, b: nat, first: Loc) {
    && InFunction(t.fn, first) && first.block == b
    && forall other: Loc | InFunction(t.fn, other) && other.block == b :: Line(t, first) <= Line(t, other)
  }

  /** The instruction behind `loc` when it has ended in `out`. */
  ghost predicate NextIs(t: Target, loc: Loc, out: ExecOut, next: Loc) {
    out.Executed? && if out.isJump then Leads(t, out.bb, next) else Follows(t, loc, next)
  }

  /** What running the next instruction of `i` gives. */
  function OutOf(t: Target, i: Interp): ExecOut
    requires i.instr.Some?
  {
    t.exec(ExecIn(i.time + t.timeStep, i.regs, i.instr.value, i.predBb, i.bb, i.args))
  }

  lemma FollowsIff(t: Target, loc: Loc, next: Loc)
    requires InFunction(t.fn, loc)
    ensures Follows(t, loc, next) <==> InFunction(t.fn, next) && NextNode(t.fn, loc) == Some(next)
    ensures NextNode(t.fn, loc) == None ==> !Follows(t, loc, next)
  {
    hide Before;
  }

  lemma LeadsIff(t: Target, b: nat, first: Loc)
    ensures Leads(t, b, first) <==> InFunction(t.fn, first) && FirstOf(t.fn, b) == Some(first)
  {
    hide Before;
    if Leads(t, b, first) {
      assert InFunction(t.fn, Loc(b, 0));
    }
  }

  /** There is one such instruction at most. */
  lemma NextIsUnique(t: Target, loc: Loc, out: ExecOut, a: Loc, b: Loc)
    requires NextIs(t, loc, out, a) && NextIs(t, loc, out, b)
    ensures a == b
  {
    LineIdentifiesInstr(t.fn, t.codelineOffset, a, b);
    hide CodeLine;
  }

  lemma NextIsFound(t: Target, loc: Loc, out: ExecOut)
    requires InFunction(t.fn, loc) && out.Executed?
    ensures var next := if out.isJump then FirstOf(t.fn, out.bb) else NextNode(t.fn, loc);
      if next == None then forall at: Loc :: !NextIs(t, loc, out, at) else NextIs(t, loc, out, next.value)
  {
    forall at: Loc
      ensures Follows(t, loc, at) <==> InFunction(t.fn, at) && NextNode(t.fn, loc) == Some(at)
      ensures Leads(t, out.bb, at) <==> InFunction(t.fn, at) && FirstOf(t.fn, out.bb) == Some(at)
    {
      FollowsIff(t, loc, at);
      LeadsIff(t, out.bb, at);
    }
    hide Follows, Leads, NextNode, FirstOf;
  }

  /**
   The next instruction is run: time, registers and arguments go on in any case. There is a fault exactly if it raises
   or nothing comes next; otherwise what comes next is the new next instruction, and there is a hit exactly if its
   address has a breakpoint.
   */
  lemma RunsNext(t: Target, h: Handler)
    requires h.limit != Finite(0) && h.interp.instr.Some? && InFunction(t.fn, h.interp.instr.value)
    ensures var (h', r), i, loc, out := RunInstr(t, h), h.interp, h.interp.instr.value, OutOf(t, h.interp);
      && h'.breakpoints == h.breakpoints && h'.interp.time == i.time + t.timeStep
      && h'.interp.regs == out.regs && h'.interp.args == out.args
      && h'.limit == (if h.limit == Infinite then Infinite else Finite(h.limit.n - 1))
      && (out.Raised? ==> (h'.interp.predBb, h'.interp.bb, h'.interp.instr) == (i.predBb, i.bb, i.instr))
      && (out.Executed? ==> h'.interp.predBb == out.predBb && h'.interp.bb == Some(out.bb))
      && (r == Fault <==> forall next: Loc :: !NextIs(t, loc, out, next))
      && (r != Fault ==>
            && h'.interp.instr.Some? && NextIs(t, loc, out, h'.interp.instr.value)
            && var address := 8 * Line(t, h'.interp.instr.value);
               r == if address in h.breakpoints then Hit(address) else NoHit)
  {
    var loc, out := h.interp.instr.value, OutOf(t, h.interp);
    if out.Executed? {
      NextIsFound(t, loc, out);
    }
    hide CodeLine, NextIs, NextNode, FirstOf;
  }

  /** Without a jump the address goes on by eight, in the same block. */
  lemma EightFurther(t: Target, h: Handler)
    requires h.limit != Finite(0) && h.interp.instr.Some? && InFunction(t.fn, h.interp.instr.value)
    requires OutOf(t, h.interp).Executed? && !OutOf(t, h.interp).isJump
    ensures var (h', r), loc := RunInstr(t, h), h.interp.instr.value;
      && (r == Fault <==> loc.pos + 1 == |t.fn[loc.block]|)
      && (r != Fault ==>
            && h'.interp.instr.Some? && InFunction(t.fn, h'.interp.instr.value)
            && h'.interp.instr.value.block == loc.block
            && Address(t, h'.interp.instr.value) == Address(t, loc) + 8)
  {
    RunsNext(t, h);
    hide RunInstr, Before, Leads, OutOf;
    var loc := h.interp.instr.value;
    if loc.pos + 1 < |t.fn[loc.block]| {
      assert Follows(t, loc, Loc(loc.block, loc.pos + 1));
    }
  }

  /**
   The first run: a fault exactly if the first block has no instruction. Otherwise its first line is the first line of
   the file, and with a breakpoint there nothing is run; else the instruction at that line is run like any other.
   */
  lemma RunsFirst(t: Target, h: Handler)
    requires h.limit != Finite(0) && h.interp.instr == None && h.interp.bb == None && h.interp.predBb == None
    ensures var (h', r) := RunInstr(t, h);
      if forall first: Loc :: !Leads(t, 0, first) then
        r == Fault && h'.interp == h.interp.(bb := if t.fn == [] then None else Some(0))
      else
        exists first: Loc ::
          && Leads(t, 0, first) && Line(t, first) == t.codelineOffset
          && var placed := h.(interp := h.interp.(bb := Some(0), instr := Some(first)));
             if 8 * t.codelineOffset in h.breakpoints then
               r == HitOnEntry(8 * t.codelineOffset) && h'.interp == placed.interp && h'.breakpoints == h.breakpoints
             else (h', r) == RunInstr(t, placed)
  {
    forall first: Loc
      ensures Leads(t, 0, first) <==> InFunction(t.fn, first) && FirstOf(t.fn, 0) == Some(first)
    {
      LeadsIff(t, 0, first);
    }
    hide Leads, Execute;
    if FirstOf(t.fn, 0).Some? {
      var first := FirstOf(t.fn, 0).value;
      assert Leads(t, 0, first) && Line(t, first) == t.codelineOffset;
    }
  }

  /** With no next instruction but a block already entered, there is nothing to go on with. */
  lemma PlaceLost(t: Target, h: Handler)
    requires h.limit != Finite(0) && h.interp.instr == None && (h.interp.bb.Some? || h.interp.predBb.Some?)
    ensures RunInstr(t, h).1 == Fault && RunInstr(t, h).0.interp == h.interp
  {
  }

  // ---- the program on its own ----

  /** The same for the program run without a debugger. */
  lemma BareGoesOn(t: Target, start: Interp, n: nat)
    requires Bare(t, start, n).Some?
    ensures var i, next := Bare(t, start, n).value, Bare(t, start, n + 1);
      var loc, out := i.instr.value, OutOf(t, i);
      && (next == None <==> forall at: Loc :: !NextIs(t, loc, out, at))
      && (next.Some? ==>
            && NextIs(t, loc, out, next.value.instr.value) && next.value.time == i.time + t.timeStep
            && next.value == Interp(out.predBb, Some(out.bb), next.value.instr, out.regs, out.args, next.value.time))
  {
    var i := Bare(t, start, n).value;
    var loc, out := i.instr.value, OutOf(t, i);
    if out.Executed? {
      NextIsFound(t, loc, out);
    }
    hide CodeLine, NextIs, NextNode, FirstOf;
  }

  lemma BareBegins(t: Target, start: Interp)
    ensures Bare(t, start, 0) == None <==> forall first: Loc :: !Leads(t, 0, first)
    ensures Bare(t, start, 0).Some? ==>
      var i := Bare(t, start, 0).value;
      && i == start.(bb := Some(0), instr := i.instr)
      && Leads(t, 0, i.instr.value) && Line(t, i.instr.value) == t.codelineOffset
  {
    forall first: Loc
      ensures Leads(t, 0, first) <==> InFunction(t.fn, first) && FirstOf(t.fn, 0) == Some(first)
    {
      LeadsIff(t, 0, first);
    }
    hide Leads;
  }

  /** The first n instructions do not jump. */
  predicate StraightOn(t: Target, start: Interp, n: nat) {
    forall k: nat :: k < n && Bare(t, start, k).Some? && OutOf(t, Bare(t, start, k).value).Executed? ==>
      !OutOf(t, Bare(t, start, k).value).isJump
  }

  /** Time counts the instructions, and without jumps so do the lines. */
  lemma {:induction false} TimeAndLine(t: Target, start: Interp, n: nat)
    requires Bare(t, start, n).Some?
    ensures var i := Bare(t, start, n).value;
      && i.time == start.time + n * t.timeStep
      && (StraightOn(t, start, n) ==> i.instr.value.block == 0 && Line(t, i.instr.value) == t.codelineOffset + n)
  {
    hide Leads, OutOf, CodeLine;
    if n == 0 {
      BareBegins(t, start);
    } else {
      assert Bare(t, start, n - 1).Some?;
      TimeAndLine(t, start, n - 1);
      BareGoesOn(t, start, n - 1);
      hide Bare;
      assert n * t.timeStep == (n - 1) * t.timeStep + t.timeStep;
    }
  }

  /** In every session time stands at one step for each instruction run, however the debugger has stopped in between. */
  lemma SessionClock(t: Target, args: FnArgs, arrivals: seq<Option<string>>)
    ensures var r := Serve(t, InitialStub(t, args), arrivals);
      r.life != Closed ==> r.stub.h.interp.time == Count(r.events, Instructions) * t.timeStep
  {
    Transparency(t, args, arrivals);
    var start, r := InitialInterp(t, args), Serve(t, InitialStub(t, args), arrivals);
    var n := Count(r.events, Instructions);
    hide Serve, Count, InitialRegs;
    if Bare(t, start, n).Some? {
      TimeAndLine(t, start, n);
    }
    hide Bare, StraightOn;
  }
}

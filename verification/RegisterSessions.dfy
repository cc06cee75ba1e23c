/** Registers in every session of the stub: they keep their types, so every one of them can be read. */
module RegisterSessions {
  import opened Wrappers
  import opened LlvmIrRegs
  import opened RegisterBytes
  import opened Interpreter
  import opened RegisterLayout
  import opened CmdHandler
  import opened ServerStub
  import opened StubRuns

  lemma {:induction false} BareKeepsTypes(t: Target, start: Interp, n: nat)
    requires KeepsTypes(t) && WellTypedRegs(t.fn, start.regs)
    ensures Bare(t, start, n).Some? ==> WellTypedRegs(t.fn, Bare(t, start, n).value.regs)
  {
    hide WellTypedRegs;
    if n > 0 {
      BareKeepsTypes(t, start, n - 1);
    }
  }

  /** The number of source lines, with the two lines behind each block. */
  function LineCount(t: Target): nat {
    t.codelineOffset + Before(t.fn, |t.fn|) + 2 * |t.fn|
  }

  lemma LineBound(t: Target, i: Interp)
    requires HasInstr(t, i)
    ensures PcValue(t, i) <= 8 * LineCount(t)
  {
    if i.instr.Some? {
      BeforeMonotone(t.fn, i.instr.value.block + 1, |t.fn|);
    }
  }

  /**
   In every session that has not been closed, whatever has arrived, with instructions that keep registers in their types
   and addresses that fit the program counter: every register can be read, and for each the `g` reply cut where its
   description says is the `p` reply; except for the program counter before the first run.
   */
  lemma LayoutAgreesInSessions(t: Target, args: FnArgs, arrivals: seq<Option<string>>, index: nat)
    requires KeepsTypes(t) && 8 * LineCount(t) < Pow(256, PC_BYTES) && index < |RegisterDescs(t)|
    ensures var r := Serve(t, InitialStub(t, args), arrivals); var i := r.stub.h.interp;
      r.life != Closed ==>
        && HasInstr(t, i) && ReadRegister(t, i, index).Some? && ReadRegisters(t, i).Some?
        && var same := Announced(t, ReadRegisters(t, i).value, index) == ReadRegister(t, i, index).value;
          same <==> i.instr.Some? || t.codelineOffset == 0 || index != PC_INDEX
  {
    var r, start := Serve(t, InitialStub(t, args), arrivals), InitialInterp(t, args);
    Transparency(t, args, arrivals);
    if r.life != Closed {
      InitialRegsWellTyped(t);
      BareKeepsTypes(t, start, Count(r.events, Instructions));
      hide Serve, Bare, Count, KeepsTypes, WellTypedRegs, Announced, ReadRegister, ReadRegisters, HasInstr;
      hide LineCount, PcValue;
      LineBound(t, r.stub.h.interp);
      LayoutAgrees(t, r.stub.h.interp, index);
    }
  }

  lemma RegisterReplied(t: Target, i: Interp, k: nat)
    requires HasInstr(t, i) && WellTypedRegs(t.fn, i.regs) && k < |SessionRegisters(t)|
    ensures var loc := SessionRegisters(t)[k].loc;
      loc in i.regs && WellTyped(i.regs[loc]) && ReadRegister(t, i, k + 1) == RegisterReply(i.regs[loc])
  {
    SessionHolds(t, i.regs);
    assert SessionRegisters(t)[k] in SessionRegisters(t);
    hide SessionRegisters, Hexlify, ToBytes, Known, WellTyped, HasInstr, PcValue;
    assert Locs(SessionRegisters(t))[k] == SessionRegisters(t)[k].loc;
  }

  /**
   In every session that has not been closed, what the client reads in the reply for a register has exactly the bits of
   the register's value that are known; and the client does not take the reply for a stop packet.
   */
  lemma RegisterIsReported(t: Target, args: FnArgs, arrivals: seq<Option<string>>, k: nat)
    requires KeepsTypes(t) && k < |SessionRegisters(t)|
    ensures var r := Serve(t, InitialStub(t, args), arrivals); var i := r.stub.h.interp;
      r.life != Closed ==>
        var loc := SessionRegisters(t)[k].loc;
        && HasInstr(t, i) && loc in i.regs && ReadRegister(t, i, k + 1).Some?
        && ReadReply(ReadRegister(t, i, k + 1).value).Some?
        && HasKnownBits(ReadReply(ReadRegister(t, i, k + 1).value).value, i.regs[loc])
        && !IsStop(ReadRegister(t, i, k + 1).value)
  {
    var r, start := Serve(t, InitialStub(t, args), arrivals), InitialInterp(t, args);
    Transparency(t, args, arrivals);
    if r.life != Closed {
      InitialRegsWellTyped(t);
      BareKeepsTypes(t, start, Count(r.events, Instructions));
      hide Serve, Bare, Count, KeepsTypes, WellTypedRegs, HasInstr, SessionRegisters, ReadRegister, RegisterReply;
      RegisterReplied(t, r.stub.h.interp, k);
      RegisterValueEndToEnd(r.stub.h.interp.regs[SessionRegisters(t)[k].loc], "");
      KnownBits(r.stub.h.interp.regs[SessionRegisters(t)[k].loc]);
      hide WellTyped, Known, ReadReply, IsStop, HasKnownBits;
    }
  }
}

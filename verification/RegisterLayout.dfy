/** The register list a session is set up with, and the two ways of reading it: one register, or all in one reply. */
module RegisterLayout {
  import opened Wrappers
  import opened Digits
  import opened LlvmIrRegs
  import opened RegisterBytes
  import opened Interpreter

  /** One entry of REGISTER_INFO. */
  datatype RegDesc = RegDesc(name: string, width: nat, offset: nat)

  const PC_INDEX := 0
  const PC_BYTES := 8

  /** The rows that have a register. */
  function RegisterRows(rows: seq<RegRow>): (r: seq<RegRow>)
    ensures forall row <- r :: row in rows && row.index.Some?
  {
    if rows == [] then []
    else
      var last := rows[|rows| - 1];
      RegisterRows(rows[..|rows| - 1]) + if last.index.Some? then [last] else []
  }

  function Locs(rows: seq<RegRow>): seq<Loc> {
    seq(|rows|, k requires 0 <= k < |rows| => rows[k].loc)
  }

  function WidthOf(row: RegRow): nat {
    if row.width.Some? then row.width.value else 0
  }

  /** Bytes taken by the registers of these rows. */
  function SizeOf(rows: seq<RegRow>): nat {
    if rows == [] then 0 else SizeOf(rows[..|rows| - 1]) + ByteSize(WidthOf(rows[|rows| - 1]))
  }

  function NameOf(row: RegRow): string {
    if row.name.Some? then row.name.value else ""
  }

  /** Register k of the rows sits behind the program counter and the registers before it. */
  function Descs(rows: seq<RegRow>): seq<RegDesc> {
    seq(|rows|, k requires 0 <= k < |rows| =>
      RegDesc(NameOf(rows[k]), WidthOf(rows[k]), PC_BYTES + SizeOf(rows[..k])))
  }

  function SessionRows(t: Target): seq<RegRow> {
    AllRows(t.fn, t.codelineOffset, 1, false)
  }

  /** The registers of a session, without the program counter. */
  function SessionRegisters(t: Target): seq<RegRow> {
    RegisterRows(SessionRows(t))
  }

  /** REGISTER_INFO as data; entry 0 is the program counter. */
  function RegisterDescs(t: Target): seq<RegDesc> {
    [RegDesc("pc", 64, 0)] + Descs(SessionRegisters(t))
  }

  const PC_TAIL := "encoding:uint;" + "format:hex;" + "set:Program Counter;" + "generic:pc;"
  const REG_TAIL := "encoding:uint;" + "format:hex;" + "set:LLVM IR reg;" + "generic:"

  /** `name:...;bitsize:...;offset:...;` and more fields. */
  function DescText(name: string, bits: string, offset: string, tail: string): string {
    "name:" + (name + (";" + ("bitsize:" + (bits + (";" + ("offset:" + (offset + (";" + tail))))))))
  }

  function PrintDesc(d: RegDesc, index: nat): string {
    if index == PC_INDEX then DescText("pc", "64", "0", PC_TAIL)
    else DescText(d.name, Print(d.width, 10), Print(d.offset, 10), REG_TAIL + d.name + ";")
  }

  // ---- reading ----

  predicate HasInstr(t: Target, i: Interp) {
    i.instr.Some? ==> InFunction(t.fn, i.instr.value)
  }

  /** What `p0` reports: before the first run, the first line of the file. */
  function PcValue(t: Target, i: Interp): nat
    requires HasInstr(t, i)
  {
    if i.instr == None then 8 * t.codelineOffset else Address(t, i.instr.value)
  }

  /** What `g` reports for the program counter: before the first run, 0. */
  function PcValueInAll(t: Target, i: Interp): nat
    requires HasInstr(t, i)
  {
    if i.instr == None then 0 else Address(t, i.instr.value)
  }

  /** One register's bytes; None where the source raises OverflowError or KeyError. */
  function BytesOf(regs: Registers, loc: Loc): Option<seq<Byte>> {
    if loc !in regs then None else ToBytes(Known(regs[loc]), ByteSize(regs[loc].width))
  }

  /** handleReadRegister; None where it raises. */
  function ReadRegister(t: Target, i: Interp, index: nat): Option<string>
    requires HasInstr(t, i)
  {
    var rows := SessionRegisters(t);
    if index == PC_INDEX then
      var bytes := ToBytes(PcValue(t, i), PC_BYTES);
      if bytes == None then None else Some(Hexlify(bytes.value))
    else if index > |rows| then None                         // IndexError
    else
      var bytes := BytesOf(i.regs, rows[index - 1].loc);
      if bytes == None then None else Some(Hexlify(bytes.value))
  }

  function JoinBytes(regs: Registers, locs: seq<Loc>): Option<seq<Byte>> {
    if locs == [] then Some([])
    else
      var before := JoinBytes(regs, locs[..|locs| - 1]);
      var last := BytesOf(regs, locs[|locs| - 1]);
      if before == None || last == None then None else Some(before.value + last.value)
  }

  /** handleReadRegisters; None where it raises. */
  function ReadRegisters(t: Target, i: Interp): Option<string>
    requires HasInstr(t, i)
  {
    var pc, rest := ToBytes(PcValueInAll(t, i), PC_BYTES), JoinBytes(i.regs, Locs(SessionRegisters(t)));
    if pc == None || rest == None then None else Some(Hexlify(pc.value + rest.value))
  }

  // ---- agreement of the two ----

  lemma {:induction false} HexlifyAppend(a: seq<Byte>, b: seq<Byte>)
    ensures Hexlify(a + b) == Hexlify(a) + Hexlify(b)
  {
    hide RemoteMessages.Hex2;
    if a == [] {
      assert a + b == b;
    } else {
      assert (a + b)[1..] == a[1..] + b;
      HexlifyAppend(a[1..], b);
    }
  }

  lemma PrefixAndRest(all: string, a: string, b: string, n: nat)
    requires all == a + b && n == |a|
    ensures all[..n] == a && all[n..] == b
  {
  }

  lemma HexlifyTake(bytes: seq<Byte>, n: nat)
    requires n <= |bytes|
    ensures Hexlify(bytes)[..2 * n] == Hexlify(bytes[..n]) && Hexlify(bytes)[2 * n..] == Hexlify(bytes[n..])
  {
    hide *;
    var front, back := bytes[..n], bytes[n..];
    assert front + back == bytes;
    HexlifyAppend(front, back);
    PrefixAndRest(Hexlify(bytes), Hexlify(front), Hexlify(back), 2 * n);
  }

  /** A stretch of bytes is the stretch of hexadecimal digits twice as far along. */
  lemma HexlifySlice(bytes: seq<Byte>, from: nat, to: nat)
    requires from <= to <= |bytes|
    ensures Hexlify(bytes)[2 * from..2 * to] == Hexlify(bytes[from..to])
  {
    HexlifyTake(bytes, to);
    HexlifyTake(bytes[..to], from);
    hide Hexlify;
    assert bytes[..to][from..] == bytes[from..to];
    assert Hexlify(bytes)[..2 * to][2 * from..] == Hexlify(bytes)[2 * from..2 * to];
  }

  lemma HexlifySliceBehind(head: seq<Byte>, tail: seq<Byte>, from: nat, to: nat)
    requires |head| <= from <= to <= |head| + |tail|
    ensures Hexlify(head + tail)[2 * from..2 * to] == Hexlify(tail[from - |head|..to - |head|])
  {
    hide Hexlify, IsLowerHex;
    HexlifySlice(head + tail, from, to);
    assert (head + tail)[from..to] == tail[from - |head|..to - |head|];
  }

  /** Each register of the rows has a value of its width. */
  ghost predicate Holds(regs: Registers, rows: seq<RegRow>) {
    forall row <- rows :: row.loc in regs && regs[row.loc].width == WidthOf(row) && WellTyped(regs[row.loc])
  }

  lemma BytesOfTyped(regs: Registers, loc: Loc)
    requires loc in regs && WellTyped(regs[loc])
    ensures BytesOf(regs, loc).Some? && |BytesOf(regs, loc).value| == ByteSize(regs[loc].width)
  {
    KnownFits(regs[loc]);
  }

  /** Register k's bytes are found behind those of the registers before it. */
  lemma {:induction false} JoinSlice(regs: Registers, rows: seq<RegRow>, k: nat)
    requires Holds(regs, rows) && k <= |rows|
    ensures var all := JoinBytes(regs, Locs(rows));
      && all.Some? && |all.value| == SizeOf(rows)
      && (k < |rows| ==>
        && BytesOf(regs, rows[k].loc).Some? && SizeOf(rows[..k]) + ByteSize(WidthOf(rows[k])) <= SizeOf(rows)
        && all.value[SizeOf(rows[..k])..SizeOf(rows[..k]) + ByteSize(WidthOf(rows[k]))]
           == BytesOf(regs, rows[k].loc).value)
  {
    hide WellTyped, ByteSize, BytesOf, WidthOf;
    if rows != [] {
      var n := |rows| - 1;
      var before, last := rows[..n], rows[n];
      assert Locs(rows)[..n] == Locs(before);
      assert last in rows;
      BytesOfTyped(regs, last.loc);
      JoinSlice(regs, before, if k < n then k else 0);
      if k < n {
        assert before[..k] == rows[..k];
      }
    }
  }

  lemma SessionHolds(t: Target, regs: Registers)
    requires WellTypedRegs(t.fn, regs)
    ensures Holds(regs, SessionRegisters(t))
  {
    var rows := SessionRows(t);
    IndexIsSound(t.fn, t.codelineOffset, 1, false);
    assert Describes(rows, t.fn, t.codelineOffset, 1);
    hide AllRows, WellTyped;
    forall row | row in SessionRegisters(t)
      ensures row.loc in regs && regs[row.loc].width == WidthOf(row) && WellTyped(regs[row.loc])
    {
      var k :| 0 <= k < |rows| && rows[k] == row;
    }
  }

  /** The part of the `g` reply that a description announces. */
  function Cut(d: RegDesc, all: string): string {
    var from, to := 2 * d.offset, 2 * (d.offset + ByteSize(d.width));
    if to <= |all| then all[from..to] else ""
  }

  function Announced(t: Target, all: string, index: nat): string
    requires index < |RegisterDescs(t)|
  {
    Cut(RegisterDescs(t)[index], all)
  }

  lemma SameNumberSameHex(a: nat, b: nat, n: nat)
    requires a < Pow(256, n) && b < Pow(256, n)
    ensures Hexlify(ToBytes(a, n).value) == Hexlify(ToBytes(b, n).value) <==> a == b
  {
    NumberRoundTrip(a, n);
    NumberRoundTrip(b, n);
  }

  /** With every register in its type and the program counter in eight bytes, reading all registers succeeds. */
  lemma AllRegistersRead(t: Target, i: Interp)
    requires HasInstr(t, i) && WellTypedRegs(t.fn, i.regs) && PcValue(t, i) < Pow(256, PC_BYTES)
    ensures ToBytes(PcValueInAll(t, i), PC_BYTES).Some? && JoinBytes(i.regs, Locs(SessionRegisters(t))).Some?
    ensures var pc, rest := ToBytes(PcValueInAll(t, i), PC_BYTES).value,
                            JoinBytes(i.regs, Locs(SessionRegisters(t))).value;
      |pc| == PC_BYTES && ReadRegisters(t, i) == Some(Hexlify(pc + rest))
  {
    SessionHolds(t, i.regs);
    JoinSlice(i.regs, SessionRegisters(t), 0);
    hide Pow, Hexlify, SessionRegisters, Address, JoinBytes;
  }

  lemma LayoutAgreesForPc(t: Target, i: Interp)
    requires HasInstr(t, i) && WellTypedRegs(t.fn, i.regs) && PcValue(t, i) < Pow(256, PC_BYTES)
    ensures ReadRegister(t, i, 0).Some? && ReadRegisters(t, i).Some?
    ensures Announced(t, ReadRegisters(t, i).value, 0) == ReadRegister(t, i, 0).value
      <==> i.instr.Some? || t.codelineOffset == 0
  {
    hide Pow, Hexlify, SessionRegisters, Address, JoinBytes, Descs, IsLowerHex;
    AllRegistersRead(t, i);
    hide ReadRegisters;
    var pc := ToBytes(PcValueInAll(t, i), PC_BYTES).value;
    var rest := JoinBytes(i.regs, Locs(SessionRegisters(t))).value;
    HexlifySlice(pc + rest, 0, PC_BYTES);
    assert (pc + rest)[0..PC_BYTES] == pc;
    SameNumberSameHex(PcValue(t, i), PcValueInAll(t, i), PC_BYTES);
  }

  /** Where register k's bytes begin and end behind the program counter. */
  function From(t: Target, k: nat): nat
    requires k < |SessionRegisters(t)|
  {
    SizeOf(SessionRegisters(t)[..k])
  }

  function To(t: Target, k: nat): nat
    requires k < |SessionRegisters(t)|
  {
    From(t, k) + ByteSize(WidthOf(SessionRegisters(t)[k]))
  }

  lemma OneRegisterRead(t: Target, i: Interp, k: nat)
    requires HasInstr(t, i) && WellTypedRegs(t.fn, i.regs) && k < |SessionRegisters(t)|
    ensures var rest := JoinBytes(i.regs, Locs(SessionRegisters(t)));
      && rest.Some? && To(t, k) <= |rest.value|
      && ReadRegister(t, i, k + 1) == Some(Hexlify(rest.value[From(t, k)..To(t, k)]))
  {
    hide Hexlify, SessionRegisters, JoinBytes, BytesOf, SizeOf, WidthOf, Holds, HasInstr, IsLowerHex, ByteSize, PcValue;
    SessionHolds(t, i.regs);
    JoinSlice(i.regs, SessionRegisters(t), k);
    assert Locs(SessionRegisters(t))[k] == SessionRegisters(t)[k].loc;
  }

  lemma AnnouncedRegister(t: Target, all: string, k: nat)
    requires k < |SessionRegisters(t)|
    requires 2 * (PC_BYTES + To(t, k)) <= |all|
    ensures Announced(t, all, k + 1) == all[2 * (PC_BYTES + From(t, k))..2 * (PC_BYTES + To(t, k))]
  {
    hide SessionRegisters, SizeOf, WidthOf;
    assert RegisterDescs(t)[k + 1] == Descs(SessionRegisters(t))[k];
  }

  lemma FromBeforeTo(t: Target, k: nat)
    requires k < |SessionRegisters(t)|
    ensures From(t, k) <= To(t, k)
  {
    hide From, SessionRegisters, WidthOf;
  }

  lemma SameSlice(pc: seq<Byte>, rest: seq<Byte>, from: nat, to: nat)
    requires |pc| == PC_BYTES && from <= to <= |rest|
    ensures rest[PC_BYTES + from - |pc|..PC_BYTES + to - |pc|] == rest[from..to]
  {
  }

  lemma LayoutAgreesForRegister(t: Target, i: Interp, k: nat)
    requires HasInstr(t, i) && WellTypedRegs(t.fn, i.regs) && PcValue(t, i) < Pow(256, PC_BYTES)
    requires k < |SessionRegisters(t)|
    ensures ReadRegister(t, i, k + 1).Some? && ReadRegisters(t, i).Some?
    ensures Announced(t, ReadRegisters(t, i).value, k + 1) == ReadRegister(t, i, k + 1).value
  {
    hide *;
    AllRegistersRead(t, i);
    OneRegisterRead(t, i, k);
    var pc := ToBytes(PcValueInAll(t, i), PC_BYTES).value;
    var rest := JoinBytes(i.regs, Locs(SessionRegisters(t))).value;
    var from, to := From(t, k), To(t, k);
    FromBeforeTo(t, k);
    assert |Hexlify(pc + rest)| == 2 * (PC_BYTES + |rest|);
    HexlifySliceBehind(pc, rest, PC_BYTES + from, PC_BYTES + to);
    SameSlice(pc, rest, from, to);
    AnnouncedRegister(t, Hexlify(pc + rest), k);
  }

  /**
   For every register, whatever the widths, the `g` reply cut at the announced offset and size is the `p` reply; for
   the program counter this holds exactly once execution has started (or with the first line at 0).
   */
  lemma LayoutAgrees(t: Target, i: Interp, index: nat)
    requires HasInstr(t, i) && WellTypedRegs(t.fn, i.regs) && PcValue(t, i) < Pow(256, PC_BYTES)
    requires index < |RegisterDescs(t)|
    ensures ReadRegister(t, i, index).Some? && ReadRegisters(t, i).Some?
    ensures Announced(t, ReadRegisters(t, i).value, index) == ReadRegister(t, i, index).value
      <==> i.instr.Some? || t.codelineOffset == 0 || index != PC_INDEX
  {
    hide ReadRegister, ReadRegisters, Announced;
    if index == 0 {
      LayoutAgreesForPc(t, i);
    } else {
      LayoutAgreesForRegister(t, i, index - 1);
    }
  }

  // ---- sizes and places, apart from any code that computes them ----

  /** The rows of the registers of a session, in the order of the function. */
  lemma {:induction false} RegisterRowsInOrder(rows: seq<RegRow>, k: nat)
    requires k < |RegisterRows(rows)|
    ensures |RegisterRows(rows)| == Typed(rows)
    ensures exists j: nat ::
      j < |rows| && rows[j] == RegisterRows(rows)[k] && Typed(rows[..j]) == k && rows[j].index.Some?
  {
    var front, n := rows[..|rows| - 1], |rows| - 1;
    TypedCounts(front);
    if k < |RegisterRows(front)| {
      RegisterRowsInOrder(front, k);
      var j: nat :| j < n && front[j] == RegisterRows(front)[k] && Typed(front[..j]) == k && front[j].index.Some?;
      assert front[..j] == rows[..j] && rows[j] == front[j];
    } else {
      assert rows[n] == RegisterRows(rows)[k] && Typed(rows[..n]) == k;
    }
  }

  lemma {:induction false} TypedCounts(rows: seq<RegRow>)
    ensures |RegisterRows(rows)| == Typed(rows)
  {
    if rows != [] {
      TypedCounts(rows[..|rows| - 1]);
    }
  }

  lemma DescribedRow(rows: seq<RegRow>, fn: IrFunction, offset: nat, regOffset: nat, j: nat)
    requires Describes(rows, fn, offset, regOffset) && j < |rows| && rows[j].index.Some?
    ensures var row := rows[j];
      && row.index == Some(regOffset + Typed(rows[..j])) && InFunction(fn, row.loc)
      && row.width == InstrAt(fn, row.loc).width && row.width.Some? && row.name.Some?
      && row.codeline == CodeLine(fn, offset, row.loc)
  {
    hide CodeLine, Typed;
  }

  /** Register k + 1 of a session is the row of that register number, behind k instructions with a register. */
  lemma RegisterNumbered(t: Target, k: nat)
    requires k < |SessionRegisters(t)|
    ensures var row := SessionRegisters(t)[k];
      && row.index == Some(k + 1) && InFunction(t.fn, row.loc) && row.width == InstrAt(t.fn, row.loc).width
      && row.width.Some? && row.name.Some? && row.codeline == CodeLine(t.fn, t.codelineOffset, row.loc)
  {
    hide Describes, AllRows, RegisterRows, DistinctNames, CodeLine, Typed, Before;
    var rows := SessionRows(t);
    RegisterRowsInOrder(rows, k);
    IndexIsSound(t.fn, t.codelineOffset, 1, false);
    var j: nat :| j < |rows| && rows[j] == RegisterRows(rows)[k] && Typed(rows[..j]) == k && rows[j].index.Some?;
    DescribedRow(rows, t.fn, t.codelineOffset, 1, j);
  }

  /**
   The announced sizes and offsets: the program counter has bits 0 to 63 at offset 0, each register has its
   instruction's width, and it lies behind the register before it by the least number of bytes that hold that one.
   */
  lemma OffsetsAddUp(t: Target, k: nat, n: nat)
    requires k < |SessionRegisters(t)|
    ensures |RegisterDescs(t)| == |SessionRegisters(t)| + 1
    ensures RegisterDescs(t)[0] == RegDesc("pc", 64, 0) && RegisterDescs(t)[1].offset == 8
    ensures var loc := SessionRegisters(t)[k].loc;
      InFunction(t.fn, loc) && InstrAt(t.fn, loc).width == Some(RegisterDescs(t)[k + 1].width)
    ensures k + 1 < |SessionRegisters(t)| && LeastBytes(RegisterDescs(t)[k + 1].width, n) ==>
      RegisterDescs(t)[k + 2].offset == RegisterDescs(t)[k + 1].offset + n
  {
    RegisterNumbered(t, k);
    hide SessionRegisters, ByteSize, CodeLine;
    var regs := SessionRegisters(t);
    ByteSizeIsLeast(WidthOf(regs[k]), n);
    assert regs[..0] == [];
    if k + 1 < |regs| {
      assert regs[..k + 1][..k] == regs[..k];
    }
  }

  /** The reply to `p` has two digits for each of the least number of bytes that hold the announced width. */
  lemma ReplyLengths(t: Target, i: Interp, index: nat, n: nat)
    requires HasInstr(t, i) && WellTypedRegs(t.fn, i.regs) && PcValue(t, i) < Pow(256, 8)
    requires index < |RegisterDescs(t)| && LeastBytes(RegisterDescs(t)[index].width, n)
    ensures ReadRegister(t, i, index).Some? && |ReadRegister(t, i, index).value| == 2 * n
  {
    var one := ReadRegister(t, i, index);
    ByteSizeIsLeast(RegisterDescs(t)[index].width, n);
    if index > 0 {
      var row := SessionRegisters(t)[index - 1];
      SessionHolds(t, i.regs);
      BytesOfTyped(i.regs, row.loc);
      hide Hexlify, SessionRegisters, HasInstr, PcValue, Pow, IsLowerHex;
      assert Locs(SessionRegisters(t))[index - 1] == row.loc;
    }
    hide Hexlify, SessionRegisters, HasInstr, PcValue, Pow, IsLowerHex, BytesOf;
  }

  /** Before the first run `g` has 16 zeros where `p0` has eight times the first line. */
  lemma CounterBeforeRun(t: Target, i: Interp, j: nat)
    requires i.instr == None && WellTypedRegs(t.fn, i.regs) && 8 * t.codelineOffset < Pow(256, 8)
    ensures ReadRegisters(t, i).Some? && |ReadRegisters(t, i).value| >= 16
    ensures j < 16 ==> ReadRegisters(t, i).value[j] == '0'
    ensures ReadRegister(t, i, 0).Some? && ReadReply(ReadRegister(t, i, 0).value) == Some(8 * t.codelineOffset)
  {
    hide Hexlify, Pow, SessionRegisters, JoinBytes, IsLowerHex, ReadReply, LittleEndian;
    AllRegistersRead(t, i);
    NumberRoundTrip(8 * t.codelineOffset, 8);
    var pc, rest := ToBytes(0, 8).value, JoinBytes(i.regs, Locs(SessionRegisters(t))).value;
    HexlifyTake(pc + rest, 8);
    assert (pc + rest)[..8] == pc;
    if j < 16 {
      ZeroOnWire(8, j);
    }
  }

  /** If the instructions' names differ, the client is told each register by its instruction's name. */
  lemma NamesAnnounced(t: Target, k: nat)
    requires OwnNamesDiffer(t.fn) && k < |SessionRegisters(t)|
    ensures var loc := SessionRegisters(t)[k].loc;
      InFunction(t.fn, loc) && RegisterDescs(t)[k + 1].name == InstrAt(t.fn, loc).name
  {
    hide AllRows, RegisterRows, DistinctNames, CodeLine, Typed, Before, NamesFollow, OwnNamesDiffer, SizeOf;
    var rows := SessionRows(t);
    RegisterRowsInOrder(rows, k);
    RegisterNumbered(t, k);
    IndexIsSound(t.fn, t.codelineOffset, 1, false);
    var j: nat :| j < |rows| && rows[j] == RegisterRows(rows)[k] && Typed(rows[..j]) == k && rows[j].index.Some?;
    OwnNamesKept(rows, t.fn, j);
  }
}

/**
 The two tables of breakpoints: the command side numbers the lines it has set breakpoints on, the stub keeps a set of
 addresses, eight times the lines. Nothing tells the stub that two numbers share a line.
 */
module BreakpointMirror {
  import opened Wrappers
  import opened Streams
  import opened Requests
  import opened Interpreter
  import opened RegisterLayout
  import opened ServerStub
  import opened RemoteClient
  import opened Session
  import opened SessionBreakpoints

  /** Number to line, and the next number. */
  datatype Table = Table(breakpoints: map<nat, nat>, cntr: nat)

  function Recorded(tb: Table, line: nat): Table {
    Table(tb.breakpoints[tb.cntr := line], tb.cntr + 1)
  }

  function Popped(tb: Table, number: nat): Table {
    tb.(breakpoints := tb.breakpoints - {number})
  }

  /** Both sides; `raised` once an exception has ended the session. */
  datatype Mirror = Mirror(table: Table, server: Stub, raised: bool)

  datatype Op =
    | Insert(line: nat)       // break-insert
    | Delete(number: nat)     // break-delete
    | Other(command: Command) // any other request of the client
    | Loop                    // a pass of the stub's loop

  predicate OnBreakpoints(c: Command) {
    c.BreakInsert? || c.BreakDelete?
  }

  /** The reply to a request in the state the stub is in. */
  function ReplyTo(t: Target, st: Stub, c: Command): Option<string>
    requires Sound(t, st)
  {
    Answer(t, st.h, Dispatch(PrintCommand(c))).1
  }

  function Asked(t: Target, m: Mirror, c: Command): (r: Mirror)
    requires Sound(t, m.server)
    ensures Sound(t, r.server)
  {
    m.(server := PacketHandled(t, m.server, PrintCommand(c)).stub, raised := ReplyTo(t, m.server, c) != Some("OK"))
  }

  /** The line is recorded when the request has succeeded; the number is taken out of the table before the request. */
  function Apply(t: Target, m: Mirror, op: Op): (r: Mirror)
    requires Sound(t, m.server)
    ensures Sound(t, r.server)
  {
    if m.raised then m
    else match op
      case Insert(line) =>
        var r := Asked(t, m, BreakInsert(8 * line));
        if r.raised then r else r.(table := Recorded(m.table, line))
      case Delete(number) =>
        if number !in m.table.breakpoints then m.(raised := true)
        else Asked(t, m.(table := Popped(m.table, number)), BreakDelete(8 * m.table.breakpoints[number]))
      case Other(c) =>
        if OnBreakpoints(c) then m else m.(server := PacketHandled(t, m.server, PrintCommand(c)).stub)
      case Loop => m.(server := RunOnce(t, m.server).stub)
  }

  function Begin(t: Target, args: FnArgs): (m: Mirror)
    ensures Sound(t, m.server)
  {
    Mirror(Table(map[], 0), InitialStub(t, args), false)
  }

  function Ran(t: Target, args: FnArgs, ops: seq<Op>): (m: Mirror)
    ensures Sound(t, m.server)
  {
    if ops == [] then Begin(t, args) else Apply(t, Ran(t, args, ops[..|ops| - 1]), ops[|ops| - 1])
  }

  predicate Live(m: Mirror, line: nat) {
    exists number <- m.table.breakpoints :: m.table.breakpoints[number] == line
  }

  predicate Set(m: Mirror, line: nat) {
    8 * line in m.server.h.breakpoints
  }

  predicate Agrees(m: Mirror, line: nat) {
    Set(m, line) <==> Live(m, line)
  }

  /** The stub's addresses are those of the lines in the table. */
  ghost predicate Mirrored(m: Mirror) {
    forall line: nat :: Agrees(m, line)
  }

  /** Another number has the same line. */
  predicate Shares(m: Mirror, number: nat) {
    && number in m.table.breakpoints
    && exists other <- m.table.breakpoints ::
         other != number && m.table.breakpoints[other] == m.table.breakpoints[number]
  }

  /** Every address is that of a line in the table. */
  ghost predicate Contained(m: Mirror) {
    forall address <- m.server.h.breakpoints :: address % 8 == 0 && Live(m, address / 8)
  }

  ghost predicate Numbered(m: Mirror) {
    forall number <- m.table.breakpoints :: number < m.table.cntr
  }

  ghost predicate Tidy(m: Mirror) {
    Contained(m) && Numbered(m)
  }

  // ---- one operation ----

  lemma BreakpointsAnswered(t: Target, m: Mirror, address: nat)
    requires Sound(t, m.server)
    ensures var r := Asked(t, m, BreakInsert(address));
      !r.raised && r.server.h.breakpoints == m.server.h.breakpoints + {address} && r.table == m.table
    ensures var r := Asked(t, m, BreakDelete(address));
      && (r.raised <==> address !in m.server.h.breakpoints)
      && r.server.h.breakpoints == m.server.h.breakpoints - {address} && r.table == m.table
  {
    hide Dispatch, PrintCommand, HasInstr;
    CommandRoundTrip(BreakInsert(address));
    CommandRoundTrip(BreakDelete(address));
  }

  lemma OthersKeep(t: Target, st: Stub, c: Command)
    requires Sound(t, st)
    ensures !OnBreakpoints(c) ==> PacketHandled(t, st, PrintCommand(c)).stub.h.breakpoints == st.h.breakpoints
    ensures RunOnce(t, st).stub.h.breakpoints == st.h.breakpoints
  {
    hide Dispatch, PrintCommand, HasInstr, RunOnce, RegisterLayout.ReadRegister;
    LoopKeeps(t, st);
    CommandRoundTrip(c);
  }

  /** What one operation does to the two tables. */
  lemma Applied(t: Target, m: Mirror, op: Op)
    requires Sound(t, m.server) && !m.raised
    ensures var r, before, table := Apply(t, m, op), m.server.h.breakpoints, m.table;
      match op
      case Insert(line) =>
        !r.raised && r.table == Recorded(table, line) && r.server.h.breakpoints == before + {8 * line}
      case Delete(number) =>
        if number !in table.breakpoints then r == m.(raised := true)
        else
          var address := 8 * table.breakpoints[number];
          && r.table == Popped(table, number) && r.server.h.breakpoints == before - {address}
          && (r.raised <==> address !in before)
      case _ => !r.raised && r.table == table && r.server.h.breakpoints == before
  {
    hide Dispatch, PrintCommand, HasInstr, PacketHandled, RunOnce, Asked;
    match op {
      case Insert(line) => BreakpointsAnswered(t, m, 8 * line);
      case Delete(number) =>
        if number in m.table.breakpoints {
          BreakpointsAnswered(t, m.(table := Popped(m.table, number)), 8 * m.table.breakpoints[number]);
        }
      case Other(c) => OthersKeep(t, m.server, c);
      case Loop => OthersKeep(t, m.server, SendStep);
    }
  }

  /** The lines live and set after an operation. */
  lemma LinesAfter(t: Target, m: Mirror, op: Op, line: nat)
    requires Sound(t, m.server) && !m.raised && Tidy(m)
    ensures var r := Apply(t, m, op);
      match op
      case Insert(l) => (Live(r, line) <==> line == l || Live(m, line)) && (Set(r, line) <==> line == l || Set(m, line))
      case Delete(number) =>
        if number in m.table.breakpoints && m.table.breakpoints[number] == line
        then !Set(r, line) && (Live(r, line) <==> Shares(m, number))
        else (Live(r, line) <==> Live(m, line)) && (Set(r, line) <==> Set(m, line))
      case _ => (Live(r, line) <==> Live(m, line)) && (Set(r, line) <==> Set(m, line))
  {
    Applied(t, m, op);
    hide Apply, Sound;
    var r := Apply(t, m, op);
    var now, before := r.table.breakpoints, m.table.breakpoints;
    match op {
      case Insert(l) =>
        assert now[m.table.cntr] == l && m.table.cntr !in before;
        assert forall n <- before :: n in now && now[n] == before[n];
      case Delete(number) =>
        assert forall n <- before :: n != number && number in before ==> n in now && now[n] == before[n];
      case _ =>
    }
  }

  /** The operation deletes a breakpoint on a line that another number shares. */
  predicate BreaksUp(m: Mirror, op: Op) {
    op.Delete? && Shares(m, op.number)
  }

  lemma LineStays(t: Target, m: Mirror, op: Op, line: nat)
    requires Sound(t, m.server) && !m.raised && Tidy(m) && Agrees(m, line)
    ensures Agrees(Apply(t, m, op), line) <==> !(BreaksUp(m, op) && m.table.breakpoints[op.number] == line)
  {
    LinesAfter(t, m, op, line);
    hide Apply, Sound, Live, Set, Tidy;
  }

  /** A delete is answered by an error exactly if the address is gone; in equal tables it never is. */
  lemma RaisesIff(t: Target, m: Mirror, op: Op)
    requires Sound(t, m.server) && !m.raised && Mirrored(m)
    ensures Apply(t, m, op).raised <==> op.Delete? && op.number !in m.table.breakpoints
  {
    Applied(t, m, op);
    hide Apply, Sound;
    if op.Delete? && op.number in m.table.breakpoints {
      assert Agrees(m, m.table.breakpoints[op.number]);
    }
  }

  /** From equal tables, an operation makes them differ exactly if it deletes a breakpoint on a line another shares. */
  lemma StaysMirrored(t: Target, m: Mirror, op: Op)
    requires Sound(t, m.server) && !m.raised && Tidy(m) && Mirrored(m)
    ensures Mirrored(Apply(t, m, op)) <==> !BreaksUp(m, op)
  {
    hide Agrees, Apply, Sound, Live, Set, Tidy;
    var r := Apply(t, m, op);
    forall line: nat
      ensures Agrees(r, line) <==> !(BreaksUp(m, op) && m.table.breakpoints[op.number] == line)
    {
      LineStays(t, m, op, line);
    }
    if BreaksUp(m, op) {
      assert !Agrees(r, m.table.breakpoints[op.number]);
    }
  }

  lemma SetIsLive(m: Mirror, address: nat)
    requires Contained(m) && address in m.server.h.breakpoints
    ensures address == 8 * (address / 8) && Set(m, address / 8) && Live(m, address / 8)
  {
    hide Live;
  }

  /** An address that is set after an operation was set before it or has just been inserted. */
  lemma AddressFrom(t: Target, m: Mirror, op: Op, address: nat)
    requires Sound(t, m.server) && !m.raised && address in Apply(t, m, op).server.h.breakpoints
    ensures address in m.server.h.breakpoints || (op.Insert? && address == 8 * op.line)
  {
    Applied(t, m, op);
    hide Apply, Sound;
  }

  lemma StaysContained(t: Target, m: Mirror, op: Op)
    requires Sound(t, m.server) && !m.raised && Tidy(m)
    ensures Contained(Apply(t, m, op))
  {
    hide Sound, Apply, Live, Numbered;
    var r := Apply(t, m, op);
    forall address | address in r.server.h.breakpoints
      ensures address % 8 == 0 && Live(r, address / 8)
    {
      AddressFrom(t, m, op, address);
      if address in m.server.h.breakpoints {
        SetIsLive(m, address);
      }
      assert Set(r, address / 8);
      LinesAfter(t, m, op, address / 8);
      hide Contained, Set;
    }
  }

  lemma StaysTidy(t: Target, m: Mirror, op: Op)
    requires Sound(t, m.server) && Tidy(m)
    ensures Tidy(Apply(t, m, op)) && m.table.cntr <= Apply(t, m, op).table.cntr
    ensures !m.raised && op.Insert? ==> m.table.cntr < Apply(t, m, op).table.cntr
  {
    if !m.raised {
      StaysContained(t, m, op);
      Applied(t, m, op);
      hide Sound, Apply, Contained;
    }
    hide Contained;
  }

  // ---- all runs ----

  lemma {:induction false} RunIsTidy(t: Target, args: FnArgs, ops: seq<Op>)
    ensures Tidy(Ran(t, args, ops))
  {
    if ops == [] {
      assert Tidy(Begin(t, args));
    } else {
      var before := Ran(t, args, ops[..|ops| - 1]);
      RunIsTidy(t, args, ops[..|ops| - 1]);
      StaysTidy(t, before, ops[|ops| - 1]);
    }
    hide Tidy, Apply, Begin;
  }

  /** No operation of the run deletes a breakpoint on a line that another one shares. */
  ghost predicate NoneBreaksUp(t: Target, args: FnArgs, ops: seq<Op>) {
    forall k: nat | k < |ops| :: !Ran(t, args, ops[..k]).raised ==> !BreaksUp(Ran(t, args, ops[..k]), ops[k])
  }

  ghost predicate MirroredThroughout(t: Target, args: FnArgs, ops: seq<Op>) {
    forall k: nat | k <= |ops| :: Mirrored(Ran(t, args, ops[..k]))
  }

  lemma ThroughoutNext(t: Target, args: FnArgs, ops: seq<Op>)
    requires ops != []
    ensures var front, before := ops[..|ops| - 1], Ran(t, args, ops[..|ops| - 1]);
      && (MirroredThroughout(t, args, ops) <==> MirroredThroughout(t, args, front) && Mirrored(Ran(t, args, ops)))
      && (NoneBreaksUp(t, args, ops) <==>
            NoneBreaksUp(t, args, front) && (!before.raised ==> !BreaksUp(before, ops[|ops| - 1])))
  {
    hide Ran, Mirrored, BreaksUp;
    var n := |ops| - 1;
    assert ops[..|ops|] == ops;
    assert forall k: nat | k <= n :: ops[..n][..k] == ops[..k];
    if MirroredThroughout(t, args, ops) {
      forall k: nat | k <= n
        ensures Mirrored(Ran(t, args, ops[..n][..k]))
      {
        assert Mirrored(Ran(t, args, ops[..k]));
      }
    }
    if MirroredThroughout(t, args, ops[..n]) && Mirrored(Ran(t, args, ops)) {
      forall k: nat | k <= |ops|
        ensures Mirrored(Ran(t, args, ops[..k]))
      {
        assert k <= n ==> Mirrored(Ran(t, args, ops[..n][..k]));
      }
    }
  }

  /** The two tables agree all through a run exactly if the run never deletes a breakpoint on a shared line. */
  lemma {:induction false} MirroredIff(t: Target, args: FnArgs, ops: seq<Op>)
    ensures MirroredThroughout(t, args, ops) <==> NoneBreaksUp(t, args, ops)
  {
    if ops == [] {
      assert Mirrored(Begin(t, args));
    } else {
      var front, op := ops[..|ops| - 1], ops[|ops| - 1];
      var before := Ran(t, args, front);
      MirroredIff(t, args, front);
      ThroughoutNext(t, args, ops);
      RunIsTidy(t, args, front);
      assert MirroredThroughout(t, args, front) ==> Mirrored(before) by { assert front[..|front|] == front; }
      if !before.raised && Mirrored(before) {
        StaysMirrored(t, before, op);
      }
      assert before.raised ==> Ran(t, args, ops) == before;
      hide MirroredThroughout, NoneBreaksUp, Mirrored, BreaksUp, Apply, Tidy;
    }
  }

  /** In every run the stub's addresses are among those of the lines in the table. */
  lemma AddressesAreLive(t: Target, args: FnArgs, ops: seq<Op>)
    ensures var m := Ran(t, args, ops);
      forall address <- m.server.h.breakpoints :: address % 8 == 0 && Live(m, address / 8)
  {
    RunIsTidy(t, args, ops);
    hide Ran, Live;
  }

  /** A number that has been given to a breakpoint is below the next number ever after, so it is given only once. */
  lemma {:induction false} NumbersAreNew(t: Target, args: FnArgs, ops: seq<Op>, k: nat)
    requires k < |ops| && ops[k].Insert? && !Ran(t, args, ops[..k]).raised
    ensures Ran(t, args, ops[..k]).table.cntr < Ran(t, args, ops).table.cntr
  {
    var front := ops[..|ops| - 1];
    RunIsTidy(t, args, front);
    StaysTidy(t, Ran(t, args, front), ops[|ops| - 1]);
    hide Apply, Tidy;
    if k < |ops| - 1 {
      assert front[..k] == ops[..k];
      NumbersAreNew(t, args, front, k);
    }
  }

  /** The last operation of the run on the line was to insert a breakpoint. */
  predicate LastInserted(t: Target, args: FnArgs, ops: seq<Op>, line: nat) {
    ops != []
    && var before, op := Ran(t, args, ops[..|ops| - 1]), ops[|ops| - 1];
      if !before.raised && op.Insert? && op.line == line then true
      else if !before.raised && op.Delete? && op.number in before.table.breakpoints
              && before.table.breakpoints[op.number] == line then false
      else LastInserted(t, args, ops[..|ops| - 1], line)
  }

  /** In every run the address of a line is set exactly if the last operation on the line was an insert. */
  lemma {:induction false} SetIff(t: Target, args: FnArgs, ops: seq<Op>, line: nat)
    ensures Set(Ran(t, args, ops), line) <==> LastInserted(t, args, ops, line)
  {
    if ops == [] {
      assert !Set(Begin(t, args), line);
    } else {
      var before := Ran(t, args, ops[..|ops| - 1]);
      SetIff(t, args, ops[..|ops| - 1], line);
      RunIsTidy(t, args, ops[..|ops| - 1]);
      if !before.raised {
        LinesAfter(t, before, ops[|ops| - 1], line);
      }
      assert before.raised ==> Ran(t, args, ops) == before;
      hide Apply, Set, Live, Tidy;
    }
  }

  /** Deleting a breakpoint of the table gets an error exactly if the last operation on its line was a delete. */
  lemma DeleteRaisesIff(t: Target, args: FnArgs, ops: seq<Op>, number: nat)
    requires !Ran(t, args, ops).raised && number in Ran(t, args, ops).table.breakpoints
    ensures var m := Ran(t, args, ops);
      Apply(t, m, Delete(number)).raised <==> !LastInserted(t, args, ops, m.table.breakpoints[number])
  {
    var m := Ran(t, args, ops);
    Applied(t, m, Delete(number));
    SetIff(t, args, ops, m.table.breakpoints[number]);
    hide Ran, Apply, LastInserted;
  }

  /** Every breakpoint is inserted on a line that has none. */
  ghost predicate FreshLines(t: Target, args: FnArgs, ops: seq<Op>) {
    forall k: nat | k < |ops| :: ops[k].Insert? ==> !Live(Ran(t, args, ops[..k]), ops[k].line)
  }

  ghost predicate NoneShared(m: Mirror) {
    forall number <- m.table.breakpoints :: !Shares(m, number)
  }

  lemma StaysUnshared(t: Target, m: Mirror, op: Op)
    requires Sound(t, m.server) && !m.raised && NoneShared(m) && (op.Insert? ==> !Live(m, op.line))
    ensures NoneShared(Apply(t, m, op))
  {
    Applied(t, m, op);
    hide Sound, Apply;
    var r := Apply(t, m, op);
    var now, before := r.table.breakpoints, m.table.breakpoints;
    forall number, other | number in now && other in now && now[number] == now[other]
      ensures number == other
    {
      if number in before && other in before && before[number] == now[number] && before[other] == now[other] {
        assert !Shares(m, number);
      }
    }
    hide Live;
  }

  lemma {:induction false} FreshIsUnshared(t: Target, args: FnArgs, ops: seq<Op>)
    requires FreshLines(t, args, ops)
    ensures NoneShared(Ran(t, args, ops)) && NoneBreaksUp(t, args, ops)
  {
    if ops != [] {
      var front, op := ops[..|ops| - 1], ops[|ops| - 1];
      var before := Ran(t, args, front);
      assert forall k: nat | k < |front| :: front[..k] == ops[..k] && front[k] == ops[k];
      assert op.Insert? ==> !Live(before, op.line) by { assert ops[..|ops| - 1] == front; }
      FreshIsUnshared(t, args, front);
      if !before.raised {
        StaysUnshared(t, before, op);
      }
      ThroughoutNext(t, args, ops);
      assert before.raised ==> Ran(t, args, ops) == before;
      assert NoneShared(before) ==> !BreaksUp(before, op);
      hide NoneShared, BreaksUp, Apply, Live, FreshLines, NoneBreaksUp, MirroredThroughout;
    }
  }

  /** With distinct lines the two tables are equal, and no delete of a breakpoint in the table gets an error. */
  lemma DistinctLinesAgree(t: Target, args: FnArgs, ops: seq<Op>)
    requires FreshLines(t, args, ops)
    ensures var m := Ran(t, args, ops);
      && Mirrored(m)
      && forall number <- m.table.breakpoints :: !m.raised ==> !Apply(t, m, Delete(number)).raised
  {
    FreshIsUnshared(t, args, ops);
    MirroredIff(t, args, ops);
    var m := Ran(t, args, ops);
    assert ops[..|ops|] == ops;
    hide Ran, NoneBreaksUp, FreshLines, NoneShared, Apply;
    assert Mirrored(m);
    hide MirroredThroughout, Mirrored;
    if !m.raised {
      forall number | number in m.table.breakpoints
        ensures !Apply(t, m, Delete(number)).raised
      {
        RaisesIff(t, m, Delete(number));
      }
    }
  }

  /** Two breakpoints on one line: deleting one leaves the other without its address, and deleting that raises. */
  lemma TwoOnOneLine(t: Target, args: FnArgs, line: nat)
    ensures var ops := [Insert(line), Insert(line), Delete(0)];
      var m := Ran(t, args, ops);
      && !m.raised && m.table.breakpoints == map[1 := line] && m.server.h.breakpoints == {}
      && Apply(t, m, Delete(1)).raised
  {
    var start := Begin(t, args);
    RanThree(t, args, Insert(line), Insert(line), Delete(0));
    assert start.table == Table(map[], 0) && start.server.h.breakpoints == {};
    hide Apply, Begin, Ran, Sound, Recorded, Popped;
    var two := Apply(t, Apply(t, start, Insert(line)), Insert(line));
    TwoInserted(t, start, line);
    Applied(t, two, Delete(0));
    PoppedOf(line);
    assert {8 * line} - {8 * line} == {};
    Applied(t, Apply(t, two, Delete(0)), Delete(1));
  }

  lemma TwoInserted(t: Target, m: Mirror, line: nat)
    requires Sound(t, m.server) && !m.raised && m.table == Table(map[], 0) && m.server.h.breakpoints == {}
    ensures var two := Apply(t, Apply(t, m, Insert(line)), Insert(line));
      !two.raised && two.table == Table(map[0 := line, 1 := line], 2) && two.server.h.breakpoints == {8 * line}
  {
    hide Apply, Sound;
    var one := Apply(t, m, Insert(line));
    Applied(t, m, Insert(line));
    assert one.table == Table(map[0 := line], 1);
    Applied(t, one, Insert(line));
    assert {} + {8 * line} == {8 * line} && {8 * line} + {8 * line} == {8 * line};
  }

  lemma PoppedOf(line: nat)
    ensures Popped(Table(map[0 := line, 1 := line], 2), 0) == Table(map[1 := line], 2)
  {
  }

  lemma RanThree(t: Target, args: FnArgs, a: Op, b: Op, c: Op)
    ensures Ran(t, args, [a, b, c]) == Apply(t, Apply(t, Apply(t, Begin(t, args), a), b), c)
  {
    hide Apply, Begin;
    assert [a, b, c][..2] == [a, b] && [a, b][..1] == [a] && [a][..0] == [];
    assert Ran(t, args, []) == Begin(t, args);
    assert Ran(t, args, [a]) == Apply(t, Begin(t, args), a);
    assert Ran(t, args, [a, b]) == Apply(t, Ran(t, args, [a]), b);
  }

  // ---- the same requests in a session of client and stub ----

  /** The requests on breakpoints that the operations have sent. */
  function SentBy(t: Target, args: FnArgs, ops: seq<Op>): seq<Command> {
    if ops == [] then []
    else
      var front, before, op := SentBy(t, args, ops[..|ops| - 1]), Ran(t, args, ops[..|ops| - 1]), ops[|ops| - 1];
      if before.raised then front
      else match op
        case Insert(line) => front + [BreakInsert(8 * line)]
        case Delete(number) =>
          var table := before.table.breakpoints;
          if number in table then front + [BreakDelete(8 * table[number])] else front
        case _ => front
  }

  lemma AfterOne(addresses: set<nat>, front: seq<Command>, address: nat)
    ensures After(addresses, front + [BreakInsert(address)]) == After(addresses, front) + {address}
    ensures After(addresses, front + [BreakDelete(address)]) == After(addresses, front) - {address}
  {
    assert (front + [BreakInsert(address)])[..|front|] == front == (front + [BreakDelete(address)])[..|front|];
  }

  lemma {:induction false} SetByRequests(t: Target, args: FnArgs, ops: seq<Op>)
    ensures Ran(t, args, ops).server.h.breakpoints == After({}, SentBy(t, args, ops))
  {
    if ops == [] {
      assert Begin(t, args).server.h.breakpoints == {};
    } else {
      hide After, Apply, Begin;
      var before, op, front := Ran(t, args, ops[..|ops| - 1]), ops[|ops| - 1], SentBy(t, args, ops[..|ops| - 1]);
      SetByRequests(t, args, ops[..|ops| - 1]);
      if before.raised {
        assert Ran(t, args, ops) == before by { RaisedStays(t, before, op); }
      } else {
        Applied(t, before, op);
        if op.Insert? {
          AfterOne({}, front, 8 * op.line);
        } else if op.Delete? && op.number in before.table.breakpoints {
          AfterOne({}, front, 8 * before.table.breakpoints[op.number]);
        }
      }
    }
  }

  lemma RaisedStays(t: Target, m: Mirror, op: Op)
    requires Sound(t, m.server) && m.raised
    ensures Apply(t, m, op) == m
  {
  }

  function RequestsOnBreakpoints(requests: seq<Command>): seq<Command> {
    if requests == [] then []
    else
      var front, last := RequestsOnBreakpoints(requests[..|requests| - 1]), requests[|requests| - 1];
      if OnBreakpoints(last) then front + [last] else front
  }

  lemma {:induction false} OthersDoNotMatter(addresses: set<nat>, requests: seq<Command>)
    ensures After(addresses, RequestsOnBreakpoints(requests)) == After(addresses, requests)
  {
    if requests != [] {
      var front, last := requests[..|requests| - 1], requests[|requests| - 1];
      OthersDoNotMatter(addresses, front);
      if OnBreakpoints(last) {
        var kept := RequestsOnBreakpoints(front);
        assert (kept + [last])[..|kept|] == kept;
      }
    }
  }

  /**
   In a run of the client and the stub together, with any other requests, stops and passes in between: if the requests
   on breakpoints answered so far are those of the operations, the stub's addresses are what the operations have led to;
   so they are those of the table's lines as long as no breakpoint on a shared line has been deleted.
   */
  lemma SessionMirrors(t: Target, args: FnArgs, moves: seq<Move>, ops: seq<Op>)
    ensures var s := Run(t, args, moves); var m := Ran(t, args, ops);
      |s.at| <= |s.sent| && (RequestsOnBreakpoints(s.sent[..|s.at|]) == SentBy(t, args, ops) ==>
        && s.server.h.breakpoints == m.server.h.breakpoints
        && (NoneBreaksUp(t, args, ops) ==>
              forall line: nat :: 8 * line in s.server.h.breakpoints <==> Live(m, line)))
  {
    BreakpointsFollowRequests(t, args, moves);
    SetByRequests(t, args, ops);
    OthersDoNotMatter({}, Run(t, args, moves).sent[..|Run(t, args, moves).at|]);
    MirroredIff(t, args, ops);
    hide Run, Ran, SentBy, NoneBreaksUp, Live, After, RequestsOnBreakpoints;
    var m := Ran(t, args, ops);
    assert ops[..|ops|] == ops;
    if NoneBreaksUp(t, args, ops) {
      assert Mirrored(m);
      assert forall line: nat :: Agrees(m, line) <==> (8 * line in m.server.h.breakpoints <==> Live(m, line));
    }
  }

  /** The command side, as far as breakpoints go. */
  class GdbInterpretState {
    const remote: GdbRemoteClient
    var breakpoints: map<nat, nat>
    var breakpointIdCntr: nat

    function Entries(): Table
      reads this
    {
      Table(breakpoints, breakpointIdCntr)
    }

    constructor (remote: GdbRemoteClient)
      ensures this.remote == remote && Entries() == Table(map[], 0)
    {
      this.remote := remote;
      breakpoints, breakpointIdCntr := map[], 0;
    }

    /** break-insert on a line; false if the source raises. */
    method BreakInsertAt(codeline: nat) returns (ok: bool)
      requires remote.Valid()
      modifies this, remote, remote.socket
      ensures remote.Valid()
      ensures (remote.State(), ok) == Confirmed(old(remote.State()), BreakInsert(8 * codeline))
      ensures Entries() == if ok then Recorded(old(Entries()), codeline) else old(Entries())
    {
      ok := remote.SendExpectingOk(BreakInsert(codeline * 8));
      if ok {
        breakpoints := breakpoints[breakpointIdCntr := codeline];
        breakpointIdCntr := breakpointIdCntr + 1;
      }
    }

    /** break-delete of a number; false if the source raises. */
    method BreakDeleteOf(number: nat) returns (ok: bool)
      requires remote.Valid()
      modifies this, remote, remote.socket
      ensures remote.Valid()
      ensures number !in old(breakpoints) ==>
        !ok && Entries() == old(Entries()) && remote.State() == old(remote.State())
      ensures number in old(breakpoints) ==>
        && Entries() == Popped(old(Entries()), number)
        && (remote.State(), ok) == Confirmed(old(remote.State()), BreakDelete(8 * old(breakpoints)[number]))
    {
      if number !in breakpoints {
        return false;
      }
      var codeline := breakpoints[number];
      breakpoints := breakpoints - {number};
      ok := remote.SendExpectingOk(BreakDelete(codeline * 8));
    }
  }

  /** A request of the client that is to be answered by `OK`. */
  function Confirmed(c: Client, command: Command): (Client, bool) {
    var (d, r) := Receive(c.(sent := c.sent + [Pkt(PrintCommand(command))]), true);
    (d, r == Reception.Got(Pkt("OK")))
  }
}

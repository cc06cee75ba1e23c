/**
 The remote stub: packets are handled in order of arrival, and every pass of the server loop that finds the program
 running lets the handler run one instruction.
 */
module ServerStub {
  import opened Wrappers
  import opened Text
  import opened RemoteMessages
  import opened Streams
  import opened Connections
  import opened Requests
  import opened Interpreter
  import opened RegisterLayout
  import opened CmdHandler

  const SIGINT := 2
  const SIGTRAP := 5
  const SIGKILL := 9

  const SUPPORTED := "QStartNoAckMode+;swbreak+;hwbreak+"

  datatype Stub = Stub(exeStopped: bool, noAckMode: bool, h: Handler)

  /** What happens in the stub, in order. */
  datatype Event =
    | Got(request: Request, wasStopped: bool)    // a packet is taken up
    | Sent(item: Item)                           // an acknowledgement or an answer
    | Instr                                      // one instruction has run
    | LoopStop(signal: nat)                      // the loop stops the program and reports it

  function StopReply(signal: nat): string
    requires signal < 256
  {
    "S" + Hex2(signal)
  }

  /** The part of the events that the client can see. */
  function Wire(events: seq<Event>): seq<Item> {
    if events == [] then []
    else
      var rest := Wire(events[1..]);
      match events[0]
      case Sent(item) => [item] + rest
      case LoopStop(signal) => [Pkt(StopReply(signal % 256))] + rest
      case _ => rest
  }

  predicate Sound(t: Target, st: Stub) {
    HasInstr(t, st.h.interp)
  }

  /** What the handler does with a request; None where it raises. */
  function Answer(t: Target, h: Handler, request: Request): (r: (Handler, Option<string>))
    requires HasInstr(t, h.interp)
    ensures r.0.interp == h.interp && (r.1 == None ==> r.0 == h)
  {
    match request
    case HaltReason => (h, Some(StopReply(SIGTRAP)))
    case ReadRegisters => (h, RegisterLayout.ReadRegisters(t, h.interp))
    case Interrupt => (h, Some("OK"))
    case Step => (h.(limit := Finite(1)), Some("OK"))
    case Continue => (h.(limit := Infinite), Some("OK"))
    case Supported => (h, Some(SUPPORTED))
    case StartNoAckMode => (h, Some("OK"))
    case Constant(reply) => (h, Some(reply))
    case AddBreakpoint(_, address, _) =>
      var (h', reply) := CmdHandler.AddBreakpoint(h, address);
      (h', Some(reply))
    case RemoveBreakpoint(_, address, _) =>
      var (h', reply) := CmdHandler.RemoveBreakpoint(h, address);
      (h', Some(reply))
    case RegisterInfo(index) => (h, Some(RegisterInfoReply(t, index)))
    case ReadRegister(index) => (h, RegisterLayout.ReadRegister(t, h.interp, index))
    case Unknown => (h, Some(""))
    case Raises => (h, None)
  }

  datatype Handled = Handled(stub: Stub, events: seq<Event>, raised: bool)

  function StoppedAfter(request: Request, exeStopped: bool): bool {
    match request
    case Step => false
    case Continue => false
    case Interrupt => true
    case _ => exeStopped
  }

  /** One packet: an acknowledgement unless that has been switched off, one reply, and after an interrupt a stop. */
  function PacketHandled(t: Target, st: Stub, payload: string): (r: Handled)
    requires Sound(t, st)
    ensures Sound(t, r.stub)
  {
    var request := Dispatch(payload);
    var begin := [Got(request, st.exeStopped)] + if st.noAckMode then [] else [Sent(Ack)];
    var (h, reply) := Answer(t, st.h, request);
    if reply == None then Handled(st, begin, true)
    else
      var stop := if request == Interrupt then [Sent(Pkt(StopReply(SIGINT)))] else [];
      Handled(Stub(StoppedAfter(request, st.exeStopped), st.noAckMode || request == StartNoAckMode, h),
              begin + [Sent(Pkt(reply.value))] + stop, false)
  }

  /** Items in order, up to the first that raises. Acknowledgements are passed over. */
  function ItemsHandled(t: Target, st: Stub, items: seq<Item>): (r: Handled)
    requires Sound(t, st)
    ensures Sound(t, r.stub)
    decreases |items|
  {
    if items == [] then Handled(st, [], false)
    else if items[0] == Ack then ItemsHandled(t, st, items[1..])
    else
      var first := PacketHandled(t, st, items[0].payload);
      if first.raised then first
      else
        var rest := ItemsHandled(t, first.stub, items[1..]);
        Handled(rest.stub, first.events + rest.events, rest.raised)
  }

  /** All packets in a piece of received text; a bad frame behind them raises. */
  function DataHandled(t: Target, st: Stub, text: string): (r: Handled)
    requires Sound(t, st)
    ensures Sound(t, r.stub)
  {
    var r := ItemsHandled(t, st, Scan(text).items);
    if r.raised then r else r.(raised := Scan(text).end.Raised?)
  }

  /** Serving, or ended by S09 and closing the connection, or ended by an exception. */
  datatype Life = Serving | Closed | Crashed

  datatype Served = Served(stub: Stub, events: seq<Event>, life: Life)

  /** The second half of the loop body: one call of runCurrentInstr if the program is running. */
  function RunOnce(t: Target, st: Stub): (r: Served)
    requires Sound(t, st)
    ensures Sound(t, r.stub)
  {
    if st.exeStopped then Served(st, [], Serving)
    else
      var (h, result) := RunInstr(t, st.h);
      match result
      case Fault => Served(st.(h := h, exeStopped := true), [LoopStop(SIGKILL)], Closed)
      case CycleLimitReached => Served(st.(h := h, exeStopped := true), [LoopStop(SIGTRAP)], Serving)
      case HitOnEntry(_) => Served(st.(h := h, exeStopped := true), [LoopStop(SIGTRAP)], Serving)
      case Hit(_) => Served(st.(h := h, exeStopped := true), [Instr, LoopStop(SIGTRAP)], Serving)
      case NoHit => Served(st.(h := h), [Instr], Serving)
  }

  /** One pass of the server loop; `data` is None when `select` times out. */
  function Iteration(t: Target, st: Stub, data: Option<string>): (r: Served)
    requires Sound(t, st)
    ensures Sound(t, r.stub)
  {
    var got := if data == None then Handled(st, [], false) else DataHandled(t, st, data.value);
    if got.raised then Served(got.stub, got.events, Crashed)
    else
      var ran := RunOnce(t, got.stub);
      Served(ran.stub, got.events + ran.events, ran.life)
  }

  /** A session: what arrives in each pass of the loop, until the loop is left. */
  function Serve(t: Target, st: Stub, arrivals: seq<Option<string>>): (r: Served)
    requires Sound(t, st)
    ensures Sound(t, r.stub)
  {
    if arrivals == [] then Served(st, [], Serving)
    else
      var before := Serve(t, st, arrivals[..|arrivals| - 1]);
      if before.life != Serving then before
      else
        var last := Iteration(t, before.stub, arrivals[|arrivals| - 1]);
        Served(last.stub, before.events + last.events, last.life)
  }

  function InitialStub(t: Target, args: FnArgs): (st: Stub)
    ensures Sound(t, st)
  {
    Stub(true, false, InitialHandler(t, args))
  }

  lemma {:induction false} WireAppend(a: seq<Event>, b: seq<Event>)
    ensures Wire(a + b) == Wire(a) + Wire(b)
  {
    hide StopReply;
    if a == [] {
      assert a + b == b;
    } else {
      WireAppend(a[1..], b);
      assert (a + b)[0] == a[0] && (a + b)[1..] == a[1..] + b;
      WireFirst(a);
      WireFirst(a + b);
      hide Wire;
      Regroup(Wire([a[0]]), Wire(a[1..]), Wire(b));
    }
  }

  lemma WireFirst(events: seq<Event>)
    requires events != []
    ensures Wire(events) == Wire([events[0]]) + Wire(events[1..])
  {
    hide StopReply;
    WireOne(events[0]);
    assert [] + Wire(events[1..]) == Wire(events[1..]);
  }

  /** Items that are passed over or handled leave the rest of the text to be handled from where they end. */
  lemma DataAck(t: Target, st: Stub, text: string)
    requires Sound(t, st) && text != "" && text[0] == '+'
    ensures DataHandled(t, st, text) == DataHandled(t, st, text[1..])
  {
    hide PacketHandled, ParserReply;
    assert Scan(text).items[1..] == Scan(text[1..]).items;
  }

  lemma DataFrame(t: Target, st: Stub, text: string)
    requires Sound(t, st) && text != "" && text[0] != '+' && ParserReply(text).Frame?
    ensures var f := ParserReply(text);
      var first := PacketHandled(t, st, f.payload);
      DataHandled(t, st, text) ==
        if first.raised then first
        else
          var rest := DataHandled(t, first.stub, text[f.length..]);
          Handled(rest.stub, first.events + rest.events, rest.raised)
  {
    hide PacketHandled, ParserReply;
    var f := ParserReply(text);
    assert Scan(text).items[1..] == Scan(text[f.length..]).items;
  }

  lemma DataEnd(t: Target, st: Stub, text: string)
    requires Sound(t, st) && (text == "" || (text[0] != '+' && !ParserReply(text).Frame?))
    ensures DataHandled(t, st, text) == Handled(st, [], text != "" && ParserReply(text).BadFrame?)
  {
    hide ParserReply;
  }

  /** Once the loop is left, nothing that arrives later matters. */
  lemma {:induction false} ServeEnds(t: Target, st: Stub, arrivals: seq<Option<string>>, k: nat)
    requires Sound(t, st) && k <= |arrivals| && Serve(t, st, arrivals[..k]).life != Serving
    ensures Serve(t, st, arrivals) == Serve(t, st, arrivals[..k])
    decreases |arrivals|
  {
    hide Iteration, HasInstr;
    if k == |arrivals| {
      assert arrivals[..k] == arrivals;
    } else {
      assert arrivals[..|arrivals| - 1][..k] == arrivals[..k];
      ServeEnds(t, st, arrivals[..|arrivals| - 1], k);
    }
  }

  /** The result of handling what came behind some events. */
  function Behind(events: seq<Event>, r: Handled): Handled {
    r.(events := events + r.events)
  }

  lemma PacketWire(t: Target, st: Stub, payload: string)
    requires Sound(t, st)
    ensures var reply := Answer(t, st.h, Dispatch(payload)).1;
      Wire(PacketHandled(t, st, payload).events) ==
        (if st.noAckMode then [] else [Ack])
        + (if reply == None then [] else [Pkt(reply.value)])
        + (if reply != None && Dispatch(payload) == Interrupt then [Pkt(StopReply(SIGINT))] else [])
  {
    hide Answer, Dispatch, StopReply;
    var request := Dispatch(payload);
    var got, ack := Got(request, st.exeStopped), if st.noAckMode then [] else [Sent(Ack)];
    var reply := Answer(t, st.h, request).1;
    WireOne(got);
    WireOne(Sent(Ack));
    WireAppend([got], ack);
    if reply != None {
      var answer := Sent(Pkt(reply.value));
      var stop := if request == Interrupt then [Sent(Pkt(StopReply(SIGINT)))] else [];
      WireOne(answer);
      WireOne(Sent(Pkt(StopReply(SIGINT))));
      WireAppend([got] + ack, [answer]);
      WireAppend([got] + ack + [answer], stop);
    }
  }

  lemma RunWire(t: Target, st: Stub)
    requires Sound(t, st)
    ensures Wire(RunOnce(t, st).events) ==
      if st.exeStopped then [] else match RunInstr(t, st.h).1
        case Fault => [Pkt(StopReply(SIGKILL))]
        case NoHit => []
        case _ => [Pkt(StopReply(SIGTRAP))]
  {
    hide RunInstr, StopReply;
    WireOne(Instr);
    WireOne(LoopStop(SIGTRAP));
    WireOne(LoopStop(SIGKILL));
    WireAppend([Instr], [LoopStop(SIGTRAP)]);
  }

  lemma EmptyWire()
    ensures Wire([]) == []
  {
  }

  lemma WireOne(event: Event)
    ensures Wire([event]) == match event
      case Sent(item) => [item]
      case LoopStop(signal) => [Pkt(StopReply(signal % 256))]
      case _ => []
  {
    hide StopReply;
    assert [event][1..] == [];
  }

  class GDBServerStub {
    const handler: GdbCmdHandlerLlvmIr
    var noAckMode: bool
    var exeStopped: bool

    function State(): Stub
      reads this, handler
    {
      Stub(exeStopped, noAckMode, handler.Control())
    }

    ghost predicate Valid()
      reads this, handler
    {
      handler.Valid() && Sound(handler.target, State())
    }

    constructor (handler: GdbCmdHandlerLlvmIr)
      requires handler.Valid()
      ensures Valid() && this.handler == handler && State() == Stub(true, false, handler.Control())
    {
      this.handler := handler;
      noAckMode, exeStopped := false, true;
    }

    /** The branch of the packet handler that the tests lead to; None where it raises. */
    method Branch(request: Request) returns (reply: Option<string>)
      requires Valid()
      modifies this`exeStopped, this`noAckMode, handler
      ensures Valid()
      ensures var (h, answer) := Answer(handler.target, old(State()).h, request);
        reply == answer && handler.Control() == h
      ensures exeStopped == if reply == None then old(exeStopped) else StoppedAfter(request, old(exeStopped))
      ensures noAckMode == if reply == None then old(noAckMode) else old(noAckMode) || request == StartNoAckMode
    {
      hide RegisterDescs, SessionRegisters, RegisterInfoReply, StopReply, LlvmIrRegs.CodeLine;
      hide RegisterLayout.ReadRegister, RegisterLayout.ReadRegisters;
      var text := "OK";
      match request {
        case HaltReason =>
          text := StopReply(SIGTRAP);
        case ReadRegisters =>
          reply := handler.HandleReadRegisters();
          return;
        case Interrupt =>
          exeStopped := true;
        case Step =>
          text := handler.HandleStep();
          exeStopped := false;
        case Continue =>
          text := handler.HandleContinue();
          exeStopped := false;
        case Supported =>
          text := SUPPORTED;
        case StartNoAckMode =>
          noAckMode := true;
        case Constant(fixed) =>
          text := fixed;
        case AddBreakpoint(_, address, _) =>
          text := handler.HandleAddBreakpoint(address);
        case RemoveBreakpoint(_, address, _) =>
          text := handler.HandleRemoveBreakpoint(address);
        case RegisterInfo(index) =>
          text := handler.HandleRegisterInfo(index);
        case ReadRegister(index) =>
          reply := handler.HandleReadRegister(index);
          return;
        case Unknown =>
          text := "";
        case Raises =>
          return None;
      }
      reply := Some(text);
    }

    method HandlePacket(soc: Connection, packet: string) returns (ok: bool)
      requires Valid() && soc.Valid()
      modifies this`exeStopped, this`noAckMode, handler, soc
      ensures Valid() && soc.Valid()
      ensures var r := PacketHandled(handler.target, old(State()), packet);
        State() == r.stub && ok == !r.raised && soc.items == old(soc.items) + Wire(r.events)
    {
      hide Answer, Dispatch, PacketReply, StopReply, RegisterDescs, SessionRegisters, LlvmIrRegs.CodeLine;
      hide GdbCmdHandlerLlvmIr.Control, HasInstr, PrintItems;
      var request := Dispatch(packet);
      PacketWire(handler.target, State(), packet);
      if !noAckMode {
        soc.Send("+", Ack);
      }
      var reply := Branch(request);
      if reply == None {
        return false;
      }
      soc.Send(PacketReply(reply.value), Pkt(reply.value));
      if request == Interrupt {
        soc.Send(PacketReply(StopReply(SIGINT)), Pkt(StopReply(SIGINT)));
      }
      ok := true;
    }

    /** Handles all packets in `data`; the input shrinks item by item. */
    method OnData(soc: Connection, data: string) returns (ok: bool)
      requires Valid() && soc.Valid()
      modifies this`exeStopped, this`noAckMode, handler, soc
      ensures Valid() && soc.Valid()
      ensures var r := DataHandled(handler.target, old(State()), data);
        State() == r.stub && ok == !r.raised && soc.items == old(soc.items) + Wire(r.events)
    {
      hide GdbCmdHandlerLlvmIr.Valid, GdbCmdHandlerLlvmIr.Control, HasInstr;
      hide PacketHandled, DataHandled, ParserReply, Wire, PrintItems;
      ghost var t, total := handler.target, DataHandled(handler.target, State(), data);
      ghost var done: seq<Event> := [];
      assert Wire(done) == [] by { EmptyWire(); }
      var inp := data;
      while inp != ""
        invariant Valid() && soc.Valid()
        invariant total == Behind(done, DataHandled(t, State(), inp))
        invariant soc.items == old(soc.items) + Wire(done)
        decreases |inp|
      {
        hide GdbCmdHandlerLlvmIr.Valid, GdbCmdHandlerLlvmIr.Control, HasInstr;
        hide PacketHandled, DataHandled, ParserReply, Wire, PrintItems;
        if inp[0] == '+' {
          DataAck(t, State(), inp);
          inp := inp[1..];
        } else {
          var m := ParserReply(inp);
          if m.NoFrame? {
            break;
          } else if m.BadFrame? {
            assert done + [] == done;
            DataEnd(t, State(), inp);
            return false;
          }
          DataFrame(t, State(), inp);
          ghost var first := PacketHandled(t, State(), m.payload);
          WireAppend(done, first.events);
          var handled := HandlePacket(soc, m.payload);
          done := done + first.events;
          if !handled {
            return false;
          }
          inp := inp[m.length..];
        }
      }
      DataEnd(t, State(), inp);
      assert done + [] == done;
      ok := true;
    }

    /** The body of the server loop; `data` is None when `select` times out. */
    method LoopBody(soc: Connection, data: Option<string>) returns (life: Life)
      requires Valid() && soc.Valid()
      modifies this`exeStopped, this`noAckMode, handler, soc
      ensures Valid() && soc.Valid()
      ensures var r := Iteration(handler.target, old(State()), data);
        State() == r.stub && life == r.life && soc.items == old(soc.items) + Wire(r.events)
    {
      hide GdbCmdHandlerLlvmIr.Valid, GdbCmdHandlerLlvmIr.Control, HasInstr, Wire, PrintItems, DataHandled, RunOnce;
      ghost var t := handler.target;
      ghost var got := if data == None then Handled(State(), [], false) else DataHandled(t, State(), data.value);
      WireAppend(got.events, RunOnce(t, got.stub).events);
      EmptyWire();
      if data.Some? {
        var ok := OnData(soc, data.value);
        if !ok {
          return Crashed;
        }
      }
      assert soc.items == old(soc.items) + Wire(got.events);
      life := RunRound(soc);
    }

    method RunRound(soc: Connection) returns (life: Life)
      requires Valid() && soc.Valid()
      modifies this`exeStopped, handler, soc
      ensures Valid() && soc.Valid()
      ensures var r := RunOnce(handler.target, old(State()));
        State() == r.stub && life == r.life && soc.items == old(soc.items) + Wire(r.events)
    {
      hide GdbCmdHandlerLlvmIr.Valid, GdbCmdHandlerLlvmIr.Control, HasInstr, RunInstr, StopReply, PrintItems;
      hide PacketReply;
      RunWire(handler.target, State());
      assert soc.items == soc.items + [];
      life := Serving;
      if !exeStopped {
        var result := handler.RunCurrentInstr();
        if result == Fault {
          soc.Send(PacketReply(StopReply(SIGKILL)), Pkt(StopReply(SIGKILL)));
          exeStopped := true;
          life := Closed;
        } else if result != NoHit {
          soc.Send(PacketReply(StopReply(SIGTRAP)), Pkt(StopReply(SIGTRAP)));
          exeStopped := true;
        }
      }
    }

    /** The server loop over what arrives in each pass, as long as it lasts. */
    method Start(soc: Connection, arrivals: seq<Option<string>>) returns (life: Life)
      requires Valid() && soc.Valid()
      modifies this`exeStopped, this`noAckMode, handler, soc
      ensures Valid() && soc.Valid()
      ensures var r := Serve(handler.target, old(State()), arrivals);
        State() == r.stub && life == r.life && soc.items == old(soc.items) + Wire(r.events)
    {
      hide GdbCmdHandlerLlvmIr.Valid, GdbCmdHandlerLlvmIr.Control, HasInstr, Iteration, Wire, PrintItems;
      EmptyWire();
      life := Serving;
      ghost var t, start := handler.target, State();
      for k := 0 to |arrivals|
        invariant Valid() && soc.Valid() && handler.target == t
        invariant life == Serving
        invariant Serve(t, start, arrivals[..k]).stub == State() && Serve(t, start, arrivals[..k]).life == Serving
        invariant soc.items == old(soc.items) + Wire(Serve(t, start, arrivals[..k]).events)
      {
        hide GdbCmdHandlerLlvmIr.Valid, GdbCmdHandlerLlvmIr.Control, HasInstr, Iteration, Wire, PrintItems;
        ghost var before := Serve(t, start, arrivals[..k]);
        assert arrivals[..k + 1][..k] == arrivals[..k];
        WireAppend(before.events, Iteration(t, before.stub, arrivals[k]).events);
        life := LoopBody(soc, arrivals[k]);
        if life != Serving {
          ServeEnds(t, start, arrivals, k + 1);
          return;
        }
      }
      assert arrivals[..|arrivals|] == arrivals;
    }
  }
}

/** What the stub writes for the requests of one client: one reply each, in order, and stop packets in between. */
module ServerAnswers {
  import opened Wrappers
  import opened Text
  import opened Digits
  import opened Streams
  import opened RegisterBytes
  import opened Requests
  import opened Interpreter
  import opened RegisterLayout
  import opened CmdHandler
  import opened ServerStub
  import opened RemoteClient

  function Payloads(items: seq<Item>): seq<string> {
    if items == [] then []
    else (if items[0].Pkt? then [items[0].payload] else []) + Payloads(items[1..])
  }

  /** The packets that are no stop packets. */
  function Replies(items: seq<Item>): seq<string> {
    if items == [] then []
    else (if items[0].Pkt? && !IsStopItem(items[0]) then [items[0].payload] else []) + Replies(items[1..])
  }

  function Printed(commands: seq<Command>): seq<string> {
    seq(|commands|, k requires 0 <= k < |commands| => PrintCommand(commands[k]))
  }

  lemma {:induction false} PayloadsAppend(a: seq<Item>, b: seq<Item>)
    ensures Payloads(a + b) == Payloads(a) + Payloads(b)
  {
    if a == [] {
      assert a + b == b;
    } else {
      var head := if a[0].Pkt? then [a[0].payload] else [];
      PayloadsAppend(a[1..], b);
      assert (a + b)[0] == a[0] && (a + b)[1..] == a[1..] + b;
      assert Payloads(a + b) == head + Payloads(a[1..] + b) && Payloads(a) == head + Payloads(a[1..]);
      hide Payloads;
      Regroup(head, Payloads(a[1..]), Payloads(b));
    }
  }

  lemma {:induction false} RepliesAppend(a: seq<Item>, b: seq<Item>)
    ensures Replies(a + b) == Replies(a) + Replies(b)
  {
    if a == [] {
      assert a + b == b;
    } else {
      hide IsStopItem;
      var head := if a[0].Pkt? && !IsStopItem(a[0]) then [a[0].payload] else [];
      RepliesAppend(a[1..], b);
      assert (a + b)[0] == a[0] && (a + b)[1..] == a[1..] + b;
      assert Replies(a + b) == head + Replies(a[1..] + b) && Replies(a) == head + Replies(a[1..]);
      hide Replies;
      Regroup(head, Replies(a[1..]), Replies(b));
    }
  }

  /** The stub's half of a pass of the loop, on items. */
  function PassItems(t: Target, st: Stub, items: seq<Item>): (r: Served)
    requires Sound(t, st)
    ensures Sound(t, r.stub)
  {
    var got := ItemsHandled(t, st, items);
    if got.raised then Served(got.stub, got.events, Crashed)
    else
      var ran := RunOnce(t, got.stub);
      Served(ran.stub, got.events + ran.events, ran.life)
  }

  /** A pass that receives the text of whole items is a pass on those items. */
  lemma PassIsIteration(t: Target, st: Stub, items: seq<Item>)
    requires Sound(t, st) && Framed(items)
    ensures Iteration(t, st, Some(PrintItems(items))) == PassItems(t, st, items)
    ensures items == [] ==> Iteration(t, st, None) == PassItems(t, st, items)
  {
    ScanWhole(items);
    hide Scan, RunOnce, HasInstr, PrintItems;
  }

  /** The handler as each request finds it, up to the first request that raises. */
  function FoundBy(t: Target, st: Stub, items: seq<Item>): seq<Handler>
    requires Sound(t, st)
    decreases |items|
  {
    if items == [] then []
    else if items[0] == Ack then FoundBy(t, st, items[1..])
    else
      var first := PacketHandled(t, st, items[0].payload);
      if first.raised then [] else [st.h] + FoundBy(t, first.stub, items[1..])
  }

  /** A request the client sends is never answered by what the client would take for a stop packet. */
  lemma AnswerIsNoStop(t: Target, h: Handler, c: Command)
    requires HasInstr(t, h.interp)
    ensures var reply := Answer(t, h, Meaning(c)).1; reply.Some? ==> !IsStop(reply.value)
  {
    hide SessionRegisters, BytesOf, Pow, Address, ToBytes;
    match c {
      case AskRegister(index) =>
        var reply := Answer(t, h, Meaning(c)).1;
        if reply.Some? && reply.value != "" {
          assert IsLowerHex(reply.value[0]) by { assert reply.value[0] in reply.value; }
        }
      case _ =>
    }
  }

  /** If the last thing written is a stop packet, the program is stopped. */
  predicate EndsStopped(wire: seq<Item>, st: Stub) {
    wire != [] && IsStopItem(wire[|wire| - 1]) ==> st.exeStopped
  }

  /** The stop packets among the items carry signals that the client's handler knows. */
  predicate StopsKnown(wire: seq<Item>) {
    forall item <- wire :: IsStopItem(item) ==> Handles(StopSignal(item.payload))
  }

  /** For each request: whether its command raises, and what is written for it. */
  lemma CommandAnswered(t: Target, st: Stub, c: Command)
    requires Sound(t, st)
    ensures var r, reply := PacketHandled(t, st, PrintCommand(c)), Answer(t, st.h, Meaning(c)).1;
      && r.raised == (reply == None)
      && Replies(Wire(r.events)) == (if reply == None then [] else [reply.value])
      && (Ack in Wire(r.events) <==> !st.noAckMode)
      && StopsKnown(Wire(r.events))
      && (!r.raised ==> EndsStopped(Wire(r.events), r.stub) && Wire(r.events) != [])
  {
    hide Answer, Dispatch, PrintCommand, StopReply, IsStop, StopSignal, HasInstr, Meaning, Handles;
    CommandRoundTrip(c);
    PacketWire(t, st, PrintCommand(c));
    AnswerIsNoStop(t, st.h, c);
    StopReplies();
    var reply := Answer(t, st.h, Meaning(c)).1;
    WrittenAnswers(!st.noAckMode, reply, Meaning(c) == Interrupt);
    hide Replies, StopsKnown, Wire;
  }

  /** An acknowledgement or none, a reply or none, and behind a reply a stop packet or none. */
  function Written(acked: bool, reply: Option<string>, stop: bool): seq<Item> {
    (if acked then [Ack] else [])
    + (if reply == None then [] else [Pkt(reply.value)])
    + (if reply != None && stop then [Pkt(StopReply(SIGINT))] else [])
  }

  lemma WrittenReplies(acked: bool, reply: Option<string>, stop: bool)
    requires reply.Some? ==> !IsStop(reply.value)
    ensures Replies(Written(acked, reply, stop)) == if reply == None then [] else [reply.value]
  {
    hide StopReply, IsStop, StopSignal, Handles, Replies;
    StopReplies();
    var ack, answer := if acked then [Ack] else [], if reply == None then [] else [Pkt(reply.value)];
    var last := if reply != None && stop then [Pkt(StopReply(SIGINT))] else [];
    RepliesAppend(ack + answer, last);
    RepliesAppend(ack, answer);
    RepliesOne(Ack);
    RepliesOne(Pkt(StopReply(SIGINT)));
    if reply != None {
      RepliesOne(Pkt(reply.value));
    }
  }

  lemma WrittenAnswers(acked: bool, reply: Option<string>, stop: bool)
    requires reply.Some? ==> !IsStop(reply.value)
    ensures var wire := Written(acked, reply, stop);
      && Replies(wire) == (if reply == None then [] else [reply.value])
      && (Ack in wire <==> acked) && StopsKnown(wire)
      && (reply.Some? ==> wire != [] && (IsStopItem(wire[|wire| - 1]) ==> stop))
  {
    hide StopReply, IsStop, StopSignal, Handles, Replies;
    WrittenReplies(acked, reply, stop);
    StopReplies();
  }

  lemma RepliesOne(item: Item)
    ensures Replies([item]) == if item.Pkt? && !IsStopItem(item) then [item.payload] else []
    ensures Replies([]) == []
  {
    hide IsStopItem;
    assert [item][1..] == [];
  }

  lemma FirstPayload(items: seq<Item>, commands: seq<Command>)
    requires Payloads(items) == Printed(commands) && items != [] && items[0].Pkt?
    ensures commands != [] && items[0].payload == PrintCommand(commands[0])
    ensures Payloads(items[1..]) == Printed(commands[1..])
  {
    hide PrintCommand;
    var p, rest := Payloads(items), Payloads(items[1..]);
    assert p == [items[0].payload] + rest;
    assert |p| == |commands| && p[0] == items[0].payload && p[1..] == rest;
    assert p[0] == Printed(commands)[0] == PrintCommand(commands[0]);
    assert Printed(commands[1..]) == Printed(commands)[1..];
    hide Payloads, Printed;
  }

  /** Each reply answers the command of the same number, asked of the handler of the same number. */
  ghost predicate AnswersMatch(t: Target, at: seq<Handler>, commands: seq<Command>, replies: seq<string>) {
    && |replies| == |at| <= |commands|
    && forall k: nat | k < |at| ::
         HasInstr(t, at[k].interp) && Answer(t, at[k], Meaning(commands[k])).1 == Some(replies[k])
  }

  lemma AnswersMatchAppend(t: Target, at: seq<Handler>, commands: seq<Command>, replies: seq<string>,
                           at': seq<Handler>, commands': seq<Command>, replies': seq<string>)
    requires AnswersMatch(t, at, commands, replies) && |at| == |commands|
    requires AnswersMatch(t, at', commands', replies')
    ensures AnswersMatch(t, at + at', commands + commands', replies + replies')
  {
    hide Answer, HasInstr;
  }

  predicate AllAt(at: seq<Handler>, i: Interp) {
    forall h <- at :: h.interp == i
  }

  lemma StopReplies()
    ensures forall signal | signal == SIGINT || signal == SIGTRAP || signal == SIGKILL ::
      IsStop(StopReply(signal)) && StopSignal(StopReply(signal)) == signal && Handles(signal)
  {
    assert StopReply(SIGINT) == "S02" && StopReply(SIGTRAP) == "S05" && StopReply(SIGKILL) == "S09";
  }

  /** What the client relies on when the stub has taken up the text of `commands`, and acknowledgements. */
  ghost predicate Answered(t: Target, st: Stub, commands: seq<Command>, r: Handled, at: seq<Handler>) {
    var wire := Wire(r.events);
    && AnswersMatch(t, at, commands, Replies(wire)) && (r.raised <==> |at| < |commands|)
    && AllAt(at, st.h.interp) && StopsKnown(wire)
    && (st.noAckMode ==> Ack !in wire)
    && (!r.raised ==> EndsStopped(wire, r.stub) && (wire == [] ==> r.stub == st))
  }

  lemma EndsStoppedThen(wire: seq<Item>, st: Stub, wire': seq<Item>, st': Stub)
    requires EndsStopped(wire, st) && EndsStopped(wire', st') && (wire' == [] ==> st' == st)
    ensures EndsStopped(wire + wire', st')
  {
    hide IsStopItem;
  }

  /** The first command's share of what the client relies on. */
  lemma FirstAnswered(t: Target, st: Stub, c: Command, r: Handled)
    requires Sound(t, st) && r == PacketHandled(t, st, PrintCommand(c)) && !r.raised
    ensures Answered(t, st, [c], r, [st.h]) && Wire(r.events) != []
    ensures r.stub.h.interp == st.h.interp && (st.noAckMode ==> r.stub.noAckMode)
  {
    hide PacketHandled, Answer, PrintCommand, Wire, Replies, EndsStopped, IsStop, StopsKnown, HasInstr;
    CommandAnswered(t, st, c);
    PacketKept(t, st, PrintCommand(c));
  }

  lemma AllAtThen(h: Handler, at: seq<Handler>, i: Interp)
    ensures h.interp == i && AllAt(at, i) ==> AllAt([h] + at, i)
  {
  }

  lemma KnownThen(wire: seq<Item>, wire': seq<Item>)
    requires StopsKnown(wire) && StopsKnown(wire')
    ensures StopsKnown(wire + wire')
  {
    hide IsStopItem, StopSignal;
  }

  lemma AnsweredThen(t: Target, st: Stub, commands: seq<Command>, first: Handled, rest: Handled, at: seq<Handler>)
    requires Sound(t, st) && commands != [] && !first.raised
    requires first == PacketHandled(t, st, PrintCommand(commands[0]))
    requires Answered(t, first.stub, commands[1..], rest, at)
    ensures Answered(t, st, commands, Handled(rest.stub, first.events + rest.events, rest.raised), [st.h] + at)
  {
    hide Sound, PacketHandled, AnswersMatch, Wire, Replies, EndsStopped, PrintCommand, StopsKnown, AllAt;
    FirstAnswered(t, st, commands[0], first);
    AllAtThen(st.h, at, first.stub.h.interp);
    KnownThen(Wire(first.events), Wire(rest.events));
    WireAppend(first.events, rest.events);
    RepliesAppend(Wire(first.events), Wire(rest.events));
    AnswersMatchAppend(t, [st.h], [commands[0]], Replies(Wire(first.events)),
                       at, commands[1..], Replies(Wire(rest.events)));
    assert [commands[0]] + commands[1..] == commands;
    if !rest.raised {
      EndsStoppedThen(Wire(first.events), first.stub, Wire(rest.events), rest.stub);
    }
  }

  lemma PacketKept(t: Target, st: Stub, payload: string)
    requires Sound(t, st)
    ensures var r := PacketHandled(t, st, payload);
      r.stub.h.interp == st.h.interp && (st.noAckMode ==> r.stub.noAckMode)
  {
    hide Dispatch;
  }

  lemma {:induction false} ItemsAnswered(t: Target, st: Stub, items: seq<Item>, commands: seq<Command>)
    requires Sound(t, st) && Payloads(items) == Printed(commands)
    ensures Answered(t, st, commands, ItemsHandled(t, st, items), FoundBy(t, st, items))
    decreases |items|
  {
    hide PacketHandled, Answer, PrintCommand;
    if items == [] {
      EmptyWire();
      RepliesOne(Ack);
    } else if items[0] == Ack {
      ItemsAnswered(t, st, items[1..], commands);
      hide Answered, HasInstr;
    } else {
      FirstPayload(items, commands);
      var first := PacketHandled(t, st, PrintCommand(commands[0]));
      if first.raised {
        CommandAnswered(t, st, commands[0]);
      } else {
        ItemsAnswered(t, first.stub, items[1..], commands[1..]);
        AnsweredThen(t, st, commands, first,
                     ItemsHandled(t, first.stub, items[1..]), FoundBy(t, first.stub, items[1..]));
        hide Answered, HasInstr;
      }
    }
  }

  lemma HarmlessPacket(t: Target, st: Stub, index: nat)
    requires Sound(t, st)
    ensures PacketHandled(t, st, PrintCommand(AskRegister(index))).stub == st
  {
    CommandRoundTrip(AskRegister(index));
    hide Dispatch, PrintCommand, RegisterLayout.ReadRegister, HasInstr;
  }

  /** Reading registers changes nothing in the stub. */
  lemma {:induction false} HarmlessItems(t: Target, st: Stub, items: seq<Item>, commands: seq<Command>)
    requires Sound(t, st) && Payloads(items) == Printed(commands)
    requires forall c <- commands :: c.AskRegister?
    ensures ItemsHandled(t, st, items).stub == st
    decreases |items|
  {
    hide PacketHandled, PrintCommand, HasInstr;
    if items != [] {
      if items[0] == Ack {
        HarmlessItems(t, st, items[1..], commands);
      } else {
        FirstPayload(items, commands);
        assert commands[0] in commands;
        HarmlessPacket(t, st, commands[0].index);
        HarmlessItems(t, st, items[1..], commands[1..]);
      }
    }
  }

  /** What the client relies on for a whole pass. */
  ghost predicate PassAnswers(t: Target, st: Stub, commands: seq<Command>, r: Served, at: seq<Handler>) {
    var wire := Wire(r.events);
    && AnswersMatch(t, at, commands, Replies(wire)) && (r.life == Crashed <==> |at| < |commands|)
    && AllAt(at, st.h.interp) && StopsKnown(wire)
    && (st.noAckMode ==> Ack !in wire && r.stub.noAckMode)
    && (r.life != Crashed ==> EndsStopped(wire, r.stub))
    && (r.life != Crashed && wire == [] && st.exeStopped ==> r.stub == st)
    && (st.exeStopped && (forall c <- commands :: c.AskRegister?) ==> r.stub == st)
  }

  lemma RunOnceWrites(t: Target, st: Stub)
    requires Sound(t, st)
    ensures var r := RunOnce(t, st); var wire := Wire(r.events);
      && Replies(wire) == [] && Ack !in wire && StopsKnown(wire) && EndsStopped(wire, r.stub)
      && r.stub.noAckMode == st.noAckMode
      && (wire != [] ==> r.stub.exeStopped) && (st.exeStopped ==> r.stub == st && wire == []) && r.life != Crashed
  {
    hide RunOnce, RunInstr, StopReply, Wire, HasInstr, Replies, StopsKnown, EndsStopped;
    RunWire(t, st);
    RunOnceStops(t, st);
    OneStop(SIGKILL, RunOnce(t, st).stub);
    OneStop(SIGTRAP, RunOnce(t, st).stub);
    NoItems(RunOnce(t, st).stub);
  }

  lemma OneStop(signal: nat, st: Stub)
    requires signal == SIGKILL || signal == SIGTRAP
    ensures var wire := [Pkt(StopReply(signal))];
      Replies(wire) == [] && Ack !in wire && StopsKnown(wire) && (st.exeStopped ==> EndsStopped(wire, st))
  {
    hide IsStop, StopReply, StopSignal;
    StopReplies();
    RepliesOne(Pkt(StopReply(signal)));
    hide Replies;
  }

  lemma NoItems(st: Stub)
    ensures Replies([]) == [] && StopsKnown([]) && EndsStopped([], st)
  {
  }

  /** The loop stops the program with whatever it reports; a stopped program stays as it is. */
  lemma RunOnceStops(t: Target, st: Stub)
    requires Sound(t, st)
    ensures var r := RunOnce(t, st);
      && r.stub.noAckMode == st.noAckMode && r.life != Crashed
      && (if st.exeStopped then r.stub == st else r.stub.exeStopped <==> RunInstr(t, st.h).1 != NoHit)
  {
    hide RunInstr, HasInstr;
  }

  lemma ItemsKeepNoAck(t: Target, st: Stub, items: seq<Item>)
    requires Sound(t, st) && st.noAckMode
    ensures ItemsHandled(t, st, items).stub.noAckMode
    decreases |items|
  {
    hide PacketHandled, HasInstr;
    if items != [] {
      if items[0] == Ack {
        ItemsKeepNoAck(t, st, items[1..]);
      } else {
        PacketKept(t, st, items[0].payload);
        var first := PacketHandled(t, st, items[0].payload);
        if !first.raised {
          ItemsKeepNoAck(t, first.stub, items[1..]);
        }
      }
    }
  }

  /** Nothing follows, or a stop packet of the loop. */
  lemma WireThenStop(wire: seq<Item>, st: Stub, wire': seq<Item>, st': Stub)
    requires EndsStopped(wire, st) && StopsKnown(wire) && StopsKnown(wire')
    requires (wire' != [] ==> st'.exeStopped) && (st.exeStopped ==> st' == st)
    ensures EndsStopped(wire + wire', st') && StopsKnown(wire + wire')
  {
    hide IsStopItem, StopSignal;
  }

  lemma PassAnswered(t: Target, st: Stub, items: seq<Item>, commands: seq<Command>)
    requires Sound(t, st) && Payloads(items) == Printed(commands)
    ensures PassAnswers(t, st, commands, PassItems(t, st, items), FoundBy(t, st, items))
  {
    hide Sound, ItemsHandled, RunOnce, AnswersMatch, AllAt, Wire, Replies, FoundBy, PrintCommand, EndsStopped;
    hide StopsKnown, Payloads, Printed;
    var got := ItemsHandled(t, st, items);
    ItemsAnswered(t, st, items, commands);
    if st.noAckMode {
      ItemsKeepNoAck(t, st, items);
    }
    if forall c <- commands :: c.AskRegister? {
      HarmlessItems(t, st, items, commands);
    }
    RunOnceWrites(t, got.stub);
    if !got.raised {
      var ran := RunOnce(t, got.stub);
      var wire, wire' := Wire(got.events), Wire(ran.events);
      WireAppend(got.events, ran.events);
      RepliesAppend(wire, wire');
      assert Replies(wire) + [] == Replies(wire);
      WireThenStop(wire, got.stub, wire', ran.stub);
      assert wire + wire' == [] ==> wire == [];
      assert Ack in wire + wire' ==> Ack in wire || Ack in wire';
    }
  }
}

/**
 The client end of the remote protocol. A stop packet met while receiving makes the stop handler send a request of its
 own and receive the reply, inside the receive call that met it.
 */
module RemoteClient {
  import opened Wrappers
  import opened Digits
  import opened Text
  import opened RemoteMessages
  import opened Streams
  import opened Connections
  import opened RegisterBytes
  import opened Requests

  /** What the stop handler writes: the signal, and the source line the program has stopped at. */
  datatype Report = Report(signal: nat, line: nat)

  /** What a receive call returns. */
  datatype Reception =
    | Got(item: Item)
    | Nothing                     // not blocking, and `select` finds nothing
    | Fails                       // an exception

  /**
   The client: the packet pushed back, the text received and not yet used, what the socket has still to deliver (None
   where `select` finds nothing; the end of the list is the end of the connection), what has been sent and reported.
   */
  datatype Client = Client(
    slot: Option<Item>, buffer: string, arrivals: seq<Option<string>>, sent: seq<Item>, reports: seq<Report>)

  function TotalLength(arrivals: seq<Option<string>>): nat {
    if arrivals == [] then 0
    else 1 + (if arrivals[0].Some? then |arrivals[0].value| else 0) + TotalLength(arrivals[1..])
  }

  /** How much can still be received. */
  function Size(c: Client): nat {
    |c.buffer| + TotalLength(c.arrivals)
  }

  /**
   Fetches more text for an empty buffer; false if `select` finds nothing. At the end of the connection `select` finds
   the socket readable, and what is received is empty.
   */
  function Refill(c: Client, blocking: bool): (r: (Client, bool))
    ensures c.buffer == "" ==> Size(r.0) <= Size(c)
    decreases |c.arrivals|
  {
    if c.arrivals == [] then (c, true)
    else
      var rest := c.(arrivals := c.arrivals[1..]);
      if c.arrivals[0].Some? then (rest.(buffer := c.arrivals[0].value), true)
      else if blocking then Refill(rest, blocking)
      else (rest, false)
  }

  function StopSignal(payload: string): nat
    requires IsStop(payload)
  {
    16 * DigitValue(payload[1]).value + DigitValue(payload[2]).value
  }

  /** The signals the stop handler knows. */
  predicate Handles(signal: nat) {
    signal == 5 || signal == 2 || signal == 9
  }

  function Receive(c: Client, blocking: bool): (r: (Client, Reception))
    ensures Size(r.0) <= Size(c)
    decreases Size(c), 1
  {
    if c.slot.Some? then (c.(slot := None), Got(c.slot.value))
    else
      var (d, ready) := if c.buffer != "" then (c, true) else Refill(c, blocking);
      if ready then TakeHead(d, blocking) else (d, Nothing)
  }

  /** The packet at the head of the buffer; at the end of the connection there is none. */
  function TakeHead(c: Client, blocking: bool): (r: (Client, Reception))
    ensures Size(r.0) <= Size(c)
    decreases Size(c), 0
  {
    if c.buffer == "" then (c, Fails)
    else if c.buffer[0] == '+' then (c.(buffer := c.buffer[1..]), Got(Ack))
    else match ParserReply(c.buffer)
      case Frame(payload, length) =>
        var rest := c.(buffer := c.buffer[length..]);
        if !IsStop(payload) then (rest, Got(Pkt(payload)))
        else
          var (handled, ok) := OnInterrupt(rest, StopSignal(payload));
          if ok then Receive(handled, blocking) else (handled, Fails)
      case _ => (c, Fails)
  }

  /** The stop handler; false if it raises. */
  function OnInterrupt(c: Client, signal: nat): (r: (Client, bool))
    ensures Size(r.0) <= Size(c)
    decreases Size(c), 3
  {
    var (d, value) := Asked(c, 0);
    if value == None || !Handles(signal) then (d, false)
    else (d.(reports := d.reports + [Report(signal, value.value / 8)]), true)
  }

  /** None if it raises. */
  function Asked(c: Client, index: nat): (r: (Client, Option<nat>))
    ensures Size(r.0) <= Size(c)
    decreases Size(c), 2
  {
    var (d, reply) := Receive(c.(sent := c.sent + [Pkt(PrintCommand(AskRegister(index)))]), true);
    (d, if reply.Got? && reply.item.Pkt? then ReadReply(reply.item.payload) else None)
  }

  // ---- the receive call as a stack of waiting handlers ----

  /** What one item does to a receive call inside which the handlers of these signals wait for a register. */
  datatype Effect =
    | Enter(signal: nat)                    // a stop packet: one more handler asks for the register and waits
    | Leave(report: Report)                 // the innermost handler has its register
    | Deliver                               // the receive call returns the item
    | Break                                 // an exception

  function EffectOf(waiting: seq<nat>, item: Item): Effect {
    if item.Pkt? && IsStop(item.payload) then Enter(StopSignal(item.payload))
    else if waiting == [] then Deliver
    else
      var signal := waiting[|waiting| - 1];
      var value := if item.Pkt? then ReadReply(item.payload) else None;
      if value.Some? && Handles(signal) then Leave(Report(signal, value.value / 8)) else Break
  }

  datatype Ending = Delivered(item: Item) | Starved | Broken

  /** What comes of a stream of items: what is left of it, how often a register was asked for, what was reported. */
  datatype Driven = Driven(rest: seq<Item>, asked: nat, reports: seq<Report>, end: Ending)

  function Drive(waiting: seq<nat>, items: seq<Item>): (r: Driven)
    ensures |r.rest| <= |items|
    ensures r.end.Delivered? ==> |r.rest| < |items| && EffectOf([], r.end.item) == Deliver
    decreases |items|
  {
    if items == [] then Driven([], 0, [], Starved)
    else match EffectOf(waiting, items[0])
      case Enter(signal) =>
        var r := Drive(waiting + [signal], items[1..]);
        r.(asked := r.asked + 1)
      case Leave(report) =>
        var r := Drive(waiting[..|waiting| - 1], items[1..]);
        r.(reports := [report] + r.reports)
      case Deliver => Driven(items[1..], 0, [], Delivered(items[0]))
      case Break => Driven(items[1..], 0, [], Broken)
  }

  function Prefix(first: Driven, r: Driven): Driven {
    r.(asked := first.asked + r.asked, reports := first.reports + r.reports)
  }

  /** What becomes of an inner call's end when handlers wait outside it. */
  function Outside(waiting: seq<nat>, inner: Driven): Driven {
    if waiting == [] || !inner.end.Delivered? then inner
    else match EffectOf(waiting, inner.end.item)
      case Leave(report) =>
        Prefix(inner.(reports := inner.reports + [report]), Drive(waiting[..|waiting| - 1], inner.rest))
      case _ => inner.(end := Broken)
  }

  lemma OutsideReport(outer: seq<nat>, r: Driven, report: Report)
    ensures Outside(outer, r.(reports := [report] + r.reports)) ==
      var o := Outside(outer, r); o.(reports := [report] + o.reports)
  {
    hide EffectOf, Drive;
    if outer != [] && r.end.Delivered? && EffectOf(outer, r.end.item).Leave? {
      var last := EffectOf(outer, r.end.item).report;
      var after := Drive(outer[..|outer| - 1], r.rest).reports;
      assert [report] + r.reports + [last] + after == [report] + (r.reports + [last] + after);
    }
  }

  /** The handlers inside a receive call and those outside it do not mix. */
  lemma {:induction false} DriveNested(outer: seq<nat>, inner: seq<nat>, items: seq<Item>)
    ensures Drive(outer + inner, items) == Outside(outer, Drive(inner, items))
    decreases |items|
  {
    hide IsStop, ReadReply, StopSignal;
    if items != [] {
      var item, rest := items[0], items[1..];
      var all := outer + inner;
      match EffectOf(inner, item) {
        case Enter(signal) =>
          DriveNested(outer, inner + [signal], rest);
          assert all + [signal] == outer + (inner + [signal]);
        case Leave(report) =>
          DriveNested(outer, inner[..|inner| - 1], rest);
          assert all[..|all| - 1] == outer + inner[..|inner| - 1];
          OutsideReport(outer, Drive(inner[..|inner| - 1], rest), report);
        case Deliver =>
          assert all == outer;
        case Break =>
      }
    }
  }

  // ---- connecting ----

  /** One request while packets are acknowledged: an acknowledgement, then the reply. */
  function Exchanged(c: Client, command: Command): (Client, Option<string>) {
    var (d, ack) := Receive(c.(sent := c.sent + [Pkt(PrintCommand(command))]), true);
    if ack != Got(Ack) then (d, None)
    else
      var (e, reply) := Receive(d, true);
      (e, if reply.Got? && reply.item.Pkt? then Some(reply.item.payload) else None)
  }

  /** Every feature is announced with `+`; the source raises on any other, and on an empty one. */
  predicate FeaturesOk(supported: string) {
    forall f <- Split(supported, ';') :: f != "" && f[|f| - 1] == '+'
  }

  /** Of a list of features, that is: each is a key and a `+` at its end. */
  lemma FeaturesOkIff(features: seq<string>)
    requires features != [] && Without(features, ';')
    ensures FeaturesOk(Join(features, ';')) <==> forall f <- features :: exists key: string :: f == key + "+"
  {
    SplitOfJoin(features, ';');
    forall f: string | f != "" && f[|f| - 1] == '+'
      ensures exists key: string :: f == key + "+"
    {
      assert f == f[..|f| - 1] + "+";
    }
    hide Split, Join;
  }

  function Connected(c: Client): (Client, bool) {
    var (d, supported) := Exchanged(c, AskSupported);
    if supported == None || !FeaturesOk(supported.value) then (d, false)
    else
      var (e, empty) := Exchanged(d, AskMustReplyEmpty);
      if empty != Some("") then (e, false)
      else
        var (f, ok) := Exchanged(e.(sent := e.sent + [Ack]), AskNoAckMode);
        if ok != Some("OK") then (f, false)
        else (f.(sent := f.sent + [Ack]), true)
  }

  // ---- text delivered in whole items ----

  /** The socket's deliveries, each a few whole items. */
  function Texts(pieces: seq<Option<seq<Item>>>): seq<Option<string>> {
    if pieces == [] then []
    else [if pieces[0].Some? then Some(PrintItems(pieces[0].value)) else None] + Texts(pieces[1..])
  }

  function Joined(pieces: seq<Option<seq<Item>>>): seq<Item> {
    if pieces == [] then []
    else (if pieces[0].Some? then pieces[0].value else []) + Joined(pieces[1..])
  }

  ghost predicate Whole(pieces: seq<Option<seq<Item>>>) {
    forall piece <- pieces :: piece.Some? ==> piece.value != [] && Framed(piece.value)
  }

  /** The client has used up whole items: `buffered` is what it holds, `pieces` is what will be delivered. */
  ghost predicate Carries(c: Client, buffered: seq<Item>, pieces: seq<Option<seq<Item>>>) {
    && c.slot == None && c.buffer == PrintItems(buffered) && c.arrivals == Texts(pieces)
    && Framed(buffered) && Whole(pieces)
  }

  lemma PrintNonEmpty(items: seq<Item>)
    ensures PrintItems(items) == "" <==> items == []
  {
    hide PacketReply;
  }

  /** The head of a buffer of whole items is read as its first item. */
  lemma HeadItem(items: seq<Item>)
    requires items != [] && Framed(items)
    ensures var text := PrintItems(items);
      && text != ""
      && match items[0]
         case Ack => text[0] == '+' && text[1..] == PrintItems(items[1..])
         case Pkt(payload) =>
           && text[0] == '$' && ParserReply(text) == Frame(payload, |payload| + 4)
           && |payload| + 4 <= |text| && text[|payload| + 4..] == PrintItems(items[1..])
  {
    assert items[0] in items;
    var rest := PrintItems(items[1..]);
    if items[0].Pkt? {
      FrameRoundTrip(items[0].payload, rest);
      assert PacketReply(items[0].payload)[0] == '$';
    }
    hide PacketReply, ParserReply;
    assert PrintItems(items) == PrintItem(items[0]) + rest;
  }

  /** Blocking, an empty buffer is refilled with the next delivery; at the end of the connection it stays empty. */
  lemma {:induction false} RefillCarries(c: Client, pieces: seq<Option<seq<Item>>>)
    returns (buffered: seq<Item>, pieces': seq<Option<seq<Item>>>)
    requires Carries(c, [], pieces)
    ensures var (d, ready) := Refill(c, true);
      && ready && Carries(d, buffered, pieces') && buffered + Joined(pieces') == Joined(pieces)
      && (buffered == [] ==> Joined(pieces) == [])
      && d.sent == c.sent && d.reports == c.reports
    decreases |pieces|
  {
    hide PrintItems;
    if pieces == [] {
      return [], [];
    }
    assert pieces[0] in pieces;
    if pieces[0].Some? {
      buffered, pieces' := pieces[0].value, pieces[1..];
    } else {
      assert Joined(pieces) == Joined(pieces[1..]);
      buffered, pieces' := RefillCarries(c.(arrivals := c.arrivals[1..]), pieces[1..]);
    }
  }

  const PC_REQUEST := Pkt(PrintCommand(AskRegister(0)))

  function Repeat(item: Item, n: nat): seq<Item> {
    if n == 0 then [] else [item] + Repeat(item, n - 1)
  }

  /** A receive call has done what the stack of handlers does with the items. */
  ghost predicate Agrees(c: Client, d: Client, r: Reception, v: Driven, buffered: seq<Item>,
                         pieces: seq<Option<seq<Item>>>)
  {
    && (v.end.Delivered? ==>
          r == Got(v.end.item) && Carries(d, buffered, pieces) && buffered + Joined(pieces) == v.rest)
    && (!v.end.Delivered? ==> r == Fails)
    && d.sent == c.sent + Repeat(PC_REQUEST, v.asked) && d.reports == c.reports + v.reports
  }

  lemma RepeatAppend(item: Item, m: nat, n: nat)
    ensures Repeat(item, m) + Repeat(item, n) == Repeat(item, m + n)
  {
    if m > 0 {
      RepeatAppend(item, m - 1, n);
      assert Repeat(item, m) + Repeat(item, n) == [item] + (Repeat(item, m - 1) + Repeat(item, n));
    } else {
      assert Repeat(item, 0) + Repeat(item, n) == Repeat(item, n);
    }
  }

  /**
   However the deliveries are cut at item boundaries, and wherever `select` finds nothing in between, a blocking
   receive does with the text what the stack of waiting handlers does with the items.
   */
  lemma {:induction false} ReceiveIsDrive(c: Client, buffered: seq<Item>, pieces: seq<Option<seq<Item>>>)
    returns (buffered': seq<Item>, pieces': seq<Option<seq<Item>>>)
    requires Carries(c, buffered, pieces)
    ensures var (d, r) := Receive(c, true);
      Agrees(c, d, r, Drive([], buffered + Joined(pieces)), buffered', pieces')
    decreases |buffered + Joined(pieces)|, 1
  {
    hide TakeHead, Refill, Drive, PrintItems, Texts, Size;
    PrintNonEmpty(buffered);
    if buffered == [] {
      buffered', pieces' := RefillCarries(c, pieces);
      assert buffered + Joined(pieces) == Joined(pieces);
      buffered', pieces' := HeadIsDrive(Refill(c, true).0, buffered', pieces');
    } else {
      buffered', pieces' := HeadIsDrive(c, buffered, pieces);
    }
  }

  lemma {:induction false} HeadIsDrive(c: Client, buffered: seq<Item>, pieces: seq<Option<seq<Item>>>)
    returns (buffered': seq<Item>, pieces': seq<Option<seq<Item>>>)
    requires Carries(c, buffered, pieces) && (buffered == [] ==> Joined(pieces) == [])
    ensures var (d, r) := TakeHead(c, true);
      Agrees(c, d, r, Drive([], buffered + Joined(pieces)), buffered', pieces')
    decreases |buffered + Joined(pieces)|, 0
  {
    hide Receive, OnInterrupt, PrintItems, Texts, Size, ParserReply, IsStop, StopSignal;
    PrintNonEmpty(buffered);
    if buffered == [] {
      buffered', pieces' := [], [];
    } else {
      HeadItem(buffered);
      var item, b, items := buffered[0], buffered[1..], buffered + Joined(pieces);
      assert items[0] == item && items[1..] == b + Joined(pieces);
      assert Framed(b);
      if item.Pkt? && IsStop(item.payload) {
        var rest := c.(buffer := PrintItems(b));
        var signal := StopSignal(item.payload);
        buffered', pieces' := BehindStop(c, rest, b, pieces, signal);
        assert [] + [signal] == [signal];
      } else {
        buffered', pieces' := b, pieces;
      }
    }
  }

  lemma {:induction false} BehindStop(
    c: Client, rest: Client, b: seq<Item>, p: seq<Option<seq<Item>>>, signal: nat)
    returns (buffered': seq<Item>, pieces': seq<Option<seq<Item>>>)
    requires Carries(rest, b, p) && rest.sent == c.sent && rest.reports == c.reports
    ensures var (handled, ok) := OnInterrupt(rest, signal);
      var (d, r) := if ok then Receive(handled, true) else (handled, Fails);
      var v := Drive([signal], b + Joined(p));
      Agrees(c, d, r, v.(asked := v.asked + 1), buffered', pieces')
    decreases |b + Joined(p)|, 2
  {
    hide Receive, Drive, PrintItems, Texts, Size, StopSignal, ReadReply, Joined;
    var items := b + Joined(p);
    var asking := rest.(sent := rest.sent + [PC_REQUEST]);
    buffered', pieces' := ReceiveIsDrive(asking, b, p);
    var inner, d := Drive([], items), Receive(asking, true).0;
    DriveNested([signal], [], items);
    assert [signal] + [] == [signal] && [signal][..0] == [];
    AskedOnce(c.sent, inner.asked);
    if inner.end.Delivered? && EffectOf([signal], inner.end.item).Leave? {
      var report := EffectOf([signal], inner.end.item).report;
      var handled := d.(reports := d.reports + [report]);
      assert OnInterrupt(rest, signal) == (handled, true);
      assert Carries(handled, buffered', pieces');
      buffered', pieces' := ReceiveIsDrive(handled, buffered', pieces');
      AskedThen(c.sent, inner.asked + 1, Drive([], inner.rest).asked);
    }
  }

  lemma AskedOnce(sent: seq<Item>, n: nat)
    ensures sent + [PC_REQUEST] + Repeat(PC_REQUEST, n) == sent + Repeat(PC_REQUEST, n + 1)
  {
    hide PrintCommand;
  }

  lemma AskedThen(sent: seq<Item>, m: nat, n: nat)
    ensures sent + Repeat(PC_REQUEST, m) + Repeat(PC_REQUEST, n) == sent + Repeat(PC_REQUEST, m + n)
  {
    RepeatAppend(PC_REQUEST, m, n);
    hide PrintCommand, Repeat;
  }

  // ---- a receive call that does not wait ----

  lemma {:induction false} PollIsReceive(c: Client)
    ensures var (d, r) := Receive(c, false);
      if r == Nothing then d.slot == None && d.buffer == "" && Receive(c, true) == Receive(d, true)
      else Receive(c, true) == (d, r)
    decreases Size(c), 1
  {
    hide TakeHead, Size;
    if c.slot == None {
      if c.buffer != "" {
        PollHeadIsHead(c);
      } else if c.arrivals != [] && c.arrivals[0].Some? {
        var d := c.(arrivals := c.arrivals[1..], buffer := c.arrivals[0].value);
        assert Size(d) < Size(c) by { RefillShrinks(c); }
        PollHeadIsHead(d);
      } else if c.arrivals == [] {
        PollHeadIsHead(c);
      }
    }
  }

  lemma {:induction false} RefillKeepsSlot(c: Client, blocking: bool)
    ensures Refill(c, blocking).0.slot == c.slot
    decreases |c.arrivals|
  {
    if c.arrivals != [] && c.arrivals[0] == None && blocking {
      RefillKeepsSlot(c.(arrivals := c.arrivals[1..]), blocking);
    }
  }

  /** Receiving pushes nothing back by itself. */
  lemma {:induction false} SlotStaysEmpty(c: Client, blocking: bool)
    requires c.slot == None
    ensures Receive(c, blocking).0.slot == None
    decreases Size(c), 1
  {
    hide TakeHead, Refill, Size;
    var (d, ready) := if c.buffer != "" then (c, true) else Refill(c, blocking);
    RefillKeepsSlot(c, blocking);
    if ready {
      HeadKeepsSlot(d, blocking);
    }
  }

  lemma {:induction false} HeadKeepsSlot(c: Client, blocking: bool)
    requires c.slot == None
    ensures TakeHead(c, blocking).0.slot == None
    decreases Size(c), 0
  {
    hide Receive, IsStop, OnInterrupt, ParserReply, StopSignal;
    if c.buffer != "" && c.buffer[0] != '+' && ParserReply(c.buffer).Frame? {
      var f := ParserReply(c.buffer);
      var rest := c.(buffer := c.buffer[f.length..]);
      if IsStop(f.payload) {
        HandlerKeepsSlot(rest, StopSignal(f.payload));
        var (handled, ok) := OnInterrupt(rest, StopSignal(f.payload));
        if ok {
          SlotStaysEmpty(handled, blocking);
        }
      }
    }
  }

  lemma {:induction false} HandlerKeepsSlot(c: Client, signal: nat)
    requires c.slot == None
    ensures OnInterrupt(c, signal).0.slot == None
    decreases Size(c), 3
  {
    hide Receive, ReadReply, PrintCommand, Handles;
    SlotStaysEmpty(c.(sent := c.sent + [Pkt(PrintCommand(AskRegister(0)))]), true);
  }

  /** A packet that a poll has met and pushed back is given to the next call, as if there had been no poll. */
  lemma PollMakesNoDifference(c: Client)
    requires c.slot == None
    ensures var (d, r) := Receive(c, false);
      r.Got? ==> Receive(d.(slot := Some(r.item)), true) == Receive(c, true)
  {
    PollIsReceive(c);
    SlotStaysEmpty(c, false);
    hide TakeHead, Refill;
  }

  lemma RefillShrinks(c: Client)
    requires c.buffer == "" && c.arrivals != [] && c.arrivals[0].Some?
    ensures Size(c.(arrivals := c.arrivals[1..], buffer := c.arrivals[0].value)) < Size(c)
  {
  }

  lemma {:induction false} PollHeadIsHead(c: Client)
    requires c.slot == None
    ensures var (d, r) := TakeHead(c, false);
      if r == Nothing then d.slot == None && d.buffer == "" && TakeHead(c, true) == Receive(d, true)
      else TakeHead(c, true) == (d, r)
    decreases Size(c), 0
  {
    hide Receive, OnInterrupt, Size, IsStop, StopSignal, ParserReply;
    if c.buffer != "" && c.buffer[0] != '+' && ParserReply(c.buffer).Frame? {
      var payload, rest := ParserReply(c.buffer).payload, c.(buffer := c.buffer[ParserReply(c.buffer).length..]);
      if IsStop(payload) {
        assert Size(rest) < Size(c) by { HeadShrinks(c, ParserReply(c.buffer).length); }
        var (handled, ok) := OnInterrupt(rest, StopSignal(payload));
        if ok {
          PollIsReceive(handled);
        }
      }
    }
  }

  lemma HeadShrinks(c: Client, length: nat)
    requires 0 < length <= |c.buffer|
    ensures Size(c.(buffer := c.buffer[length..])) < Size(c)
  {
  }

  /** The handlers that wait once a receive call has been given these items; None if it has ended. */
  function Stack(waiting: seq<nat>, items: seq<Item>): Option<seq<nat>>
    decreases |items|
  {
    if items == [] then Some(waiting)
    else match EffectOf(waiting, items[0])
      case Enter(signal) => Stack(waiting + [signal], items[1..])
      case Leave(_) => Stack(waiting[..|waiting| - 1], items[1..])
      case _ => None
  }

  /** Handlers outside the call do not mix with those inside. */
  lemma {:induction false} StackNested(outer: seq<nat>, inner: seq<nat>, items: seq<Item>)
    requires Stack(inner, items).Some?
    ensures Stack(outer + inner, items) == Some(outer + Stack(inner, items).value)
    decreases |items|
  {
    hide IsStop, ReadReply, StopSignal;
    if items != [] {
      var all := outer + inner;
      match EffectOf(inner, items[0]) {
        case Enter(signal) =>
          StackNested(outer, inner + [signal], items[1..]);
          assert all + [signal] == outer + (inner + [signal]);
        case Leave(report) =>
          StackNested(outer, inner[..|inner| - 1], items[1..]);
          assert all[..|all| - 1] == outer + inner[..|inner| - 1];
      }
    }
  }

  /** As long as the call has not ended, what it has done so far and what it does with more items add up. */
  lemma {:induction false} DriveSplit(waiting: seq<nat>, items: seq<Item>, more: seq<Item>)
    requires Stack(waiting, items).Some?
    ensures Stack(waiting, items + more) == Stack(Stack(waiting, items).value, more)
    ensures Drive(waiting, items).end == Starved && Drive(waiting, items).rest == []
    ensures Drive(waiting, items + more) == Prefix(Drive(waiting, items), Drive(Stack(waiting, items).value, more))
    decreases |items|
  {
    hide IsStop, ReadReply, StopSignal;
    if items == [] {
      assert [] + more == more;
      var v := Drive(waiting, more);
      assert [] + v.reports == v.reports;
    } else {
      assert (items + more)[1..] == items[1..] + more;
      match EffectOf(waiting, items[0]) {
        case Enter(signal) =>
          DriveSplit(waiting + [signal], items[1..], more);
        case Leave(report) =>
          var left := waiting[..|waiting| - 1];
          DriveSplit(left, items[1..], more);
          var v := Drive(Stack(waiting, items).value, more);
          assert [report] + (Drive(left, items[1..]).reports + v.reports)
            == [report] + Drive(left, items[1..]).reports + v.reports;
      }
    }
  }

  /** An item is delivered when all handlers have finished. */
  lemma {:induction false} DeliveredBehind(waiting: seq<nat>, items: seq<Item>) returns (before: seq<Item>)
    requires Drive(waiting, items).end.Delivered?
    ensures var v := Drive(waiting, items);
      && items == before + [v.end.item] + v.rest && Stack(waiting, before) == Some([])
      && Drive(waiting, before) == Driven([], v.asked, v.reports, Starved)
    decreases |items|
  {
    hide IsStop, ReadReply, StopSignal;
    var item, rest := items[0], items[1..];
    match EffectOf(waiting, item) {
      case Enter(signal) =>
        before := DeliveredBehind(waiting + [signal], rest);
        before := [item] + before;
        assert before[1..] + [Drive(waiting, items).end.item] + Drive(waiting, items).rest == rest;
      case Leave(report) =>
        before := DeliveredBehind(waiting[..|waiting| - 1], rest);
        before := [item] + before;
        assert before[1..] + [Drive(waiting, items).end.item] + Drive(waiting, items).rest == rest;
      case Deliver =>
        before := [];
    }
  }

  /** A receive call that has returned nothing has taken `used`, and no handler waits. */
  ghost predicate FoundNothing(c: Client, d: Client, used: seq<Item>, pieces: seq<Option<seq<Item>>>) {
    var v := Drive([], used);
    && Stack([], used) == Some([]) && Carries(d, [], pieces)
    && d.sent == c.sent + Repeat(PC_REQUEST, v.asked) && d.reports == c.reports + v.reports
  }

  /**
   A receive call that does not wait: unless it returns nothing it does what the waiting call does. If it returns
   nothing, it has taken some items in front, with which the handlers they have started have all finished.
   */
  lemma PollIsDrive(c: Client, buffered: seq<Item>, pieces: seq<Option<seq<Item>>>)
    returns (used: seq<Item>, buffered': seq<Item>, pieces': seq<Option<seq<Item>>>)
    requires Carries(c, buffered, pieces)
    ensures var (d, r) := Receive(c, false); var items := buffered + Joined(pieces);
      if r == Nothing then items == used + Joined(pieces') && FoundNothing(c, d, used, pieces')
      else Agrees(c, d, r, Drive([], items), buffered', pieces')
    decreases |buffered + Joined(pieces)|, 1
  {
    used := [];
    PollIsReceive(c);
    if Receive(c, false).1 != Nothing {
      buffered', pieces' := ReceiveIsDrive(c, buffered, pieces);
      hide *;
    } else {
      buffered' := [];
      used, pieces' := NothingFound(c, buffered, pieces);
      hide *;
    }
  }

  lemma {:induction false} NothingFound(c: Client, buffered: seq<Item>, pieces: seq<Option<seq<Item>>>)
    returns (used: seq<Item>, pieces': seq<Option<seq<Item>>>)
    requires Carries(c, buffered, pieces) && Receive(c, false).1 == Nothing
    ensures buffered + Joined(pieces) == used + Joined(pieces')
    ensures FoundNothing(c, Receive(c, false).0, used, pieces')
    decreases |buffered + Joined(pieces)|, 1
  {
    EndIsFound(c);
    hide TakeHead, PrintItems, Drive, Stack, Size;
    PrintNonEmpty(buffered);
    if buffered != [] {
      used, pieces' := NothingBehindHead(c, buffered, pieces);
    } else if pieces[0] == None {
      used, pieces' := [], pieces[1..];
      NothingUsed(c);
    } else {
      var first, d := pieces[0].value, c.(buffer := c.arrivals[0].value, arrivals := c.arrivals[1..]);
      assert pieces[0] in pieces;
      assert Carries(d, first, pieces[1..]);
      assert [] + Joined(pieces) == first + Joined(pieces[1..]);
      PrintNonEmpty(first);
      used, pieces' := NothingBehindHead(d, first, pieces[1..]);
    }
  }

  /** The end of the connection is not taken for nothing to read. */
  lemma EndIsFound(c: Client)
    ensures c.slot == None && c.buffer == "" && c.arrivals == [] ==> Receive(c, false).1 == Fails
  {
  }

  lemma NothingUsed(c: Client)
    ensures Stack([], []) == Some([])
    ensures var v := Drive([], []); c.sent + Repeat(PC_REQUEST, v.asked) == c.sent && c.reports + v.reports == c.reports
  {
    hide PrintCommand;
  }

  /** A stop handler that does not raise has been given its register by the first item delivered to it. */
  lemma HandlerFinishes(rest: Client, b: seq<Item>, p: seq<Option<seq<Item>>>, signal: nat)
    returns (buffered': seq<Item>, pieces': seq<Option<seq<Item>>>)
    requires Carries(rest, b, p) && OnInterrupt(rest, signal).1
    ensures var v, handled := Drive([], b + Joined(p)), OnInterrupt(rest, signal).0;
      && v.end.Delivered? && EffectOf([signal], v.end.item).Leave? && Carries(handled, buffered', pieces')
      && buffered' + Joined(pieces') == v.rest
      && handled.sent == rest.sent + Repeat(PC_REQUEST, v.asked + 1)
      && handled.reports == rest.reports + v.reports + [EffectOf([signal], v.end.item).report]
  {
    hide Receive, Drive, PrintItems, Texts, Size, StopSignal, ReadReply, Joined;
    var asking := rest.(sent := rest.sent + [PC_REQUEST]);
    buffered', pieces' := ReceiveIsDrive(asking, b, p);
    var v := Drive([], b + Joined(p));
    AskedOnce(rest.sent, v.asked);
    assert v.end.Delivered?;
    assert EffectOf([], v.end.item) == Deliver;
    assert EffectOf([signal], v.end.item).Leave?;
  }

  /** Nothing is returned behind an item only if that is a stop packet whose handler has finished. */
  lemma HeadIsStop(c: Client, buffered: seq<Item>, pieces: seq<Option<seq<Item>>>)
    requires Carries(c, buffered, pieces) && buffered != [] && TakeHead(c, false).1 == Nothing
    ensures IsStopItem(buffered[0])
    ensures var rest, signal := c.(buffer := PrintItems(buffered[1..])), StopSignal(buffered[0].payload);
      && Carries(rest, buffered[1..], pieces) && OnInterrupt(rest, signal).1
      && TakeHead(c, false) == Receive(OnInterrupt(rest, signal).0, false)
  {
    hide Receive, OnInterrupt, PrintItems, Texts, Size, ParserReply, IsStop, StopSignal;
    HeadItem(buffered);
    assert Framed(buffered[1..]);
  }

  /** The head is a stop packet, whose handler has finished, and behind it nothing was found either. */
  lemma {:induction false} NothingBehindHead(c: Client, buffered: seq<Item>, pieces: seq<Option<seq<Item>>>)
    returns (used: seq<Item>, pieces': seq<Option<seq<Item>>>)
    requires Carries(c, buffered, pieces) && buffered != [] && TakeHead(c, false).1 == Nothing
    ensures buffered + Joined(pieces) == used + Joined(pieces')
    ensures FoundNothing(c, TakeHead(c, false).0, used, pieces')
    decreases |buffered + Joined(pieces)|, 0
  {
    hide Receive, TakeHead, PrintItems, Drive, Stack, EffectOf, Joined, Carries;
    var items := buffered[1..] + Joined(pieces);
    assert buffered + Joined(pieces) == [buffered[0]] + items;
    HeadIsStop(c, buffered, pieces);
    var rest, signal := c.(buffer := PrintItems(buffered[1..])), StopSignal(buffered[0].payload);
    var handled := OnInterrupt(rest, signal).0;
    hide OnInterrupt, PrintItems;
    var buffered', pieces1 := HandlerFinishes(rest, buffered[1..], pieces, signal);
    var used', before: seq<Item>;
    used', pieces' := NothingFound(handled, buffered', pieces1);
    before := HandlerStack(buffered[0], items);
    var v, first := Drive([], items), before + [Drive([], items).end.item];
    used := [buffered[0]] + first + used';
    assert used + Joined(pieces') == [buffered[0]] + (first + (used' + Joined(pieces')));
    UsedThen(c, handled, TakeHead(c, false).0, [buffered[0]] + first, used', pieces');
  }

  /** A stop packet, the items until its handler's reply, and that reply leave no handler waiting. */
  lemma HandlerStack(stop: Item, items: seq<Item>) returns (before: seq<Item>)
    requires IsStopItem(stop) && Drive([], items).end.Delivered?
    requires EffectOf([StopSignal(stop.payload)], Drive([], items).end.item).Leave?
    ensures var v := Drive([], items); var first := [stop] + (before + [v.end.item]);
      && items == before + [v.end.item] + v.rest && Stack([], first) == Some([])
      && Drive([], first) == Driven([], v.asked + 1,
           v.reports + [EffectOf([StopSignal(stop.payload)], v.end.item).report], Starved)
  {
    hide EffectOf, IsStop, StopSignal;
    var signal, v := StopSignal(stop.payload), Drive([], items);
    before := DeliveredBehind([], items);
    StackNested([signal], [], before);
    DriveNested([signal], [], before);
    assert [signal] + [] == [signal] && [] + [signal] == [signal] && [signal][..0] == [];
    DriveSplit([signal], before, [v.end.item]);
    var first := [stop] + (before + [v.end.item]);
    assert first[1..] == before + [v.end.item] && [v.end.item][1..] == [];
    assert EffectOf([], stop) == Enter(signal) by { StopEnters(stop); }
  }

  lemma StopEnters(stop: Item)
    requires IsStopItem(stop)
    ensures EffectOf([], stop) == Enter(StopSignal(stop.payload))
  {
    hide IsStop, StopSignal;
  }

  /** What has been taken first and what has been taken then. */
  lemma UsedThen(c: Client, handled: Client, d: Client, first: seq<Item>, used: seq<Item>,
                 pieces: seq<Option<seq<Item>>>)
    requires Stack([], first) == Some([]) && FoundNothing(handled, d, used, pieces)
    requires var v := Drive([], first);
      handled.sent == c.sent + Repeat(PC_REQUEST, v.asked) && handled.reports == c.reports + v.reports
    ensures FoundNothing(c, d, first + used, pieces)
  {
    hide Drive, Stack, Carries, PrintCommand;
    DriveSplit([], first, used);
    var v, w := Drive([], first), Drive([], used);
    AskedThen(c.sent, v.asked, w.asked);
    assert c.reports + v.reports + w.reports == c.reports + (v.reports + w.reports);
  }

  // ---- whose reply it is ----

  predicate IsStopItem(item: Item) {
    item.Pkt? && IsStop(item.payload)
  }

  function SignalOf(item: Item): nat {
    if IsStopItem(item) then StopSignal(item.payload) else 0
  }

  function SignalsOf(stops: seq<Item>): seq<nat> {
    seq(|stops|, k requires 0 <= k < |stops| => SignalOf(stops[k]))
  }

  lemma {:induction false} DriveThroughStops(waiting: seq<nat>, stops: seq<Item>, items: seq<Item>)
    requires forall item <- stops :: IsStopItem(item)
    ensures var v := Drive(waiting + SignalsOf(stops), items);
      Drive(waiting, stops + items) == v.(asked := v.asked + |stops|)
    decreases |stops|
  {
    hide IsStop, StopSignal, ReadReply;
    if stops == [] {
      assert stops + items == items && waiting + SignalsOf(stops) == waiting;
    } else {
      var first, more := stops[0], stops[1..];
      assert first in stops;
      DriveThroughStops(waiting + [SignalOf(first)], more, items);
      assert (stops + items)[0] == first && (stops + items)[1..] == more + items;
      assert waiting + [SignalOf(first)] + SignalsOf(more) == waiting + SignalsOf(stops);
    }
  }

  /**
   The server answers in order, but the handlers inside a call take replies first. With the first reply of the stream
   being the answer to the call's own request, the call returns it exactly if no stop packet lies ahead of it.
   */
  lemma CallTakesItsReplyIff(stops: seq<Item>, reply: Item, rest: seq<Item>)
    requires (forall item <- stops :: IsStopItem(item)) && !IsStopItem(reply)
    ensures var v := Drive([], stops + ([reply] + rest));
      v.end == Delivered(reply) && v.rest == rest <==> stops == []
  {
    hide IsStop, StopSignal, ReadReply;
    DriveThroughStops([], stops, [reply] + rest);
    assert [] + SignalsOf(stops) == SignalsOf(stops);
    assert ([reply] + rest)[1..] == rest;
  }

  /** A breakpoint request that crosses a stop on the wire: the handler takes the `OK` for a register and raises. */
  lemma CrossedStopBreaksCall(rest: seq<Item>)
    ensures Drive([], [Pkt("S05"), Pkt("OK")] + rest).end == Broken
  {
    var items := [Pkt("S05"), Pkt("OK")] + rest;
    assert EffectOf([], items[0]) == Enter(5);
    assert [] + [5] == [5];
    assert items[1..][0] == Pkt("OK") && items[1..][1..] == rest;
    assert ReadReply("OK") == None;
    hide ReadReply, StopSignal, IsStop;
  }

  // ---- the client itself ----

  class GdbRemoteClient {
    const socket: Connection
    var arrivals: seq<Option<string>>       // what the socket has still to deliver
    var receiveBuffer: string
    var receivedPkt: Option<Item>           // pushed back
    var reports: seq<Report>                // written by the stop handler
    var stubSupported: map<string, bool>
    var noAckMode: bool

    ghost function State(): Client
      reads this, socket
    {
      Client(receivedPkt, receiveBuffer, arrivals, socket.items, reports)
    }

    ghost predicate Valid()
      reads this, socket
    {
      socket.Valid()
    }

    constructor (arrivals: seq<Option<string>>)
      ensures Valid() && fresh(socket) && State() == Client(None, "", arrivals, [], []) && stubSupported == map[]
    {
      socket := new Connection();
      this.arrivals, receiveBuffer, receivedPkt, reports := arrivals, "", None, [];
      stubSupported, noAckMode := map[], false;
    }

    /** `socket.recv`, or `select` and then `socket.recv`. */
    method Fetch(blocking: bool) returns (ready: bool)
      requires Valid() && receiveBuffer == ""
      modifies this`arrivals, this`receiveBuffer
      ensures Valid() && (State(), ready) == Refill(old(State()), blocking)
    {
      hide Size;
      while arrivals != [] && arrivals[0] == None && blocking
        invariant Valid() && receiveBuffer == ""
        invariant Refill(State(), blocking) == Refill(old(State()), blocking)
        decreases |arrivals|
      {
        arrivals := arrivals[1..];
      }
      if arrivals == [] {
        return true;
      }
      if arrivals[0] == None {
        arrivals := arrivals[1..];
        return false;
      }
      receiveBuffer, arrivals := arrivals[0].value, arrivals[1..];
      ready := true;
    }

    /** None where nothing is returned, a failure where the source raises. */
    method ReceivePkt(blocking: bool) returns (r: Reception)
      requires Valid()
      modifies this`arrivals, this`receiveBuffer, this`receivedPkt, this`reports, socket
      ensures Valid() && (State(), r) == Receive(old(State()), blocking)
      decreases Size(State()), 1
    {
      if receivedPkt.Some? {
        r := Got(receivedPkt.value);
        receivedPkt := None;
        return;
      }
      if receiveBuffer == "" {
        var ready := Fetch(blocking);
        if !ready {
          return Nothing;
        }
      }
      r := HeadPkt(blocking);
    }

    method HeadPkt(blocking: bool) returns (r: Reception)
      requires Valid()
      modifies this`arrivals, this`receiveBuffer, this`receivedPkt, this`reports, socket
      ensures Valid() && (State(), r) == TakeHead(old(State()), blocking)
      decreases Size(State()), 0
    {
      if receiveBuffer == "" {
        return Fails;
      }
      if receiveBuffer[0] == '+' {
        receiveBuffer := receiveBuffer[1..];
        return Got(Ack);
      }
      var m := ParserReply(receiveBuffer);
      if !m.Frame? {
        return Fails;
      }
      receiveBuffer := receiveBuffer[m.length..];
      if !IsStop(m.payload) {
        return Got(Pkt(m.payload));
      }
      var ok := InterruptHandler(StopSignal(m.payload));
      if !ok {
        return Fails;
      }
      r := ReceivePkt(blocking);
    }

    method InterruptHandler(signal: nat) returns (ok: bool)
      requires Valid()
      modifies this`arrivals, this`receiveBuffer, this`receivedPkt, this`reports, socket
      ensures Valid() && (State(), ok) == OnInterrupt(old(State()), signal)
      decreases Size(State()), 3
    {
      var value := ReadRegister(0);
      if value == None || !Handles(signal) {
        return false;
      }
      reports := reports + [Report(signal, value.value / 8)];
      ok := true;
    }

    method ReadRegister(index: nat) returns (value: Option<nat>)
      requires Valid()
      modifies this`arrivals, this`receiveBuffer, this`receivedPkt, this`reports, socket
      ensures Valid() && (State(), value) == Asked(old(State()), index)
      decreases Size(State()), 2
    {
      hide PrintCommand, PacketReply;
      socket.Send(PacketReply(PrintCommand(AskRegister(index))), Pkt(PrintCommand(AskRegister(index))));
      var reply := ReceivePkt(true);
      value := if reply.Got? && reply.item.Pkt? then ReadReply(reply.item.payload) else None;
    }

    /** A packet that is no stop packet is pushed back for the next receive call; false if the source raises. */
    method PoolInterrupts() returns (ok: bool)
      requires Valid()
      modifies this`arrivals, this`receiveBuffer, this`receivedPkt, this`reports, socket
      ensures Valid()
      ensures var (c, r) := Receive(old(State()), false);
        State() == (if r.Got? then c.(slot := Some(r.item)) else c) && ok == !r.Fails?
    {
      var pkt := ReceivePkt(false);
      if pkt.Got? {
        receivedPkt := Some(pkt.item);
      }
      ok := !pkt.Fails?;
    }

    /** Sends a request that is to be answered by `OK`; false if the source raises. */
    method SendExpectingOk(c: Command) returns (ok: bool)
      requires Valid()
      modifies this`arrivals, this`receiveBuffer, this`receivedPkt, this`reports, socket
      ensures Valid()
      ensures var (d, r) := Receive(old(State()).(sent := old(State()).sent + [Pkt(PrintCommand(c))]), true);
        State() == d && ok == (r == Got(Pkt("OK")))
    {
      hide PrintCommand, PacketReply;
      socket.Send(PacketReply(PrintCommand(c)), Pkt(PrintCommand(c)));
      var okReply := ReceivePkt(true);
      ok := okReply == Got(Pkt("OK"));
    }

    /** Sends a request while packets are acknowledged; None if the source raises. */
    method Exchange(c: Command) returns (reply: Option<string>)
      requires Valid()
      modifies this`arrivals, this`receiveBuffer, this`receivedPkt, this`reports, socket
      ensures Valid() && (State(), reply) == Exchanged(old(State()), c)
    {
      hide PrintCommand, PacketReply, Size;
      socket.Send(PacketReply(PrintCommand(c)), Pkt(PrintCommand(c)));
      var ack := ReceivePkt(true);
      if ack != Got(Ack) {
        return None;
      }
      var r := ReceivePkt(true);
      reply := if r.Got? && r.item.Pkt? then Some(r.item.payload) else None;
    }

    /** The loop over the features the stub supports; false if the source raises. */
    method ReadFeatures(supported: string) returns (ok: bool)
      modifies this`stubSupported
      ensures ok == FeaturesOk(supported)
      ensures ok ==> forall f <- Split(supported, ';') :: f[..|f| - 1] in stubSupported && stubSupported[f[..|f| - 1]]
    {
      hide Split;
      var features := Split(supported, ';');
      for k := 0 to |features|
        invariant forall f <- features[..k] :: f != "" && f[|f| - 1] == '+'
        invariant forall f <- features[..k] :: f[..|f| - 1] in stubSupported && stubSupported[f[..|f| - 1]]
      {
        var feature := features[k];
        if feature == "" || feature[|feature| - 1] != '+' {
          return false;
        }
        stubSupported := stubSupported[feature[..|feature| - 1] := true];
        assert features[..k + 1] == features[..k] + [feature];
      }
      assert features[..|features|] == features;
      ok := true;
    }

    /** Three requests, each acknowledged, the last of which switches acknowledgements off. */
    method Connect() returns (ok: bool)
      requires Valid()
      modifies this`arrivals, this`receiveBuffer, this`receivedPkt, this`reports, this`stubSupported, this`noAckMode,
               socket
      ensures Valid() && (State(), ok) == Connected(old(State()))
    {
      hide Exchanged, FeaturesOk, PacketReply, PrintItems;
      var supported := Exchange(AskSupported);
      if supported == None {
        return false;
      }
      var known := ReadFeatures(supported.value);
      if !known {
        return false;
      }
      var empty := Exchange(AskMustReplyEmpty);
      if empty != Some("") {
        return false;
      }
      socket.Send("+", Ack);
      var okReply := Exchange(AskNoAckMode);
      noAckMode := false;
      if okReply != Some("OK") {
        return false;
      }
      socket.Send("+", Ack);
      ok := true;
    }
  }
}

/** The moves of a run against the client's own code: receive calls and connecting, item by item. */
module SessionCalls {
  import opened Wrappers
  import opened Streams
  import opened RegisterBytes
  import opened Requests
  import opened Interpreter
  import opened RegisterLayout
  import opened ServerStub
  import opened RemoteClient
  import opened Session

  // ---- receive calls ----

  /** n moves by which the client takes items. */
  function Takes(t: Target, s: Sys, n: nat): (r: Sys)
    requires Sound(t, s.server)
    ensures Sound(t, r.server)
    decreases n
  {
    if n == 0 then s else Takes(t, Next(t, s, Take), n - 1)
  }

  /** A call or a poll is under way, and its items come from the stream. */
  predicate Receiving(s: Sys) {
    s.stage == Ready && s.outer != Idle && s.slot == None
  }

  /** What the moves have made of a call, v being what the code makes of the same items. */
  ghost predicate CallDone(s: Sys, d: Sys, v: Driven) {
    && d.s2c == v.rest && d.reports == s.reports + v.reports && d.c2s == s.c2s + Repeat(PC_REQUEST, v.asked)
    && match v.end
       case Starved => Receiving(d) && d.outer == s.outer
       case Broken => d.stage == Failed
       case Delivered(item) =>
         if s.outer == Polling then d.stage == Ready && d.outer == Idle && d.slot == Some(item)
         else if item.Pkt? && s.outer.Calling? && Accepts(s.outer.command, item.payload) then
           d.stage == Ready && d.outer == Idle
         else d.stage == Failed
  }

  lemma EnterMove(t: Target, s: Sys, signal: nat)
    requires Sound(t, s.server) && Receiving(s) && s.s2c != [] && EffectOf(Signals(s.inner), s.s2c[0]) == Enter(signal)
    ensures var d := Next(t, s, Take);
      && Receiving(d) && d.outer == s.outer && d.s2c == s.s2c[1..] && d.reports == s.reports
      && d.c2s == s.c2s + [PC_REQUEST] && Signals(d.inner) == Signals(s.inner) + [signal]
  {
    hide EffectOf, PrintCommand, HasInstr, Waiting;
  }

  lemma LeaveMove(t: Target, s: Sys, report: Report)
    requires Sound(t, s.server) && Receiving(s) && s.s2c != [] && EffectOf(Signals(s.inner), s.s2c[0]) == Leave(report)
    ensures s.inner != []
    ensures var d := Next(t, s, Take);
      && Receiving(d) && d.outer == s.outer && d.s2c == s.s2c[1..] && d.reports == s.reports + [report]
      && d.c2s == s.c2s && Signals(d.inner) == Signals(s.inner)[..|s.inner| - 1]
  {
    assert s.inner != [] by { hide IsStop, ReadReply; }
    hide EffectOf, PrintCommand, HasInstr, Waiting;
  }

  lemma TakesHead(t: Target, s: Sys)
    requires Sound(t, s.server) && Receiving(s) && s.s2c != []
    ensures Next(t, s, Take) == Received(s.(s2c := s.s2c[1..]), s.s2c[0])
  {
    hide Received, HasInstr;
  }

  lemma DeliverMove(t: Target, s: Sys)
    requires Sound(t, s.server) && Receiving(s) && s.s2c != []
    requires EffectOf(Signals(s.inner), s.s2c[0]).Deliver?
    ensures CallDone(s, Next(t, s, Take), Drive(Signals(s.inner), s.s2c))
  {
    TakesHead(t, s);
    assert s.inner == [] by { hide IsStop, ReadReply; }
    assert Drive(Signals(s.inner), s.s2c) == Driven(s.s2c[1..], 0, [], Delivered(s.s2c[0])) by { hide EffectOf; }
    assert s.c2s + Repeat(PC_REQUEST, 0) == s.c2s && s.reports + [] == s.reports;
    hide EffectOf, Next, Drive, HasInstr, Accepts, Waiting, PrintCommand;
  }

  lemma BreakMove(t: Target, s: Sys)
    requires Sound(t, s.server) && Receiving(s) && s.s2c != []
    requires EffectOf(Signals(s.inner), s.s2c[0]).Break?
    ensures CallDone(s, Next(t, s, Take), Drive(Signals(s.inner), s.s2c))
  {
    TakesHead(t, s);
    assert Drive(Signals(s.inner), s.s2c) == Driven(s.s2c[1..], 0, [], Broken) by { hide EffectOf; }
    assert s.c2s + Repeat(PC_REQUEST, 0) == s.c2s && s.reports + [] == s.reports;
    hide EffectOf, Next, Drive, HasInstr, Accepts, Waiting, PrintCommand;
  }

  lemma EnterDone(s: Sys, one: Sys, d: Sys, v: Driven)
    requires CallDone(one, d, v) && one.outer == s.outer && one.reports == s.reports
    requires one.c2s == s.c2s + [PC_REQUEST]
    ensures CallDone(s, d, v.(asked := v.asked + 1))
  {
    hide Accepts;
    RepeatAppend(PC_REQUEST, 1, v.asked);
    assert Repeat(PC_REQUEST, 1) == [PC_REQUEST] + Repeat(PC_REQUEST, 0);
    assert s.c2s + [PC_REQUEST] + Repeat(PC_REQUEST, v.asked) == s.c2s + ([PC_REQUEST] + Repeat(PC_REQUEST, v.asked));
  }

  lemma LeaveDone(s: Sys, one: Sys, d: Sys, v: Driven, report: Report)
    requires CallDone(one, d, v) && one.outer == s.outer && one.reports == s.reports + [report] && one.c2s == s.c2s
    ensures CallDone(s, d, v.(reports := [report] + v.reports))
  {
    hide Accepts, Repeat;
    assert s.reports + [report] + v.reports == s.reports + ([report] + v.reports);
  }

  /**
   The moves of a run by which the client takes items do with them what its receive call does, nested handlers included:
   the same items are left, the same requests sent, the same lines reported, and it ends in the same way.
   */
  lemma {:induction false} TakesAreDrive(t: Target, s: Sys)
    requires Sound(t, s.server) && Receiving(s)
    ensures var v := Drive(Signals(s.inner), s.s2c);
      CallDone(s, Takes(t, s, |s.s2c| - |v.rest|), v)
    decreases |s.s2c|
  {
    hide EffectOf, Next, CallDone, Sound, Signals;
    var v := Drive(Signals(s.inner), s.s2c);
    if s.s2c == [] {
      NothingTaken(s);
    } else {
      var one := Next(t, s, Take);
      match EffectOf(Signals(s.inner), s.s2c[0]) {
        case Enter(signal) =>
          EnterMove(t, s, signal);
          TakesAreDrive(t, one);
          var w := Drive(Signals(one.inner), one.s2c);
          EnterDone(s, one, Takes(t, one, |one.s2c| - |w.rest|), w);
        case Leave(report) =>
          LeaveMove(t, s, report);
          TakesAreDrive(t, one);
          var w := Drive(Signals(one.inner), one.s2c);
          LeaveDone(s, one, Takes(t, one, |one.s2c| - |w.rest|), w, report);
        case Deliver =>
          DeliverMove(t, s);
          assert Takes(t, one, 0) == one;
        case Break =>
          BreakMove(t, s);
          assert Takes(t, one, 0) == one;
      }
    }
  }

  lemma NothingTaken(s: Sys)
    requires Receiving(s) && s.s2c == []
    ensures CallDone(s, s, Driven([], 0, [], Starved))
  {
    assert s.c2s + Repeat(PC_REQUEST, 0) == s.c2s && s.reports + [] == s.reports;
  }

  // ---- polls ----

  /** As long as a call has not ended, the handlers that wait in a run are those that wait in the client's code. */
  lemma {:induction false} TakesAreStack(t: Target, s: Sys, used: seq<Item>)
    requires Sound(t, s.server) && Receiving(s) && used <= s.s2c && Stack(Signals(s.inner), used).Some?
    ensures var d, v := Takes(t, s, |used|), Drive(Signals(s.inner), used);
      && Receiving(d) && d.outer == s.outer && Signals(d.inner) == Stack(Signals(s.inner), used).value
      && d.s2c == s.s2c[|used|..] && d.reports == s.reports + v.reports
      && d.c2s == s.c2s + Repeat(PC_REQUEST, v.asked)
    decreases |used|
  {
    hide EffectOf, Next, Sound, Signals;
    if used == [] {
      assert s.c2s + Repeat(PC_REQUEST, 0) == s.c2s && s.reports + [] == s.reports;
    } else {
      assert used[0] == s.s2c[0] && used[1..] <= s.s2c[1..];
      assert s.s2c[1..][|used| - 1..] == s.s2c[|used|..];
      var one := Next(t, s, Take);
      match EffectOf(Signals(s.inner), used[0]) {
        case Enter(signal) =>
          EnterMove(t, s, signal);
          TakesAreStack(t, one, used[1..]);
          OneMoreAsked(s.c2s, Drive(Signals(one.inner), used[1..]).asked);
        case Leave(report) =>
          LeaveMove(t, s, report);
          TakesAreStack(t, one, used[1..]);
          var later := Drive(Signals(one.inner), used[1..]).reports;
          assert s.reports + [report] + later == s.reports + ([report] + later);
      }
    }
  }

  lemma OneMoreAsked(c2s: seq<Item>, n: nat)
    ensures c2s + [PC_REQUEST] + Repeat(PC_REQUEST, n) == c2s + Repeat(PC_REQUEST, n + 1)
  {
    AskedOnce(c2s, n);
  }

  /** A poll: n items are taken, and then nothing more is found. */
  function PolledOut(t: Target, s: Sys, n: nat): Sys
    requires Sound(t, s.server)
  {
    Next(t, Takes(t, Next(t, s, Poll), n), EndPoll)
  }

  lemma PollMoves(t: Target, s: Sys)
    requires Sound(t, s.server) && s.stage == Ready && s.outer == Idle && s.inner == [] && s.slot == None
    ensures Next(t, s, Poll) == s.(outer := Polling) && Receiving(Next(t, s, Poll)) && Signals(s.inner) == []
    ensures var d := s.(outer := Polling);
      forall e: Sys :: Sound(t, e.server) && Receiving(e) && e.outer == Polling && Signals(e.inner) == [] ==>
        Next(t, e, EndPoll) == e.(outer := Idle) && e.inner == []
  {
    hide HasInstr;
  }

  /**
   The client's poll against the moves of a run, on the same items: if it returns nothing, the moves that take what it
   has taken and then end the poll are possible, and leave, send and report the same; if it returns an item, that is in
   the slot; and otherwise it raises, as it does where the moves have failed or the items run out on a waiting handler.
   */
  lemma PollIsMoves(t: Target, s: Sys, c: Client, buffered: seq<Item>, pieces: seq<Option<seq<Item>>>)
    returns (used: seq<Item>, buffered': seq<Item>, pieces': seq<Option<seq<Item>>>)
    requires Sound(t, s.server) && s.stage == Ready && s.outer == Idle && s.inner == [] && s.slot == None
    requires Carries(c, buffered, pieces) && buffered + Joined(pieces) == s.s2c
    ensures var (e, r) := Receive(c, false);
      if r == Nothing then
        var d, v := PolledOut(t, s, |used|), Drive([], used);
        && d.stage == Ready && d.outer == Idle && d.inner == [] && d.slot == None
        && Carries(e, [], pieces') && d.s2c == Joined(pieces')
        && e.sent == c.sent + Repeat(PC_REQUEST, v.asked) && d.c2s == s.c2s + Repeat(PC_REQUEST, v.asked)
        && e.reports == c.reports + v.reports && d.reports == s.reports + v.reports
      else
        var v := Drive([], s.s2c);
        && Agrees(c, e, r, v, buffered', pieces')
        && CallDone(s.(outer := Polling), Takes(t, s.(outer := Polling), |s.s2c| - |v.rest|), v)
  {
    hide HasInstr, Next, Takes, Drive, Stack, Signals, CallDone, Agrees, Joined, Carries, Repeat, Sound, EffectOf;
    PollMoves(t, s);
    used, buffered', pieces' := PollIsDrive(c, buffered, pieces);
    var polling := s.(outer := Polling);
    if Receive(c, false).1 == Nothing {
      TakesAreStack(t, polling, used);
      assert s.s2c[|used|..] == Joined(pieces');
    } else {
      TakesAreDrive(t, polling);
    }
    hide Receive;
  }

  // ---- connecting ----

  /** A receive call returns the item at the head if that is no stop packet. */
  lemma ReceiveHead(c: Client, buffered: seq<Item>, pieces: seq<Option<seq<Item>>>)
    returns (buffered': seq<Item>, pieces': seq<Option<seq<Item>>>)
    requires Carries(c, buffered, pieces)
    requires var items := buffered + Joined(pieces); items != [] && !IsStopItem(items[0])
    ensures var items := buffered + Joined(pieces); var (d, r) := Receive(c, true);
      && r == Reception.Got(items[0]) && Carries(d, buffered', pieces') && buffered' + Joined(pieces') == items[1..]
      && d.sent == c.sent && d.reports == c.reports
  {
    buffered', pieces' := ReceiveIsDrive(c, buffered, pieces);
    hide Receive, Carries, Joined, IsStop;
    assert Drive([], buffered + Joined(pieces)) ==
      Driven((buffered + Joined(pieces))[1..], 0, [], Delivered((buffered + Joined(pieces))[0]));
    assert c.sent + Repeat(PC_REQUEST, 0) == c.sent && c.reports + [] == c.reports;
  }

  lemma ExchangedOn(c: Client, command: Command, buffered: seq<Item>, pieces: seq<Option<seq<Item>>>, reply: string,
                    rest: seq<Item>)
    returns (buffered': seq<Item>, pieces': seq<Option<seq<Item>>>)
    requires Carries(c, buffered, pieces) && buffered + Joined(pieces) == [Ack, Pkt(reply)] + rest && !IsStop(reply)
    ensures var (d, r) := Exchanged(c, command);
      && r == Some(reply) && Carries(d, buffered', pieces') && buffered' + Joined(pieces') == rest
      && d.sent == c.sent + [Pkt(PrintCommand(command))] && d.reports == c.reports
  {
    hide Receive, Joined, IsStop, PrintItems, Texts, Whole, PrintCommand;
    var asked := c.(sent := c.sent + [Pkt(PrintCommand(command))]);
    buffered', pieces' := ReceiveHead(asked, buffered, pieces);
    assert ([Ack, Pkt(reply)] + rest)[1..] == [Pkt(reply)] + rest;
    hide Carries;
    buffered', pieces' := ReceiveHead(Receive(asked, true).0, buffered', pieces');
    assert ([Pkt(reply)] + rest)[1..] == rest;
  }

  /** The requests and acknowledgements that a run's moves send for connecting. */
  function Greetings(): seq<Item> {
    [Pkt(PrintCommand(AskSupported)), Pkt(PrintCommand(AskMustReplyEmpty)), Ack, Pkt(PrintCommand(AskNoAckMode)), Ack]
  }

  /**
   Connecting, with three acknowledged replies delivered in any pieces of whole items: the client's code succeeds
   exactly if the replies are the ones that the moves of a run go on with, and has then sent just what those moves send.
   */
  lemma ConnectedOn(c: Client, buffered: seq<Item>, pieces: seq<Option<seq<Item>>>, a: string, b: string, d: string)
    requires Carries(c, buffered, pieces) && !IsStop(a) && !IsStop(b) && !IsStop(d)
    requires buffered + Joined(pieces) == [Ack, Pkt(a)] + ([Ack, Pkt(b)] + ([Ack, Pkt(d)] + []))
    ensures Connected(c).1 <==> FeaturesOk(a) && b == "" && d == "OK"
    ensures Connected(c).1 ==> Connected(c).0.sent == c.sent + Greetings() && Connected(c).0.reports == c.reports
  {
    hide Exchanged, Joined, IsStop, FeaturesOk, PrintCommand, PrintItems, Texts, Whole;
    var b1, p1 := ExchangedOn(c, AskSupported, buffered, pieces, a, [Ack, Pkt(b)] + ([Ack, Pkt(d)] + []));
    var c1 := Exchanged(c, AskSupported).0;
    var b2, p2 := ExchangedOn(c1, AskMustReplyEmpty, b1, p1, b, [Ack, Pkt(d)] + []);
    var c2 := Exchanged(c1, AskMustReplyEmpty).0;
    var acked := c2.(sent := c2.sent + [Ack]);
    var b3, p3 := ExchangedOn(acked, AskNoAckMode, b2, p2, d, []);
    hide Carries;
  }

  lemma JoinStep(t: Target, s: Sys, n: nat, item: Item, rest: seq<Item>)
    requires Sound(t, s.server) && s.stage == Joining(n) && s.s2c == [item] + rest
    ensures Next(t, s, Take) == Join(s.(s2c := rest), n, item)
  {
    hide Join, HasInstr;
    assert s.s2c[1..] == rest;
  }

  lemma {:induction false} FailedTakesNothing(t: Target, s: Sys, n: nat)
    requires Sound(t, s.server) && (s.stage == Failed || (s.stage == Ready && s.outer == Idle))
    ensures Takes(t, s, n) == s
  {
    hide HasInstr, Took;
    if n > 0 {
      FailedTakesNothing(t, Next(t, s, Take), n - 1);
    }
  }

  /** Two moves take an acknowledged reply while connecting. */
  lemma ExchangeMoves(t: Target, s: Sys, n: nat, reply: string, rest: seq<Item>)
    requires Sound(t, s.server) && s.stage == Joining(n) && n % 2 == 0 && !IsStop(reply)
    requires s.s2c == [Ack, Pkt(reply)] + rest
    ensures Takes(t, s, 2) == Join(s.(s2c := rest, stage := Joining(n + 1)), n + 1, Pkt(reply))
  {
    hide HasInstr, IsStop, FeaturesOk, PrintCommand;
    assert s.s2c == [Ack] + ([Pkt(reply)] + rest);
    JoinStep(t, s, n, Ack, [Pkt(reply)] + rest);
    var one := Next(t, s, Take);
    JoinStep(t, one, n + 1, Pkt(reply), rest);
    hide Next;
    assert Takes(t, one, 1) == Takes(t, Next(t, one, Take), 0);
  }

  lemma {:induction false} TakesAppend(t: Target, s: Sys, m: nat, n: nat)
    requires Sound(t, s.server)
    ensures Takes(t, s, m + n) == Takes(t, Takes(t, s, m), n)
    decreases m
  {
    hide Next, HasInstr;
    if m > 0 {
      TakesAppend(t, Next(t, s, Take), m - 1, n);
    }
  }

  lemma FirstJoin(s: Sys, a: string)
    requires !IsStop(a)
    ensures Join(s, 1, Pkt(a)) ==
      var d := s.(taken := s.taken + 1);
      if FeaturesOk(a) then Ask(d.(stage := Joining(2)), AskMustReplyEmpty) else d.(stage := Failed)
  {
    hide FeaturesOk, PrintCommand;
  }

  lemma SecondJoin(s: Sys, b: string)
    requires !IsStop(b)
    ensures Join(s, 3, Pkt(b)) ==
      var d := s.(taken := s.taken + 1);
      if b == "" then Ask(d.(stage := Joining(4), c2s := d.c2s + [Ack]), AskNoAckMode) else d.(stage := Failed)
  {
    hide FeaturesOk, PrintCommand;
  }

  lemma ThirdJoin(s: Sys, d: string)
    requires !IsStop(d)
    ensures Join(s, 5, Pkt(d)) ==
      var e := s.(taken := s.taken + 1);
      if d == "OK" then e.(stage := Ready, c2s := e.c2s + [Ack]) else e.(stage := Failed)
  {
    hide FeaturesOk, PrintCommand;
  }

  lemma SentBehind(c2s: seq<Item>)
    ensures c2s + [Pkt(PrintCommand(AskMustReplyEmpty))] + [Ack] + [Pkt(PrintCommand(AskNoAckMode))] + [Ack] ==
      c2s + Greetings()[1..]
  {
    hide PrintCommand;
  }

  /**
   The moves of a run on three acknowledged replies: they connect exactly on the replies on which the client's code
   does, send the same, and leave what follows; otherwise they fail.
   */
  lemma ConnectMoves(t: Target, s: Sys, a: string, b: string, d: string, rest: seq<Item>)
    requires Sound(t, s.server) && s.stage == Joining(0) && s.outer == Idle
    requires !IsStop(a) && !IsStop(b) && !IsStop(d)
    requires s.s2c == [Ack, Pkt(a)] + ([Ack, Pkt(b)] + ([Ack, Pkt(d)] + rest))
    ensures var r := Takes(t, s, 6);
      if FeaturesOk(a) && b == "" && d == "OK" then
        r.stage == Ready && r.s2c == rest && r.c2s == s.c2s + Greetings()[1..]
      else r.stage == Failed
  {
    hide HasInstr, IsStop, FeaturesOk, PrintCommand, Join, Takes, Next;
    TakesAppend(t, s, 2, 4);
    ExchangeMoves(t, s, 0, a, [Ack, Pkt(b)] + ([Ack, Pkt(d)] + rest));
    var one := Takes(t, s, 2);
    FirstJoin(s.(s2c := [Ack, Pkt(b)] + ([Ack, Pkt(d)] + rest), stage := Joining(1)), a);
    if !FeaturesOk(a) {
      FailedTakesNothing(t, one, 4);
      return;
    }
    TakesAppend(t, one, 2, 2);
    ExchangeMoves(t, one, 2, b, [Ack, Pkt(d)] + rest);
    var two := Takes(t, one, 2);
    SecondJoin(one.(s2c := [Ack, Pkt(d)] + rest, stage := Joining(3)), b);
    if b != "" {
      FailedTakesNothing(t, two, 2);
      return;
    }
    ExchangeMoves(t, two, 4, d, rest);
    ThirdJoin(two.(s2c := rest, stage := Joining(5)), d);
    SentBehind(s.c2s);
  }

  /**
   A call's end: the moves have succeeded exactly if the client's code, receiving the same items, is given a packet that
   the call accepts: a number for a register, and `OK` for anything else.
   */
  lemma CallEndsAlike(t: Target, s: Sys, c: Client, buffered: seq<Item>, pieces: seq<Option<seq<Item>>>)
    requires Sound(t, s.server) && Receiving(s) && s.inner == [] && s.outer.Calling?
    requires Carries(c, buffered, pieces) && buffered + Joined(pieces) == s.s2c
    requires Drive([], s.s2c).end != Starved
    ensures var (d, r) := (Takes(t, s, |s.s2c| - |Drive([], s.s2c).rest|), Receive(c, true).1);
      d.stage == Ready <==>
        r.Got? && r.item.Pkt?
        && if s.outer.command.AskRegister? then ReadReply(r.item.payload).Some? else r.item.payload == "OK"
  {
    hide Takes, Drive, Receive, Carries, Joined, Repeat, HasInstr, ReadReply;
    assert Signals(s.inner) == [];
    TakesAreDrive(t, s);
    var b, p := ReceiveIsDrive(c, buffered, pieces);
  }
}

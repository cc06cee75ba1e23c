/** What holds in every run of the client and the stub together. */
module SessionRuns {
  import opened Wrappers
  import opened Text
  import opened Streams
  import opened RegisterBytes
  import opened LlvmIrRegs
  import opened Requests
  import opened Interpreter
  import opened RegisterLayout
  import opened CmdHandler
  import opened ServerStub
  import opened RemoteClient
  import opened ServerAnswers
  import opened Session

  /**
   First in, first out: every reply answers the request of its number, and the requests under way and the replies not
   yet taken are the ones that are due, in order.
   */
  ghost predicate Fifo(t: Target, s: Sys) {
    && |s.at| == |s.answers| <= |s.sent| && AnswersMatch(t, s.at, s.sent, s.answers)
    && s.taken <= |s.answers| && Replies(s.s2c) == s.answers[s.taken..] && s.slot == None
    && (s.life != Crashed ==> Payloads(s.c2s) == Printed(s.sent[|s.answers|..]))
  }

  // ---- connecting ----

  function Greeting(n: nat): seq<Command> {
    [AskSupported, AskMustReplyEmpty, AskNoAckMode][..if n < 3 then n else 3]
  }

  function GreetingReply(c: Command): string {
    match c
    case AskSupported => SUPPORTED
    case AskMustReplyEmpty => ""
    case _ => "OK"
  }

  /** While connecting one request is under way or answered; with the last answer acknowledgements are off. */
  ghost predicate JoinShape(s: Sys, n: nat) {
    var j := n / 2;
    && n < 6 && s.outer == Idle && s.inner == [] && s.matched && !s.stopAhead && s.reports == []
    && s.life == Serving && s.server.exeStopped && s.sent == Greeting(j + 1) && s.taken == j
    && if |s.answers| == j then n % 2 == 0 && s.s2c == [] && !s.server.noAckMode
       else
         && s.s2c == (if n % 2 == 0 then [Ack] else []) + [Pkt(GreetingReply(s.sent[j]))]
         && s.server.noAckMode == (j == 2)
  }

  // ---- connected ----

  /** The waits for a reply are for the replies that are due; as long as all went well, in order. */
  ghost predicate Waits(s: Sys) {
    var w := Waiting(s);
    && |w| == |s.sent| - s.taken
    && (s.outer == Idle ==> s.inner == [])
    && (s.matched ==> (forall j: nat | j < |w| :: w[j] == s.taken + j) && (s.stopAhead <==> |w| >= 2))
    && (!s.matched ==> s.stopAhead)
    && (forall i <- s.inner :: Handles(i.signal) && i.id < |s.sent| && s.sent[i.id] == AskRegister(0))
    && (s.outer.Calling? ==> s.outer.id < |s.sent| && s.sent[s.outer.id] == s.outer.command)
  }

  /** As long as no call has met a stop packet, a stop packet that waits to be read means the program stands still. */
  ghost predicate Still(s: Sys) {
    && (|s.answers| == |s.sent| ==> EndsStopped(s.s2c, s.server))
    && (s.inner != [] ==> s.server.exeStopped)
    && (s.inner != [] && |s.at| == |s.sent| ==> s.at != [] && s.at[|s.at| - 1].interp == s.server.h.interp)
  }

  ghost predicate ReadyShape(s: Sys) {
    && s.taken >= 3 && s.server.noAckMode && Ack !in s.s2c && StopsKnown(s.s2c)
    && Waits(s) && (!s.stopAhead ==> Still(s))
  }

  ghost predicate Good(t: Target, s: Sys) {
    && Sound(t, s.server) && Fifo(t, s) && (!s.matched ==> s.stopAhead)
    && match s.stage
       case Joining(n) => JoinShape(s, n)
       case Ready => ReadyShape(s)
       case Failed => s.taken >= 3
  }

  // ---- lemmas about streams ----

  lemma PrintedSplit(commands: seq<Command>, k: nat)
    requires k <= |commands|
    ensures Printed(commands) == Printed(commands[..k]) + Printed(commands[k..])
  {
    hide PrintCommand;
  }

  /** The requests in the first k items are the first requests under way. */
  lemma RequestsSplit(items: seq<Item>, commands: seq<Command>, k: nat) returns (m: nat)
    requires k <= |items| && Payloads(items) == Printed(commands)
    ensures m <= |commands|
    ensures Payloads(items[..k]) == Printed(commands[..m]) && Payloads(items[k..]) == Printed(commands[m..])
  {
    hide PrintCommand, Payloads;
    PayloadsAppend(items[..k], items[k..]);
    assert items[..k] + items[k..] == items;
    m := |Payloads(items[..k])|;
    PrintedSplit(commands, m);
    assert Printed(commands)[..m] == Payloads(items[..k]);
  }

  lemma {:induction false} OnlyStops(items: seq<Item>)
    requires Replies(items) == [] && Ack !in items
    ensures forall item <- items :: IsStopItem(item)
  {
    hide IsStopItem;
    if items != [] {
      OnlyStops(items[1..]);
    }
  }

  lemma RequestAdded(items: seq<Item>, commands: seq<Command>, c: Command)
    requires Payloads(items) == Printed(commands)
    ensures Payloads(items + [Pkt(PrintCommand(c))]) == Printed(commands + [c])
    ensures Payloads(items + [Ack]) == Printed(commands)
  {
    hide PrintCommand;
    PayloadsAppend(items, [Pkt(PrintCommand(c))]);
    PayloadsAppend(items, [Ack]);
    assert Payloads([Pkt(PrintCommand(c))]) == [PrintCommand(c)];
    assert Payloads([Ack]) == [];
    assert Printed(commands + [c]) == Printed(commands) + [PrintCommand(c)];
  }

  lemma RequestKeepsFifo(t: Target, s: Sys, c: Command)
    requires Fifo(t, s)
    ensures Fifo(t, Ask(s, c))
  {
    hide Answer, HasInstr, Replies, PrintCommand;
    if s.life != Crashed {
      RequestAdded(s.c2s, s.sent[|s.answers|..], c);
      assert (s.sent + [c])[|s.answers|..] == s.sent[|s.answers|..] + [c];
    }
    hide Payloads, Printed;
  }

  // ---- passes of the stub ----

  lemma AnswersExtend(t: Target, at: seq<Handler>, sent: seq<Command>, answers: seq<string>,
                      at': seq<Handler>, answers': seq<string>, m: nat)
    requires AnswersMatch(t, at, sent, answers) && |answers| + m <= |sent|
    requires AnswersMatch(t, at', sent[|answers|..][..m], answers')
    ensures AnswersMatch(t, at + at', sent, answers + answers')
  {
    hide Answer, HasInstr;
  }

  /** The system after the stub has taken up k items and written `wire`. */
  function Advanced(s: Sys, st: Stub, life: Life, found: seq<Handler>, wire: seq<Item>, k: nat): Sys
    requires k <= |s.c2s|
  {
    s.(server := st, life := life, c2s := s.c2s[k..], s2c := s.s2c + wire,
       at := s.at + found, answers := s.answers + Replies(wire))
  }

  lemma FifoAdvances(t: Target, s: Sys, st: Stub, life: Life, found: seq<Handler>, wire: seq<Item>, k: nat, m: nat)
    requires Fifo(t, s) && k <= |s.c2s| && |s.answers| + m <= |s.sent|
    requires AnswersMatch(t, found, s.sent[|s.answers|..][..m], Replies(wire))
    requires life != Crashed ==> |found| == m && Payloads(s.c2s[k..]) == Printed(s.sent[|s.answers|..][m..])
    ensures Fifo(t, Advanced(s, st, life, found, wire, k))
  {
    hide Payloads, Printed, Replies, HasInstr, Answer, Meaning;
    RepliesAppend(s.s2c, wire);
    AnswersExtend(t, s.at, s.sent, s.answers, found, Replies(wire), m);
    assert |Replies(wire)| == |found| <= m;
    hide AnswersMatch;
    assert (s.answers + Replies(wire))[s.taken..] == s.answers[s.taken..] + Replies(wire);
    assert s.sent[|s.answers| + m..] == s.sent[|s.answers|..][m..];
  }

  /** Which of the requests due the pass takes up, and what it does with them. */
  lemma PassTakesUp(t: Target, s: Sys, k: nat) returns (m: nat)
    requires Sound(t, s.server) && Fifo(t, s) && s.life == Serving && k <= |s.c2s|
    ensures |s.answers| + m <= |s.sent|
    ensures var due := s.sent[|s.answers|..];
      && PassAnswers(t, s.server, due[..m], PassItems(t, s.server, s.c2s[..k]), FoundBy(t, s.server, s.c2s[..k]))
      && Payloads(s.c2s[..k]) == Printed(due[..m]) && Payloads(s.c2s[k..]) == Printed(due[m..])
  {
    var due := s.sent[|s.answers|..];
    m := RequestsSplit(s.c2s, due, k);
    PassAnswered(t, s.server, s.c2s[..k], due[..m]);
    hide *;
  }

  lemma PassKeepsFifo(t: Target, s: Sys, k: nat) returns (m: nat)
    requires Sound(t, s.server) && Fifo(t, s) && s.life == Serving && k <= |s.c2s|
    ensures |s.answers| + m <= |s.sent|
    ensures var r, found := PassItems(t, s.server, s.c2s[..k]), FoundBy(t, s.server, s.c2s[..k]);
      && PassAnswers(t, s.server, s.sent[|s.answers|..][..m], r, found)
      && Payloads(s.c2s[..k]) == Printed(s.sent[|s.answers|..][..m])
      && Next(t, s, Pass(k)) == Advanced(s, r.stub, r.life, found, Wire(r.events), k)
      && Fifo(t, Next(t, s, Pass(k)))
  {
    m := PassTakesUp(t, s, k);
    hide PassItems, FoundBy, Sound, Payloads, Printed, Replies, Wire, AllAt, EndsStopped, StopsKnown, AnswersMatch;
    hide Fifo;
    var r, found := PassItems(t, s.server, s.c2s[..k]), FoundBy(t, s.server, s.c2s[..k]);
    FifoAdvances(t, s, r.stub, r.life, found, Wire(r.events), k, m);
  }

  /** With one stop handler at work and no stop packet met by a call, what is due is that handler's request. */
  lemma HandlerIsDue(s: Sys)
    requires Waits(s) && !s.stopAhead && s.inner != []
    ensures s.outer == Polling && |s.inner| == 1 && |s.sent| == s.taken + 1
    ensures s.inner[0].id == s.taken && s.sent[s.taken] == AskRegister(0) && Handles(s.inner[0].signal)
  {
    var w := Waiting(s);
    assert |w| == |s.inner| + if s.outer.Calling? then 1 else 0;
    assert w[0] == s.taken;
    assert s.inner[0] in s.inner;
  }

  /** With a stop handler at work, a pass takes up reads of registers only, and changes nothing in the stub. */
  lemma HandlerKeepsStub(t: Target, s: Sys, r: Served, found: seq<Handler>, m: nat)
    requires Waits(s) && !s.stopAhead && s.inner != [] && s.server.exeStopped && |s.answers| + m <= |s.sent|
    requires s.taken <= |s.answers|
    requires PassAnswers(t, s.server, s.sent[|s.answers|..][..m], r, found)
    ensures r.stub == s.server
  {
    hide AnswersMatch, Wire, Replies, HasInstr, IsStopItem, StopsKnown, AllAt, EndsStopped, Waits;
    HandlerIsDue(s);
    var due := s.sent[|s.answers|..][..m];
    assert |due| <= 1;
    assert due != [] ==> due[0] == s.sent[s.taken];
    assert due == [] || due == [AskRegister(0)];
  }

  lemma EndOfWire(sent: seq<Item>, st: Stub, wire: seq<Item>, st': Stub)
    requires EndsStopped(wire, st')
    requires wire == [] ==> EndsStopped(sent, st) && (st.exeStopped ==> st' == st)
    ensures EndsStopped(sent + wire, st')
  {
    hide IsStopItem;
    if wire == [] {
      assert sent + wire == sent;
    } else {
      assert (sent + wire)[|sent + wire| - 1] == wire[|wire| - 1];
    }
  }

  lemma LastFound(at: seq<Handler>, found: seq<Handler>, i: Interp)
    requires AllAt(found, i) && (found == [] ==> at != [] && at[|at| - 1].interp == i)
    ensures at + found != [] && (at + found)[|at + found| - 1].interp == i
  {
    if found == [] {
      assert at + found == at;
    } else {
      assert (at + found)[|at + found| - 1] == found[|found| - 1] && found[|found| - 1] in found;
    }
  }

  lemma PassKeepsStill(t: Target, s: Sys, r: Served, found: seq<Handler>, k: nat, m: nat)
    requires Sound(t, s.server) && Fifo(t, s) && Waits(s) && !s.stopAhead && Still(s)
    requires k <= |s.c2s| && |s.answers| + m <= |s.sent|
    requires PassAnswers(t, s.server, s.sent[|s.answers|..][..m], r, found)
    ensures Still(Advanced(s, r.stub, r.life, found, Wire(r.events), k))
  {
    var wire, d := Wire(r.events), Advanced(s, r.stub, r.life, found, Wire(r.events), k);
    assert |found| == |Replies(wire)| <= m && |s.at| == |s.answers| && (wire == [] ==> found == []);
    hide AnswersMatch, Wire, Replies, HasInstr, IsStopItem, StopsKnown, Payloads, Printed, AllAt, EndsStopped, Waits;
    if s.inner != [] {
      HandlerKeepsStub(t, s, r, found, m);
      if |d.at| == |d.sent| {
        LastFound(s.at, found, s.server.h.interp);
      }
    }
    if |d.answers| == |d.sent| {
      EndOfWire(s.s2c, s.server, wire, r.stub);
    }
  }

  lemma PassKeepsReady(t: Target, s: Sys, k: nat)
    requires Good(t, s) && s.stage == Ready && s.life == Serving && k <= |s.c2s|
    ensures Good(t, Next(t, s, Pass(k)))
  {
    hide PassItems, FoundBy, Sound, Payloads, Printed, Replies, Wire, AllAt, EndsStopped, AnswersMatch, Fifo, Still;
    hide StopsKnown;
    var m := PassKeepsFifo(t, s, k);
    var r, found := PassItems(t, s.server, s.c2s[..k]), FoundBy(t, s.server, s.c2s[..k]);
    if !s.stopAhead {
      PassKeepsStill(t, s, r, found, k, m);
    }
    KnownThen(s.s2c, Wire(r.events));
  }

  // ---- passes while connecting ----

  lemma {:induction false} AcksOnly(t: Target, st: Stub, items: seq<Item>)
    requires Sound(t, st) && Payloads(items) == []
    ensures ItemsHandled(t, st, items) == Handled(st, [], false)
    decreases |items|
  {
    hide PacketHandled, HasInstr;
    if items != [] {
      AcksOnly(t, st, items[1..]);
    }
  }

  lemma GreetingAnswered(t: Target, st: Stub, c: Command)
    requires Sound(t, st) && !st.noAckMode && c in Greeting(3)
    ensures var r := PacketHandled(t, st, PrintCommand(c));
      && r.stub == st.(noAckMode := c == AskNoAckMode) && !r.raised
      && Wire(r.events) == [Ack, Pkt(GreetingReply(c))]
  {
    hide Dispatch, PrintCommand, HasInstr, StopReply, RegisterLayout.ReadRegister;
    CommandRoundTrip(c);
    PacketWire(t, st, PrintCommand(c));
  }

  ghost predicate Greeted(st: Stub, c: Command, r: Handled) {
    r.stub == st.(noAckMode := c == AskNoAckMode) && !r.raised && Wire(r.events) == [Ack, Pkt(GreetingReply(c))]
  }

  lemma GreetingFirst(t: Target, st: Stub, items: seq<Item>, c: Command)
    requires Sound(t, st) && !st.noAckMode && c in Greeting(3)
    requires items != [] && items[0] == Pkt(PrintCommand(c)) && Payloads(items[1..]) == []
    ensures Greeted(st, c, ItemsHandled(t, st, items))
  {
    GreetingAnswered(t, st, c);
    hide PacketHandled, HasInstr, PrintCommand, Wire, Payloads;
    var first := PacketHandled(t, st, items[0].payload);
    AcksOnly(t, first.stub, items[1..]);
    assert first.events + [] == first.events;
  }

  /** The stub has taken up one greeting, and acknowledgements; the program stays stopped. */
  lemma {:induction false} GreetingItems(t: Target, st: Stub, items: seq<Item>, c: Command)
    requires Sound(t, st) && !st.noAckMode && c in Greeting(3) && Payloads(items) == [PrintCommand(c)]
    ensures Greeted(st, c, ItemsHandled(t, st, items))
    decreases |items|
  {
    hide PacketHandled, HasInstr, PrintCommand, Greeted, Greeting;
    if items[0] == Ack {
      GreetingItems(t, st, items[1..], c);
    } else {
      assert Payloads(items) == [items[0].payload] + Payloads(items[1..]);
      assert Payloads(items)[0] == items[0].payload;
      GreetingFirst(t, st, items, c);
    }
  }

  lemma StoppedPass(t: Target, st: Stub, items: seq<Item>)
    requires Sound(t, st) && ItemsHandled(t, st, items).stub.exeStopped && !ItemsHandled(t, st, items).raised
    ensures var got, r := ItemsHandled(t, st, items), PassItems(t, st, items);
      r == Served(got.stub, got.events, Serving)
  {
    hide ItemsHandled, HasInstr;
    var got := ItemsHandled(t, st, items);
    assert got.events + [] == got.events;
  }

  /** A pass of a stopped stub that receives one greeting or none. */
  lemma JoiningPass(t: Target, st: Stub, items: seq<Item>, commands: seq<Command>)
    requires Sound(t, st) && st.exeStopped && !st.noAckMode && Payloads(items) == Printed(commands)
    requires |commands| <= 1 && forall c <- commands :: c in Greeting(3)
    ensures var r := PassItems(t, st, items);
      && r.life == Serving
      && r.stub == (if commands == [AskNoAckMode] then st.(noAckMode := true) else st)
      && Wire(r.events) == if commands == [] then [] else [Ack, Pkt(GreetingReply(commands[0]))]
  {
    if commands == [] {
      AcksOnly(t, st, items);
      EmptyWire();
    } else {
      assert commands[0] in commands;
      assert Printed(commands) == [PrintCommand(commands[0])];
      GreetingItems(t, st, items, commands[0]);
    }
    StoppedPass(t, st, items);
    hide PassItems, ItemsHandled, Wire, HasInstr, Payloads, Printed, Greeting, GreetingReply;
  }

  lemma QuietPass(t: Target, st: Stub, items: seq<Item>)
    requires Sound(t, st) && st.exeStopped && Payloads(items) == []
    ensures PassItems(t, st, items) == Served(st, [], Serving)
  {
    AcksOnly(t, st, items);
    StoppedPass(t, st, items);
    hide PassItems, ItemsHandled, HasInstr;
  }

  /** Writing the answer to the greeting that is under way. */
  lemma JoinShapeAnswered(s: Sys, n: nat, st: Stub, life: Life, found: seq<Handler>, wire: seq<Item>, k: nat)
    requires JoinShape(s, n) && k <= |s.c2s| && |s.answers| == n / 2
    requires var c := s.sent[n / 2];
      life == Serving && wire == [Ack, Pkt(GreetingReply(c))] && st == s.server.(noAckMode := c == AskNoAckMode)
    ensures JoinShape(Advanced(s, st, life, found, wire, k), n)
  {
    GreetingIsReply(s.sent[n / 2]);
    hide Replies, GreetingReply;
    assert [] + wire == wire;
    assert wire == [Ack] + [wire[1]];
  }

  /** A pass that takes up no request changes nothing. */
  lemma QuietJoining(t: Target, s: Sys, n: nat, k: nat)
    requires Sound(t, s.server) && JoinShape(s, n) && k <= |s.c2s| && Payloads(s.c2s[..k]) == []
    ensures JoinShape(Next(t, s, Pass(k)), n) && Next(t, s, Pass(k)).stage == s.stage
  {
    hide PassItems, FoundBy, Payloads, HasInstr, GreetingReply;
    QuietPass(t, s.server, s.c2s[..k]);
    EmptyWire();
    NoItems(s.server);
    hide Wire, Replies;
    assert s.s2c + [] == s.s2c && s.answers + [] == s.answers;
  }

  lemma PassKeepsJoining(t: Target, s: Sys, n: nat, k: nat)
    requires Good(t, s) && s.stage == Joining(n) && k <= |s.c2s|
    ensures Good(t, Next(t, s, Pass(k)))
  {
    hide PassItems, FoundBy, Sound, Payloads, AnswersMatch, Wire, HasInstr, PassAnswers, GreetingReply, Replies;
    var m := PassKeepsFifo(t, s, k);
    var due := s.sent[|s.answers|..];
    assert |due| <= 1 && m <= |due|;
    hide Fifo;
    if m == 0 {
      assert Printed(due[..0]) == [];
      QuietJoining(t, s, n, k);
    } else {
      assert due[..m] == [s.sent[n / 2]];
      AnswerJoining(t, s, n, k);
    }
    hide Next, JoinShape;
  }

  /** A pass that takes up the greeting under way answers it. */
  lemma AnswerJoining(t: Target, s: Sys, n: nat, k: nat)
    requires Sound(t, s.server) && JoinShape(s, n) && k <= |s.c2s| && |s.answers| == n / 2
    requires Payloads(s.c2s[..k]) == Printed([s.sent[n / 2]])
    ensures JoinShape(Next(t, s, Pass(k)), n) && Next(t, s, Pass(k)).stage == s.stage
  {
    hide PassItems, FoundBy, Payloads, Printed, Wire, HasInstr, GreetingReply, Replies;
    var st, items, c := s.server, s.c2s[..k], s.sent[n / 2];
    var r, found := PassItems(t, st, items), FoundBy(t, st, items);
    assert c in Greeting(3);
    JoiningPass(t, st, items, [c]);
    assert [c] == [AskNoAckMode] <==> c == AskNoAckMode;
    JoinShapeAnswered(s, n, r.stub, r.life, found, Wire(r.events), k);
    assert Next(t, s, Pass(k)) == Advanced(s, r.stub, r.life, found, Wire(r.events), k);
    hide Next, JoinShape, Advanced;
  }

  lemma GreetingIsReply(c: Command)
    ensures Replies([Ack, Pkt(GreetingReply(c))]) == [GreetingReply(c)]
    ensures !IsStopItem(Pkt(GreetingReply(c)))
  {
    assert SUPPORTED[0] == 'Q';
    RepliesAppend([Ack], [Pkt(GreetingReply(c))]);
    RepliesOne(Ack);
    RepliesOne(Pkt(GreetingReply(c)));
    assert [Ack] + [Pkt(GreetingReply(c))] == [Ack, Pkt(GreetingReply(c))];
    hide GreetingReply;
  }

  // ---- the client's moves ----

  lemma SupportedIsOk()
    ensures FeaturesOk(GreetingReply(AskSupported))
  {
    SupportedFeatures();
    hide Split;
  }

  lemma SupportedFeatures()
    ensures Split(SUPPORTED, ';') == ["QStartNoAckMode+", "swbreak+", "hwbreak+"]
  {
    FeatureList(SUPPORTED, "QStartNoAckMode+", "swbreak+", "hwbreak+");
    hide *;
  }

  lemma AckKeepsFifo(t: Target, s: Sys)
    requires Fifo(t, s)
    ensures Fifo(t, s.(c2s := s.c2s + [Ack]))
  {
    hide AnswersMatch, Replies, PrintCommand;
    if s.life != Crashed {
      RequestAdded(s.c2s, s.sent[|s.answers|..], AskSupported);
    }
    hide Payloads, Printed;
  }

  /** The acknowledgement of a greeting. */
  lemma TakeAckJoining(t: Target, s: Sys, n: nat)
    requires Good(t, s) && s.stage == Joining(n) && s.s2c != [] && n % 2 == 0
    ensures Good(t, Next(t, s, Take))
  {
    hide Sound, AnswersMatch, Replies, GreetingReply, Payloads, Printed, FeaturesOk;
    var rest := s.s2c[1..];
    assert s.s2c == [Ack] + rest && rest == [Pkt(GreetingReply(s.sent[n / 2]))];
    RepliesAppend([Ack], rest);
    RepliesOne(Ack);
  }

  /** What is left once the client has taken the reply to a greeting. */
  lemma ReplyTakenJoining(t: Target, s: Sys, n: nat)
    requires Good(t, s) && s.stage == Joining(n) && s.s2c != [] && n % 2 == 1
    ensures s.s2c == [Pkt(GreetingReply(s.sent[n / 2]))] && !IsStopItem(s.s2c[0])
    ensures Fifo(t, s.(s2c := [], taken := n / 2 + 1))
  {
    var c := s.sent[n / 2];
    GreetingIsReply(c);
    RepliesOne(Pkt(GreetingReply(c)));
    hide Sound, AnswersMatch, Replies, Payloads, Printed, FeaturesOk, IsStopItem, GreetingReply;
  }

  lemma FirstReplyMove(t: Target, s: Sys)
    requires Sound(t, s.server) && s.stage == Joining(1) && s.s2c == [Pkt(GreetingReply(AskSupported))]
    requires !IsStopItem(s.s2c[0])
    ensures Next(t, s, Take) == Ask(s.(s2c := [], taken := s.taken + 1, stage := Joining(2)), AskMustReplyEmpty)
  {
    SupportedIsOk();
    hide GreetingReply, FeaturesOk, IsStopItem, PrintCommand, HasInstr;
    assert s.s2c[1..] == [];
  }

  /** The answer to the greeting under way has been written. */
  lemma AnswersTaken(t: Target, s: Sys, n: nat)
    requires Good(t, s) && s.stage == Joining(n) && s.s2c != [] && n % 2 == 1
    ensures |s.answers| == n / 2 + 1 && s.taken == n / 2 && s.server.noAckMode == (n == 5)
  {
    hide AnswersMatch, Replies, Payloads, Printed, Sound, GreetingReply;
  }

  lemma TakeFirstReply(t: Target, s: Sys)
    requires Good(t, s) && s.stage == Joining(1) && s.s2c != []
    ensures Good(t, Next(t, s, Take))
  {
    hide GreetingReply, Sound, FeaturesOk, IsStopItem, PrintCommand, Next, Fifo;
    ReplyTakenJoining(t, s, 1);
    var d := s.(s2c := [], taken := 1, stage := Joining(2));
    FirstReplyMove(t, s);
    FifoOn(t, s.(s2c := [], taken := 1), d);
    RequestKeepsFifo(t, d, AskMustReplyEmpty);
    AnswersTaken(t, s, 1);
    assert Greeting(1) + [AskMustReplyEmpty] == Greeting(2);
  }

  lemma TakeSecondReply(t: Target, s: Sys)
    requires Good(t, s) && s.stage == Joining(3) && s.s2c != []
    ensures Good(t, Next(t, s, Take))
  {
    ReplyTakenJoining(t, s, 3);
    var d := s.(s2c := [], taken := 2, stage := Joining(4));
    hide Sound, AnswersMatch, Replies, Payloads, Printed, FeaturesOk, IsStopItem, PrintCommand;
    AckKeepsFifo(t, d);
    RequestKeepsFifo(t, d.(c2s := d.c2s + [Ack]), AskNoAckMode);
    assert Next(t, s, Take) == Ask(d.(c2s := d.c2s + [Ack]), AskNoAckMode) by { assert s.s2c[1..] == []; }
    assert Greeting(2) + [AskNoAckMode] == Greeting(3);
    hide Fifo, Next;
  }

  lemma TakeLastReply(t: Target, s: Sys)
    requires Good(t, s) && s.stage == Joining(5) && s.s2c != []
    ensures Good(t, Next(t, s, Take))
  {
    ReplyTakenJoining(t, s, 5);
    var d := s.(s2c := [], taken := 3, stage := Ready);
    hide Sound, AnswersMatch, Replies, Payloads, Printed, FeaturesOk, IsStopItem, PrintCommand;
    assert s.s2c[1..] == [];
    AckKeepsFifo(t, d);
    hide Fifo;
  }

  // ---- a connected client takes an item ----

  lemma HeadTaken(t: Target, s: Sys)
    requires Fifo(t, s) && s.s2c != []
    ensures var rest := s.s2c[1..];
      if s.s2c[0].Pkt? && !IsStopItem(s.s2c[0]) then
        && s.taken < |s.answers| && s.s2c[0] == Pkt(s.answers[s.taken])
        && Fifo(t, s.(s2c := rest, taken := s.taken + 1))
      else Fifo(t, s.(s2c := rest))
  {
    var item, rest := s.s2c[0], s.s2c[1..];
    assert [item] + rest == s.s2c;
    RepliesAppend([item], rest);
    RepliesOne(item);
    hide Replies, AnswersMatch, Payloads, Printed, IsStopItem;
    assert item.Pkt? && !IsStopItem(item) ==> Replies(s.s2c)[0] == item.payload;
    assert item.Pkt? && !IsStopItem(item) ==> Replies(s.s2c)[1..] == Replies(rest);
  }

  lemma RestKeeps(s: Sys)
    requires ReadyShape(s) && s.s2c != []
    ensures Ack !in s.s2c[1..] && StopsKnown(s.s2c[1..])
    ensures !s.stopAhead && |s.answers| == |s.sent| ==> EndsStopped(s.s2c[1..], s.server)
  {
    hide IsStopItem, StopSignal;
  }

  /** One more handler waits, for one more request. */
  lemma EnterKeepsWaits(s: Sys, d: Sys, signal: nat)
    requires Waits(s) && s.outer != Idle && Handles(signal)
    requires d == Ask(s, AskRegister(0)).(
        inner := s.inner + [Inner(signal, |s.sent|)], stopAhead := s.stopAhead || Waiting(s) != [])
    ensures Waits(d) && (!d.stopAhead ==> Waiting(s) == [] && !s.stopAhead && d.inner == [Inner(signal, |s.sent|)])
  {
    hide PrintCommand;
    assert Waiting(d) == Waiting(s) + [|s.sent|];
  }

  /** The item is a stop packet: one more handler asks and waits. */
  lemma TakeStop(t: Target, s: Sys)
    requires Good(t, s) && s.stage == Ready && Enabled(s, Take) && IsStopItem(s.s2c[0])
    ensures Good(t, Next(t, s, Take))
  {
    hide Sound, PrintCommand, AnswersMatch, Replies, Payloads, Printed;
    var rest := s.(s2c := s.s2c[1..]);
    HeadTaken(t, s);
    RestKeeps(s);
    RequestKeepsFifo(t, rest, AskRegister(0));
    assert s.s2c[0] in s.s2c;
    hide Fifo;
    var signal := StopSignal(s.s2c[0].payload);
    if Waiting(s) == [] && !s.stopAhead {
      StoppedAtStop(t, s);
    }
    EnterKeepsWaits(rest, Next(t, s, Take), signal);
    hide Waits, Waiting, StopSignal, IsStop, StopsKnown, EndsStopped;
  }

  /** Nothing is due, so everything the stub has written is a stop packet, and the program stands still. */
  lemma StoppedAtStop(t: Target, s: Sys)
    requires Fifo(t, s) && ReadyShape(s) && Waiting(s) == [] && !s.stopAhead && s.s2c != []
    ensures s.server.exeStopped
  {
    hide AnswersMatch, Payloads, Printed;
    assert s.answers[s.taken..] == [];
    OnlyStops(s.s2c);
    assert s.s2c[|s.s2c| - 1] in s.s2c;
  }

  // ---- a reply is taken ----

  lemma WaitingPopped(s: Sys)
    requires s.inner != [] || s.outer.Calling?
    ensures Waiting(s) != [] && Waiting(Reply(s)) == Waiting(s)[..|Waiting(s)| - 1]
    ensures |Waiting(s)| == |s.inner| + if s.outer.Calling? then 1 else 0
  {
    var w := Waiting(s);
    assert s.inner == [] ==> w == [s.outer.id];
  }

  /** The innermost wait has ended. */
  lemma ReplyKeepsWaits(s: Sys)
    requires Waits(s) && s.outer != Idle && (s.inner == [] ==> s.outer.Calling?)
    ensures var d := Reply(s);
      && Waits(d)
      && (s.matched ==> (d.matched <==> |Waiting(s)| == 1))
      && (!d.stopAhead ==> d.inner == [])
  {
    hide Waiting;
    WaitingPopped(s);
    var d := Reply(s);
    assert forall i <- d.inner :: i in s.inner;
  }

  /** A receive call of the connected client is about to take a reply. */
  predicate TakesReply(s: Sys) {
    && s.stage == Ready && s.outer != Idle && s.slot == None
    && s.s2c != [] && s.s2c[0].Pkt? && !IsStopItem(s.s2c[0])
  }

  /** The item is a reply: whatever the innermost wait makes of it, that wait has taken it. */
  lemma ReplyMove(t: Target, s: Sys)
    requires Sound(t, s.server) && TakesReply(s) && (s.inner == [] ==> s.outer.Calling?)
    ensures var d, r := Reply(s.(s2c := s.s2c[1..])), Next(t, s, Take);
      && r == d.(reports := r.reports, stage := r.stage) && (r.stage == Ready || r.stage == Failed)
      && (EffectOf(Signals(s.inner), s.s2c[0]).Leave? ==>
            r.stage == Ready && r.reports == s.reports + [EffectOf(Signals(s.inner), s.s2c[0]).report])
  {
    hide IsStop, ReadReply, HasInstr, Waiting;
  }

  lemma TakeReply(t: Target, s: Sys)
    requires Good(t, s) && TakesReply(s)
    ensures Good(t, Next(t, s, Take))
    ensures s.matched ==> (Next(t, s, Take).matched <==> |Waiting(s)| == 1)
  {
    hide Sound, Next, IsStopItem, Fifo, JoinShape, Waiting, Reply, StopsKnown, Waits, Still;
    assert s.taken >= 3;
    hide ReadyShape;
    HeadTaken(t, s);
    AnswersDue(t, s);
    ReplyKeepsReady(s);
    ReplyMove(t, s);
    var rest, r := s.(s2c := s.s2c[1..]), Next(t, s, Take);
    ReplyIs(rest);
    FifoOn(t, rest.(taken := s.taken + 1), r);
    ReadyOn(Reply(rest), r);
  }

  lemma ReplyIs(s: Sys)
    ensures var d := Reply(s); d.taken == s.taken + 1 && d.server == s.server && d.stopAhead == s.stopAhead
    ensures var d := Reply(s); d == s.(taken := s.taken + 1, matched := d.matched, inner := d.inner, outer := d.outer)
  {
    hide Waiting;
  }

  lemma ReadyOn(a: Sys, b: Sys)
    requires ReadyShape(a) && b.(reports := a.reports, stage := a.stage) == a
    ensures ReadyShape(b)
  {
    hide EndsStopped, StopsKnown;
    assert Waiting(a) == Waiting(b);
    hide Waiting;
  }

  lemma ReplyKeepsReady(s: Sys)
    requires ReadyShape(s) && TakesReply(s) && s.taken < |s.answers| <= |s.sent|
    ensures s.inner == [] ==> s.outer.Calling?
    ensures var d := Reply(s.(s2c := s.s2c[1..]));
      && ReadyShape(d) && (s.matched ==> (d.matched <==> |Waiting(s)| == 1)) && (!d.matched ==> d.stopAhead)
  {
    hide IsStopItem, EndsStopped, StopsKnown;
    RestKeeps(s);
    DueToSome(s);
    var rest := s.(s2c := s.s2c[1..]);
    assert Waiting(rest) == Waiting(s);
    hide Waiting;
    ReplyKeepsWaits(rest);
    ReplyIs(rest);
    hide Waits, Reply;
  }

  /** A reply that has not been taken is due to a call. */
  lemma DueToSome(s: Sys)
    requires Waits(s) && s.taken < |s.answers| <= |s.sent|
    ensures |Waiting(s)| > 0 && (s.inner == [] ==> s.outer.Calling?)
  {
  }

  lemma AnswersDue(t: Target, s: Sys)
    requires Fifo(t, s)
    ensures |s.answers| <= |s.sent|
  {
    hide AnswersMatch, Replies, Payloads, Printed;
  }

  lemma FifoOn(t: Target, a: Sys, b: Sys)
    requires Fifo(t, a) && b.(reports := a.reports, stage := a.stage, outer := a.outer, inner := a.inner,
                              matched := a.matched) == a
    ensures Fifo(t, b)
  {
    hide AnswersMatch, Replies, Payloads, Printed;
  }

  lemma TakeKeepsReady(t: Target, s: Sys)
    requires Good(t, s) && s.stage == Ready
    ensures Good(t, Next(t, s, Take))
  {
    if Enabled(s, Take) {
      assert s.s2c[0] in s.s2c;
      if IsStopItem(s.s2c[0]) {
        TakeStop(t, s);
      } else {
        TakeReply(t, s);
      }
    }
    hide Good;
  }

  lemma CallKeeps(t: Target, s: Sys, c: Command)
    requires Good(t, s) && s.stage == Ready && Enabled(s, Call(c))
    ensures Good(t, Next(t, s, Call(c)))
  {
    hide Sound, PrintCommand, EndsStopped, StopsKnown, Fifo;
    var d := s.(outer := Calling(c, |s.sent|));
    FifoOn(t, s, d);
    AnswersDue(t, s);
    RequestKeepsFifo(t, d, c);
    var r := Next(t, s, Call(c));
    assert Waiting(s) == [] && Waiting(r) == [|s.sent|];
  }

  lemma PollKeeps(t: Target, s: Sys, m: Move)
    requires Good(t, s) && s.stage == Ready && Enabled(s, m) && (m == Poll || m == EndPoll)
    ensures Good(t, Next(t, s, m))
  {
    var r := Next(t, s, m);
    assert Fifo(t, r) by { hide AnswersMatch, Replies, Payloads, Printed; }
    hide Fifo, Sound, EndsStopped, StopsKnown;
    assert Waiting(r) == Waiting(s);
  }

  lemma FailedKeeps(t: Target, s: Sys, m: Move)
    requires Good(t, s) && s.stage == Failed
    ensures Good(t, Next(t, s, m))
  {
    if Enabled(s, m) {
      var m' := PassKeepsFifo(t, s, m.k);
      hide PassItems, FoundBy, Fifo, Sound, PassAnswers, Wire, Replies;
    }
  }

  lemma MoveKeeps(t: Target, s: Sys, m: Move)
    requires Good(t, s)
    ensures Good(t, Next(t, s, m))
  {
    assert Sound(t, s.server);
    hide Good, Next;
    if !Enabled(s, m) {
      Idles(t, s, m);
    } else if s.stage == Failed {
      FailedKeeps(t, s, m);
    } else if s.stage.Joining? {
      JoiningKeeps(t, s, s.stage.n, m);
    } else {
      match m {
        case Pass(k) => PassKeepsReady(t, s, k);
        case Take => TakeKeepsReady(t, s);
        case Call(c) => CallKeeps(t, s, c);
        case Poll => PollKeeps(t, s, m);
        case EndPoll => PollKeeps(t, s, m);
      }
    }
  }

  lemma Idles(t: Target, s: Sys, m: Move)
    requires Sound(t, s.server) && !Enabled(s, m)
    ensures Next(t, s, m) == s
  {
    hide HasInstr;
  }

  lemma JoiningBelow(t: Target, s: Sys)
    requires Good(t, s) && s.stage.Joining?
    ensures s.stage.n < 6
  {
    hide Fifo, Sound;
  }

  lemma JoiningKeeps(t: Target, s: Sys, n: nat, m: Move)
    requires Good(t, s) && s.stage == Joining(n) && Enabled(s, m)
    ensures Good(t, Next(t, s, m))
  {
    hide Good, Next;
    JoiningBelow(t, s);
    if m.Pass? {
      PassKeepsJoining(t, s, n, m.k);
    } else if n % 2 == 0 {
      TakeAckJoining(t, s, n);
    } else if n == 1 {
      TakeFirstReply(t, s);
    } else if n == 3 {
      TakeSecondReply(t, s);
    } else {
      TakeLastReply(t, s);
    }
  }

  lemma StartIsGood(t: Target, args: FnArgs)
    ensures Good(t, Start(t, args))
  {
    var s := Start(t, args);
    hide PrintCommand, InitialHandler;
    assert Payloads(s.c2s) == [PrintCommand(AskSupported)];
    assert Printed(s.sent[0..]) == [PrintCommand(AskSupported)];
    RepliesOne(Ack);
  }

  lemma {:induction false} RunIsGood(t: Target, args: FnArgs, moves: seq<Move>)
    ensures Good(t, Run(t, args, moves))
  {
    if moves == [] {
      StartIsGood(t, args);
    } else {
      RunIsGood(t, args, moves[..|moves| - 1]);
      MoveKeeps(t, Run(t, args, moves[..|moves| - 1]), moves[|moves| - 1]);
    }
    hide Good, Next, Start;
  }

  // ---- main results ----

  /**
   Handshake and conservation: in every run the client fails, if at all, only after it has connected; once connected,
   acknowledgements are off and none is on its way; every request is under way, or answered by a reply that is on its
   way, or answered by a reply that a call has taken, first in, first out; and nothing is ever pushed back.
   */
  lemma Conservation(t: Target, args: FnArgs, moves: seq<Move>)
    ensures var s := Run(t, args, moves);
      && (s.stage == Failed ==> s.taken >= 3)
      && (s.stage == Ready ==> s.server.noAckMode && Ack !in s.s2c)
      && s.slot == None && s.taken <= |s.answers| == |s.at| <= |s.sent|
      && (s.life != Crashed ==> Payloads(s.c2s) == Printed(s.sent[|s.answers|..]))
      && Replies(s.s2c) == s.answers[s.taken..]
      && (s.life != Crashed ==> |s.sent| == |Payloads(s.c2s)| + |Replies(s.s2c)| + s.taken)
      && forall k: nat | k < |s.answers| ::
           HasInstr(t, s.at[k].interp) && Answer(t, s.at[k], Meaning(s.sent[k])).1 == Some(s.answers[k])
  {
    RunIsGood(t, args, moves);
    hide Run, Answer, HasInstr, PrintCommand, Waits, Still, JoinShape, StopsKnown;
  }

  /** While the client is connecting the program stands still, and no stop packet is on its way. */
  lemma ConnectsInPeace(t: Target, args: FnArgs, moves: seq<Move>)
    ensures var s := Run(t, args, moves);
      s.stage.Joining? ==> s.server.exeStopped && forall item <- s.s2c :: !IsStopItem(item)
  {
    RunIsGood(t, args, moves);
    var s := Run(t, args, moves);
    hide Run, Fifo, IsStop, GreetingReply, Sound;
    if s.stage.Joining? && s.s2c != [] {
      GreetingIsReply(s.sent[s.stage.n / 2]);
    }
  }

  /**
   Reply matching: as long as no call has met a stop packet, every reply was taken by the call that had asked for it.
   With all replies matched so far, the next one is matched exactly if one call waits, and several wait exactly if a
   call has met a stop packet; so the first call to meet one makes the next reply go to the wrong call.
   */
  lemma RepliesMatched(t: Target, args: FnArgs, moves: seq<Move>)
    ensures var s := Run(t, args, moves);
      && (!s.stopAhead ==> s.matched)
      && (s.stage == Ready && s.matched ==>
            && (s.stopAhead <==> |Waiting(s)| >= 2)
            && (TakesReply(s) ==> (Next(t, s, Take).matched <==> |Waiting(s)| == 1)))
  {
    RunIsGood(t, args, moves);
    var s := Run(t, args, moves);
    if TakesReply(s) {
      TakeReply(t, s);
    }
    hide Run, Next, Still, StopsKnown, Waiting, IsStopItem, Fifo;
  }

  /**
   As long as no call has met a stop packet, a call is given the reply that the stub's handler gives to that call's own
   request in the state in which it finds the handler.
   */
  lemma CallGetsOwnAnswer(t: Target, args: FnArgs, moves: seq<Move>)
    ensures var s := Run(t, args, moves);
      TakesReply(s) && !s.stopAhead ==>
        && Waiting(s) == [s.taken] && s.taken < |s.at| <= |s.sent| && (s.inner == [] ==> s.outer.Calling?)
        && s.sent[s.taken] == (if s.inner == [] then s.outer.command else AskRegister(0))
        && HasInstr(t, s.at[s.taken].interp)
        && Answer(t, s.at[s.taken], Meaning(s.sent[s.taken])).1 == Some(s.s2c[0].payload)
  {
    RunIsGood(t, args, moves);
    var s := Run(t, args, moves);
    if TakesReply(s) && !s.stopAhead {
      OwnAnswer(t, s);
    }
    hide *;
  }

  lemma OwnAnswer(t: Target, s: Sys)
    requires Good(t, s) && TakesReply(s) && !s.stopAhead
    ensures Waiting(s) == [s.taken] && s.taken < |s.at| <= |s.sent| && (s.inner == [] ==> s.outer.Calling?)
    ensures s.sent[s.taken] == (if s.inner == [] then s.outer.command else AskRegister(0))
    ensures HasInstr(t, s.at[s.taken].interp)
    ensures Answer(t, s.at[s.taken], Meaning(s.sent[s.taken])).1 == Some(s.s2c[0].payload)
  {
    HeadTaken(t, s);
    if s.inner != [] {
      HandlerIsDue(s);
    }
    var w := Waiting(s);
    assert |w| == 1 && w[0] == s.taken;
    hide Sound, Answer, HasInstr, Replies, Payloads, Printed, IsStopItem, Still, StopsKnown;
  }

  /**
   The line a stop is reported with: as long as no call has met a stop packet, the handler that has asked for the
   program counter finishes while the program stands still, and what it writes is the line of the next instruction.
   */
  lemma ReportedLine(t: Target, args: FnArgs, moves: seq<Move>)
    ensures var s := Run(t, args, moves);
      TakesReply(s) && !s.stopAhead && s.inner != [] ==>
        && HasInstr(t, s.server.h.interp) && s.server.exeStopped && Next(t, s, Take).stage == Ready
        && Next(t, s, Take).reports ==
             s.reports + [Report(s.inner[0].signal, NextLine(t, s.server.h.interp))]
  {
    RunIsGood(t, args, moves);
    var s := Run(t, args, moves);
    if TakesReply(s) && !s.stopAhead && s.inner != [] {
      LineReported(t, s);
    }
    hide *;
  }

  /** The line of the next instruction; before the first run, the line of the function. */
  function NextLine(t: Target, i: Interp): (line: nat)
    requires HasInstr(t, i)
    ensures PcValue(t, i) == 8 * line
  {
    if i.instr == None then t.codelineOffset else CodeLine(t.fn, t.codelineOffset, i.instr.value)
  }

  /** A handler that reads eight times a line writes that line. */
  lemma LineLeaves(signal: nat, reply: string, line: nat)
    requires !IsStop(reply) && ReadReply(reply) == Some(8 * line) && Handles(signal)
    ensures EffectOf([signal], Pkt(reply)) == Leave(Report(signal, line))
  {
    hide ReadReply, IsStop;
    assert 8 * line / 8 == line;
  }

  /** The handler's request is the last one sent; its reply was made in the state the program still stands in. */
  lemma FoundStill(s: Sys)
    requires Waits(s) && Still(s) && !s.stopAhead && s.inner != [] && s.taken < |s.at| <= |s.sent|
    ensures |s.inner| == 1 && Handles(s.inner[0].signal) && s.sent[s.taken] == AskRegister(0)
    ensures s.server.exeStopped && s.at[s.taken].interp == s.server.h.interp
  {
    HandlerIsDue(s);
    hide Waits, EndsStopped;
  }

  /** The program counter is read in the state the program still stands in. */
  lemma LineIsRead(t: Target, s: Sys)
    requires Good(t, s) && TakesReply(s) && !s.stopAhead && s.inner != []
    ensures HasInstr(t, s.server.h.interp) && s.server.exeStopped
    ensures |s.inner| == 1 && Handles(s.inner[0].signal)
    ensures ReadReply(s.s2c[0].payload) == Some(8 * NextLine(t, s.server.h.interp))
  {
    OwnAnswer(t, s);
    assert Waits(s) && Still(s) by {
      hide Waits, Still, Fifo;
    }
    hide Good, Sound, Answer, HasInstr, ReadReply, IsStopItem, NextLine, PcValue, Waiting;
    FoundStill(s);
    PcIsRead(t, s.at[s.taken], s.s2c[0].payload);
  }

  lemma LineReported(t: Target, s: Sys)
    requires Good(t, s) && TakesReply(s) && !s.stopAhead && s.inner != []
    ensures HasInstr(t, s.server.h.interp) && s.server.exeStopped
    ensures var r := Next(t, s, Take);
      r.stage == Ready && r.reports == s.reports + [Report(s.inner[0].signal, NextLine(t, s.server.h.interp))]
  {
    LineIsRead(t, s);
    ReplyMove(t, s);
    LineLeaves(s.inner[0].signal, s.s2c[0].payload, NextLine(t, s.server.h.interp));
    hide Good, Next, NextLine, IsStop, ReadReply, EffectOf, HasInstr, Reply;
    assert Signals(s.inner) == [s.inner[0].signal];
  }

  /** The reply to the handler's request reads as eight times the line. */
  lemma PcIsRead(t: Target, h: Handler, reply: string)
    requires HasInstr(t, h.interp) && Answer(t, h, Meaning(AskRegister(0))).1 == Some(reply)
    ensures ReadReply(reply) == Some(PcValue(t, h.interp))
  {
    var v := PcValue(t, h.interp);
    hide SessionRegisters, Hexlify, LittleEndian, ReadReply, Pow;
    assert ToBytes(v, PC_BYTES).Some?;
    NumberRoundTrip(v, PC_BYTES);
  }
}

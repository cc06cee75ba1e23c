/**
 The client and the stub at work together over two streams of items, in every interleaving: the stub takes up any part
 of what has been sent to it in each pass of its loop, and the client takes one item at a time.
 */
module Session {
  import opened Wrappers
  import opened Streams
  import opened RegisterBytes
  import opened Requests
  import opened Interpreter
  import opened CmdHandler
  import opened ServerStub
  import opened RemoteClient
  import opened ServerAnswers

  /** What the connected client is doing; `id` is the number of the request it has sent for it. */
  datatype Outer = Idle | Polling | Calling(command: Command, id: nat)

  /** A stop handler inside that, reading the program counter. */
  datatype Inner = Inner(signal: nat, id: nat)

  /** Connecting, with the number of items taken so far; connected; or ended by an exception. */
  datatype Stage = Joining(n: nat) | Ready | Failed

  /** The whole system; the last fields are history. */
  datatype Sys = Sys(
    server: Stub, life: Life, c2s: seq<Item>, s2c: seq<Item>,
    stage: Stage, outer: Outer, inner: seq<Inner>, slot: Option<Item>, reports: seq<Report>,
    sent: seq<Command>,        // every request sent
    at: seq<Handler>,          // the handler as each answered request found it
    answers: seq<string>,      // every reply the stub has written
    taken: nat,                // how many replies calls have taken
    matched: bool,             // each reply was taken by the call that had asked for it
    stopAhead: bool)           // a stop packet was met by a call that waits for a reply

  datatype Move =
    | Pass(k: nat)             // a pass of the stub's loop that receives k items
    | Take                     // the client takes an item
    | Call(command: Command)   // the client starts a call
    | Poll                     // the client looks for stop packets
    | EndPoll                  // ... and finds nothing more

  function Ask(s: Sys, c: Command): Sys {
    s.(c2s := s.c2s + [Pkt(PrintCommand(c))], sent := s.sent + [c])
  }

  function Signals(inner: seq<Inner>): (r: seq<nat>)
    ensures |r| == |inner|
  {
    seq(|inner|, k requires 0 <= k < |inner| => inner[k].signal)
  }

  /** The numbers of the requests whose replies are waited for, outermost first. */
  function Waiting(s: Sys): seq<nat> {
    (if s.outer.Calling? then [s.outer.id] else [])
    + seq(|s.inner|, k requires 0 <= k < |s.inner| => s.inner[k].id)
  }

  /** The innermost wait for a reply ends with a reply. */
  function Reply(s: Sys): Sys {
    var w := Waiting(s);
    var d := s.(taken := s.taken + 1, matched := s.matched && w != [] && w[|w| - 1] == s.taken);
    if s.inner != [] then d.(inner := s.inner[..|s.inner| - 1]) else d.(outer := Idle)
  }

  /** The replies that calls accept; anything else raises. */
  predicate Accepts(c: Command, reply: string) {
    match c
    case AskRegister(_) => ReadReply(reply).Some?
    case _ => reply == "OK"
  }

  /** One item taken while connecting. */
  function Join(s: Sys, n: nat, item: Item): Sys {
    if n % 2 == 0 then s.(stage := if item == Ack then Joining(n + 1) else Failed)
    else if item == Ack || IsStopItem(item) then s.(stage := Failed)
    else
      var d := s.(taken := s.taken + 1);
      if n == 1 && FeaturesOk(item.payload) then Ask(d.(stage := Joining(2)), AskMustReplyEmpty)
      else if n == 3 && item.payload == "" then Ask(d.(stage := Joining(4), c2s := d.c2s + [Ack]), AskNoAckMode)
      else if n == 5 && item.payload == "OK" then d.(stage := Ready, c2s := d.c2s + [Ack])
      else d.(stage := Failed)
  }

  /** One item taken by a receive call of a connected client. */
  function Received(s: Sys, item: Item): Sys {
    match EffectOf(Signals(s.inner), item)
    case Enter(signal) =>
      Ask(s, AskRegister(0)).(
        inner := s.inner + [Inner(signal, |s.sent|)], stopAhead := s.stopAhead || Waiting(s) != [])
    case Leave(report) => Reply(s).(reports := s.reports + [report])
    case Break => if item == Ack then s.(stage := Failed) else Reply(s).(stage := Failed)
    case Deliver =>
      if s.outer == Polling then s.(outer := Idle, slot := Some(item))
      else if item == Ack then s.(stage := Failed)
      else if s.outer.Calling? && Accepts(s.outer.command, item.payload) then Reply(s)
      else Reply(s).(stage := Failed)
  }

  predicate Enabled(s: Sys, m: Move) {
    match m
    case Pass(k) => s.life == Serving && k <= |s.c2s|
    case Take =>
      if s.stage.Joining? then s.s2c != []
      else s.stage == Ready && s.outer != Idle && (s.slot.Some? || s.s2c != [])
    case Call(c) =>
      s.stage == Ready && s.outer == Idle
      && c != AskSupported && c != AskMustReplyEmpty && c != AskNoAckMode
    case Poll => s.stage == Ready && s.outer == Idle
    case EndPoll => s.stage == Ready && s.outer == Polling && s.inner == []
  }

  /** A pass of the stub's loop that receives k items. */
  function Passed(t: Target, s: Sys, k: nat): (r: Sys)
    requires Sound(t, s.server) && k <= |s.c2s|
    ensures Sound(t, r.server)
  {
    var r := PassItems(t, s.server, s.c2s[..k]);
    var wire := Wire(r.events);
    s.(server := r.stub, life := r.life, c2s := s.c2s[k..], s2c := s.s2c + wire,
       at := s.at + FoundBy(t, s.server, s.c2s[..k]), answers := s.answers + Replies(wire))
  }

  /** The client takes an item. */
  function Took(s: Sys): (r: Sys)
    requires Enabled(s, Take)
    ensures r.server == s.server
  {
    if s.stage.Joining? then Join(s.(s2c := s.s2c[1..]), s.stage.n, s.s2c[0])
    else if s.slot.Some? then Received(s.(slot := None), s.slot.value)
    else Received(s.(s2c := s.s2c[1..]), s.s2c[0])
  }

  /** One step; a move that is not possible changes nothing. */
  function Next(t: Target, s: Sys, m: Move): (r: Sys)
    requires Sound(t, s.server)
    ensures Sound(t, r.server)
  {
    if !Enabled(s, m) then s
    else match m
      case Pass(k) => Passed(t, s, k)
      case Take => Took(s)
      case Call(c) => Ask(s.(outer := Calling(c, |s.sent|)), c)
      case Poll => s.(outer := Polling)
      case EndPoll => s.(outer := Idle)
  }

  /** The client has connected the socket and sent its first request. */
  function Start(t: Target, args: FnArgs): (s: Sys)
    ensures Sound(t, s.server)
  {
    Sys(InitialStub(t, args), Serving, [Pkt(PrintCommand(AskSupported))], [], Joining(0), Idle, [], None, [],
        [AskSupported], [], [], 0, true, false)
  }

  function Run(t: Target, args: FnArgs, moves: seq<Move>): (s: Sys)
    ensures Sound(t, s.server)
  {
    if moves == [] then Start(t, args)
    else Next(t, Run(t, args, moves[..|moves| - 1]), moves[|moves| - 1])
  }
}

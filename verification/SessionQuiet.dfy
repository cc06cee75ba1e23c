/** A call that starts with the program stopped and nothing to read is given its own reply, come what may. */
module SessionQuiet {
  import opened Wrappers
  import opened Streams
  import opened RegisterBytes
  import opened Requests
  import opened Interpreter
  import opened RegisterLayout
  import opened ServerStub
  import opened RemoteClient
  import opened ServerAnswers
  import opened Session
  import opened SessionRuns
  import opened SessionProgress

  /** What a caller can see before the call: connected, no call under way, nothing to read, and the program stopped. */
  predicate AtRest(s: Sys) {
    s.stage == Ready && s.outer == Idle && s.s2c == [] && s.server.exeStopped
  }

  /** The requests of calls, as against those of connecting. */
  predicate IsCall(c: Command) {
    c != AskSupported && c != AskMustReplyEmpty && c != AskNoAckMode
  }

  /** The call waits for the reply of its number, and no stop packet lies ahead of that or can come to lie there. */
  ghost predicate Pending(t: Target, s: Sys, c: Command, id: nat) {
    && Good(t, s) && s.stage == Ready && s.outer == Calling(c, id) && s.inner == []
    && s.taken == id && |s.sent| == id + 1 && s.sent[id] == c
    && (|s.answers| == id ==> s.s2c == [] && s.server.exeStopped)
    && (|s.answers| == id + 1 ==> s.s2c != [] && s.s2c[0] == Pkt(s.answers[id]) && !IsStopItem(s.s2c[0]))
  }

  lemma CallStarts(t: Target, s: Sys, c: Command)
    requires Good(t, s) && AtRest(s) && IsCall(c)
    ensures Pending(t, Next(t, s, Call(c)), c, |s.sent|)
  {
    CallKeeps(t, s, c);
    AllTaken(t, s);
    hide Good, HasInstr, PrintCommand;
  }

  lemma AllTaken(t: Target, s: Sys)
    requires Good(t, s) && AtRest(s)
    ensures s.taken == |s.answers| == |s.sent| && s.slot == None
  {
    hide AnswersMatch, Replies, Payloads, Printed, Sound, StopsKnown, Still;
  }

  /** What is sent for one request and acknowledgements: its reply first, or nothing if it raises. */
  ghost predicate ReplyFirst(t: Target, st: Stub, c: Command, r: Handled)
    requires Sound(t, st)
  {
    var reply, wire := Answer(t, st.h, Meaning(c)).1, Wire(r.events);
    if reply == None then r.raised && wire == [] && r.stub == st
    else !r.raised && wire != [] && wire[0] == Pkt(reply.value)
  }

  lemma PacketReplyFirst(t: Target, st: Stub, c: Command)
    requires Sound(t, st) && st.noAckMode
    ensures ReplyFirst(t, st, c, PacketHandled(t, st, PrintCommand(c)))
  {
    hide Dispatch, PrintCommand, HasInstr, StopReply, Answer;
    CommandRoundTrip(c);
    PacketWire(t, st, PrintCommand(c));
  }

  lemma {:induction false} ItemsReplyFirst(t: Target, st: Stub, items: seq<Item>, c: Command)
    requires Sound(t, st) && st.noAckMode && Payloads(items) == [PrintCommand(c)]
    ensures ReplyFirst(t, st, c, ItemsHandled(t, st, items))
    decreases |items|
  {
    hide PacketHandled, HasInstr, PrintCommand, Answer, Wire;
    if items[0] == Ack {
      ItemsReplyFirst(t, st, items[1..], c);
    } else {
      assert Payloads(items) == [items[0].payload] + Payloads(items[1..]);
      assert Payloads(items)[0] == items[0].payload && Payloads(items[1..]) == [];
      PacketReplyFirst(t, st, c);
      var first := PacketHandled(t, st, PrintCommand(c));
      if !first.raised {
        AcksOnly(t, first.stub, items[1..]);
        assert first.events + [] == first.events;
      }
    }
  }

  lemma PassReplyFirst(t: Target, st: Stub, items: seq<Item>, c: Command)
    requires Sound(t, st) && st.noAckMode && Payloads(items) == [PrintCommand(c)]
    ensures var r, reply := PassItems(t, st, items), Answer(t, st.h, Meaning(c)).1; var wire := Wire(r.events);
      if reply == None then wire == [] && r.stub == st
      else wire != [] && wire[0] == Pkt(reply.value) && !IsStopItem(wire[0])
  {
    hide HasInstr, PrintCommand, Answer, Wire, ItemsHandled, RunOnce, IsStop, Payloads;
    ItemsReplyFirst(t, st, items, c);
    AnswerIsNoStop(t, st.h, c);
    var got := ItemsHandled(t, st, items);
    if !got.raised {
      WireAppend(got.events, RunOnce(t, got.stub).events);
    }
  }

  /** The pass takes up the request: it stays unanswered and the program stopped, or the reply comes first. */
  lemma PassAnswersCall(t: Target, s: Sys, c: Command, id: nat, k: nat)
    requires Pending(t, s, c, id) && |s.answers| == id && Enabled(s, Pass(k))
    ensures var d := Next(t, s, Pass(k));
      && (|d.answers| == id ==> d.s2c == [] && d.server.exeStopped)
      && (|d.answers| == id + 1 ==> d.s2c != [] && d.s2c[0] == Pkt(d.answers[id]) && !IsStopItem(d.s2c[0]))
  {
    hide PassItems, FoundBy, Sound, AnswersMatch, Wire, HasInstr, IsStop, Still, Waits, StopsKnown, PrintCommand;
    var m := PassKeepsFifo(t, s, k);
    var items, due := s.c2s[..k], s.sent[|s.answers|..];
    var r := PassItems(t, s.server, items);
    assert |s.answers| + m <= |s.sent|;
    hide PassAnswers, Fifo, Payloads;
    var wire := Wire(r.events);
    assert s.s2c + wire == wire;
    if m == 0 {
      assert Printed(due[..0]) == [];
      QuietPass(t, s.server, items);
      EmptyWire();
    } else {
      assert due[..m] == [c];
      assert Printed([c]) == [PrintCommand(c)];
      PassReplyFirst(t, s.server, items, c);
    }
    FirstReply(wire, s.answers);
    hide Replies, Printed;
  }

  lemma FirstReply(wire: seq<Item>, answers: seq<string>)
    requires wire == [] || (wire[0].Pkt? && !IsStopItem(wire[0]))
    ensures wire == [] ==> answers + Replies(wire) == answers
    ensures wire != [] ==> |Replies(wire)| > 0 && (answers + Replies(wire))[|answers|] == wire[0].payload
  {
    hide IsStopItem;
  }

  lemma PassPending(t: Target, s: Sys, c: Command, id: nat, k: nat)
    requires Pending(t, s, c, id) && Enabled(s, Pass(k))
    ensures Pending(t, Next(t, s, Pass(k)), c, id)
  {
    PassKeepsReady(t, s, k);
    if |s.answers| == id {
      PassAnswersCall(t, s, c, id, k);
    } else {
      AnswersBelow(t, Next(t, s, Pass(k)));
      PassAddsBehind(t, s, k);
    }
    hide Good, PassItems, FoundBy, Wire, Replies, IsStopItem, HasInstr;
  }

  lemma PassAddsBehind(t: Target, s: Sys, k: nat)
    requires Sound(t, s.server) && Enabled(s, Pass(k)) && s.s2c != []
    ensures var d := Next(t, s, Pass(k)); d.s2c != [] && d.s2c[0] == s.s2c[0] && s.answers <= d.answers
  {
    hide PassItems, FoundBy, Wire, Replies, HasInstr;
  }

  lemma AnswersBelow(t: Target, s: Sys)
    requires Good(t, s)
    ensures s.taken <= |s.answers| <= |s.sent| && s.slot == None
  {
    hide AnswersMatch, Replies, Payloads, Printed, Sound, JoinShape, ReadyShape;
  }

  /** The call takes its own reply, and goes on or raises as that reply says. */
  ghost predicate TakesOwn(t: Target, s: Sys, c: Command, id: nat) {
    && Pending(t, s, c, id) && id < |s.answers| == |s.at| && s.s2c != [] && s.s2c[0] == Pkt(s.answers[id])
    && HasInstr(t, s.at[id].interp) && Answer(t, s.at[id], Meaning(c)).1 == Some(s.answers[id])
    && var d := Next(t, s, Take);
       d.taken == id + 1 && d.matched == s.matched && (d.stage == Ready <==> Accepts(c, s.answers[id]))
  }

  lemma TakePending(t: Target, s: Sys, c: Command, id: nat)
    requires Pending(t, s, c, id) && s.s2c != []
    ensures TakesOwn(t, s, c, id)
  {
    AnswersBelow(t, s);
    AnswerOfCall(t, s, id);
    OwnReplyTaken(t, s, c, id);
    hide Good, Next, Answer, HasInstr, IsStopItem, Accepts;
  }

  lemma AnswerOfCall(t: Target, s: Sys, id: nat)
    requires Good(t, s) && id < |s.answers| && id < |s.sent|
    ensures |s.at| == |s.answers| && HasInstr(t, s.at[id].interp)
    ensures Answer(t, s.at[id], Meaning(s.sent[id])).1 == Some(s.answers[id])
  {
    hide Answer, HasInstr, Replies, Payloads, Printed, JoinShape, ReadyShape;
  }

  lemma OwnReplyTaken(t: Target, s: Sys, c: Command, id: nat)
    requires Sound(t, s.server) && s.stage == Ready && s.outer == Calling(c, id) && s.inner == [] && s.slot == None
    requires s.taken == id && s.s2c != [] && s.s2c[0].Pkt? && !IsStopItem(s.s2c[0])
    ensures var d := Next(t, s, Take);
      d.taken == id + 1 && d.matched == s.matched && (d.stage == Ready <==> Accepts(c, s.s2c[0].payload))
  {
    assert Waiting(s) == [id];
    assert Waiting(s.(s2c := s.s2c[1..])) == [id];
    hide Waiting, IsStop, Accepts, HasInstr, PrintCommand;
  }

  lemma StaysPending(t: Target, s: Sys, m: Move, c: Command, id: nat)
    requires Pending(t, s, c, id)
    ensures Pending(t, Next(t, s, m), c, id) || (m == Take && TakesOwn(t, s, c, id))
  {
    if m.Pass? && Enabled(s, m) {
      PassPending(t, s, c, id, m.k);
    } else if m == Take && s.s2c != [] {
      TakePending(t, s, c, id);
    } else {
      AnswersBelow(t, s);
      assert Next(t, s, m) == s by { hide Good, HasInstr, PassItems, FoundBy; }
    }
    hide Pending, TakesOwn;
  }

  lemma {:induction false} CallSettles(t: Target, args: FnArgs, before: seq<Move>, more: seq<Move>, c: Command, id: nat)
    requires Pending(t, Run(t, args, before), c, id)
    ensures Pending(t, Run(t, args, before + more), c, id)
      || exists k: nat :: k < |more| && more[k] == Take && TakesOwn(t, Run(t, args, before + more[..k]), c, id)
    decreases |more|
  {
    hide Pending, TakesOwn, Run, Next;
    if more == [] {
      assert before + more == before;
    } else {
      var n := |more| - 1;
      var front := more[..n];
      CallSettles(t, args, before, front, c, id);
      if Pending(t, Run(t, args, before + front), c, id) {
        StaysPending(t, Run(t, args, before + front), more[n], c, id);
        RunNext(t, args, before + front, more[n]);
        assert before + front + [more[n]] == before + more;
      } else {
        var k: nat :| k < n && front[k] == Take && TakesOwn(t, Run(t, args, before + front[..k]), c, id);
        assert front[..k] == more[..k] && front[k] == more[k];
      }
    }
  }

  /**
   A call that starts at rest is given its own reply in every continuation: whatever moves follow, either it still
   waits, with no stop packet ahead of its reply, or it has taken the reply that the stub made to its own request.
   */
  lemma QuietCallGetsItsReply(t: Target, args: FnArgs, moves: seq<Move>, c: Command, more: seq<Move>)
    requires AtRest(Run(t, args, moves)) && IsCall(c)
    ensures var id, begun := |Run(t, args, moves).sent|, moves + [Call(c)];
      Pending(t, Run(t, args, begun + more), c, id)
      || exists k: nat :: k < |more| && more[k] == Take && TakesOwn(t, Run(t, args, begun + more[..k]), c, id)
  {
    RunIsGood(t, args, moves);
    hide Pending, TakesOwn, Run, Next;
    CallStarts(t, Run(t, args, moves), c);
    RunNext(t, args, moves, Call(c));
    CallSettles(t, args, moves + [Call(c)], more, c, |Run(t, args, moves).sent|);
  }
}

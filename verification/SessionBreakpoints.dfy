/** The stub's breakpoints in every run of the client and the stub together, whatever is under way in between. */
module SessionBreakpoints {
  import opened Wrappers
  import opened Streams
  import opened Requests
  import opened Interpreter
  import opened RegisterLayout
  import opened CmdHandler
  import opened ServerStub
  import opened RemoteClient
  import opened ServerAnswers
  import opened Session
  import opened SessionRuns

  /** The addresses set after these requests, answered in this order. */
  function After(addresses: set<nat>, requests: seq<Command>): set<nat> {
    if requests == [] then addresses
    else
      var front := After(addresses, requests[..|requests| - 1]);
      match requests[|requests| - 1]
      case BreakInsert(address) => front + {address}
      case BreakDelete(address) => front - {address}
      case _ => front
  }

  lemma {:induction false} AfterAppend(addresses: set<nat>, a: seq<Command>, b: seq<Command>)
    ensures After(addresses, a + b) == After(After(addresses, a), b)
    decreases |b|
  {
    if b == [] {
      assert a + b == a;
    } else {
      var n := |b| - 1;
      assert (a + b)[..|a| + n] == a + b[..n];
      AfterAppend(addresses, a, b[..n]);
    }
  }

  /** Each handler of the list has the addresses that the requests before its own have set. */
  ghost predicate Follow(found: seq<Handler>, addresses: set<nat>, requests: seq<Command>) {
    |found| <= |requests| && forall k: nat | k < |found| :: found[k].breakpoints == After(addresses, requests[..k])
  }

  lemma OneRequest(t: Target, st: Stub, c: Command)
    requires Sound(t, st)
    ensures PacketHandled(t, st, PrintCommand(c)).stub.h.breakpoints ==
      if PacketHandled(t, st, PrintCommand(c)).raised then st.h.breakpoints else After(st.h.breakpoints, [c])
  {
    hide Dispatch, PrintCommand, HasInstr;
    CommandRoundTrip(c);
    assert [c][..0] == [];
    assert After(st.h.breakpoints, []) == st.h.breakpoints;
  }

  lemma FollowNext(h: Handler, c: Command, found: seq<Handler>, addresses: set<nat>, requests: seq<Command>)
    requires h.breakpoints == addresses && Follow(found, After(addresses, [c]), requests)
    ensures Follow([h] + found, addresses, [c] + requests)
    ensures After(addresses, ([c] + requests)[..|found| + 1]) == After(After(addresses, [c]), requests[..|found|])
  {
    forall k: nat | k < |found| + 1
      ensures ([h] + found)[k].breakpoints == After(addresses, ([c] + requests)[..k])
    {
      if k == 0 {
        assert ([c] + requests)[..0] == [];
      } else {
        assert ([c] + requests)[..k] == [c] + requests[..k - 1];
        AfterAppend(addresses, [c], requests[..k - 1]);
      }
    }
    assert ([c] + requests)[..|found| + 1] == [c] + requests[..|found|];
    AfterAppend(addresses, [c], requests[..|found|]);
  }

  lemma {:induction false} ItemsFollow(t: Target, st: Stub, items: seq<Item>, requests: seq<Command>)
    requires Sound(t, st) && Payloads(items) == Printed(requests)
    ensures var found := FoundBy(t, st, items);
      && Follow(found, st.h.breakpoints, requests)
      && ItemsHandled(t, st, items).stub.h.breakpoints == After(st.h.breakpoints, requests[..|found|])
    decreases |items|
  {
    hide PacketHandled, PrintCommand, HasInstr, After;
    AfterNone(st.h.breakpoints, requests);
    if items == [] {
    } else if items[0] == Ack {
      ItemsFollow(t, st, items[1..], requests);
    } else {
      FirstPayload(items, requests);
      var c, first := requests[0], PacketHandled(t, st, PrintCommand(requests[0]));
      OneRequest(t, st, c);
      if !first.raised {
        ItemsFollow(t, first.stub, items[1..], requests[1..]);
        var found := FoundBy(t, first.stub, items[1..]);
        FollowNext(st.h, c, found, st.h.breakpoints, requests[1..]);
        assert [c] + requests[1..] == requests;
        hide Follow;
      }
    }
  }

  lemma AfterNone(addresses: set<nat>, requests: seq<Command>)
    ensures After(addresses, requests[..0]) == addresses
  {
  }

  lemma PassFollows(t: Target, st: Stub, items: seq<Item>, requests: seq<Command>)
    requires Sound(t, st) && Payloads(items) == Printed(requests)
    ensures var found := FoundBy(t, st, items);
      && Follow(found, st.h.breakpoints, requests)
      && PassItems(t, st, items).stub.h.breakpoints == After(st.h.breakpoints, requests[..|found|])
  {
    ItemsFollow(t, st, items, requests);
    hide ItemsHandled, FoundBy, Follow, After, Payloads, Printed, HasInstr;
    LoopKeeps(t, ItemsHandled(t, st, items).stub);
    hide RunOnce;
  }

  lemma LoopKeeps(t: Target, st: Stub)
    requires Sound(t, st)
    ensures RunOnce(t, st).stub.h.breakpoints == st.h.breakpoints
  {
    hide HasInstr;
  }

  ghost predicate Traced(s: Sys) {
    && |s.at| <= |s.sent| && Follow(s.at, {}, s.sent)
    && s.server.h.breakpoints == After({}, s.sent[..|s.at|])
  }

  lemma FollowAppend(at: seq<Handler>, found: seq<Handler>, sent: seq<Command>, m: nat)
    requires Follow(at, {}, sent) && |at| + m <= |sent|
    requires Follow(found, After({}, sent[..|at|]), sent[|at|..][..m])
    ensures Follow(at + found, {}, sent)
    ensures After({}, sent[..|at| + |found|]) == After(After({}, sent[..|at|]), sent[|at|..][..m][..|found|])
  {
    hide After;
    var due := sent[|at|..][..m];
    forall k: nat | k < |at| + |found|
      ensures (at + found)[k].breakpoints == After({}, sent[..k])
    {
      if k >= |at| {
        PrefixSplit(sent, |at|, m, k - |at|);
        AfterAppend({}, sent[..|at|], due[..k - |at|]);
      }
    }
    PrefixSplit(sent, |at|, m, |found|);
    AfterAppend({}, sent[..|at|], due[..|found|]);
  }

  lemma PrefixSplit(sent: seq<Command>, a: nat, m: nat, k: nat)
    requires k <= m && a + m <= |sent|
    ensures sent[..a + k] == sent[..a] + sent[a..][..m][..k]
  {
  }

  lemma PassTraced(t: Target, s: Sys, k: nat)
    requires Good(t, s) && Traced(s) && Enabled(s, Pass(k))
    ensures Traced(Next(t, s, Pass(k)))
  {
    hide PassItems, FoundBy, Sound, Payloads, Printed, Replies, Wire, AnswersMatch, Follow, After, PassAnswers;
    var m := PassKeepsFifo(t, s, k);
    var due := s.sent[|s.answers|..][..m];
    PassFollows(t, s.server, s.c2s[..k], due);
    FollowAppend(s.at, FoundBy(t, s.server, s.c2s[..k]), s.sent, m);
  }

  predicate OnlyAsks(s: Sys, r: Sys) {
    r.server == s.server && r.at == s.at && s.sent <= r.sent
  }

  lemma JoinAsks(s: Sys, n: nat, item: Item)
    ensures OnlyAsks(s, Join(s, n, item))
  {
    hide PrintCommand, IsStopItem, FeaturesOk;
  }

  lemma ReceivedAsks(s: Sys, item: Item)
    ensures OnlyAsks(s, Received(s, item))
  {
    hide PrintCommand, EffectOf, Waiting, Signals, Accepts;
  }

  /** The client's moves leave the stub alone and only ever add requests. */
  lemma OtherMoves(t: Target, s: Sys, m: Move)
    requires Sound(t, s.server) && !m.Pass?
    ensures OnlyAsks(s, Next(t, s, m))
  {
    hide HasInstr, PrintCommand, Join, Received;
    if m == Take && Enabled(s, m) {
      if s.stage.Joining? {
        JoinAsks(s.(s2c := s.s2c[1..]), s.stage.n, s.s2c[0]);
      } else if s.slot.Some? {
        ReceivedAsks(s.(slot := None), s.slot.value);
      } else {
        ReceivedAsks(s.(s2c := s.s2c[1..]), s.s2c[0]);
      }
    }
  }

  lemma TracedOn(s: Sys, r: Sys)
    requires Traced(s) && OnlyAsks(s, r)
    ensures Traced(r)
  {
    hide After;
    assert forall k: nat | k <= |s.at| :: r.sent[..k] == s.sent[..k];
  }

  lemma {:induction false} RunIsTraced(t: Target, args: FnArgs, moves: seq<Move>)
    ensures Traced(Run(t, args, moves))
  {
    if moves == [] {
      assert Start(t, args).server.h.breakpoints == {};
      AfterNone({}, [AskSupported]);
    } else {
      var front, m := moves[..|moves| - 1], moves[|moves| - 1];
      var s := Run(t, args, front);
      RunIsTraced(t, args, front);
      RunIsGood(t, args, front);
      hide Good, Traced, Next, Start;
      if !Enabled(s, m) {
        assert Next(t, s, m) == s by { Idles(t, s, m); }
      } else if m.Pass? {
        PassTraced(t, s, m.k);
      } else {
        OtherMoves(t, s, m);
        TracedOn(s, Next(t, s, m));
      }
    }
  }

  /**
   In every run the stub's breakpoints are what the requests it has answered so far have set and removed, in the order
   in which the client sent them; and a request to remove a breakpoint is answered by an error exactly if the requests
   before it have left its address unset.
   */
  lemma BreakpointsFollowRequests(t: Target, args: FnArgs, moves: seq<Move>)
    ensures var s := Run(t, args, moves);
      && |s.answers| == |s.at| <= |s.sent|
      && s.server.h.breakpoints == After({}, s.sent[..|s.at|])
      && forall k: nat | k < |s.answers| && s.sent[k].BreakDelete? ::
           s.answers[k] == if s.sent[k].address in After({}, s.sent[..k]) then "OK" else "E01"
  {
    RunIsTraced(t, args, moves);
    Conservation(t, args, moves);
    var s := Run(t, args, moves);
    hide Run, After, HasInstr, Payloads, Printed, Replies, RegisterLayout.ReadRegister;
  }
}

/** Connecting cannot get stuck. */
module SessionProgress {
  import opened RegisterBytes
  import opened Requests
  import opened Interpreter
  import opened RegisterLayout
  import opened ServerStub
  import opened RemoteClient
  import opened ServerAnswers
  import opened Session
  import opened SessionRuns

  lemma RunNext(t: Target, args: FnArgs, moves: seq<Move>, m: Move)
    ensures Run(t, args, moves + [m]) == Next(t, Run(t, args, moves), m)
  {
    hide Next, Start;
    assert (moves + [m])[..|moves|] == moves;
  }

  /** A pass that takes up everything sent answers the request under way. */
  lemma PassAnswersAll(t: Target, s: Sys)
    requires Good(t, s) && s.stage.Joining? && s.s2c == []
    ensures var r := Next(t, s, Pass(|s.c2s|)); Good(t, r) && r.stage == s.stage && r.s2c != []
  {
    PassKeepsJoining(t, s, s.stage.n, |s.c2s|);
    var r := Next(t, s, Pass(|s.c2s|));
    assert r.stage == s.stage && r.c2s == [] && r.sent == s.sent by { PassMoves(t, s); }
    hide Next, AnswersMatch, Replies, Sound, GreetingReply;
    assert Payloads([]) == [];
    assert |Printed(r.sent[|r.answers|..])| == |r.sent| - |r.answers|;
  }

  lemma PassMoves(t: Target, s: Sys)
    requires Sound(t, s.server) && s.life == Serving
    ensures var r := Next(t, s, Pass(|s.c2s|)); r.stage == s.stage && r.c2s == [] && r.sent == s.sent
  {
    hide PassItems, FoundBy, HasInstr;
  }

  lemma TakeAdvances(t: Target, s: Sys)
    requires Good(t, s) && s.stage.Joining? && s.s2c != []
    ensures var r := Next(t, s, Take);
      Good(t, r) && r.stage == if s.stage.n == 5 then Ready else Joining(s.stage.n + 1)
  {
    MoveKeeps(t, s, Take);
    JoinStages(t, s);
    hide Next, Fifo, Sound;
  }

  lemma JoinStages(t: Target, s: Sys)
    requires Good(t, s) && s.stage.Joining? && s.s2c != []
    ensures var n, r := s.stage.n, Next(t, s, Take);
      && (r.stage == Failed || r.stage == if n == 5 then Ready else Joining(n + 1))
      && (n < 5 ==> r.taken < 3) && (n == 5 ==> r.stage == Ready)
  {
    hide Fifo, Sound, PrintCommand, FeaturesOk, IsStop, HasInstr;
    if s.stage.n == 5 {
      NoStopOk();
    }
  }

  lemma NoStopOk()
    ensures !IsStop("OK")
  {
  }

  lemma Fills(t: Target, args: FnArgs, moves: seq<Move>) returns (more: seq<Move>)
    requires Good(t, Run(t, args, moves)) && Run(t, args, moves).stage.Joining?
    ensures var r := Run(t, args, moves + more);
      Good(t, r) && r.stage == Run(t, args, moves).stage && r.s2c != []
  {
    hide Good, Next, Start, Run;
    var s := Run(t, args, moves);
    if s.s2c == [] {
      PassAnswersAll(t, s);
      RunNext(t, args, moves, Pass(|s.c2s|));
      more := [Pass(|s.c2s|)];
    } else {
      more := [];
      assert moves + [] == moves;
    }
  }

  lemma Advances(t: Target, args: FnArgs, moves: seq<Move>) returns (more: seq<Move>)
    requires Good(t, Run(t, args, moves)) && Run(t, args, moves).stage.Joining?
    ensures var n := Run(t, args, moves).stage.n;
      Run(t, args, moves + more).stage == if n == 5 then Ready else Joining(n + 1)
  {
    hide Good, Next, Start, Run;
    var first := Fills(t, args, moves);
    TakeAdvances(t, Run(t, args, moves + first));
    RunNext(t, args, moves + first, Take);
    more := first + [Take];
    assert moves + first + [Take] == moves + more;
  }

  lemma {:induction false} ConnectFrom(t: Target, args: FnArgs, moves: seq<Move>, n: nat) returns (more: seq<Move>)
    requires n < 6 && Run(t, args, moves).stage == Joining(n)
    ensures Run(t, args, moves + more).stage == Ready
    decreases 6 - n
  {
    hide Good, Next, Start, Run;
    RunIsGood(t, args, moves);
    more := Advances(t, args, moves);
    if n < 5 {
      var rest := ConnectFrom(t, args, moves + more, n + 1);
      assert moves + more + rest == moves + (more + rest);
      more := more + rest;
    }
  }

  /** From every state in which the client is still connecting, there are moves after which it is connected. */
  lemma CanConnect(t: Target, args: FnArgs, moves: seq<Move>) returns (more: seq<Move>)
    ensures Run(t, args, moves).stage.Joining? ==> Run(t, args, moves + more).stage == Ready
  {
    hide Good, Next, Start, Run;
    more := [];
    var s := Run(t, args, moves);
    if s.stage.Joining? {
      RunIsGood(t, args, moves);
      JoiningBelow(t, s);
      more := ConnectFrom(t, args, moves, s.stage.n);
    }
  }
}

/** Where the program stops after `c` and after `s`. */
module ContinueStep {
  import opened Wrappers
  import opened RemoteMessages
  import opened Streams
  import opened Requests
  import opened Digits
  import opened Interpreter
  import opened RegisterLayout
  import opened CmdHandler
  import opened ServerStub
  import opened StubRuns

  // ---- one command on the wire ----

  lemma CommandIsFramed(c: Command)
    ensures '#' !in PrintCommand(c)
  {
    assert !IsLowerHex('#');
    hide Print, IsLowerHex;
    match c {
      case BreakInsert(address) => assert '#' !in Print(address, 16);
      case BreakDelete(address) => assert '#' !in Print(address, 16);
      case AskRegister(index) => assert '#' !in Print(index, 16);
      case AskSupported =>
        assert '#' !in "qSupported:";
        assert '#' !in "multiprocess+;swbreak+;hwbreak+";
      case _ =>
    }
  }

  lemma ScanOneFrame(payload: string)
    requires '#' !in payload
    ensures Scan(PacketReply(payload)) == Scanned([Pkt(payload)], Drained)
  {
    ScanFirst(Pkt(payload), "");
    assert Scan("") == Scanned([], Drained);
    hide PacketReply, Scan;
    assert PacketReply(payload) + "" == PacketReply(payload);
  }

  lemma OneFrame(t: Target, st: Stub, payload: string)
    requires Sound(t, st) && '#' !in payload
    ensures DataHandled(t, st, PacketReply(payload)) == PacketHandled(t, st, payload)
  {
    ScanOneFrame(payload);
    hide PacketReply, Scan, PacketHandled, HasInstr;
    var first := PacketHandled(t, st, payload);
    assert [Pkt(payload)][1..] == [];
    assert ItemsHandled(t, first.stub, []) == Handled(first.stub, [], false);
    assert first.events + [] == first.events;
  }

  /** A command that arrives alone in a pass is handled as the request it means. */
  lemma CommandHandled(t: Target, st: Stub, c: Command)
    requires Sound(t, st)
    ensures DataHandled(t, st, PacketReply(PrintCommand(c))) == PacketHandled(t, st, PrintCommand(c))
    ensures Dispatch(PrintCommand(c)) == Meaning(c)
  {
    CommandIsFramed(c);
    OneFrame(t, st, PrintCommand(c));
    CommandRoundTrip(c);
    hide *;
  }

  /** The stub once it has taken up `s` or `c`, and what it has sent for it. */
  function Started(st: Stub, c: Command): Stub {
    st.(exeStopped := false, h := st.h.(limit := if c == SendStep then Finite(1) else Infinite))
  }

  function StartEvents(st: Stub, c: Command): seq<Event> {
    [Got(Meaning(c), st.exeStopped)] + (if st.noAckMode then [] else [Sent(Ack)]) + [Sent(Pkt("OK"))]
  }

  lemma StartHandled(t: Target, st: Stub, c: Command)
    requires Sound(t, st) && (c == SendStep || c == SendContinue)
    ensures DataHandled(t, st, PacketReply(PrintCommand(c))) == Handled(Started(st, c), StartEvents(st, c), false)
  {
    CommandHandled(t, st, c);
    hide DataHandled, PrintCommand, Dispatch, PacketReply, HasInstr;
    assert StartEvents(st, c) + [] == StartEvents(st, c);
  }

  // ---- passes without packets ----

  /** What arrives: one frame in the first pass, nothing in the others. */
  function Quiet(frame: string, passes: nat): (arrivals: seq<Option<string>>)
    requires passes > 0
    ensures |arrivals| == passes
  {
    if passes == 1 then [Some(frame)] else Quiet(frame, passes - 1) + [None]
  }

  /** The session after `c` has arrived in one pass and nothing in the others. */
  function After(t: Target, st: Stub, c: Command, passes: nat): (r: Served)
    requires Sound(t, st) && passes > 0
    ensures Sound(t, r.stub)
  {
    Serve(t, st, Quiet(PacketReply(PrintCommand(c)), passes))
  }

  /** One more pass of the loop. */
  function Pass(t: Target, before: Served): Served
    requires Sound(t, before.stub)
  {
    if before.life != Serving then before
    else
      var ran := RunOnce(t, before.stub);
      Served(ran.stub, before.events + ran.events, ran.life)
  }

  lemma AfterNext(t: Target, st: Stub, c: Command, passes: nat)
    requires Sound(t, st) && passes > 0
    ensures After(t, st, c, passes + 1) == Pass(t, After(t, st, c, passes))
  {
    hide RunOnce, DataHandled, HasInstr, PrintCommand, PacketReply;
    var frame := PacketReply(PrintCommand(c));
    var arrivals := Quiet(frame, passes + 1);
    assert arrivals[..passes] == Quiet(frame, passes);
    var before := Serve(t, st, arrivals[..passes]);
    if before.life == Serving {
      var ran := RunOnce(t, before.stub);
      assert [] + ran.events == ran.events;
    }
  }

  lemma StartPass(t: Target, st: Stub, c: Command)
    requires Sound(t, st) && (c == SendStep || c == SendContinue)
    ensures Iteration(t, st, Some(PacketReply(PrintCommand(c)))) ==
      Pass(t, Served(Started(st, c), StartEvents(st, c), Serving))
  {
    StartHandled(t, st, c);
    hide RunOnce, DataHandled, PrintCommand, PacketReply, StartEvents, HasInstr;
  }

  lemma ServeOnce(t: Target, st: Stub, data: Option<string>)
    requires Sound(t, st)
    ensures Serve(t, st, [data]) == Iteration(t, st, data)
  {
    hide Iteration, HasInstr;
    assert [data][..0] == [];
    var last := Iteration(t, st, data);
    assert [] + last.events == last.events;
  }

  lemma AfterFirst(t: Target, st: Stub, c: Command)
    requires Sound(t, st) && (c == SendStep || c == SendContinue)
    ensures After(t, st, c, 1) == Pass(t, Served(Started(st, c), StartEvents(st, c), Serving))
  {
    StartPass(t, st, c);
    ServeOnce(t, st, Some(PacketReply(PrintCommand(c))));
    hide Iteration, Serve, Pass, PrintCommand, PacketReply, Started, HasInstr;
  }

  // ---- the bare program's stops ----

  /** The program has run n instructions and the next one has a breakpoint. */
  predicate HitAt(t: Target, start: Interp, breakpoints: set<nat>, n: nat) {
    var i := Bare(t, start, n);
    i.Some? && Address(t, i.value.instr.value) in breakpoints
  }

  /** The program runs instruction n and no breakpoint follows it. */
  predicate PassesBy(t: Target, start: Interp, breakpoints: set<nat>, n: nat) {
    Bare(t, start, n).Some? && !HitAt(t, start, breakpoints, n)
  }

  /** The one case in which a start runs nothing: the first start ever, with a breakpoint on the entry. */
  predicate StopsOnEntry(t: Target, start: Interp, st: Stub) {
    NotStarted(st.h.interp) && HitAt(t, start, st.h.breakpoints, 0)
  }

  /** One call of runCurrentInstr, told by the bare program alone. */
  lemma RunInstrExactly(t: Target, start: Interp, st: Stub, n: nat)
    requires NotStarted(start) && AtStep(t, start, st.h.interp, n) && st.h.limit != Finite(0)
    ensures var (h', r) := RunInstr(t, st.h);
      && h'.limit == Decrement(st.h.limit) && h'.breakpoints == st.h.breakpoints
      && if StopsOnEntry(t, start, st) then r.HitOnEntry? && Bare(t, start, 0) == Some(h'.interp)
         else match Bare(t, start, n + 1)
           case None => r == Fault
           case Some(i) => h'.interp == i && if HitAt(t, start, st.h.breakpoints, n + 1) then r.Hit? else r == NoHit
  {
    hide Address;
    if n > 0 {
      assert Bare(t, start, n + 1) == BareStep(t, st.h.interp);
    } else {
      assert Bare(t, start, 0) == Entry(t, start);
      assert Entry(t, start) == None ==> Bare(t, start, 1) == None;
      assert Entry(t, start).Some? ==> Bare(t, start, 1) == BareStep(t, Entry(t, start).value);
    }
  }

  // ---- continue ----

  function Instrs(n: nat): seq<Event> {
    if n == 0 then [] else Instrs(n - 1) + [Instr]
  }

  /** The state after n instructions; the default is not used where the program gets that far. */
  function StateAt(t: Target, start: Interp, n: nat): Interp {
    if Bare(t, start, n).Some? then Bare(t, start, n).value else start
  }

  function StubAt(t: Target, start: Interp, st: Stub, limit: Limit, exeStopped: bool, n: nat): Stub {
    Stub(exeStopped, st.noAckMode, Handler(limit, StateAt(t, start, n), st.h.breakpoints))
  }

  /** The stub is where n instructions lead. */
  predicate StandsAt(t: Target, start: Interp, st: Stub, n: nat) {
    Sound(t, st) && NotStarted(start) && AtStep(t, start, st.h.interp, n)
  }

  lemma StartedStandsAt(t: Target, start: Interp, st: Stub, n: nat, c: Command)
    requires StandsAt(t, start, st, n)
    ensures StandsAt(t, start, Started(st, c), n)
    ensures StopsOnEntry(t, start, Started(st, c)) == StopsOnEntry(t, start, st)
  {
    hide Bare, HitAt;
  }

  lemma StubAtStandsAt(t: Target, start: Interp, st: Stub, limit: Limit, n: nat)
    requires NotStarted(start) && Bare(t, start, n).Some?
    ensures var at := StubAt(t, start, st, limit, false, n);
      StandsAt(t, start, at, n) && !StopsOnEntry(t, start, at)
  {
    hide HitAt;
  }

  /** A pass of the loop with the program running and the limit not used up, told by the bare program alone. */
  lemma RunOnceExactly(t: Target, start: Interp, st: Stub, n: nat)
    requires StandsAt(t, start, st, n) && !st.exeStopped && st.h.limit != Finite(0)
    ensures var r, limit := RunOnce(t, st), Decrement(st.h.limit);
      if StopsOnEntry(t, start, st) then
        r == Served(StubAt(t, start, st, limit, true, 0), [LoopStop(SIGTRAP)], Serving)
      else if Bare(t, start, n + 1) == None then
        r.life == Closed && r.events == [LoopStop(SIGKILL)] && r.stub.exeStopped
      else if HitAt(t, start, st.h.breakpoints, n + 1) then
        r == Served(StubAt(t, start, st, limit, true, n + 1), [Instr, LoopStop(SIGTRAP)], Serving)
      else
        r == Served(StubAt(t, start, st, limit, false, n + 1), [Instr], Serving)
  {
    RunInstrExactly(t, start, st, n);
    hide Bare, RunInstr, HitAt, StopsOnEntry, HasInstr;
  }

  /** No instruction after the n-th up to the m-th faults or is followed by a breakpoint. */
  predicate ClearRun(t: Target, start: Interp, breakpoints: set<nat>, n: nat, m: nat) {
    forall k: nat :: n < k <= m ==> PassesBy(t, start, breakpoints, k)
  }

  /** What one more pass makes of a run that has sent `events` and stands behind instruction n. */
  function PassAt(t: Target, start: Interp, st: Stub, limit: Limit, events: seq<Event>, n: nat): Served {
    if HitAt(t, start, st.h.breakpoints, n) then
      Served(StubAt(t, start, st, limit, true, n), events + [Instr, LoopStop(SIGTRAP)], Serving)
    else
      Served(StubAt(t, start, st, limit, false, n), events + [Instr], Serving)
  }

  lemma PassExactly(t: Target, start: Interp, before: Served, n: nat)
    requires StandsAt(t, start, before.stub, n) && before.life == Serving
    requires !before.stub.exeStopped && before.stub.h.limit != Finite(0) && !StopsOnEntry(t, start, before.stub)
    ensures var r := Pass(t, before);
      if Bare(t, start, n + 1) == None then
        r.life == Closed && r.events == before.events + [LoopStop(SIGKILL)] && r.stub.exeStopped
      else
        r == PassAt(t, start, before.stub, Decrement(before.stub.h.limit), before.events, n + 1)
  {
    RunOnceExactly(t, start, before.stub, n);
    hide Bare, RunOnce, HitAt, StopsOnEntry, Sound, StateAt, NotStarted;
  }

  /** The run after `c` when m instructions have passed by. */
  function RunState(t: Target, start: Interp, st: Stub, n: nat, m: nat): Served {
    Served(if m == 0 then Started(st, SendContinue) else StubAt(t, start, st, Infinite, false, n + m),
           StartEvents(st, SendContinue) + Instrs(m), Serving)
  }

  lemma RunStateReady(t: Target, start: Interp, st: Stub, n: nat, m: nat)
    requires StandsAt(t, start, st, n) && !StopsOnEntry(t, start, st)
    requires ClearRun(t, start, st.h.breakpoints, n, n + m)
    ensures var r := RunState(t, start, st, n, m).stub;
      && StandsAt(t, start, r, n + m) && !StopsOnEntry(t, start, r) && !r.exeStopped
      && r.h.limit == Infinite && r.h.breakpoints == st.h.breakpoints && r.noAckMode == st.noAckMode
  {
    StartedStandsAt(t, start, st, n, SendContinue);
    if m > 0 {
      assert PassesBy(t, start, st.h.breakpoints, n + m);
      StubAtStandsAt(t, start, st, Infinite, n + m);
    }
    hide Bare, HitAt, StopsOnEntry, Sound, StateAt, NotStarted, StandsAt;
  }

  /** As long as the program passes no breakpoint, each pass runs one instruction and reports nothing. */
  lemma {:induction false} ContinueRunsOn(t: Target, start: Interp, st: Stub, n: nat, m: nat)
    requires StandsAt(t, start, st, n) && !StopsOnEntry(t, start, st)
    requires ClearRun(t, start, st.h.breakpoints, n, n + m)
    ensures m > 0 ==> After(t, st, SendContinue, m) == RunState(t, start, st, n, m)
    ensures After(t, st, SendContinue, m + 1) == Pass(t, RunState(t, start, st, n, m))
  {
    hide After, Pass, Bare, HitAt, StopsOnEntry, Sound, StartEvents, StateAt, NotStarted, AtStep;
    if m == 0 {
      AfterFirst(t, st, SendContinue);
      assert StartEvents(st, SendContinue) + [] == StartEvents(st, SendContinue);
    } else {
      assert PassesBy(t, start, st.h.breakpoints, n + m);
      ContinueRunsOn(t, start, st, n, m - 1);
      RunStateReady(t, start, st, n, m - 1);
      PassExactly(t, start, RunState(t, start, st, n, m - 1), n + m - 1);
      assert StartEvents(st, SendContinue) + Instrs(m - 1) + [Instr] == StartEvents(st, SendContinue) + Instrs(m);
      AfterNext(t, st, SendContinue, m);
    }
  }

  /** Every session that has not been closed stands where the instructions run so far lead. */
  lemma ReachableStandsAt(t: Target, args: FnArgs, arrivals: seq<Option<string>>)
    ensures var r := Serve(t, InitialStub(t, args), arrivals);
      r.life != Closed ==> StandsAt(t, InitialInterp(t, args), r.stub, Count(r.events, Instructions))
  {
    Transparency(t, args, arrivals);
    hide Serve, Bare, Count;
  }

  /** Once stopped, passes without packets change nothing. */
  lemma {:induction false} StaysStopped(t: Target, st: Stub, c: Command, m: nat, p: nat)
    requires Sound(t, st) && 0 < m <= p && After(t, st, c, m).stub.exeStopped
    ensures After(t, st, c, p) == After(t, st, c, m)
  {
    hide After, HasInstr;
    if m < p {
      StaysStopped(t, st, c, m, p - 1);
      AfterNext(t, st, c, p - 1);
      var before := After(t, st, c, p - 1);
      assert before.events + [] == before.events;
    }
  }

  lemma LastPass(t: Target, start: Interp, st: Stub, n: nat, m: nat)
    requires StandsAt(t, start, st, n) && !StopsOnEntry(t, start, st)
    requires ClearRun(t, start, st.h.breakpoints, n, n + m)
    ensures var r, before := After(t, st, SendContinue, m + 1), RunState(t, start, st, n, m);
      if Bare(t, start, n + m + 1) == None then
        r.life == Closed && r.events == before.events + [LoopStop(SIGKILL)] && r.stub.exeStopped
      else r == PassAt(t, start, before.stub, Infinite, before.events, n + m + 1)
  {
    hide After, Pass, Bare, HitAt, StopsOnEntry, PassAt, Sound, NotStarted, AtStep, StubAt, StartEvents, Instrs;
    ContinueRunsOn(t, start, st, n, m);
    RunStateReady(t, start, st, n, m);
    PassExactly(t, start, RunState(t, start, st, n, m), n + m);
  }

  lemma LastPassStops(t: Target, start: Interp, st: Stub, n: nat, m: nat)
    requires HitAt(t, start, st.h.breakpoints, n + m + 1)
    ensures var before := RunState(t, start, st, n, m);
      PassAt(t, start, before.stub, Infinite, before.events, n + m + 1) ==
        Served(StubAt(t, start, st, Infinite, true, n + m + 1),
               StartEvents(st, SendContinue) + Instrs(m + 1) + [LoopStop(SIGTRAP)], Serving)
  {
    hide HitAt, StateAt, StartEvents;
    var begin := StartEvents(st, SendContinue);
    assert begin + Instrs(m) + [Instr, LoopStop(SIGTRAP)] == begin + Instrs(m + 1) + [LoopStop(SIGTRAP)];
  }

  /** What the client of a continue sees in the end, the program having passed by m instructions and then one more. */
  ghost predicate StopReported(t: Target, start: Interp, st: Stub, n: nat, m: nat, r: Served) {
    var begin := StartEvents(st, SendContinue);
    if HitAt(t, start, st.h.breakpoints, n + m + 1) then
      r == Served(StubAt(t, start, st, Infinite, true, n + m + 1),
                  begin + Instrs(m + 1) + [LoopStop(SIGTRAP)], Serving)
    else
      r.stub.exeStopped && r.life == Closed && r.events == begin + Instrs(m) + [LoopStop(SIGKILL)]
  }

  lemma StopsBehind(t: Target, start: Interp, st: Stub, n: nat, m: nat)
    requires StandsAt(t, start, st, n) && !StopsOnEntry(t, start, st)
    requires ClearRun(t, start, st.h.breakpoints, n, n + m) && !PassesBy(t, start, st.h.breakpoints, n + m + 1)
    ensures var r := After(t, st, SendContinue, m + 1);
      r.stub.exeStopped && StopReported(t, start, st, n, m, r)
  {
    LastPass(t, start, st, n, m);
    if HitAt(t, start, st.h.breakpoints, n + m + 1) {
      LastPassStops(t, start, st, n, m);
    }
    hide After, Bare, StartEvents, HitAt, StopsOnEntry, HasInstr, PassAt, StateAt, Instrs;
  }

  /**
   Continue stops at the first hit: m being the least positive number of instructions behind which a breakpoint stands
   or the program faults, the stub runs exactly m instructions, stops there with one S05 (or S09 for the fault), and
   stays stopped however many passes follow. A breakpoint it stands on does not hold it back.
   */
  lemma ContinueStopsAtFirstHit(t: Target, start: Interp, st: Stub, n: nat, m: nat, p: nat)
    requires StandsAt(t, start, st, n) && !StopsOnEntry(t, start, st) && 0 < m <= p
    requires ClearRun(t, start, st.h.breakpoints, n, n + m - 1) && !PassesBy(t, start, st.h.breakpoints, n + m)
    ensures var r, begin := After(t, st, SendContinue, p), StartEvents(st, SendContinue);
      if HitAt(t, start, st.h.breakpoints, n + m) then
        r == Served(StubAt(t, start, st, Infinite, true, n + m), begin + Instrs(m) + [LoopStop(SIGTRAP)], Serving)
      else
        r.stub.exeStopped && r.life == Closed && r.events == begin + Instrs(m - 1) + [LoopStop(SIGKILL)]
  {
    hide After, Bare, StartEvents, HitAt, StopsOnEntry, HasInstr, StubAt, Instrs, PassesBy, AtStep;
    StopsBehind(t, start, st, n, m - 1);
    StaysStopped(t, st, SendContinue, m, p);
  }

  /** The very first start with a breakpoint on the entry runs nothing and reports one S05. */
  lemma StartOnEntry(t: Target, start: Interp, st: Stub, n: nat, c: Command, p: nat)
    requires StandsAt(t, start, st, n) && StopsOnEntry(t, start, st) && 0 < p && (c == SendStep || c == SendContinue)
    ensures var limit := if c == SendStep then Finite(0) else Infinite;
      After(t, st, c, p) ==
        Served(StubAt(t, start, st, limit, true, 0), StartEvents(st, c) + [LoopStop(SIGTRAP)], Serving)
  {
    AfterFirst(t, st, c);
    StartedStandsAt(t, start, st, n, c);
    hide After, RunOnce, StopsOnEntry, Bare, StartEvents, StateAt, HasInstr;
    RunOnceExactly(t, start, Started(st, c), n);
    StaysStopped(t, st, c, 1, p);
  }

  /** The program has stopped after p passes exactly if one of its next p instructions ends at a stop. */
  lemma ContinueStopsIff(t: Target, start: Interp, st: Stub, n: nat, p: nat)
    requires StandsAt(t, start, st, n) && 0 < p
    ensures After(t, st, SendContinue, p).stub.exeStopped <==>
      StopsOnEntry(t, start, st) || exists k: nat :: n < k <= n + p && !PassesBy(t, start, st.h.breakpoints, k)
  {
    if StopsOnEntry(t, start, st) {
      StartOnEntry(t, start, st, n, SendContinue, p);
    } else if ClearRun(t, start, st.h.breakpoints, n, n + p) {
      ContinueRunsOn(t, start, st, n, p);
    } else {
      var k: nat :| n < k <= n + p && !PassesBy(t, start, st.h.breakpoints, k);
      var m := FirstStop(t, start, st.h.breakpoints, n, k);
      ContinueStopsAtFirstHit(t, start, st, n, m - n, p);
    }
    hide After, Bare, StartEvents, StateAt, HitAt, StopsOnEntry, StandsAt, PassesBy;
  }

  /** The least stop behind instruction n. */
  lemma {:induction false} FirstStop(t: Target, start: Interp, breakpoints: set<nat>, n: nat, k: nat) returns (m: nat)
    requires n < k && !PassesBy(t, start, breakpoints, k)
    ensures n < m <= k && !PassesBy(t, start, breakpoints, m) && ClearRun(t, start, breakpoints, n, m - 1)
  {
    hide PassesBy;
    if ClearRun(t, start, breakpoints, n, k - 1) {
      m := k;
    } else {
      var j: nat :| n < j <= k - 1 && !PassesBy(t, start, breakpoints, j);
      m := FirstStop(t, start, breakpoints, n, j);
    }
  }

  // ---- step ----

  /**
   Step exactness: `s` runs exactly one instruction and reports exactly one S05, in one pass if the instruction ends at
   a breakpoint and in two otherwise; where the program cannot run one, it reports S09.
   */
  lemma StepExactly(t: Target, start: Interp, st: Stub, n: nat)
    requires StandsAt(t, start, st, n) && !StopsOnEntry(t, start, st)
    ensures var one, two, begin := After(t, st, SendStep, 1), After(t, st, SendStep, 2), StartEvents(st, SendStep);
      if Bare(t, start, n + 1) == None then
        one.life == Closed && one.events == begin + [LoopStop(SIGKILL)] && two == one
      else
        && two == Served(StubAt(t, start, st, Finite(0), true, n + 1), begin + [Instr, LoopStop(SIGTRAP)], Serving)
        && (if HitAt(t, start, st.h.breakpoints, n + 1) then one == two
            else one == Served(StubAt(t, start, st, Finite(0), false, n + 1), begin + [Instr], Serving))
  {
    var begin := StartEvents(st, SendStep);
    hide After, RunInstr, Bare, StopsOnEntry, StartEvents, StateAt, HasInstr, HitAt;
    AfterFirst(t, st, SendStep);
    AfterNext(t, st, SendStep, 1);
    StartedStandsAt(t, start, st, n, SendStep);
    PassExactly(t, start, Served(Started(st, SendStep), begin, Serving), n);
    var one := After(t, st, SendStep, 1);
    assert one.stub.exeStopped ==> one.events + [] == one.events;
    assert begin + [Instr] + [LoopStop(SIGTRAP)] == begin + [Instr, LoopStop(SIGTRAP)];
    if !one.stub.exeStopped {
      StepRunsOut(t, one.stub);
    }
  }

  lemma StepRunsOut(t: Target, st: Stub)
    requires Sound(t, st) && !st.exeStopped && st.h.limit == Finite(0)
    ensures RunOnce(t, st) == Served(st.(exeStopped := true), [LoopStop(SIGTRAP)], Serving)
  {
  }

  /** The stub after m steps, each given the two passes it may need. */
  function Steps(t: Target, st: Stub, m: nat): (r: Stub)
    requires Sound(t, st)
    ensures Sound(t, r)
  {
    if m == 0 then st else After(t, Steps(t, st, m - 1), SendStep, 2).stub
  }

  lemma {:induction false} BareEarlier(t: Target, start: Interp, k: nat, n: nat)
    requires k <= n && Bare(t, start, n).Some?
    ensures Bare(t, start, k).Some?
  {
    hide BareStep;
    if k < n {
      BareEarlier(t, start, k, n - 1);
    }
  }

  lemma NextStep(t: Target, start: Interp, st: Stub, n: nat)
    requires StandsAt(t, start, st, n) && !StopsOnEntry(t, start, st) && Bare(t, start, n + 1).Some?
    ensures After(t, st, SendStep, 2).stub == StubAt(t, start, st, Finite(0), true, n + 1)
  {
    StepExactly(t, start, st, n);
    hide *;
  }

  /** Repeated steps visit the states of the bare program one after the other, breakpoints or not. */
  lemma {:induction false} StepsVisit(t: Target, start: Interp, st: Stub, n: nat, m: nat)
    requires StandsAt(t, start, st, n) && !StopsOnEntry(t, start, st) && 0 < m && Bare(t, start, n + m).Some?
    ensures Steps(t, st, m) == StubAt(t, start, st, Finite(0), true, n + m)
  {
    hide After, Bare, HitAt, HasInstr, StateAt, AtStep, StopsOnEntry;
    if m > 1 {
      BareEarlier(t, start, n + m - 1, n + m);
      StepsVisit(t, start, st, n, m - 1);
      StoppedStandsAt(t, start, st, Finite(0), n + m - 1);
    }
    NextStep(t, start, Steps(t, st, m - 1), n + m - 1);
  }

  lemma StoppedStandsAt(t: Target, start: Interp, st: Stub, limit: Limit, n: nat)
    requires NotStarted(start) && Bare(t, start, n).Some?
    ensures var at := StubAt(t, start, st, limit, true, n); StandsAt(t, start, at, n) && !StopsOnEntry(t, start, at)
  {
    hide HitAt;
  }

  /** Stepping to where continue stops leads to the same interpreter state. */
  lemma StepsReachContinue(t: Target, start: Interp, st: Stub, n: nat, m: nat)
    requires StandsAt(t, start, st, n) && !StopsOnEntry(t, start, st) && 0 < m
    requires ClearRun(t, start, st.h.breakpoints, n, n + m - 1) && HitAt(t, start, st.h.breakpoints, n + m)
    ensures Steps(t, st, m).h.interp == After(t, st, SendContinue, m).stub.h.interp
  {
    ContinueStopsAtFirstHit(t, start, st, n, m, m);
    StepsVisit(t, start, st, n, m);
    hide After, Steps, StartEvents, StopsOnEntry, StandsAt, StateAt;
  }
}

/** What a client sees of continue, step and interrupts, down to the characters. */
module StopWire {
  import opened Digits
  import opened RemoteMessages
  import opened Streams
  import opened RegisterBytes
  import opened Requests
  import opened Interpreter
  import opened RegisterLayout
  import opened CmdHandler
  import opened ServerStub
  import opened ContinueStep
  import opened RemoteClient

  lemma StopTexts()
    ensures StopReply(SIGINT) == "S02" && StopReply(SIGTRAP) == "S05" && StopReply(SIGKILL) == "S09"
  {
  }

  /** The acknowledgement, the `OK` and what is reported later. */
  function Seen(st: Stub, reports: seq<string>): seq<Item> {
    (if st.noAckMode then [] else [Ack]) + [Pkt("OK")]
    + seq(|reports|, k requires 0 <= k < |reports| => Pkt(reports[k]))
  }

  /** A pass of the loop: nothing while stopped or between two instructions, S09 for a fault, S05 for any other stop. */
  lemma RoundWrites(t: Target, st: Stub)
    requires Sound(t, st)
    ensures Wire(RunOnce(t, st).events) ==
      if st.exeStopped || RunInstr(t, st.h).1 == NoHit then []
      else if RunInstr(t, st.h).1 == Fault then [Pkt("S09")] else [Pkt("S05")]
  {
    RunWire(t, st);
    StopTexts();
    hide RunInstr, RunOnce, Wire, StopReply;
  }

  lemma {:induction false} InstrsAreSilent(n: nat)
    ensures Wire(Instrs(n)) == []
  {
    hide StopReply;
    if n == 0 {
      EmptyWire();
    } else {
      InstrsAreSilent(n - 1);
      WireAppend(Instrs(n - 1), [Instr]);
      WireOne(Instr);
    }
  }

  lemma StartWire(st: Stub, c: Command)
    ensures Wire(StartEvents(st, c)) == Seen(st, [])
  {
    hide StopReply, Meaning;
    var got, ack := Event.Got(Meaning(c), st.exeStopped), if st.noAckMode then [] else [Sent(Ack)];
    WireOne(got);
    WireOne(Sent(Ack));
    WireOne(Sent(Pkt("OK")));
    EmptyWire();
    WireAppend([got], ack);
    WireAppend([got] + ack, [Sent(Pkt("OK"))]);
  }

  lemma StoppedWire(st: Stub, c: Command, n: nat, signal: nat)
    requires signal == SIGTRAP || signal == SIGKILL
    ensures Wire(StartEvents(st, c) + Instrs(n) + [LoopStop(signal)]) ==
      Seen(st, [if signal == SIGTRAP then "S05" else "S09"])
  {
    StopTexts();
    hide StopReply, StartEvents;
    StartWire(st, c);
    InstrsAreSilent(n);
    WireOne(LoopStop(signal));
    hide Wire, Instrs;
    WireAppend(StartEvents(st, c), Instrs(n));
    WireAppend(StartEvents(st, c) + Instrs(n), [LoopStop(signal)]);
  }

  /** Continue, with the breakpoint or fault reached within p passes: `OK`, and S05 at the one or S09 at the other. */
  lemma ContinueReports(t: Target, start: Interp, st: Stub, n: nat, m: nat, p: nat)
    requires StandsAt(t, start, st, n) && !StopsOnEntry(t, start, st) && 0 < m <= p
    requires ClearRun(t, start, st.h.breakpoints, n, n + m - 1) && !PassesBy(t, start, st.h.breakpoints, n + m)
    ensures Wire(After(t, st, SendContinue, p).events) ==
      Seen(st, [if HitAt(t, start, st.h.breakpoints, n + m) then "S05" else "S09"])
  {
    hide After, Bare, StandsAt, StopsOnEntry, StartEvents, Wire, StubAt, HitAt, Instrs, Seen, Sound, PassesBy, ClearRun;
    ContinueStopsAtFirstHit(t, start, st, n, m, p);
    StoppedWire(st, SendContinue, m, SIGTRAP);
    StoppedWire(st, SendContinue, m - 1, SIGKILL);
  }

  /** As long as no stop is reached, `OK` is all that is written. */
  lemma ContinueIsSilent(t: Target, start: Interp, st: Stub, n: nat, m: nat)
    requires StandsAt(t, start, st, n) && !StopsOnEntry(t, start, st) && 0 < m
    requires ClearRun(t, start, st.h.breakpoints, n, n + m)
    ensures Wire(After(t, st, SendContinue, m).events) == Seen(st, [])
  {
    ContinueRunsOn(t, start, st, n, m);
    StartWire(st, SendContinue);
    InstrsAreSilent(m);
    WireAppend(StartEvents(st, SendContinue), Instrs(m));
    hide Wire, StartEvents, Instrs, After, Pass, StandsAt, StopsOnEntry, ClearRun, StubAt;
  }

  /** The first start of all with a breakpoint on the entry: `OK` and S05. */
  lemma EntryReports(t: Target, start: Interp, st: Stub, n: nat, c: Command, p: nat)
    requires StandsAt(t, start, st, n) && StopsOnEntry(t, start, st) && 0 < p && (c == SendStep || c == SendContinue)
    ensures Wire(After(t, st, c, p).events) == Seen(st, ["S05"])
  {
    StartOnEntry(t, start, st, n, c, p);
    StoppedWire(st, c, 0, SIGTRAP);
    assert StartEvents(st, c) + Instrs(0) == StartEvents(st, c);
    hide *;
  }

  lemma InstrsUpToOne(begin: seq<Event>, signal: nat)
    ensures begin + Instrs(0) + [LoopStop(signal)] == begin + [LoopStop(signal)]
    ensures begin + Instrs(1) + [LoopStop(signal)] == begin + [Instr, LoopStop(signal)]
  {
  }

  /** Step, within its two passes: `OK`, and S05 behind the instruction or S09 where the program cannot run one. */
  lemma StepReports(t: Target, start: Interp, st: Stub, n: nat)
    requires StandsAt(t, start, st, n) && !StopsOnEntry(t, start, st)
    ensures Wire(After(t, st, SendStep, 2).events) ==
      Seen(st, [if Bare(t, start, n + 1).Some? then "S05" else "S09"])
  {
    hide After, Bare, StandsAt, StopsOnEntry, StartEvents, Wire, StubAt, HitAt, Instrs, Seen, Sound;
    StepExactly(t, start, st, n);
    StoppedWire(st, SendStep, 1, SIGTRAP);
    StoppedWire(st, SendStep, 0, SIGKILL);
    InstrsUpToOne(StartEvents(st, SendStep), SIGTRAP);
    InstrsUpToOne(StartEvents(st, SendStep), SIGKILL);
  }

  /** An interrupt: the program is stopped, and behind the `OK` comes S02. */
  lemma InterruptReports(t: Target, st: Stub)
    requires Sound(t, st)
    ensures var r := PacketHandled(t, st, "vCtrlC");
      && r.stub == st.(exeStopped := true) && !r.raised && Wire(r.events) == Seen(st, ["S02"])
  {
    StopTexts();
    PacketWire(t, st, "vCtrlC");
    assert Dispatch("vCtrlC") == Interrupt;
    hide StopReply, Wire, Dispatch;
  }

  /** The reason of the halt is always S05, and what the stub does not know gets the empty reply. */
  lemma PlainReplies(t: Target, st: Stub, unknown: string)
    requires Sound(t, st) && Dispatch(unknown) == Unknown
    ensures var r := PacketHandled(t, st, "?");
      r.stub == st && !r.raised && Wire(r.events) == (if st.noAckMode then [] else [Ack]) + [Pkt("S05")]
    ensures var r := PacketHandled(t, st, unknown);
      r.stub == st && !r.raised && Wire(r.events) == (if st.noAckMode then [] else [Ack]) + [Pkt("")]
  {
    StopTexts();
    PacketWire(t, st, "?");
    PacketWire(t, st, unknown);
    PlainQuestions();
    hide StopReply, Wire, Dispatch;
  }

  /** The features of the stub. */
  lemma FeaturesReplied(t: Target, st: Stub, features: string)
    requires Sound(t, st) && !FeaturesRaise(features)
    ensures var r := PacketHandled(t, st, "qSupported:" + features);
      && r.stub == st && !r.raised
      && Wire(r.events) == (if st.noAckMode then [] else [Ack]) + [Pkt("QStartNoAckMode+;swbreak+;hwbreak+")]
  {
    hide StopReply, Wire, Dispatch, FeaturesRaise, HasInstr;
    DispatchSupported(features);
    PacketWire(t, st, "qSupported:" + features);
  }

  /** Switching acknowledgements off is itself acknowledged, once. */
  lemma AcksSwitchedOff(t: Target, st: Stub)
    requires Sound(t, st)
    ensures var r := PacketHandled(t, st, "QStartNoAckMode");
      r.stub == st.(noAckMode := true) && !r.raised && Wire(r.events) == Seen(st, [])
  {
    hide StopReply, Wire, Dispatch, HasInstr;
    DispatchHandshake();
    PacketWire(t, st, "QStartNoAckMode");
  }

  // ---- what the client makes of it ----

  /** A stop packet is known by its first three characters, small or capital, and its signal is read back. */
  lemma StopsRead(signal: nat, rest: string)
    requires signal < 256
    ensures IsStop(StopReply(signal) + rest) && StopSignal(StopReply(signal) + rest) == signal
    ensures IsStop(Upper(StopReply(signal)) + rest) && StopSignal(Upper(StopReply(signal)) + rest) == signal
  {
    hide ParseInt;
  }

  /** The handler that waits for the program counter reports the signals 2, 5 and 9 with the line; others raise. */
  lemma SignalsReported(waiting: seq<nat>, signal: nat, payload: string)
    requires !IsStop(payload) && ReadReply(payload).Some?
    ensures EffectOf(waiting + [signal], Pkt(payload)) ==
      if signal in {2, 5, 9} then Leave(Report(signal, ReadReply(payload).value / 8)) else Break
  {
    hide IsStop, ReadReply, StopSignal;
  }

  lemma PrintOne(item: Item)
    ensures PrintItems([item]) == PrintItem(item) && PrintItems([]) == ""
  {
    hide PacketReply;
    assert [item][1..] == [];
  }

  /** What that is as text. */
  lemma SeenText(st: Stub, report: string)
    requires report == "S02" || report == "S05" || report == "S09"
    ensures PrintItems(Seen(st, [report])) ==
      (if st.noAckMode then "" else "+") + "$OK#9a"
      + (if report == "S02" then "$S02#b5" else if report == "S05" then "$S05#b8" else "$S09#bc")
  {
    ReplyFrames();
    StopFrames();
    hide PacketReply, PrintItems;
    var acks := if st.noAckMode then [] else [Ack];
    PrintOne(Ack);
    PrintOne(Pkt("OK"));
    PrintOne(Pkt(report));
    PrintAppend(acks, [Pkt("OK")]);
    PrintAppend(acks + [Pkt("OK")], [Pkt(report)]);
    assert Seen(st, [report]) == acks + [Pkt("OK")] + [Pkt(report)];
  }
}

/** What holds in every session of the stub, whatever arrives and however it is cut into passes of the loop. */
module StubRuns {
  import opened Wrappers
  import opened Streams
  import opened Requests
  import opened Interpreter
  import opened RegisterLayout
  import opened CmdHandler
  import opened ServerStub

  // ---- counting ----

  datatype Kind =
    | Instructions
    | LoopStops                   // S05 and S09 packets sent by the loop
    | Starts                      // s and c taken up while stopped
    | BreaksIn                    // vCtrlC taken up while running

  predicate Is(event: Event, kind: Kind) {
    match kind
    case Instructions => event == Instr
    case LoopStops => event.LoopStop?
    case Starts => event.Got? && (event.request == Step || event.request == Continue) && event.wasStopped
    case BreaksIn => event.Got? && event.request == Interrupt && !event.wasStopped
  }

  function Count(events: seq<Event>, kind: Kind): nat {
    if events == [] then 0 else (if Is(events[0], kind) then 1 else 0) + Count(events[1..], kind)
  }

  lemma {:induction false} CountAppend(a: seq<Event>, b: seq<Event>, kind: Kind)
    ensures Count(a + b, kind) == Count(a, kind) + Count(b, kind)
  {
    hide Is;
    if a == [] {
      assert a + b == b;
    } else {
      assert (a + b)[1..] == a[1..] + b;
      CountAppend(a[1..], b, kind);
    }
  }

  lemma CountOne(event: Event, kind: Kind)
    ensures Count([event], kind) == if Is(event, kind) then 1 else 0
  {
    hide Is;
  }

  // ---- transparency ----

  /** The interpreter is where n instructions from the entry block lead; before the first run that is nowhere yet. */
  predicate AtStep(t: Target, start: Interp, i: Interp, n: nat) {
    (n == 0 && i == start) || Bare(t, start, n) == Some(i)
  }

  /** One call of runCurrentInstr is one instruction of the bare program, or none. */
  lemma RunInstrIsBare(t: Target, start: Interp, h: Handler, n: nat)
    requires NotStarted(start) && AtStep(t, start, h.interp, n)
    ensures var (h', r) := RunInstr(t, h);
      && h'.breakpoints == h.breakpoints
      && match r
         case CycleLimitReached => h' == h && h.limit == Finite(0)
         case HitOnEntry(_) => n == 0 && AtStep(t, start, h'.interp, 0)
         case Hit(_) => Bare(t, start, n + 1) == Some(h'.interp)
         case NoHit => Bare(t, start, n + 1) == Some(h'.interp)
         case Fault => Bare(t, start, n + 1) == None
  {
    hide Address;
    if n > 0 {
      assert Bare(t, start, n + 1) == BareStep(t, h.interp);
    } else {
      assert Bare(t, start, 0) == Entry(t, start);
      assert Entry(t, start) == None ==> Bare(t, start, 1) == None;
      assert Entry(t, start).Some? ==> Bare(t, start, 1) == BareStep(t, Entry(t, start).value);
    }
  }

  lemma RunOnceIsBare(t: Target, start: Interp, st: Stub, n: nat)
    requires Sound(t, st) && NotStarted(start) && AtStep(t, start, st.h.interp, n)
    ensures var r := RunOnce(t, st);
      && r.life != Crashed
      && (st.exeStopped ==> r.events == [])
      && if r.life == Closed then Count(r.events, Instructions) == 0 && Bare(t, start, n + 1) == None
         else AtStep(t, start, r.stub.h.interp, n + Count(r.events, Instructions))
  {
    RunInstrIsBare(t, start, st.h, n);
    hide RunInstr, Bare;
    CountOne(Instr, Instructions);
    CountOne(LoopStop(SIGTRAP), Instructions);
    CountOne(LoopStop(SIGKILL), Instructions);
    CountAppend([Instr], [LoopStop(SIGTRAP)], Instructions);
  }

  // ---- what packets, passes and sessions keep ----

  function Running(exeStopped: bool): nat {
    if exeStopped then 0 else 1
  }

  /** Every start is paid back by one stop of the loop or one break-in, except while the program is running. */
  predicate Balanced(before: bool, events: seq<Event>, after: bool) {
    Count(events, LoopStops) + Count(events, BreaksIn) + Running(after) == Count(events, Starts) + Running(before)
  }

  lemma BalancedAppend(a: bool, first: seq<Event>, b: bool, second: seq<Event>, c: bool)
    requires Balanced(a, first, b) && Balanced(b, second, c)
    ensures Balanced(a, first + second, c)
  {
    hide Count;
    CountAppend(first, second, LoopStops);
    CountAppend(first, second, BreaksIn);
    CountAppend(first, second, Starts);
  }

  /** The cycle limit is 0, 1 or infinite. */
  predicate StepOrRun(limit: Limit) {
    limit == Finite(0) || limit == Finite(1) || limit == Infinite
  }

  lemma CountSent(events: seq<Event>, kind: Kind)
    requires forall e <- events :: e.Sent?
    ensures Count(events, kind) == 0
  {
    if events != [] {
      assert events[0] in events;
      CountSent(events[1..], kind);
    }
  }

  lemma PacketKeeps(t: Target, st: Stub, payload: string)
    requires Sound(t, st)
    ensures var r := PacketHandled(t, st, payload);
      && r.stub.h.interp == st.h.interp
      && Count(r.events, Instructions) == 0
      && Balanced(st.exeStopped, r.events, r.stub.exeStopped)
      && (StepOrRun(st.h.limit) ==> StepOrRun(r.stub.h.limit))
  {
    hide Dispatch, StopReply, Count;
    var r := PacketHandled(t, st, payload);
    var got := r.events[0];
    var sent := r.events[1..];
    assert r.events == [got] + sent;
    StepAnswers(t, st.h, Dispatch(payload));
    hide Answer;
    forall kind: Kind ensures Count(r.events, kind) == if Is(got, kind) then 1 else 0 {
      CountAppend([got], sent, kind);
      CountOne(got, kind);
      CountSent(sent, kind);
    }
  }

  lemma StepAnswers(t: Target, h: Handler, request: Request)
    requires HasInstr(t, h.interp)
    ensures var (h', reply) := Answer(t, h, request);
      && (StepOrRun(h.limit) ==> StepOrRun(h'.limit))
      && (request == Step || request == Continue || request == Interrupt ==> reply == Some("OK"))
  {
    hide RegisterLayout.ReadRegister, RegisterLayout.ReadRegisters, StopReply;
  }

  lemma {:induction false} ItemsKeep(t: Target, st: Stub, items: seq<Item>)
    requires Sound(t, st)
    ensures var r := ItemsHandled(t, st, items);
      && r.stub.h.interp == st.h.interp
      && Count(r.events, Instructions) == 0
      && Balanced(st.exeStopped, r.events, r.stub.exeStopped)
      && (StepOrRun(st.h.limit) ==> StepOrRun(r.stub.h.limit))
    decreases |items|
  {
    if items != [] {
      if items[0] == Ack {
        ItemsKeep(t, st, items[1..]);
      } else {
        PacketKeeps(t, st, items[0].payload);
        hide PacketHandled, Count, Balanced, HasInstr;
        var first := PacketHandled(t, st, items[0].payload);
        if !first.raised {
          ItemsKeep(t, first.stub, items[1..]);
          var rest := ItemsHandled(t, first.stub, items[1..]);
          CountAppend(first.events, rest.events, Instructions);
          BalancedAppend(st.exeStopped, first.events, first.stub.exeStopped, rest.events, rest.stub.exeStopped);
        }
      }
    }
  }

  lemma RunOnceKeeps(t: Target, st: Stub)
    requires Sound(t, st)
    ensures var r := RunOnce(t, st);
      && Balanced(st.exeStopped, r.events, r.stub.exeStopped)
      && (StepOrRun(st.h.limit) ==> StepOrRun(r.stub.h.limit))
      && (st.exeStopped ==> r.stub == st)
  {
    LimitKept(t, st.h);
    LoopCounts();
    hide RunInstr, Count, HasInstr, Is;
  }

  lemma LoopCounts()
    ensures forall kind: Kind ::
      && Count([], kind) == 0 && Count([Instr], kind) == (if kind == Instructions then 1 else 0)
      && Count([LoopStop(SIGTRAP)], kind) == (if kind == LoopStops then 1 else 0)
      && Count([LoopStop(SIGKILL)], kind) == (if kind == LoopStops then 1 else 0)
      && Count([Instr, LoopStop(SIGTRAP)], kind) == if kind == LoopStops || kind == Instructions then 1 else 0
  {
    forall kind: Kind
      ensures Count([Instr], kind) == if kind == Instructions then 1 else 0
      ensures Count([LoopStop(SIGTRAP)], kind) == if kind == LoopStops then 1 else 0
      ensures Count([LoopStop(SIGKILL)], kind) == if kind == LoopStops then 1 else 0
      ensures Count([Instr, LoopStop(SIGTRAP)], kind) == if kind == LoopStops || kind == Instructions then 1 else 0
    {
      CountOne(Instr, kind);
      CountOne(LoopStop(SIGTRAP), kind);
      CountOne(LoopStop(SIGKILL), kind);
      CountAppend([Instr], [LoopStop(SIGTRAP)], kind);
      assert [Instr] + [LoopStop(SIGTRAP)] == [Instr, LoopStop(SIGTRAP)];
    }
  }

  lemma LimitKept(t: Target, h: Handler)
    ensures StepOrRun(h.limit) ==> StepOrRun(RunInstr(t, h).0.limit)
  {
    hide Address;
  }

  /** What a session has kept so far, n being the instructions run. */
  ghost predicate SessionSoFar(t: Target, start: Interp, r: Served) {
    var n := Count(r.events, Instructions);
    && Balanced(true, r.events, r.stub.exeStopped)
    && StepOrRun(r.stub.h.limit)
    && if r.life == Closed then Bare(t, start, n + 1) == None else AtStep(t, start, r.stub.h.interp, n)
  }

  lemma DataKeeps(t: Target, start: Interp, before: Served, text: string, life: Life)
    requires Sound(t, before.stub) && before.life == Serving && life != Closed && SessionSoFar(t, start, before)
    ensures var got := DataHandled(t, before.stub, text);
      SessionSoFar(t, start, Served(got.stub, before.events + got.events, life))
  {
    hide Scan, ItemsHandled, Count, HasInstr, Bare;
    ItemsKeep(t, before.stub, Scan(text).items);
    var got := DataHandled(t, before.stub, text);
    CountAppend(before.events, got.events, Instructions);
    BalancedAppend(true, before.events, before.stub.exeStopped, got.events, got.stub.exeStopped);
  }

  lemma RunKeeps(t: Target, start: Interp, before: Served)
    requires NotStarted(start) && Sound(t, before.stub) && before.life == Serving && SessionSoFar(t, start, before)
    ensures var ran := RunOnce(t, before.stub);
      SessionSoFar(t, start, Served(ran.stub, before.events + ran.events, ran.life))
  {
    hide RunOnce, Count, HasInstr, Bare;
    RunOnceKeeps(t, before.stub);
    RunOnceIsBare(t, start, before.stub, Count(before.events, Instructions));
    var ran := RunOnce(t, before.stub);
    CountAppend(before.events, ran.events, Instructions);
    BalancedAppend(true, before.events, before.stub.exeStopped, ran.events, ran.stub.exeStopped);
  }

  lemma IterationKeeps(t: Target, start: Interp, before: Served, data: Option<string>)
    requires NotStarted(start) && Sound(t, before.stub) && before.life == Serving && SessionSoFar(t, start, before)
    ensures var last := Iteration(t, before.stub, data);
      SessionSoFar(t, start, Served(last.stub, before.events + last.events, last.life))
  {
    hide SessionSoFar, HasInstr, DataHandled, RunOnce, NotStarted;
    var st := before.stub;
    var got := if data == None then Handled(st, [], false) else DataHandled(t, st, data.value);
    if data.Some? {
      DataKeeps(t, start, before, data.value, if got.raised then Crashed else Serving);
    } else {
      assert before.events + [] == before.events;
    }
    if !got.raised {
      var ran := RunOnce(t, got.stub);
      RunKeeps(t, start, Served(got.stub, before.events + got.events, Serving));
      assert before.events + got.events + ran.events == before.events + (got.events + ran.events);
    }
  }

  lemma {:induction false} ServeKeeps(t: Target, args: FnArgs, arrivals: seq<Option<string>>)
    ensures SessionSoFar(t, InitialInterp(t, args), Serve(t, InitialStub(t, args), arrivals))
  {
    var start, st := InitialInterp(t, args), InitialStub(t, args);
    if arrivals == [] {
      assert Count([], Instructions) == 0;
    } else {
      ServeKeeps(t, args, arrivals[..|arrivals| - 1]);
      var before := Serve(t, st, arrivals[..|arrivals| - 1]);
      hide Iteration, SessionSoFar;
      if before.life == Serving {
        IterationKeeps(t, start, before, arrivals[|arrivals| - 1]);
      }
    }
  }

  // ---- main results ----

  /**
   Transparency: in every session, with packets of any kind arriving in any pass, the interpreter is in the state that
   the program reaches on its own after as many instructions as have run; and the loop reports S09 and leaves only
   where the program itself cannot run one more instruction.
   */
  lemma Transparency(t: Target, args: FnArgs, arrivals: seq<Option<string>>)
    ensures var r := Serve(t, InitialStub(t, args), arrivals);
      var start, n := InitialInterp(t, args), Count(r.events, Instructions);
      if r.life == Closed then Bare(t, start, n + 1) == None
      else (n == 0 && r.stub.h.interp == start) || Bare(t, start, n) == Some(r.stub.h.interp)
  {
    ServeKeeps(t, args, arrivals);
    hide Serve, Bare, Count;
  }

  /**
   Stop accounting: in every session the stops sent by the loop and the break-ins that found the program running add
   up to the starts that found it stopped, less one while it is running. The cycle limit stays 0, 1 or infinite.
   */
  lemma StopAccounting(t: Target, args: FnArgs, arrivals: seq<Option<string>>)
    ensures var r := Serve(t, InitialStub(t, args), arrivals);
      && Count(r.events, LoopStops) + Count(r.events, BreaksIn) ==
         Count(r.events, Starts) - (if r.stub.exeStopped then 0 else 1)
      && StepOrRun(r.stub.h.limit)
  {
    ServeKeeps(t, args, arrivals);
    hide Serve, Bare, Count;
  }

  /** A pass runs at most one instruction, and none when its packets leave the program stopped. */
  lemma NoInstrWhileStopped(t: Target, st: Stub, text: string)
    requires Sound(t, st)
    ensures var r := Iteration(t, st, Some(text));
      && Count(r.events, Instructions) <= 1
      && (DataHandled(t, st, text).stub.exeStopped ==>
            Count(r.events, Instructions) == 0 && r.stub.h.interp == st.h.interp)
  {
    hide Scan, ItemsHandled, RunInstr, HasInstr;
    ItemsKeep(t, st, Scan(text).items);
    var got := DataHandled(t, st, text);
    var ran := RunOnce(t, got.stub);
    CountAppend(got.events, ran.events, Instructions);
    CountOne(Instr, Instructions);
    CountOne(LoopStop(SIGTRAP), Instructions);
    CountOne(LoopStop(SIGKILL), Instructions);
    CountAppend([Instr], [LoopStop(SIGTRAP)], Instructions);
    hide Count;
  }
}

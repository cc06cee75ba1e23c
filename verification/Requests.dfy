/**
 The requests of the remote protocol: how the client prints the ones it sends, and how the stub's ordered list of
 tests, first match wins, sorts every packet it can receive.
 */
module Requests {
  import opened Wrappers
  import opened Digits
  import opened Text

  /** The branch of the stub's packet handler that a packet ends in. */
  datatype Request =
    | HaltReason
    | ReadRegisters
    | Interrupt
    | Step
    | Continue
    | Supported
    | StartNoAckMode
    | Constant(reply: string)                                 // queries with a fixed reply
    | AddBreakpoint(kind: nat, address: nat, size: nat)
    | RemoveBreakpoint(kind: nat, address: nat, size: nat)
    | RegisterInfo(index: nat)
    | ReadRegister(index: nat)
    | Unknown                                                 // answered with the empty reply
    | Raises                                                  // an exception, which ends the session

  /** What the client sends. */
  datatype Command =
    | SendContinue
    | SendStep
    | SendInterrupt
    | BreakInsert(address: nat)
    | BreakDelete(address: nat)
    | AskRegister(index: nat)
    | AskSupported
    | AskMustReplyEmpty
    | AskNoAckMode

  const HARDWARE := 1

  function PrintCommand(c: Command): string {
    match c
    case SendContinue => "c"
    case SendStep => "s"
    case SendInterrupt => "vCtrlC"
    case BreakInsert(address) => "Z1," + Print(address, 16) + ",0"
    case BreakDelete(address) => "z1," + Print(address, 16) + ",0"
    case AskRegister(index) => "p" + Print(index, 16)
    case AskSupported => "qSupported:" + "multiprocess+;swbreak+;hwbreak+"
    case AskMustReplyEmpty => "vMustReplyEmpty"
    case AskNoAckMode => "QStartNoAckMode"
  }

  /** The branch each command is meant for. */
  function Meaning(c: Command): Request {
    match c
    case SendContinue => Continue
    case SendStep => Step
    case SendInterrupt => Interrupt
    case BreakInsert(address) => AddBreakpoint(HARDWARE, address, 0)
    case BreakDelete(address) => RemoveBreakpoint(HARDWARE, address, 0)
    case AskRegister(index) => ReadRegister(index)
    case AskSupported => Supported
    case AskMustReplyEmpty => Constant("")
    case AskNoAckMode => StartNoAckMode
  }

  /** Length of the longest run of `[0-9a-zA-Z]` at the head of `s`. */
  function AlnumRun(s: string): (n: nat)
    ensures n <= |s|
  {
    if s == "" || !IsAlnum(s[0]) then 0 else 1 + AlnumRun(s[1..])
  }

  function CountChar(s: string, c: char): nat {
    if s == "" then 0 else (if s[0] == c then 1 else 0) + CountChar(s[1..], c)
  }

  /** The feature loop raises on a trailing `-` (`x.substr` is no attribute) and on two `=`. */
  predicate FeatureRaises(feature: string) {
    && !(feature != "" && feature[|feature| - 1] == '+')
    && ((feature != "" && feature[|feature| - 1] == '-') || CountChar(feature, '=') > 1)
  }

  /** The loop over `(.*)`, which ends at a line feed, cut at every `;`. */
  predicate FeaturesRaise(features: string) {
    exists f <- Split(features[..IndexOf(features, '\n')], ';') :: FeatureRaises(f)
  }

  /** `^s([0-9a-zA-Z]+)?` and its like: the address is read and then ignored. */
  function WithAddress(rest: string, request: Request): Request {
    var n := AlnumRun(rest);
    if n > 0 && ParseInt(rest[..n], 16) == None then Raises else request
  }

  const TSTATUS := "T0;tnotrun:0;tframes:0;tcreated:0;tfree:50*!;tsize:50*!;circular:0;disconn:0;starttime:0;stoptime:0;username:;notes::"
  const TFV := "1:0:1:74726163655f74696d657374616d70"
  const HOST_INFO := "triple:7838365f36342d756e6b6e6f776e2d676e75;endian:little;ptrsize:8;"

  /** `^([zZ])([0-4]),([0-9a-zA-Z]+),([0-9a-zA-Z]+)`; None where the expression does not match. */
  function ParseBreakpoint(s: string): Option<Request> {
    if |s| < 3 || !('0' <= s[1] <= '4') || s[2] != ',' then None
    else
      var text := s[3..];
      var n := AlnumRun(text);
      if n == 0 || n == |text| || text[n] != ',' then None
      else
        var tail := text[n + 1..];
        var m := AlnumRun(tail);
        if m == 0 then None
        else
          var kind, address, size := s[1] as nat - '0' as nat, ParseInt(text[..n], 16), ParseInt(tail[..m], 16);
          if address == None || size == None then Some(Raises)
          else if s[0] == 'z' then Some(RemoveBreakpoint(kind, address.value, size.value))
          else Some(AddBreakpoint(kind, address.value, size.value))
  }

  /** `^m([0-9a-zA-Z]+),([0-9a-zA-Z]+)`; the branch raises NotImplementedError, or ValueError before that. */
  predicate IsReadMemory(s: string) {
    s != "" && s[0] == 'm' &&
    var n := 1 + AlnumRun(s[1..]);
    1 < n && n + 1 < |s| && s[n] == ',' && IsAlnum(s[n + 1])
  }

  /** `^M([0-9a-zA-Z]+),([0-9a-zA-Z]+):([0-9a-zA-Z]+)`; the branch takes the length of a number, a TypeError. */
  predicate IsWriteMemory(s: string) {
    s != "" && s[0] == 'M' &&
    var n := 1 + AlnumRun(s[1..]);
    1 < n && n + 1 < |s| && s[n] == ',' &&
    var m := n + 1 + AlnumRun(s[n + 1..]);
    n + 1 < m && m + 1 < |s| && s[m] == ':' && IsAlnum(s[m + 1])
  }

  /** `^H([cgm])(-?[0-9]+)`. */
  predicate IsSelectThread(s: string) {
    && |s| >= 3 && s[0] == 'H' && (s[1] == 'c' || s[1] == 'g' || s[1] == 'm')
    && (IsDecimal(s[2]) || (|s| >= 4 && s[2] == '-' && IsDecimal(s[3])))
  }

  /** `prefix` followed by at least one of `[0-9a-zA-Z]`. */
  predicate HasNumber(s: string, prefix: string) {
    prefix <= s && |prefix| < |s| && IsAlnum(s[|prefix|])
  }

  function NumberAfter(s: string, prefix: string): Option<nat>
    requires HasNumber(s, prefix)
  {
    var rest := s[|prefix|..];
    ParseInt(rest[..AlnumRun(rest)], 16)
  }

  /** Packets that begin with `q`, in the stub's order. */
  function ParseQuery(s: string): Request {
    if "qSupported:" <= s then
      if FeaturesRaise(s[11..]) then Raises else Supported
    else if "qTStatus" <= s then Constant(TSTATUS)
    else if "qfThreadInfo" <= s then Constant("m0x0")
    else if "qsThreadInfo" <= s then Constant("l")
    else if "qTfV" <= s then Constant(TFV)
    else if "qTsV" <= s then Constant("l")
    else if "qC" <= s then Constant("QC0")
    else if "qHostInfo" <= s then Constant(HOST_INFO)
    else if "qProcessInfo" <= s then Constant("pid:1;endian:little;")
    else if HasNumber(s, "qRegisterInfo") then
      var n := NumberAfter(s, "qRegisterInfo");
      if n == None then Raises else RegisterInfo(n.value)
    else if HasNumber(s, "qMemoryRegionInfo:") then
      if NumberAfter(s, "qMemoryRegionInfo:") == None then Raises
      else Constant("start:00000000;size:100000;permissions:rwx;")
    else Unknown
  }

  /**
   The stub's tests in order. Each test but `qC` and its neighbours looks at a first character no other test accepts,
   so the queries, which are tested between the others, can stand in a function of their own.
   */
  function Dispatch(s: string): Request {
    if s == "?" then HaltReason
    else if s == "g" then ReadRegisters
    else if s == "vCtrlC" then Interrupt
    else if HasNumber(s, "G") then Raises                      // NotImplementedError
    else if IsReadMemory(s) then Raises
    else if IsWriteMemory(s) then Raises
    else if "s" <= s then WithAddress(s[1..], Step)
    else if "c" <= s then WithAddress(s[1..], Continue)
    else if "QStartNoAckMode" <= s then StartNoAckMode
    else if "q" <= s then ParseQuery(s)
    else if IsSelectThread(s) then Constant("OK")
    else if ("z" <= s || "Z" <= s) && ParseBreakpoint(s).Some? then ParseBreakpoint(s).value
    else if HasNumber(s, "p") then
      var n := NumberAfter(s, "p");
      if n == None then Raises else ReadRegister(n.value)
    else if "vMustReplyEmpty" <= s then Constant("")
    else Unknown
  }

  lemma {:induction false} AlnumRunIs(run: string, tail: string)
    requires forall c <- run :: IsAlnum(c)
    requires tail == "" || !IsAlnum(tail[0])
    ensures AlnumRun(run + tail) == |run|
  {
    if run == "" {
      assert run + tail == tail;
    } else {
      assert run[0] in run;
      assert (run + tail)[1..] == run[1..] + tail;
      AlnumRunIs(run[1..], tail);
    }
  }

  /** `letter kind,address,size` with any of the kinds the protocol has. */
  function BreakpointText(letter: char, kind: nat, address: nat, size: nat): string
    requires kind <= 4
  {
    [letter, Digit(kind), ','] + (Print(address, 16) + ("," + Print(size, 16)))
  }

  lemma KindDigit(kind: nat)
    requires kind <= 4
    ensures '0' <= Digit(kind) <= '4' && Digit(kind) as nat - '0' as nat == kind
  {
  }

  lemma BreakpointRoundTrip(letter: char, kind: nat, address: nat, size: nat)
    requires (letter == 'z' || letter == 'Z') && kind <= 4
    ensures ParseBreakpoint(BreakpointText(letter, kind, address, size)) ==
      Some(if letter == 'z' then RemoveBreakpoint(kind, address, size) else AddBreakpoint(kind, address, size))
  {
    hide Print, ParseInt, AlnumRun, Digit;
    KindDigit(kind);
    var digits, last := Print(address, 16), Print(size, 16);
    ParseOfPrint(address, 16);
    ParseOfPrint(size, 16);
    var s := BreakpointText(letter, kind, address, size);
    var text := s[3..];
    assert text == digits + ("," + last);
    AlnumRunIs(digits, "," + last);
    var n := AlnumRun(text);
    assert text[..n] == digits && text[n] == ',' && text[n + 1..] == last;
    assert last + "" == last && last[..|last|] == last;
    AlnumRunIs(last, "");
  }

  lemma ZeroPrinted()
    ensures Print(0, 16) == "0"
  {
  }

  lemma RegisterRoundTrip(index: nat)
    ensures var s := "p" + Print(index, 16); HasNumber(s, "p") && NumberAfter(s, "p") == Some(index)
  {
    var digits := Print(index, 16);
    ParseOfPrint(index, 16);
    hide Print, ParseInt, AlnumRun;
    var s := "p" + digits;
    assert digits[0] in digits;
    assert s[|"p"|..] == digits && digits == digits + "";
    AlnumRunIs(digits, "");
    assert digits[..|digits|] == digits;
  }

  /** No other test accepts a packet that begins like a breakpoint request. */
  lemma DispatchBreakpoint(s: string)
    requires s != "" && (s[0] == 'z' || s[0] == 'Z') && ParseBreakpoint(s).Some?
    ensures Dispatch(s) == ParseBreakpoint(s).value
  {
    hide ParseBreakpoint, ParseQuery, WithAddress;
  }

  lemma ClientText(letter: char, address: nat)
    ensures BreakpointText(letter, 1, address, 0) == [letter] + "1," + Print(address, 16) + ",0"
  {
    ZeroPrinted();
    assert Digit(1) == '1';
    hide Print, Digit, IsLowerHex;
    assert [letter] + "1," == [letter, '1', ','] && "," + "0" == ",0";
    Regroup([letter, '1', ','], Print(address, 16), ",0");
  }

  lemma ClientBreakpoint(letter: char, address: nat)
    requires letter == 'z' || letter == 'Z'
    ensures ParseBreakpoint([letter] + "1," + Print(address, 16) + ",0") ==
      Some(if letter == 'z' then RemoveBreakpoint(HARDWARE, address, 0) else AddBreakpoint(HARDWARE, address, 0))
  {
    hide Print, ParseBreakpoint, Digit, IsLowerHex;
    BreakpointRoundTrip(letter, 1, address, 0);
    ClientText(letter, address);
  }

  lemma DispatchReadRegister(s: string, index: nat)
    requires HasNumber(s, "p") && NumberAfter(s, "p") == Some(index)
    ensures Dispatch(s) == ReadRegister(index)
  {
    hide ParseBreakpoint, ParseQuery, WithAddress, NumberAfter;
    assert s[0] == 'p';
  }

  lemma DispatchPlain()
    ensures Dispatch("c") == Continue && Dispatch("s") == Step && Dispatch("vCtrlC") == Interrupt
  {
    hide ParseBreakpoint, ParseQuery;
    assert "c"[1..] == "" && "s"[1..] == "";
  }

  lemma DispatchHandshake()
    ensures Dispatch("QStartNoAckMode") == StartNoAckMode && Dispatch("vMustReplyEmpty") == Constant("")
  {
    hide ParseBreakpoint, ParseQuery, WithAddress;
    DispatchNoAck("QStartNoAckMode");
    DispatchReplyEmpty("vMustReplyEmpty");
    hide Dispatch;
  }

  lemma DispatchNoAck(s: string)
    requires "QStartNoAckMode" <= s && s[0] == 'Q'
    ensures Dispatch(s) == StartNoAckMode
  {
    hide ParseBreakpoint, ParseQuery, WithAddress, AlnumRun, NumberAfter;
  }

  lemma DispatchReplyEmpty(s: string)
    requires "vMustReplyEmpty" <= s && s[0] == 'v' && s[1] == 'M'
    ensures Dispatch(s) == Constant("")
  {
    hide ParseBreakpoint, ParseQuery, WithAddress, AlnumRun, NumberAfter;
  }

  predicate Announces(feature: string) {
    feature != "" && feature[|feature| - 1] == '+' && ';' !in feature && '\n' !in feature
  }

  lemma FeatureList(features: string, a: string, b: string, c: string)
    requires features == a + [';'] + (b + [';'] + c) && Announces(a) && Announces(b) && Announces(c)
    ensures Split(features, ';') == [a, b, c] && '\n' !in features
  {
    hide Split;
    SplitFirst(features, ';', a, b + [';'] + c);
    SplitFirst(b + [';'] + c, ';', b, c);
    SplitNone(c, ';');
  }

  lemma DispatchQuery(s: string)
    requires s != "" && s[0] == 'q'
    ensures Dispatch(s) == ParseQuery(s)
  {
    hide ParseBreakpoint, ParseQuery, WithAddress, NumberAfter;
  }

  /** Features that are all announced with `+` do not make the loop raise. */
  lemma PlusRaisesNot(features: string, a: string, b: string, c: string)
    requires features == a + [';'] + (b + [';'] + c) && Announces(a) && Announces(b) && Announces(c)
    ensures !FeaturesRaise(features)
  {
    hide Split, IndexOf, CountChar;
    FeatureList(features, a, b, c);
    IndexOfNone(features, '\n');
    assert !FeatureRaises(a) && !FeatureRaises(b) && !FeatureRaises(c);
    hide FeatureRaises, Announces;
    assert features[..|features|] == features;
  }

  lemma ClientFeatures(features: string)
    requires features == "multiprocess+;swbreak+;hwbreak+"
    ensures !FeaturesRaise(features)
  {
    PlusRaisesNot(features, "multiprocess+", "swbreak+", "hwbreak+");
    hide *;
  }

  lemma DispatchSupported(features: string)
    requires !FeaturesRaise(features)
    ensures Dispatch("qSupported:" + features) == Supported
  {
    hide FeaturesRaise;
    var s := "qSupported:" + features;
    assert s[11..] == features;
    DispatchQuery(s);
    hide Dispatch;
  }

  /** Whatever the client can print, the stub's tests send to the branch it is meant for, with the same numbers. */
  lemma CommandRoundTrip(c: Command)
    ensures Dispatch(PrintCommand(c)) == Meaning(c)
  {
    hide Dispatch, ParseBreakpoint, NumberAfter, HasNumber, FeaturesRaise;
    match c {
      case BreakInsert(address) =>
        ClientBreakpoint('Z', address);
        assert PrintCommand(c) == ['Z'] + "1," + Print(address, 16) + ",0";
        DispatchBreakpoint(PrintCommand(c));
      case BreakDelete(address) =>
        ClientBreakpoint('z', address);
        assert PrintCommand(c) == ['z'] + "1," + Print(address, 16) + ",0";
        DispatchBreakpoint(PrintCommand(c));
      case AskRegister(index) =>
        RegisterRoundTrip(index);
        DispatchReadRegister(PrintCommand(c), index);
      case AskSupported =>
        ClientFeatures("multiprocess+;swbreak+;hwbreak+");
        DispatchSupported("multiprocess+;swbreak+;hwbreak+");
      case SendContinue =>
        DispatchPlain();
      case SendStep =>
        DispatchPlain();
      case SendInterrupt =>
        DispatchPlain();
      case AskMustReplyEmpty =>
        DispatchHandshake();
      case AskNoAckMode =>
        DispatchHandshake();
    }
  }

  /** The register-description request of other debuggers, for any register. */
  lemma RegisterInfoRequest(index: nat)
    ensures Dispatch("qRegisterInfo" + Print(index, 16)) == RegisterInfo(index)
  {
    hide Print, ParseInt, AlnumRun, FeaturesRaise;
    var digits := Print(index, 16);
    ParseOfPrint(index, 16);
    var s := "qRegisterInfo" + digits;
    assert digits[0] in digits;
    assert s[13..] == digits && s[13] == digits[0] && digits == digits + "" && digits[..|digits|] == digits;
    AlnumRunIs(digits, "");
    assert "qRegisterInfo" <= s && s[0] == 'q' && s[1] == 'R';
    hide IsLowerHex;
    QueryRegisterInfo(s, index);
  }

  lemma QueryRegisterInfo(s: string, index: nat)
    requires HasNumber(s, "qRegisterInfo") && NumberAfter(s, "qRegisterInfo") == Some(index)
    requires s[0] == 'q' && s[1] == 'R'
    ensures Dispatch(s) == RegisterInfo(index)
  {
    DispatchQuery(s);
    hide Dispatch, FeaturesRaise, NumberAfter, AlnumRun, ParseInt;
  }

  /**
   Requests of other debuggers reach their branches too: breakpoints of every kind and size, the reason of the halt, all
   registers; and the requests on memory and on writing registers raise.
   */
  lemma OtherRequests(kind: nat, address: nat, size: nat, tail: string)
    requires kind <= 4
    ensures Dispatch(BreakpointText('Z', kind, address, size)) == AddBreakpoint(kind, address, size)
    ensures Dispatch(BreakpointText('z', kind, address, size)) == RemoveBreakpoint(kind, address, size)
    ensures Dispatch("?") == HaltReason && Dispatch("g") == ReadRegisters
    ensures Dispatch("m" + Print(address, 16) + ("," + Print(size, 16) + tail)) == Raises
    ensures Dispatch("G" + Print(address, 16) + tail) == Raises
  {
    BreakpointRoundTrip('Z', kind, address, size);
    BreakpointRoundTrip('z', kind, address, size);
    hide Print, ParseBreakpoint;
    DispatchBreakpoint(BreakpointText('Z', kind, address, size));
    DispatchBreakpoint(BreakpointText('z', kind, address, size));
    hide BreakpointText;
    ReadMemoryRaises(address, size, tail);
    WriteRegistersRaises(address, tail);
    hide Dispatch;
    assert Dispatch("?") == HaltReason && Dispatch("g") == ReadRegisters by { PlainQuestions(); }
  }

  lemma PlainQuestions()
    ensures Dispatch("?") == HaltReason && Dispatch("g") == ReadRegisters
  {
  }

  lemma ReadMemoryRaises(address: nat, size: nat, tail: string)
    ensures Dispatch("m" + Print(address, 16) + ("," + Print(size, 16) + tail)) == Raises
  {
    hide Print, AlnumRun, Dispatch;
    var digits, last := Print(address, 16), Print(size, 16);
    var s, rest := "m" + digits + ("," + last + tail), "," + last + tail;
    assert s[1..] == digits + rest;
    AlnumRunIs(digits, rest);
    assert last[0] in last;
    assert s[1 + |digits|] == ',' && s[2 + |digits|] == last[0];
    assert IsReadMemory(s);
    hide IsReadMemory, IsLowerHex;
    ReadMemoryDispatch(s);
  }

  lemma ReadMemoryDispatch(s: string)
    requires IsReadMemory(s) && s[0] == 'm'
    ensures Dispatch(s) == Raises
  {
    hide IsReadMemory, ParseBreakpoint, ParseQuery, WithAddress, AlnumRun, NumberAfter, IsWriteMemory;
  }

  lemma WriteRegistersRaises(values: nat, tail: string)
    ensures Dispatch("G" + Print(values, 16) + tail) == Raises
  {
    hide Print, AlnumRun;
    var digits := Print(values, 16);
    var s := "G" + digits + tail;
    assert digits[0] in digits;
    assert s[1] == digits[0] && s[0] == 'G';
  }
}

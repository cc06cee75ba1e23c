/** What requests of other debuggers come to, besides those of the project's own client. */
module RequestTexts {
  import opened Wrappers
  import opened Digits
  import opened Text
  import opened Requests

  // ---- features ----

  lemma {:induction false} PiecesAreCounted(s: string, c: char)
    ensures |Split(s, c)| == CountChar(s, c) + 1
    decreases |s|
  {
    if c !in s {
      SplitNone(s, c);
      NoneCounted(s, c);
    } else {
      var i := IndexOf(s, c);
      CountedBehind(s, c, i);
      PiecesAreCounted(s[i + 1..], c);
    }
  }

  lemma {:induction false} NoneCounted(s: string, c: char)
    requires c !in s
    ensures CountChar(s, c) == 0
  {
    if s != "" {
      NoneCounted(s[1..], c);
    }
  }

  lemma {:induction false} CountedBehind(s: string, c: char, i: nat)
    requires i < |s| && c !in s[..i] && s[i] == c
    ensures CountChar(s, c) == 1 + CountChar(s[i + 1..], c)
  {
    if i > 0 {
      assert s[0] in s[..i];
      assert s[1..][..i - 1] == s[..i][1..] && s[1..][i..] == s[i + 1..];
      CountedBehind(s[1..], c, i - 1);
    }
  }

  /** A feature makes the loop raise exactly if it ends in `-`, or if it does not end in `+` and has several `=`. */
  lemma FeatureRaisesIff(feature: string)
    ensures FeatureRaises(feature) <==>
      feature != "" && var last := feature[|feature| - 1];
        last == '-' || (last != '+' && |Split(feature, '=')| > 2)
  {
    PiecesAreCounted(feature, '=');
    hide CountChar, Split;
    if feature == "" {
      NoneCounted("", '=');
    }
  }

  /** A list of features, as any debugger sends it, is answered unless one of them raises. */
  lemma SupportedIff(features: seq<string>)
    requires features != [] && Without(features, ';') && Without(features, '\n')
    ensures Dispatch("qSupported:" + Join(features, ';')) ==
      if exists f <- features :: FeatureRaises(f) then Raises else Supported
  {
    hide FeatureRaises, Split, IndexOf;
    var list := Join(features, ';');
    var s := "qSupported:" + list;
    SplitOfJoin(features, ';');
    JoinIsWithout(features, ';', '\n');
    IndexOfNone(list, '\n');
    assert s[11..] == list && list[..|list|] == list && s[0] == 'q';
    hide Join;
    DispatchQuery(s);
    hide Dispatch;
  }

  lemma {:induction false} JoinIsWithout(pieces: seq<string>, sep: char, c: char)
    requires Without(pieces, c) && sep != c
    ensures c !in Join(pieces, sep)
  {
    if pieces != [] {
      assert pieces[0] in pieces;
      JoinIsWithout(pieces[1..], sep, c);
    }
  }

  /** A key with a value, such as `xmlRegisters=i386`, is no reason to raise unless the value ends in `-`. */
  lemma KeyAndValue(key: string, value: string)
    requires Without([key, value], ';') && Without([key, value], '\n') && Without([key, value], '=') && value != ""
    ensures Dispatch("qSupported:" + (key + ['='] + value)) ==
      if value[|value| - 1] == '-' then Raises else Supported
  {
    var feature := key + ['='] + value;
    hide Split;
    assert key in [key, value] && value in [key, value];
    SupportedIff([feature]);
    FeatureRaisesIff(feature);
    SplitFirst(feature, '=', key, value);
    SplitNone(value, '=');
    assert feature[|feature| - 1] == value[|value| - 1];
    hide Dispatch, FeatureRaises;
    assert Join([feature], ';') == feature;
    assert feature in [feature];
  }

  // ---- addresses ----

  /** The address behind `s` or `c` is read and ignored; letters that are no number raise. */
  lemma AddressIgnored(run: string, tail: string)
    requires (forall c <- run :: IsAlnum(c)) && (tail == "" || !IsAlnum(tail[0]))
    ensures var raises := run != "" && ParseInt(run, 16) == None;
      && Dispatch("s" + (run + tail)) == (if raises then Raises else Step)
      && Dispatch("c" + (run + tail)) == (if raises then Raises else Continue)
  {
    hide ParseInt, IsAlnum;
    AlnumRunIs(run, tail);
    assert ("s" + (run + tail))[1..] == run + tail == ("c" + (run + tail))[1..];
    assert (run + tail)[..|run|] == run;
    DispatchStart("s" + (run + tail));
    DispatchStart("c" + (run + tail));
    hide Dispatch, AlnumRun;
  }

  lemma DispatchStart(s: string)
    requires s != "" && (s[0] == 's' || s[0] == 'c')
    ensures Dispatch(s) == if s[0] == 's' then WithAddress(s[1..], Step) else WithAddress(s[1..], Continue)
  {
    hide WithAddress, AlnumRun, ParseQuery, ParseBreakpoint, NumberAfter;
  }

  /** Writing memory raises, whatever follows. */
  lemma WriteMemoryRaises(address: nat, size: nat, value: nat, tail: string)
    ensures var third := ":" + (Print(value, 16) + tail);
      Dispatch("M" + (Print(address, 16) + ("," + (Print(size, 16) + third)))) == Raises
  {
    hide Print, AlnumRun, Dispatch, IsLowerHex;
    var a, b, c := Print(address, 16), Print(size, 16), Print(value, 16);
    var third := ":" + (c + tail);
    var second := "," + (b + third);
    var s := "M" + (a + second);
    AreAlnum(a);
    AreAlnum(b);
    AreAlnum(c);
    assert s[1..] == a + second;
    AlnumRunIs(a, second);
    assert s[1 + |a|] == ',' && s[2 + |a|..] == b + third;
    AlnumRunIs(b, third);
    assert s[2 + |a| + |b|] == ':' && s[3 + |a| + |b|] == c[0];
    assert c[0] in c;
    hide IsAlnum;
    WriteMemoryDispatch(s);
  }

  lemma AreAlnum(s: string)
    requires forall c <- s :: IsLowerHex(c)
    ensures forall c <- s :: IsAlnum(c)
  {
  }

  lemma WriteMemoryDispatch(s: string)
    requires IsWriteMemory(s)
    ensures Dispatch(s) == Raises
  {
    hide ParseBreakpoint, ParseQuery, WithAddress, AlnumRun, NumberAfter;
  }

  // ---- threads and queries ----

  /** Selecting a thread for any purpose is answered by `OK`, also for a negative number. */
  lemma ThreadsSelected(purpose: char, thread: nat, negative: bool)
    requires purpose == 'c' || purpose == 'g' || purpose == 'm'
    ensures Dispatch(['H', purpose] + ((if negative then "-" else "") + Print(thread, 10))) == Constant("OK")
  {
    hide Print, IsLowerHex;
    var digits := Print(thread, 10);
    assert digits[0] in digits;
    var s := ['H', purpose] + ((if negative then "-" else "") + digits);
    assert s[0] == 'H' && s[1] == purpose && if negative then s[2] == '-' && s[3] == digits[0] else s[2] == digits[0];
    hide ParseBreakpoint, ParseQuery, WithAddress, AlnumRun, NumberAfter;
  }

  /** The queries about threads, and the last packet of each list. */
  lemma QueriesAnswered(tail: string)
    ensures Dispatch("qC" + tail) == Constant("QC0") && Dispatch("qTsV" + tail) == Constant("l")
    ensures Dispatch("qfThreadInfo" + tail) == Constant("m0x0") && Dispatch("qsThreadInfo" + tail) == Constant("l")
  {
    QueryFor("qC" + tail);
    QueryFor("qTsV" + tail);
    QueryFor("qfThreadInfo" + tail);
    QueryFor("qsThreadInfo" + tail);
    hide Dispatch;
  }

  lemma QueryFor(s: string)
    requires "q" <= s
    ensures Dispatch(s) == ParseQuery(s)
    ensures "qC" <= s ==> ParseQuery(s) == Constant("QC0")
    ensures "qTsV" <= s ==> ParseQuery(s) == Constant("l")
    ensures "qfThreadInfo" <= s ==> ParseQuery(s) == Constant("m0x0")
    ensures "qsThreadInfo" <= s ==> ParseQuery(s) == Constant("l")
  {
    DispatchQuery(s);
    hide Dispatch, FeaturesRaise, HasNumber, NumberAfter, AlnumRun;
    assert "qC" <= s ==> s[1] == 'C';
    assert "qTsV" <= s ==> s[1] == 'T' && s[2] == 's';
  }

  /** The queries about the target and its trace, and about any region of memory. */
  lemma TargetDescribed(address: nat, tail: string)
    ensures Dispatch("qTStatus" + tail) == Constant(TSTATUS) && Dispatch("qTfV" + tail) == Constant(TFV)
    ensures Dispatch("qHostInfo" + tail) == Constant(HOST_INFO)
    ensures Dispatch("qProcessInfo" + tail) == Constant("pid:1;endian:little;")
    ensures Dispatch("qMemoryRegionInfo:" + Print(address, 16)) ==
      Constant("start:00000000;size:100000;permissions:rwx;")
  {
    TraceFor("qTStatus" + tail);
    TraceFor("qTfV" + tail);
    DescriptionFor("qHostInfo" + tail);
    DescriptionFor("qProcessInfo" + tail);
    RegionFor(address);
    hide Dispatch, Print;
  }

  lemma DescriptionFor(s: string)
    requires "q" <= s
    ensures Dispatch(s) == ParseQuery(s)
    ensures "qHostInfo" <= s ==> ParseQuery(s) == Constant(HOST_INFO)
    ensures "qProcessInfo" <= s ==> ParseQuery(s) == Constant("pid:1;endian:little;")
  {
    DispatchQuery(s);
    hide Dispatch, FeaturesRaise, HasNumber, NumberAfter, AlnumRun, TSTATUS, TFV, HOST_INFO;
    assert "qHostInfo" <= s ==> s[1] == 'H';
    assert "qProcessInfo" <= s ==> s[1] == 'P';
  }

  lemma TraceFor(s: string)
    requires "q" <= s
    ensures Dispatch(s) == ParseQuery(s)
    ensures "qTStatus" <= s ==> ParseQuery(s) == Constant(TSTATUS)
    ensures "qTfV" <= s ==> ParseQuery(s) == Constant(TFV)
  {
    DispatchQuery(s);
    hide Dispatch, FeaturesRaise, HasNumber, NumberAfter, AlnumRun, TSTATUS, TFV, HOST_INFO;
    assert "qTStatus" <= s ==> s[1] == 'T';
    assert "qTfV" <= s ==> s[1] == 'T' && s[2] == 'f';
  }

  lemma RegionFor(address: nat)
    ensures Dispatch("qMemoryRegionInfo:" + Print(address, 16)) ==
      Constant("start:00000000;size:100000;permissions:rwx;")
  {
    hide Print, ParseInt, AlnumRun, FeaturesRaise, IsLowerHex;
    var digits := Print(address, 16);
    ParseOfPrint(address, 16);
    AreAlnum(digits);
    var s := "qMemoryRegionInfo:" + digits;
    hide Dispatch, ParseQuery;
    assert digits[0] in digits;
    assert s[18..] == digits && s[18] == digits[0] && digits == digits + "" && digits[..|digits|] == digits;
    AlnumRunIs(digits, "");
    assert s[0] == 'q' && s[1] == 'M';
    RegionQuery(s, address);
  }

  lemma RegionQuery(s: string, address: nat)
    requires HasNumber(s, "qMemoryRegionInfo:") && NumberAfter(s, "qMemoryRegionInfo:") == Some(address)
    requires s[0] == 'q' && s[1] == 'M'
    ensures Dispatch(s) == Constant("start:00000000;size:100000;permissions:rwx;")
  {
    hide Dispatch, FeaturesRaise, NumberAfter, AlnumRun, ParseInt, IsAlnum, TSTATUS, TFV, HOST_INFO;
    DispatchQuery(s);
    NoOtherQuery(s);
  }

  lemma NoOtherQuery(s: string)
    requires |s| > 1 && s[1] == 'M'
    ensures !("qSupported:" <= s) && !("qTStatus" <= s) && !("qfThreadInfo" <= s) && !("qsThreadInfo" <= s)
    ensures !("qTfV" <= s) && !("qTsV" <= s) && !("qC" <= s) && !("qHostInfo" <= s) && !("qProcessInfo" <= s)
    ensures !HasNumber(s, "qRegisterInfo")
  {
    hide IsAlnum;
  }

  /** Breakpoints of a kind that the protocol does not have are unknown. */
  lemma OtherKindsUnknown(letter: char, kind: char, rest: string)
    requires (letter == 'z' || letter == 'Z') && (kind < '0' || '4' < kind)
    ensures Dispatch([letter, kind] + rest) == Unknown
  {
    var s := [letter, kind] + rest;
    assert s[0] == letter && s[1] == kind && ParseBreakpoint(s) == None;
    hide ParseBreakpoint;
    OnlyBreakpoints(s);
  }

  lemma OnlyBreakpoints(s: string)
    requires s != "" && (s[0] == 'z' || s[0] == 'Z') && ParseBreakpoint(s) == None
    ensures Dispatch(s) == Unknown
  {
    hide WithAddress, AlnumRun, ParseQuery, NumberAfter, ParseBreakpoint;
  }

  /** A packet that begins like none of the requests is answered by the empty reply. */
  lemma OthersUnknown(s: string)
    requires s == "" || s[0] !in "?gvGmMscQqHzZp"
    ensures Dispatch(s) == Unknown
  {
    hide WithAddress, AlnumRun, ParseQuery, NumberAfter, ParseBreakpoint;
  }
}

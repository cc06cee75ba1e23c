/**
 Result records ("GDB/MI Output Syntax", result-record): a token, a class and arguments, of which lists are written as
 bracketed, comma-joined escaped strings. The reading functions are a reference reader.
 */
module MiRecords {
  import opened Wrappers
  import opened Digits
  import opened Text
  import opened MiStrings

  /** What an argument is given: text that is written as it is, or a list of strings. */
  datatype ArgVal = Plain(text: string) | Values(list: seq<string>)

  datatype Arg = Arg(name: string, val: ArgVal)

  function EscapeAll(values: seq<string>): (r: Option<seq<string>>)
    ensures r.Some? ==> |r.value| == |values|
  {
    if values == [] then Some([])
    else
      var first, rest := EscapeStr(values[0], true), EscapeAll(values[1..]);
      if first.Some? && rest.Some? then Some([first.value] + rest.value) else None
  }

  /** `[v,v,...]`; None where escaping raises. */
  function FormatList(values: seq<string>): Option<string> {
    var all := EscapeAll(values);
    if all.Some? then Some("[" + Join(all.value, ',') + "]") else None
  }

  function FormatArg(arg: Arg): Option<string> {
    match arg.val
    case Plain(text) => Some(arg.name + "=" + text)
    case Values(list) =>
      var text := FormatList(list);
      if text.Some? then Some(arg.name + "=" + text.value) else None
  }

  function FormatArgs(args: seq<Arg>): (r: Option<seq<string>>)
    ensures r.Some? ==> |r.value| == |args|
  {
    if args == [] then Some([])
    else
      var front, last := FormatArgs(args[..|args| - 1]), FormatArg(args[|args| - 1]);
      if front.Some? && last.Some? then Some(front.value + [last.value]) else None
  }

  lemma {:induction false} ArgRaises(args: seq<Arg>, k: nat)
    requires k <= |args| && FormatArgs(args[..k]) == None
    ensures FormatArgs(args) == None
  {
    if k == |args| {
      assert args[..k] == args;
    } else {
      assert args[..|args| - 1][..k] == args[..k];
      ArgRaises(args[..|args| - 1], k);
    }
  }

  /** The loop of _gdbCmdFormatArgs. */
  method GdbCmdFormatArgs(args: seq<Arg>) returns (r: Option<seq<string>>)
    ensures r == FormatArgs(args)
  {
    var parts: seq<string> := [];
    for k := 0 to |args|
      invariant FormatArgs(args[..k]) == Some(parts)
    {
      hide FormatList;
      assert args[..k + 1][..k] == args[..k];
      var argVal;
      if args[k].val.Values? {
        argVal := FormatList(args[k].val.list);
        if argVal == None {
          ArgRaises(args, k + 1);
          return None;
        }
      } else {
        argVal := Some(args[k].val.text);
      }
      parts := parts + [args[k].name + "=" + argVal.value];
    }
    assert args[..|args|] == args;
    return Some(parts);
  }

  /** `{token}^done` in front of the arguments, everything joined by commas. */
  function Head(token: Option<nat>): string {
    (if token.Some? then Print(token.value, 10) else "") + "^done"
  }

  function ResDone(token: Option<nat>, args: seq<Arg>): Option<string> {
    var parts := FormatArgs(args);
    if parts.Some? then Some(Join([Head(token)] + parts.value, ',')) else None
  }

  // ---- the reference reader ----

  /** The strings of a list behind its opening bracket or a comma, and the length up to and with its closing bracket. */
  function ReadMore(s: string): (r: Option<(seq<string>, nat)>)
    ensures r.Some? ==> r.value.1 <= |s|
    decreases |s|
  {
    match ReadStr(s)
    case None => None
    case Some((text, n)) =>
      if n == |s| then None
      else if s[n] == ']' then Some(([text], n + 1))
      else if s[n] != ',' then None
      else match ReadMore(s[n + 1..])
        case None => None
        case Some((rest, m)) => Some(([text] + rest, n + 1 + m))
  }

  /** A bracketed list at the head of `s`, and its length. */
  function ReadList(s: string): (r: Option<(seq<string>, nat)>)
    ensures r.Some? ==> r.value.1 <= |s|
  {
    if s == "" || s[0] != '[' then None
    else if |s| >= 2 && s[1] == ']' then Some(([], 2))
    else match ReadMore(s[1..])
      case None => None
      case Some((list, n)) => Some((list, 1 + n))
  }

  /** A sequence of `,name=[...]` up to the end. */
  function ReadArgs(s: string): Option<seq<Arg>>
    decreases |s|
  {
    if s == "" then Some([])
    else
      var e := IndexOf(s, '=');
      if s[0] != ',' || e == |s| || e == 0 then None
      else match ReadList(s[e + 1..])
        case None => None
        case Some((list, n)) =>
          var rest := ReadArgs(s[e + 1 + n..]);
          if rest.Some? then Some([Arg(s[1..e], Values(list))] + rest.value) else None
  }

  function ReadDone(s: string): Option<(Option<nat>, seq<Arg>)> {
    var n := DecimalRun(s);
    var token := if n == 0 then None else ParseInt(s[..n], 10);
    if |s| < n + 5 || s[n..n + 5] != "^done" || (n > 0 && token == None) then None
    else
      var args := ReadArgs(s[n + 5..]);
      if args.Some? then Some((token, args.value)) else None
  }

  // ---- round trips ----

  predicate AllLatin(values: seq<string>) {
    forall v <- values :: Latin(v)
  }

  lemma {:induction false} EscapesAllIff(values: seq<string>)
    ensures EscapeAll(values).Some? <==> AllLatin(values)
  {
    if values != [] {
      EscapesIff(values[0], true);
      EscapesAllIff(values[1..]);
      hide EscapeChars, Latin;
    }
  }

  /** One string of a list is read, and then what follows it. */
  lemma MoreStep(text: string, after: string)
    requires EscapeStr(text, true).Some? && after != "" && (after[0] == ']' || after[0] == ',')
    ensures var e, rest := EscapeStr(text, true).value, ReadMore(after[1..]);
      ReadMore(e + after) ==
        if after[0] == ']' then Some(([text], |e| + 1))
        else if rest == None then None
        else Some(([text] + rest.value.0, |e| + 1 + rest.value.1))
  {
    EscapeRoundTrip(text, true, after);
    hide EscapeStr, ReadStr, QuotedLength;
    var e := EscapeStr(text, true).value;
    assert (e + after)[|e|] == after[0] && (e + after)[|e| + 1..] == after[1..];
  }

  lemma {:induction false} MoreRoundTrip(values: seq<string>, tail: string)
    requires values != [] && EscapeAll(values).Some?
    ensures var s := Join(EscapeAll(values).value, ',') + "]";
      ReadMore(s + tail) == Some((values, |s|))
  {
    hide EscapeStr, ReadMore;
    var text, rest, all := values[0], values[1..], EscapeAll(values).value;
    var e := EscapeStr(text, true).value;
    assert all[1..] == EscapeAll(rest).value && all[0] == e;
    assert [text] + rest == values;
    if rest == [] {
      MoreStep(text, "]" + tail);
      assert Join(all, ',') == e && [text] == values;
      hide EscapeAll, Join;
      assert e + "]" + tail == e + ("]" + tail);
    } else {
      MoreRoundTrip(rest, tail);
      var more := Join(all[1..], ',') + "]";
      var after := "," + (more + tail);
      MoreStep(text, after);
      assert after[1..] == more + tail;
      hide EscapeAll;
      assert Join(all, ',') == e + [','] + Join(all[1..], ',');
      hide Join;
      assert Join(all, ',') + "]" + tail == e + after;
    }
  }

  /** A written list is read back from whatever follows it, with its length; writing it fails exactly off Latin text. */
  lemma ListRoundTrip(values: seq<string>, tail: string)
    ensures var s := FormatList(values);
      && (s.Some? <==> AllLatin(values))
      && (s.Some? ==> ReadList(s.value + tail) == Some((values, |s.value|)))
  {
    EscapesAllIff(values);
    hide ReadMore, AllLatin, EscapeStr;
    if values == [] {
      assert EscapeAll(values) == Some([]) && Join([], ',') == "";
      assert "[" + "" + "]" == "[]";
    } else if AllLatin(values) {
      StartsWithQuote(values);
      MoreRoundTrip(values, tail);
      hide EscapeAll, Join;
      var more := Join(EscapeAll(values).value, ',') + "]";
      var s := FormatList(values).value + tail;
      assert s[1..] == more + tail;
      assert s[1] == more[0] == QUOTE;
    }
  }

  lemma StartsWithQuote(values: seq<string>)
    requires values != [] && EscapeAll(values).Some?
    ensures var s := Join(EscapeAll(values).value, ','); s != "" && s[0] == QUOTE
  {
    hide EscapeStr;
  }

  /** Named lists, with names that hold no `=`. */
  predicate ListArgs(args: seq<Arg>) {
    forall arg <- args :: '=' !in arg.name && arg.val.Values?
  }

  function Tail(parts: seq<string>): string {
    if parts == [] then "" else "," + parts[0] + Tail(parts[1..])
  }

  lemma {:induction false} JoinIsTail(first: string, parts: seq<string>)
    ensures Join([first] + parts, ',') == first + Tail(parts)
    decreases |parts|
  {
    if parts == [] {
      assert [first] + parts == [first];
      assert first + "" == first;
    } else {
      JoinIsTail(parts[0], parts[1..]);
      assert [parts[0]] + parts[1..] == parts;
      assert ([first] + parts)[1..] == parts;
      assert first + [','] + (parts[0] + Tail(parts[1..])) == first + ("," + parts[0] + Tail(parts[1..]));
    }
  }

  lemma {:induction false} ArgsFront(args: seq<Arg>)
    requires args != [] && FormatArgs(args).Some?
    ensures FormatArg(args[0]).Some? && FormatArgs(args[1..]).Some?
    ensures FormatArgs(args).value == [FormatArg(args[0]).value] + FormatArgs(args[1..]).value
  {
    hide FormatArg;
    var front := args[..|args| - 1];
    if front == [] {
      assert args[1..] == [];
    } else {
      ArgsFront(front);
      assert front[1..] == args[1..][..|args| - 2];
    }
  }

  lemma ArgRoundTrip(arg: Arg, more: string)
    requires '=' !in arg.name && arg.val.Values? && FormatArg(arg).Some?
    ensures ReadArgs("," + FormatArg(arg).value + more) ==
      if ReadArgs(more).Some? then Some([arg] + ReadArgs(more).value) else None
  {
    hide FormatList, ReadList, AllLatin;
    var list := FormatList(arg.val.list).value;
    ListRoundTrip(arg.val.list, more);
    var s := "," + FormatArg(arg).value + more;
    var e := |arg.name| + 1;
    NameEnds(arg.name, list, more);
    hide IndexOf;
    assert s == ("," + arg.name) + (['='] + (list + more));
    assert s[e + 1..] == list + more && s[1..e] == arg.name;
    assert s[e + 1 + |list|..] == more;
  }

  lemma NameEnds(name: string, list: string, more: string)
    requires '=' !in name
    ensures IndexOf("," + (name + "=" + list) + more, '=') == |name| + 1
  {
    var s := "," + (name + "=" + list) + more;
    assert s[|name| + 1] == '=' && forall j: nat | 0 < j < |name| + 1 :: s[j] == name[j - 1];
    IndexOfFirst(s, '=', |name| + 1);
  }

  lemma {:induction false} ArgsRoundTrip(args: seq<Arg>)
    requires ListArgs(args) && FormatArgs(args).Some?
    ensures ReadArgs(Tail(FormatArgs(args).value)) == Some(args)
    decreases |args|
  {
    hide FormatArg, ReadArgs;
    if args == [] {
      assert FormatArgs(args) == Some([]);
      assert ReadArgs("") == Some([]) by { ReadNone(); }
    } else {
      ArgsFront(args);
      ArgsRoundTrip(args[1..]);
      assert args[0] in args;
      var part, parts := FormatArg(args[0]).value, FormatArgs(args[1..]).value;
      ArgRoundTrip(args[0], Tail(parts));
      assert FormatArgs(args).value[0] == part && FormatArgs(args).value[1..] == parts;
      assert [args[0]] + args[1..] == args;
    }
  }

  lemma ReadNone()
    ensures ReadArgs("") == Some([])
  {
  }

  /** A record of named lists is read back with its token, its names and its lists. */
  lemma RecordRoundTrip(token: Option<nat>, args: seq<Arg>)
    requires ListArgs(args)
    ensures var s := ResDone(token, args);
      && (s.Some? <==> forall arg <- args :: AllLatin(arg.val.list))
      && (s.Some? ==> ReadDone(s.value) == Some((token, args)))
  {
    FormatsIff(args);
    if FormatArgs(args).Some? {
      ArgsRoundTrip(args);
      var parts := FormatArgs(args).value;
      hide FormatArgs, ReadArgs, ListArgs;
      JoinIsTail(Head(token), parts);
      HeadIsRead(token, Tail(parts));
    }
  }

  lemma HeadIsRead(token: Option<nat>, tail: string)
    ensures var args := ReadArgs(tail);
      ReadDone(Head(token) + tail) == if args.Some? then Some((token, args.value)) else None
  {
    hide ReadArgs, ParseInt, Print;
    var digits := if token.Some? then Print(token.value, 10) else "";
    var s := Head(token) + tail;
    assert s == digits + ("^done" + tail);
    DecimalRunIs(digits, "^done" + tail);
    var n := |digits|;
    assert s[..n] == digits && s[n..n + 5] == "^done" && s[n + 5..] == tail;
    if token.Some? {
      ParseOfPrint(token.value, 10);
    }
  }

  /** Writing raises exactly on a list with a character above 0xFF; text that is written as it is never raises. */
  lemma {:induction false} FormatsIff(args: seq<Arg>)
    ensures FormatArgs(args).Some? <==> forall arg <- args :: arg.val.Values? ==> AllLatin(arg.val.list)
  {
    if args != [] {
      var front, last := args[..|args| - 1], args[|args| - 1];
      FormatsIff(front);
      if last.val.Values? {
        ListRoundTrip(last.val.list, "");
      }
      hide FormatList, AllLatin;
      assert args == front + [last];
    }
  }

  /** What stands for one argument. */
  ghost predicate Stands(part: string, arg: Arg) {
    match arg.val
    case Plain(text) => part == arg.name + "=" + text
    case Values(list) =>
      exists written: string :: part == arg.name + "=" + written && ReadList(written) == Some((list, |written|))
  }

  lemma {:induction false} PartsStand(args: seq<Arg>)
    requires FormatArgs(args).Some?
    ensures forall k: nat | k < |args| :: Stands(FormatArgs(args).value[k], args[k])
  {
    if args != [] {
      var front, last := args[..|args| - 1], args[|args| - 1];
      PartsStand(front);
      OneStands(last);
      hide FormatArg, Stands;
    }
  }

  lemma OneStands(arg: Arg)
    requires FormatArg(arg).Some?
    ensures Stands(FormatArg(arg).value, arg)
  {
    if arg.val.Values? {
      ListRoundTrip(arg.val.list, "");
      var list := FormatList(arg.val.list).value;
      hide FormatList, ReadList, AllLatin;
      assert list + "" == list;
    }
  }

  /**
   Any record, with lists and with text: the token and `^done`, then a comma in front of each argument, which is its
   name, `=`, and its text as it is or the list that is read back as its values.
   */
  lemma RecordIs(token: Option<nat>, args: seq<Arg>) returns (parts: seq<string>)
    ensures ResDone(token, args).Some? <==> forall arg <- args :: arg.val.Values? ==> AllLatin(arg.val.list)
    ensures ResDone(token, args).Some? ==>
      && ResDone(token, args).value == (if token.Some? then Print(token.value, 10) else "") + "^done" + Tail(parts)
      && |parts| == |args| && forall k: nat | k < |args| :: Stands(parts[k], args[k])
  {
    FormatsIff(args);
    parts := [];
    if FormatArgs(args).Some? {
      parts := FormatArgs(args).value;
      PartsStand(args);
      JoinIsTail(Head(token), parts);
    }
    hide FormatArgs, Print, Stands, AllLatin;
  }

  /** A list is printable ASCII throughout, whatever its strings. */
  lemma ListIsAscii(values: seq<string>)
    ensures FormatList(values).Some? ==> forall c <- FormatList(values).value :: 0x20 <= c as nat <= 0x7E
  {
    if EscapeAll(values).Some? {
      JoinIsAscii(values);
    }
    hide EscapeAll, Join;
  }

  lemma {:induction false} JoinIsAscii(values: seq<string>)
    requires EscapeAll(values).Some?
    ensures forall c <- Join(EscapeAll(values).value, ',') :: 0x20 <= c as nat <= 0x7E
  {
    if values != [] {
      EscapedIsPrintable(values[0], true);
      JoinIsAscii(values[1..]);
      hide EscapeStr;
    }
  }
}

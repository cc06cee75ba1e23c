/** Command lines ("GDB/MI Input Syntax") and how parseGdbCmd takes them apart. */
module MiCommands {
  import opened Wrappers
  import opened Digits
  import opened Text
  import opened MiStrings

  datatype MiCmd = MiCmd(token: Option<nat>, name: string, params: seq<string>, args: seq<string>)

  /** What a line comes to: the expression does not match it, an exception, or a command. */
  datatype Line = NoCommand | Raises | Command(cmd: MiCmd)

  /** `[a-zA-Z0-9/_\-*.:]`. */
  predicate IsIdChar(c: char) {
    IsAlnum(c) || c == '/' || c == '_' || c == '-' || c == '*' || c == '.' || c == ':'
  }

  /** Length of the longest run of identifier characters at the head of `s`. */
  function IdRun(s: string): (n: nat)
    ensures n <= |s| && (forall c <- s[..n] :: IsIdChar(c))
    ensures s != "" && IsIdChar(s[0]) ==> n > 0
  {
    if s == "" || !IsIdChar(s[0]) then 0 else 1 + IdRun(s[1..])
  }

  /** A match: an identifier, or a quoted string with its quotes. */
  datatype Token = Id(text: string) | Str(text: string)

  /** The matches of the tokenising expression; a character at which none starts is passed over. */
  function Tokens(s: string): seq<Token>
    decreases |s|
  {
    if s == "" then []
    else if IsIdChar(s[0]) then
      var n := IdRun(s);
      [Id(s[..n])] + Tokens(s[n..])
    else match QuotedLength(s)
      case Some(n) => [Str(s[..n])] + Tokens(s[n..])
      case None => Tokens(s[1..])
  }

  /**
   The groups of `^(\d*)(-?)(.+)\n`: the digits and the rest of the line. The last group takes at least one character,
   so on a line of digits it takes the last of them, and on a line that would otherwise leave nothing it takes the dash.
   */
  function Groups(text: string): (r: Option<(string, string)>)
    ensures r.Some? ==> forall c <- r.value.0 :: IsDecimal(c)
  {
    var i := IndexOf(text, '\n');
    if i == |text| || i == 0 then None
    else
      var line := text[..i];
      var n := DecimalRun(line);
      if n == |line| then Some((line[..n - 1], line[n - 1..]))
      else if line[n] == '-' && n + 1 < |line| then Some((line[..n], line[n + 1..]))
      else Some((line[..n], line[n..]))
  }

  function TokenNumber(digits: string): Option<nat> {
    if digits == "" then None else ParseInt(digits, 10)
  }

  /** The first match names the command, with no name if it is a string; the others are the arguments. */
  function NameOf(first: Token): string {
    if first.Id? then first.text else ""
  }

  function Texts(tokens: seq<Token>): (r: seq<string>)
    ensures |r| == |tokens|
  {
    seq(|tokens|, k requires 0 <= k < |tokens| => tokens[k].text)
  }

  function ParsedCmd(text: string): Line {
    match Groups(text)
    case None => NoCommand
    case Some((digits, rest)) =>
      var tokens := Tokens(rest);
      if tokens == [] then Raises
      else
        var params := Split(NameOf(tokens[0]), ',');
        Command(MiCmd(TokenNumber(digits), params[0], params[1..], Texts(tokens[1..])))
  }

  method ParseGdbCmd(gdbCmdStr: string) returns (r: Line)
    ensures r == ParsedCmd(gdbCmdStr)
  {
    hide Tokens, Split, ParseInt;
    var m := Groups(gdbCmdStr);
    if m == None {
      return NoCommand;
    }
    var token := None;
    if m.value.0 != "" {
      token := ParseInt(m.value.0, 10);
    }
    var cmd: Option<string> := None;
    var args: seq<string> := [];
    var found := Tokens(m.value.1);
    for k := 0 to |found|
      invariant k == 0 ==> cmd == None && args == []
      invariant k > 0 ==> cmd == Some(NameOf(found[0])) && args == Texts(found[1..k])
    {
      if cmd == None {
        cmd := Some(if found[k].Id? then found[k].text else "");
      } else {
        assert found[1..k + 1] == found[1..k] + [found[k]];
        args := args + [found[k].text];
      }
    }
    assert |found| > 0 ==> found[1..] == found[1..|found|];
    if cmd == None {
      return Raises;
    }
    var params := Split(cmd.value, ',');
    return Command(MiCmd(token, params[0], params[1..], args));
  }

  // ---- the tokenising expression ----

  /** What cannot extend an identifier. */
  predicate Ends(rest: string) {
    rest == "" || !IsIdChar(rest[0])
  }

  predicate IsWord(word: string) {
    word != "" && forall c <- word :: IsIdChar(c)
  }

  lemma {:induction false} IdRunIs(word: string, rest: string)
    requires (forall c <- word :: IsIdChar(c)) && Ends(rest)
    ensures IdRun(word + rest) == |word|
  {
    hide IsIdChar;
    if word == "" {
      assert word + rest == rest;
    } else {
      assert (word + rest)[1..] == word[1..] + rest;
      IdRunIs(word[1..], rest);
    }
  }

  lemma WordIsToken(word: string, rest: string)
    requires IsWord(word) && Ends(rest)
    ensures Tokens(word + rest) == [Id(word)] + Tokens(rest)
  {
    IdRunIs(word, rest);
    var s := word + rest;
    assert word[0] in word && s[0] == word[0];
    hide IsIdChar;
    assert s[..|word|] == word && s[|word|..] == rest;
  }

  lemma QuotedIsToken(text: string, sevenbit: bool, rest: string)
    requires Latin(text)
    ensures var e := EscapeStr(text, sevenbit);
      e.Some? && e.value[0] == QUOTE && Tokens(e.value + rest) == [Str(e.value)] + Tokens(rest)
  {
    EscapeRoundTrip(text, sevenbit, rest);
    hide EscapeStr, QuotedLength, ReadStr;
    var e := EscapeStr(text, sevenbit).value;
    assert (e + rest)[..|e|] == e && (e + rest)[|e|..] == rest;
  }

  lemma SpaceIsSkipped(rest: string)
    ensures Tokens([' '] + rest) == Tokens(rest)
  {
    assert ([' '] + rest)[1..] == rest;
    hide Tokens;
    assert QuotedLength([' '] + rest) == None;
  }

  /** Where an unfinished quoted string starts. */
  ghost predicate Unfinished(s: string) {
    forall k: nat | k < |s| :: s[k] == QUOTE ==> QuotedLength(s[k..]) == None
  }

  lemma UnfinishedBehind(s: string)
    requires s != ""
    ensures Unfinished(s) <==> Unfinished(s[1..]) && (s[0] == QUOTE ==> QuotedLength(s) == None)
  {
    hide QuotedLength;
    var rest := s[1..];
    assert s[0..] == s;
    assert forall k: nat | k < |rest| :: rest[k..] == s[k + 1..] && rest[k] == s[k + 1];
    if Unfinished(s) {
      forall k: nat | k < |rest| && rest[k] == QUOTE
        ensures QuotedLength(rest[k..]) == None
      {
        assert s[k + 1] == QUOTE;
      }
    }
    if Unfinished(rest) {
      forall k: nat | 0 < k < |s| && s[k] == QUOTE
        ensures QuotedLength(s[k..]) == None
      {
        assert rest[k - 1] == QUOTE;
      }
    }
  }

  /** There is nothing to find exactly if there is no identifier character and no finished quoted string. */
  lemma {:induction false} NoTokensIff(s: string)
    ensures Tokens(s) == [] <==> (forall c <- s :: !IsIdChar(c)) && Unfinished(s)
    decreases |s|
  {
    assert s == "" ==> Unfinished(s);
    hide IsIdChar, Unfinished;
    if s != "" {
      assert s[0] in s;
      UnfinishedBehind(s);
      if !IsIdChar(s[0]) && QuotedLength(s) == None {
        NoTokensIff(s[1..]);
        assert forall c <- s :: c == s[0] || c in s[1..];
        hide QuotedLength;
      } else {
        assert Tokens(s) != [];
        hide Tokens;
      }
    }
  }

  // ---- printing a command ----

  /** An argument of a command: a word, or text to be quoted. */
  datatype Arg = Word(word: string) | Quoted(text: string, sevenbit: bool)

  predicate IsArg(arg: Arg) {
    match arg
    case Word(word) => IsWord(word)
    case Quoted(text, _) => Latin(text)
  }

  predicate AreArgs(args: seq<Arg>) {
    forall arg <- args :: IsArg(arg)
  }

  function PrintArg(arg: Arg): string
    requires IsArg(arg)
  {
    match arg
    case Word(word) => word
    case Quoted(text, sevenbit) =>
      EscapesIff(text, sevenbit);
      EscapeStr(text, sevenbit).value
  }

  function PrintArgs(args: seq<Arg>): string
    requires AreArgs(args)
  {
    if args == [] then "" else [' '] + (PrintArg(args[0]) + PrintArgs(args[1..]))
  }

  /** `token-name arg ... arg` and a newline. */
  function PrintCmd(token: Option<nat>, name: string, args: seq<Arg>): string
    requires AreArgs(args)
  {
    (if token.Some? then Print(token.value, 10) else "") + "-" + (name + PrintArgs(args)) + "\n"
  }

  function Printed(args: seq<Arg>): (r: seq<string>)
    requires AreArgs(args)
    ensures |r| == |args|
  {
    seq(|args|, k requires 0 <= k < |args| => PrintArg(args[k]))
  }

  lemma TextsNext(args: seq<Arg>, token: Token, rest: seq<Token>)
    requires args != [] && AreArgs(args) && Texts(rest) == Printed(args[1..])
    requires IsArg(args[0]) && token.text == PrintArg(args[0])
    ensures Texts([token] + rest) == Printed(args)
  {
    hide PrintArg, IsArg;
    assert Printed(args) == [PrintArg(args[0])] + Printed(args[1..]);
    assert Texts([token] + rest) == [token.text] + Texts(rest);
  }

  lemma {:induction false} ArgsAreTokens(args: seq<Arg>) returns (tokens: seq<Token>)
    requires AreArgs(args)
    ensures Tokens(PrintArgs(args)) == tokens && Texts(tokens) == Printed(args) && Ends(PrintArgs(args))
  {
    hide Tokens, EscapeStr;
    if args == [] {
      tokens := [];
      NoTokensIff("");
    } else {
      assert args[0] in args;
      var rest := ArgsAreTokens(args[1..]);
      var arg, more := args[0], PrintArgs(args[1..]);
      SpaceIsSkipped(PrintArg(arg) + more);
      if arg.Word? {
        WordIsToken(arg.word, more);
        tokens := [Id(arg.word)] + rest;
      } else {
        QuotedIsToken(arg.text, arg.sevenbit, more);
        tokens := [Str(PrintArg(arg))] + rest;
      }
      TextsNext(args, tokens[0], rest);
      assert tokens[1..] == rest;
      assert Ends(PrintArgs(args));
      hide PrintArg, PrintArgs, Printed, Texts;
    }
  }

  lemma ArgIsOneLine(arg: Arg)
    requires IsArg(arg)
    ensures '\n' !in PrintArg(arg)
  {
    assert !IsIdChar('\n');
    if arg.Quoted? {
      EscapedIsPrintable(arg.text, arg.sevenbit);
      EscapesIff(arg.text, arg.sevenbit);
      assert !Printable('\n', arg.sevenbit);
      hide EscapeStr;
    }
  }

  lemma {:induction false} ArgsAreOneLine(args: seq<Arg>)
    requires AreArgs(args)
    ensures '\n' !in PrintArgs(args)
  {
    hide PrintArg, IsArg;
    if args != [] {
      assert args[0] in args;
      ArgIsOneLine(args[0]);
      ArgsAreOneLine(args[1..]);
    }
  }

  /** A line with a dash behind its digits. */
  lemma GroupsOfDashed(digits: string, body: string)
    requires (forall c <- digits :: IsDecimal(c)) && '\n' !in body && body != ""
    ensures Groups(digits + "-" + body + "\n") == Some((digits, body))
  {
    var line := digits + ("-" + body);
    var text := digits + "-" + body + "\n";
    assert text == line + ['\n'];
    assert '\n' !in line;
    IndexOfFirst(text, '\n', |line|);
    DecimalRunIs(digits, "-" + body);
    hide IndexOf, DecimalRun;
    assert text[..|line|] == line && line[|digits|] == '-';
    assert line[..|digits|] == digits && line[|digits| + 1..] == body;
  }

  // ---- main results ----

  /** Printing a command and parsing the line gives back exactly its token, its name and its arguments. */
  lemma CommandLineRoundTrip(token: Option<nat>, name: string, args: seq<Arg>)
    requires IsWord(name) && AreArgs(args)
    ensures ParsedCmd(PrintCmd(token, name, args)) == Command(MiCmd(token, name, [], Printed(args)))
  {
    hide Tokens, Groups, Split, Print, ParseInt;
    var digits, rest := if token.Some? then Print(token.value, 10) else "", PrintArgs(args);
    ArgsAreOneLine(args);
    GroupsOfDashed(digits, name + rest);
    if token.Some? {
      ParseOfPrint(token.value, 10);
    }
    var tokens := ArgsAreTokens(args);
    WordIsToken(name, rest);
    SplitNone(name, ',');
    assert ([Id(name)] + tokens)[1..] == tokens;
    assert [name][1..] == [];
  }

  /**
   A text is no command exactly if it has no newline or starts with one; it raises exactly if behind the digits and the
   dash there is neither an identifier character nor a finished quoted string.
   */
  lemma NotACommandIff(text: string)
    ensures ParsedCmd(text) == NoCommand <==> IndexOf(text, '\n') == |text| || text[0] == '\n'
    ensures ParsedCmd(text) == Raises <==>
      Groups(text).Some? && (forall c <- Groups(text).value.1 :: !IsIdChar(c)) && Unfinished(Groups(text).value.1)
  {
    if Groups(text).Some? {
      NoTokensIff(Groups(text).value.1);
    }
    hide Tokens, Split, DecimalRun, Unfinished, QuotedLength;
  }

  lemma GroupsOfNumber(digits: string)
    requires digits != "" && forall c <- digits :: IsDecimal(c)
    ensures Groups(digits + "\n") == Some((digits[..|digits| - 1], digits[|digits| - 1..]))
  {
    assert forall j: nat | j < |digits| :: (digits + "\n")[j] in digits;
    IndexOfFirst(digits + "\n", '\n', |digits|);
    DecimalRunIs(digits, "");
    hide IndexOf, DecimalRun;
    assert (digits + "\n")[..|digits|] == digits && digits + "" == digits;
  }

  lemma OneDigitTokens(c: char)
    requires IsDecimal(c)
    ensures Tokens([c]) == [Id([c])] && Split([c], ',') == [[c]]
  {
    hide Tokens;
    assert [c] + "" == [c];
    WordIsToken([c], "");
    NoTokensIff("");
    SplitNone([c], ',');
  }

  /** The number before the last digit is a tenth of the whole. */
  lemma TokenIsTenth(digits: string)
    requires digits != "" && forall c <- digits :: IsDecimal(c)
    ensures ParseInt(digits, 10).Some?
    ensures TokenNumber(digits[..|digits| - 1]) ==
      if |digits| == 1 then None else Some(ParseInt(digits, 10).value / 10)
  {
    var front := digits[..|digits| - 1];
    NumeralHasValue(front);
    assert digits[|digits| - 1] in digits;
    hide IsDecimal;
  }

  lemma {:induction false} NumeralHasValue(digits: string)
    requires forall c <- digits :: IsDecimal(c)
    ensures Value(digits, 10).Some?
  {
    if digits != "" {
      NumeralHasValue(digits[..|digits| - 1]);
      assert digits[|digits| - 1] in digits;
    }
  }

  /**
   On a line of digits only, the last digit is taken for the command and the digits before it, if there are any, for the
   token: a tenth of the number.
   */
  lemma NumberLine(digits: string)
    requires digits != "" && forall c <- digits :: IsDecimal(c)
    ensures ParseInt(digits, 10).Some?
    ensures ParsedCmd(digits + "\n") ==
      Command(MiCmd(if |digits| == 1 then None else Some(ParseInt(digits, 10).value / 10),
                    digits[|digits| - 1..], [], []))
  {
    GroupsOfNumber(digits);
    TokenIsTenth(digits);
    var last := digits[|digits| - 1];
    assert last in digits && digits[|digits| - 1..] == [last];
    OneDigitTokens(last);
    hide ParseInt, Groups, Tokens, Split, TokenNumber;
  }

  /**
   The digits a command line begins with are its token exactly if the line goes on behind them; on a line of digits
   only, and on no other, the last digit is missing.
   */
  lemma TokenIsDigitsIff(text: string)
    requires Groups(text).Some?
    ensures var line := text[..IndexOf(text, '\n')]; var n := DecimalRun(line);
      && (Groups(text).value.0 == line[..n] <==> n < |line|)
      && (n == |line| ==> Groups(text).value.0 == line[..n - 1])
  {
    hide IndexOf, DecimalRun;
  }

  // ---- the two expressions, apart from any code that matches them ----

  /** Letters, digits and the seven other characters of an identifier; no comma among them. */
  lemma IdentifierCharacters(c: char)
    ensures IsIdChar(c) <==>
      0x30 <= c as nat <= 0x39 || 0x41 <= c as nat <= 0x5A || 0x61 <= c as nat <= 0x7A || c in "/_-*.:"
    ensures IsIdChar(c) ==> c != ',' && c != QUOTE && c != ' '
  {
  }

  /**
   The groups of `^(\d*)(-?)(.+)\n`, each as long as it can be in this order: the line is the digits, the dash or
   nothing, and the rest, which is never empty; more digits could only be taken by leaving no rest, and so could the
   dash.
   */
  lemma GroupsAre(line: string, more: string, digits: string)
    requires line != "" && '\n' !in line && digits <= line && forall c <- digits :: IsDecimal(c)
    ensures Groups(line + "\n" + more).Some?
    ensures var (d, rest) := Groups(line + "\n" + more).value;
      && rest != "" && (line == d + rest || line == d + "-" + rest)
      && (|digits| <= |d| || digits == line) && (line == d + rest && rest[0] == '-' ==> |rest| == 1)
  {
    GroupsOfLine(line, more);
    RunIsLongest(digits, line);
    hide Groups, DecimalRun, IsDecimal;
    var n := DecimalRun(line);
    if n == |line| {
      assert line == line[..n - 1] + line[n - 1..];
      LastIsDigit(line);
    } else if line[n] == '-' && n + 1 < |line| {
      assert line == line[..n] + "-" + line[n + 1..];
    } else {
      assert line == line[..n] + line[n..];
    }
  }

  lemma LastIsDigit(line: string)
    requires line != "" && DecimalRun(line) == |line|
    ensures line[|line| - 1] != '-'
  {
    assert line[..|line|] == line && line[|line| - 1] in line;
  }

  lemma GroupsOfLine(line: string, more: string)
    requires line != "" && '\n' !in line
    ensures var n := DecimalRun(line);
      Groups(line + "\n" + more) ==
        if n == |line| then Some((line[..n - 1], line[n - 1..]))
        else if line[n] == '-' && n + 1 < |line| then Some((line[..n], line[n + 1..]))
        else Some((line[..n], line[n..]))
  {
    hide IndexOf, DecimalRun, IsDecimal;
    var text := line + "\n" + more;
    IndexOfFirst(text, '\n', |line|);
    assert text[..|line|] == line;
  }

  lemma {:induction false} RunIsLongest(digits: string, line: string)
    requires digits <= line && forall c <- digits :: IsDecimal(c)
    ensures |digits| <= DecimalRun(line)
  {
    if digits != "" {
      assert digits[0] == line[0] && digits[0] in digits;
      RunIsLongest(digits[1..], line[1..]);
    }
  }

  /** Names hold no comma, so the parameters split off the name are never any. */
  lemma ParametersAreNone(text: string)
    ensures ParsedCmd(text).Command? ==> ParsedCmd(text).cmd.params == []
  {
    if Groups(text).Some? {
      var tokens := Tokens(Groups(text).value.1);
      if tokens != [] {
        IdsAreWords(Groups(text).value.1, 0);
        var name := NameOf(tokens[0]);
        assert !IsIdChar(',');
        assert ',' !in name;
        SplitNone(name, ',');
      }
    }
    hide Groups, Tokens, Split;
  }

  lemma {:induction false} IdsAreWords(s: string, k: nat)
    ensures k < |Tokens(s)| && Tokens(s)[k].Id? ==> IsWord(Tokens(s)[k].text)
    decreases |s|
  {
    if s != "" {
      hide IsIdChar, QuotedLength;
      if IsIdChar(s[0]) {
        if k > 0 {
          IdsAreWords(s[IdRun(s)..], k - 1);
        }
      } else if QuotedLength(s).Some? {
        if k > 0 {
          IdsAreWords(s[QuotedLength(s).value..], k - 1);
        }
      } else {
        IdsAreWords(s[1..], k);
      }
    }
  }

  /** A line that begins with a string is a command without a name, and the string is lost. */
  lemma StringIsNoName(text: string, sevenbit: bool, args: seq<Arg>)
    requires Latin(text) && AreArgs(args) && EscapeStr(text, sevenbit).Some?
    ensures ParsedCmd(EscapeStr(text, sevenbit).value + PrintArgs(args) + "\n") ==
      Command(MiCmd(None, "", [], Printed(args)))
  {
    var e, rest := EscapeStr(text, sevenbit).value, PrintArgs(args);
    ArgsAreOneLine(args);
    ArgIsOneLine(Quoted(text, sevenbit));
    var tokens := ArgsAreTokens(args);
    QuotedIsToken(text, sevenbit, rest);
    GroupsAre(e + rest, "", "");
    hide Tokens, EscapeStr, PrintArgs, Split;
    assert e + rest + "\n" + "" == e + rest + "\n";
    var (d, last) := Groups(e + rest + "\n").value;
    assert (e + rest)[0] == QUOTE;
    RunIsLongest(d, e + rest);
    assert DecimalRun(e + rest) == 0;
    assert last == e + rest;
    assert ([Str(e)] + tokens)[1..] == tokens;
    SplitNone("", ',');
    hide Groups, Printed, Texts;
    assert [""][1..] == [];
  }
}

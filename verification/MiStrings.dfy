/**
 Strings in GDB/MI output ("GDB/MI Output Syntax", c-string) and their escaping. The reading functions are a reference
 reader; the program only writes these texts.
 */
module MiStrings {
  import opened Wrappers
  import opened Digits
  import opened Text

  const QUOTE := '"'
  const BACKSLASH := '\\'

  function Octal(n: nat): (c: char)
    requires n < 8
    ensures DigitValue(c) == Some(n) && IsDecimal(c)
  {
    Digit(n)
  }

  /** The letter of a control character's short escape. */
  function ShortEscape(n: nat): Option<char> {
    if n == 10 then Some('n')
    else if n == 8 then Some('b')
    else if n == 9 then Some('t')
    else if n == 12 then Some('f')
    else if n == 13 then Some('r')
    else if n == 27 then Some('e')
    else if n == 7 then Some('a')
    else None
  }

  /** Control characters, and with `sevenbit` everything beyond ASCII. */
  predicate MustEscape(n: nat, sevenbit: bool) {
    n < 0x20 || 0x7F <= n < 0xA0 || (sevenbit && n >= 0x80)
  }

  /** gdbMiEscapeStrChar; None stands for the AssertionError on a character above 0xFF. */
  function EscapeChar(c: char, quoter: Option<char>, sevenbit: bool): Option<string> {
    var n := c as nat;
    if n > 0xFF then None
    else if MustEscape(n, sevenbit) then
      Some([BACKSLASH] + match ShortEscape(n)
        case Some(letter) => [letter]
        case None => [Octal(n / 64 % 8), Octal(n / 8 % 8), Octal(n % 8)])
    else Some((if quoter.Some? && (c == BACKSLASH || Some(c) == quoter) then [BACKSLASH] else "") + [c])
  }

  function EscapeChars(text: string, sevenbit: bool): Option<string> {
    if text == "" then Some("")
    else
      var front, last := EscapeChars(text[..|text| - 1], sevenbit), EscapeChar(text[|text| - 1], Some(QUOTE), sevenbit);
      if front.Some? && last.Some? then Some(front.value + last.value) else None
  }

  /** gdbMiEscapeStr; None where it raises. */
  function EscapeStr(text: string, sevenbit: bool): (r: Option<string>)
    ensures r.Some? ==> |r.value| >= 2 && r.value[0] == QUOTE && r.value[|r.value| - 1] == QUOTE
  {
    var body := EscapeChars(text, sevenbit);
    if body.Some? then Some([QUOTE] + body.value + [QUOTE]) else None
  }

  lemma {:induction false} FrontRaises(text: string, k: nat, sevenbit: bool)
    requires k <= |text| && EscapeChars(text[..k], sevenbit) == None
    ensures EscapeChars(text, sevenbit) == None
  {
    if k == |text| {
      assert text[..k] == text;
    } else {
      assert text[..|text| - 1][..k] == text[..k];
      FrontRaises(text[..|text| - 1], k, sevenbit);
    }
  }

  /** The loop over the characters. */
  method GdbMiEscapeStr(text: string, sevenbit: bool) returns (r: Option<string>)
    ensures r == EscapeStr(text, sevenbit)
  {
    var buff := "";
    for k := 0 to |text|
      invariant EscapeChars(text[..k], sevenbit) == Some(buff)
    {
      hide EscapeChar;
      assert text[..k + 1][..k] == text[..k];
      var escaped := EscapeChar(text[k], Some(QUOTE), sevenbit);
      if escaped == None {
        FrontRaises(text, k + 1, sevenbit);
        return None;
      }
      buff := buff + escaped.value;
    }
    assert text[..|text|] == text;
    return Some([QUOTE] + buff + [QUOTE]);
  }

  // ---- reading escaped text back ----

  /** What a short escape or an escaped quote or backslash stands for. */
  function ShortMeaning(c: char): Option<char> {
    match c
    case 'n' => Some('\n')
    case 'b' => Some(8 as char)
    case 't' => Some('\t')
    case 'f' => Some(12 as char)
    case 'r' => Some('\r')
    case 'e' => Some(27 as char)
    case 'a' => Some(7 as char)
    case '\\' => Some(BACKSLASH)
    case '"' => Some(QUOTE)
    case _ => None
  }

  function OctalMeaning(s: string): Option<char>
    requires |s| == 3
  {
    var a, b, c := DigitValue(s[0]), DigitValue(s[1]), DigitValue(s[2]);
    if a.Some? && b.Some? && c.Some? && a.value < 4 && b.value < 8 && c.value < 8
    then Some((64 * a.value + 8 * b.value + c.value) as char)
    else None
  }

  /** The character at the head of escaped text, and how many characters stand for it. */
  function ReadChar(s: string): (r: Option<(char, nat)>)
    ensures r.Some? ==> 0 < r.value.1 <= |s|
  {
    if s == "" || s[0] == QUOTE then None
    else if s[0] != BACKSLASH then Some((s[0], 1))
    else if |s| >= 2 && ShortMeaning(s[1]).Some? then Some((ShortMeaning(s[1]).value, 2))
    else if |s| >= 4 && OctalMeaning(s[1..4]).Some? then Some((OctalMeaning(s[1..4]).value, 4))
    else None
  }

  /** Undoes the escaping of text without its quotes. */
  function Unescape(s: string): Option<string>
    decreases |s|
  {
    if s == "" then Some("")
    else match ReadChar(s)
      case Some((c, n)) =>
        var rest := Unescape(s[n..]);
        if rest.Some? then Some([c] + rest.value) else None
      case None => None
  }

  /** The number of characters up to and including the first quote that no backslash escapes. */
  function QuoteEnd(s: string): (r: Option<nat>)
    ensures r.Some? ==> 0 < r.value <= |s| && s[r.value - 1] == QUOTE
    decreases |s|
  {
    if s == "" then None
    else if s[0] == QUOTE then Some(1)
    else
      var n := if s[0] == BACKSLASH then 2 else 1;
      if n > |s| || (n == 2 && s[1] == '\n') then None
      else
        var rest := QuoteEnd(s[n..]);
        if rest.Some? then Some(n + rest.value) else None
  }

  /** Length of the quoted string `"[^"\\]*(\\.[^"\\]*)*"` at the head of `s`; None where it does not match. */
  function QuotedLength(s: string): (r: Option<nat>)
    ensures r.Some? ==> 2 <= r.value <= |s|
  {
    if s == "" || s[0] != QUOTE then None
    else
      var n := QuoteEnd(s[1..]);
      if n.Some? then Some(1 + n.value) else None
  }

  /** The text a quoted string at the head of `s` stands for, and the string's length. */
  function ReadStr(s: string): (r: Option<(string, nat)>)
    ensures r.Some? ==> 2 <= r.value.1 <= |s|
  {
    match QuotedLength(s)
    case None => None
    case Some(n) =>
      var text := Unescape(s[1..n - 1]);
      if text.Some? then Some((text.value, n)) else None
  }

  // ---- one character ----

  predicate Latin(text: string) {
    forall k: nat | k < |text| :: text[k] as nat <= 0xFF
  }

  lemma EightsAddUp(n: nat)
    requires n <= 0xFF
    ensures n / 64 % 8 < 4 && 64 * (n / 64 % 8) + 8 * (n / 8 % 8) + n % 8 == n
  {
    assert n / 64 % 8 == n / 64;
    assert n / 8 == 8 * (n / 64) + n / 8 % 8;
  }

  lemma OctalRead(x: nat, y: nat, z: nat)
    requires x < 4 && y < 8 && z < 8
    ensures OctalMeaning([Octal(x), Octal(y), Octal(z)]) == Some((64 * x + 8 * y + z) as char)
  {
    hide DigitValue, Octal;
  }

  lemma OctalDigits(n: nat)
    requires n <= 0xFF
    ensures OctalMeaning([Octal(n / 64 % 8), Octal(n / 8 % 8), Octal(n % 8)]) == Some(n as char)
  {
    hide OctalMeaning, Octal;
    EightsAddUp(n);
    OctalRead(n / 64 % 8, n / 8 % 8, n % 8);
  }

  /** The text in front of `rest` holds no end of a string. */
  ghost predicate Inside(e: string, rest: string) {
    QuoteEnd(e + rest) == if QuoteEnd(rest).Some? then Some(|e| + QuoteEnd(rest).value) else None
  }

  lemma InsideAppend(a: string, b: string, rest: string)
    requires Inside(a, b + rest) && Inside(b, rest)
    ensures Inside(a + b, rest)
  {
    hide QuoteEnd;
    assert (a + b) + rest == a + (b + rest);
  }

  lemma PlainInside(c: char, rest: string)
    requires c != QUOTE && c != BACKSLASH
    ensures Inside([c], rest)
  {
    assert ([c] + rest)[1..] == rest;
  }

  lemma EscapedInside(c: char, rest: string)
    requires c != '\n'
    ensures Inside([BACKSLASH, c], rest)
  {
    assert ([BACKSLASH, c] + rest)[2..] == rest;
  }

  lemma EscapeStandsFor(c: char, sevenbit: bool, rest: string)
    requires c as nat <= 0xFF
    ensures EscapeChar(c, Some(QUOTE), sevenbit).Some?
    ensures var e := EscapeChar(c, Some(QUOTE), sevenbit).value;
      e != "" && ReadChar(e + rest) == Some((c, |e|)) && Inside(e, rest)
  {
    var n := c as nat;
    if MustEscape(n, sevenbit) {
      if ShortEscape(n).Some? {
        ShortStandsFor(c, ShortEscape(n).value, rest);
        assert [BACKSLASH] + [ShortEscape(n).value] == [BACKSLASH, ShortEscape(n).value];
      } else {
        var x, y, z := Octal(n / 64 % 8), Octal(n / 8 % 8), Octal(n % 8);
        OctalDigits(n);
        OctalStandsFor(c, x, y, z, rest);
        assert [BACKSLASH] + [x, y, z] == [BACKSLASH, x, y, z];
      }
    } else if c == BACKSLASH || c == QUOTE {
      ShortStandsFor(c, c, rest);
      assert [BACKSLASH] + [c] == [BACKSLASH, c];
    } else {
      PlainStandsFor(c, rest);
      assert "" + [c] == [c];
    }
    hide ReadChar, Inside, Octal, ShortMeaning, OctalMeaning;
  }

  lemma PlainStandsFor(c: char, rest: string)
    requires c != QUOTE && c != BACKSLASH
    ensures ReadChar([c] + rest) == Some((c, 1)) && Inside([c], rest)
  {
    PlainInside(c, rest);
    hide Inside;
  }

  lemma ShortStandsFor(c: char, letter: char, rest: string)
    requires ShortMeaning(letter) == Some(c)
    ensures ReadChar([BACKSLASH, letter] + rest) == Some((c, 2)) && Inside([BACKSLASH, letter], rest)
  {
    EscapedInside(letter, rest);
    hide Inside;
  }

  lemma OctalStandsFor(c: char, x: char, y: char, z: char, rest: string)
    requires IsDecimal(x) && IsDecimal(y) && IsDecimal(z) && OctalMeaning([x, y, z]) == Some(c)
    ensures ReadChar([BACKSLASH, x, y, z] + rest) == Some((c, 4)) && Inside([BACKSLASH, x, y, z], rest)
  {
    hide OctalMeaning, QuoteEnd, Inside;
    assert ([BACKSLASH, x, y, z] + rest)[1..4] == [x, y, z];
    PlainInside(z, rest);
    PlainInside(y, [z] + rest);
    InsideAppend([y], [z], rest);
    assert [y] + [z] == [y, z];
    EscapedInside(x, [y, z] + rest);
    InsideAppend([BACKSLASH, x], [y, z], rest);
    assert [BACKSLASH, x] + [y, z] == [BACKSLASH, x, y, z];
  }

  // ---- whole strings ----

  /** Escaping fails exactly on a character above 0xFF. */
  lemma {:induction false} EscapesIff(text: string, sevenbit: bool)
    ensures EscapeChars(text, sevenbit).Some? <==> Latin(text)
  {
    if text != "" {
      EscapesIff(text[..|text| - 1], sevenbit);
      assert text == text[..|text| - 1] + [text[|text| - 1]];
    }
  }

  lemma EscapeLast(front: string, c: char, sevenbit: bool)
    requires EscapeChars(front, sevenbit).Some? && EscapeChar(c, Some(QUOTE), sevenbit).Some?
    ensures EscapeChars(front + [c], sevenbit) ==
      Some(EscapeChars(front, sevenbit).value + EscapeChar(c, Some(QUOTE), sevenbit).value)
  {
    assert (front + [c])[..|front|] == front;
    hide EscapeChar;
  }

  lemma {:induction false} EscapeFront(text: string, sevenbit: bool)
    requires text != "" && Latin(text)
    ensures EscapeChars(text, sevenbit).Some? && EscapeChars(text[1..], sevenbit).Some?
    ensures EscapeChar(text[0], Some(QUOTE), sevenbit).Some?
    ensures EscapeChars(text, sevenbit).value ==
      EscapeChar(text[0], Some(QUOTE), sevenbit).value + EscapeChars(text[1..], sevenbit).value
  {
    if |text| == 1 {
      EscapeOnly(text, sevenbit);
    } else {
      var front, last := text[..|text| - 1], text[|text| - 1];
      assert Latin(front) && EscapeChar(last, Some(QUOTE), sevenbit).Some?;
      hide EscapeChar, EscapeChars, Latin;
      EscapeFront(front, sevenbit);
      EscapeLast(front, last, sevenbit);
      EscapeLast(front[1..], last, sevenbit);
      FrontAndLast(text);
      Regroup(EscapeChar(text[0], Some(QUOTE), sevenbit).value, EscapeChars(front[1..], sevenbit).value,
              EscapeChar(last, Some(QUOTE), sevenbit).value);
    }
  }

  lemma FrontAndLast(text: string)
    requires |text| > 1
    ensures var front, last := text[..|text| - 1], text[|text| - 1];
      front + [last] == text && front[1..] + [last] == text[1..] && front[0] == text[0]
  {
  }

  lemma EscapeOnly(text: string, sevenbit: bool)
    requires |text| == 1 && Latin(text)
    ensures EscapeChars(text[1..], sevenbit) == Some("") && EscapeChar(text[0], Some(QUOTE), sevenbit).Some?
    ensures EscapeChars(text, sevenbit) == Some(EscapeChar(text[0], Some(QUOTE), sevenbit).value + "")
  {
    assert EscapeChar(text[0], Some(QUOTE), sevenbit).Some?;
    hide EscapeChar;
    assert text[1..] == "" && text[..0] == "";
    assert EscapeChars("", sevenbit) == Some("");
    var e := EscapeChar(text[0], Some(QUOTE), sevenbit).value;
    assert "" + e == e == e + "";
  }

  lemma {:induction false} UnescapeOfEscape(text: string, sevenbit: bool)
    requires Latin(text)
    ensures EscapeChars(text, sevenbit).Some? && Unescape(EscapeChars(text, sevenbit).value) == Some(text)
    decreases |text|
  {
    if text == "" {
      assert EscapeChars("", sevenbit) == Some("");
    } else {
      var c, rest := text[0], text[1..];
      EscapeFront(text, sevenbit);
      UnescapeOfEscape(rest, sevenbit);
      hide EscapeChar, EscapeChars, ReadChar, QuoteEnd;
      var e, body := EscapeChar(c, Some(QUOTE), sevenbit).value, EscapeChars(rest, sevenbit).value;
      EscapeStandsFor(c, sevenbit, body);
      assert (e + body)[|e|..] == body;
      assert [c] + rest == text;
    }
  }

  lemma {:induction false} BodyInside(text: string, sevenbit: bool, rest: string)
    requires Latin(text)
    ensures EscapeChars(text, sevenbit).Some? && Inside(EscapeChars(text, sevenbit).value, rest)
    decreases |text|
  {
    if text == "" {
      assert EscapeChars("", sevenbit) == Some("");
      assert "" + rest == rest;
    } else {
      EscapeFront(text, sevenbit);
      BodyInside(text[1..], sevenbit, rest);
      hide EscapeChar, EscapeChars, ReadChar, Inside;
      var e, body := EscapeChar(text[0], Some(QUOTE), sevenbit).value, EscapeChars(text[1..], sevenbit).value;
      EscapeStandsFor(text[0], sevenbit, body + rest);
      InsideAppend(e, body, rest);
    }
  }

  lemma QuoteBehind(body: string, tail: string)
    requires Inside(body, [QUOTE] + tail)
    ensures QuoteEnd(body + ([QUOTE] + tail)) == Some(|body| + 1)
  {
    assert QuoteEnd([QUOTE] + tail) == Some(1);
    hide QuoteEnd;
  }

  // ---- main results ----

  /**
   Escaping is undone by reading: it raises exactly on characters above 0xFF, and from whatever follows the escaped
   string it is read back with its text and its length, so its first unescaped quote is its last character.
   */
  lemma EscapeRoundTrip(text: string, sevenbit: bool, tail: string)
    ensures var e := EscapeStr(text, sevenbit);
      && (e.Some? <==> Latin(text))
      && (e.Some? ==>
            QuotedLength(e.value + tail) == Some(|e.value|) && ReadStr(e.value + tail) == Some((text, |e.value|)))
  {
    hide EscapeChars, Unescape, Latin;
    EscapesIff(text, sevenbit);
    if Latin(text) {
      UnescapeOfEscape(text, sevenbit);
      BodyInside(text, sevenbit, [QUOTE] + tail);
      hide QuoteEnd, Inside;
      var body := EscapeChars(text, sevenbit).value;
      QuoteBehind(body, tail);
      var s := [QUOTE] + body + [QUOTE] + tail;
      assert s[1..] == body + ([QUOTE] + tail);
      assert s[1..|body| + 1] == body;
    }
  }

  /** With seven-bit strings the escaped text is printable ASCII; without, it also holds 0xA0 to 0xFF. */
  predicate Printable(c: char, sevenbit: bool) {
    0x20 <= c as nat <= 0x7E || (!sevenbit && 0xA0 <= c as nat <= 0xFF)
  }

  lemma EscapedIsPrintable(text: string, sevenbit: bool)
    ensures EscapeStr(text, sevenbit).Some? ==> forall c <- EscapeStr(text, sevenbit).value :: Printable(c, sevenbit)
  {
    BodyIsPrintable(text, sevenbit);
    hide EscapeChars;
  }

  lemma {:induction false} BodyIsPrintable(text: string, sevenbit: bool)
    ensures EscapeChars(text, sevenbit).Some? ==>
      forall c <- EscapeChars(text, sevenbit).value :: Printable(c, sevenbit)
  {
    if text != "" {
      BodyIsPrintable(text[..|text| - 1], sevenbit);
      CharIsPrintable(text[|text| - 1], sevenbit);
      hide EscapeChar;
    }
  }

  lemma CharIsPrintable(c: char, sevenbit: bool)
    ensures var e := EscapeChar(c, Some(QUOTE), sevenbit); e.Some? ==> forall d <- e.value :: Printable(d, sevenbit)
  {
  }

  // ---- which escapes are written ----

  lemma LetterWritten(n: nat, letter: char, quoter: Option<char>, sevenbit: bool)
    requires n < 0x20 && ShortEscape(n) == Some(letter)
    ensures EscapeChar(n as char, quoter, sevenbit) == Some(['\\', letter])
  {
    assert [BACKSLASH] + [letter] == ['\\', letter];
  }

  /** The control characters with a letter of their own. */
  lemma LettersWritten(quoter: Option<char>, sevenbit: bool)
    ensures EscapeChar('\n', quoter, sevenbit) == Some("\\n") && EscapeChar('\t', quoter, sevenbit) == Some("\\t")
    ensures EscapeChar('\r', quoter, sevenbit) == Some("\\r") && EscapeChar(8 as char, quoter, sevenbit) == Some("\\b")
    ensures EscapeChar(12 as char, quoter, sevenbit) == Some("\\f")
    ensures EscapeChar(7 as char, quoter, sevenbit) == Some("\\a")
    ensures EscapeChar(27 as char, quoter, sevenbit) == Some("\\e")
  {
    LetterWritten(10, 'n', quoter, sevenbit);
    LetterWritten(9, 't', quoter, sevenbit);
    LetterWritten(13, 'r', quoter, sevenbit);
    LetterWritten(8, 'b', quoter, sevenbit);
    LetterWritten(12, 'f', quoter, sevenbit);
    LetterWritten(7, 'a', quoter, sevenbit);
    LetterWritten(27, 'e', quoter, sevenbit);
    hide EscapeChar;
  }

  /**
   A character is written as it is exactly if it is printable, and beyond ASCII only where eight bits are allowed; a
   quote and a backslash only outside of strings, and inside behind a backslash.
   */
  lemma PlainIff(c: char, sevenbit: bool)
    ensures EscapeChar(c, None, sevenbit) == Some([c]) <==> Printable(c, sevenbit)
    ensures EscapeChar(c, Some('"'), sevenbit) == Some([c]) <==> Printable(c, sevenbit) && c != '"' && c != '\\'
    ensures c == '"' || c == '\\' ==> EscapeChar(c, Some('"'), sevenbit) == Some(['\\', c])
  {
    hide Octal, DigitValue;
    var n := c as nat;
    assert [BACKSLASH] + [c] == ['\\', c] && "" + [c] == [c];
    if MustEscape(n, sevenbit) && n <= 0xFF {
      assert |EscapeChar(c, None, sevenbit).value| >= 2 && |EscapeChar(c, Some('"'), sevenbit).value| >= 2;
    }
  }
}

/**
 Positional numerals, as Python's format specifications `x`, `02x` and `d` print them
 and as `int(text, base)` reads them back.
 */
module Digits {
  import opened Wrappers

  const DIGITS := "0123456789abcdef"

  /** Characters of the regular-expression class `[0-9]`. */
  predicate IsDecimal(c: char) {
    '0' <= c <= '9'
  }

  /** Characters of the regular-expression class `[0-9a-zA-Z]`. */
  predicate IsAlnum(c: char) {
    IsDecimal(c) || 'a' <= c <= 'z' || 'A' <= c <= 'Z'
  }

  /** The digits Python prints: lower case only. */
  predicate IsLowerHex(c: char) {
    IsDecimal(c) || 'a' <= c <= 'f'
  }

  function DigitValue(c: char): Option<nat> {
    if IsDecimal(c) then Some(c as nat - '0' as nat)
    else if 'a' <= c <= 'z' then Some(c as nat - 'a' as nat + 10)
    else if 'A' <= c <= 'Z' then Some(c as nat - 'A' as nat + 10)
    else None
  }

  function Digit(d: nat): (c: char)
    requires d < 16
    ensures DigitValue(c) == Some(d) && IsLowerHex(c)
    ensures d < 10 ==> IsDecimal(c)
  {
    DIGITS[d]
  }

  function Print(n: nat, base: nat): (s: string)
    requires 2 <= base <= 16
    ensures s != "" && (forall c <- s :: IsLowerHex(c))
    ensures base <= 10 ==> forall c <- s :: IsDecimal(c)
  {
    if n < base then [Digit(n)] else Print(n / base, base) + [Digit(n % base)]
  }

  /** The value of a run of digits, most significant first. */
  function Value(s: string, base: nat): Option<nat> {
    if s == "" then Some(0)
    else
      var high := Value(s[..|s| - 1], base);
      var low := DigitValue(s[|s| - 1]);
      if high.Some? && low.Some? && low.value < base
      then Some(high.value * base + low.value)
      else None
  }

  /** `int(text, base)` on text drawn from `[0-9a-zA-Z]`; None stands for ValueError. */
  function ParseInt(s: string, base: nat): Option<nat> {
    if s == "" then None
    else if base == 16 && 2 <= |s| && s[0] == '0' && (s[1] == 'x' || s[1] == 'X') then
      if |s| == 2 then None else Value(s[2..], 16)
    else Value(s, base)
  }

  lemma DivMod(n: nat, base: nat)
    requires 0 < base
    ensures n / base * base + n % base == n
  {
  }

  lemma ValueOfAppend(s: string, high: nat, low: nat, base: nat)
    requires 2 <= base <= 16 && low < base
    requires Value(s, base) == Some(high)
    ensures Value(s + [Digit(low)], base) == Some(high * base + low)
  {
    var t := s + [Digit(low)];
    assert t[..|t| - 1] == s;
    assert t[|t| - 1] == Digit(low);
  }

  lemma {:induction false} ValueOfPrint(n: nat, base: nat)
    requires 2 <= base <= 16
    ensures Value(Print(n, base), base) == Some(n)
  {
    if n < base {
      assert Value("", base) == Some(0);
      assert "" + [Digit(n)] == [Digit(n)];
      ValueOfAppend("", 0, n, base);
    } else {
      ValueOfPrint(n / base, base);
      ValueOfAppend(Print(n / base, base), n / base, n % base, base);
      DivMod(n, base);
    }
  }

  /** Printing a number and reading the text back gives the number. */
  lemma ParseOfPrint(n: nat, base: nat)
    requires 2 <= base <= 16
    ensures ParseInt(Print(n, base), base) == Some(n)
  {
    ValueOfPrint(n, base);
    var s := Print(n, base);
    if |s| >= 2 {
      assert s[1] in s;
    }
  }

  /** Different numbers have different numerals. */
  lemma PrintInjective(m: nat, n: nat, base: nat)
    requires 2 <= base <= 16
    requires Print(m, base) == Print(n, base)
    ensures m == n
  {
    ValueOfPrint(m, base);
    ValueOfPrint(n, base);
  }

  /** Length of the longest run of `[0-9]` at the head of `s`. */
  function DecimalRun(s: string): (n: nat)
    ensures n <= |s| && (forall c <- s[..n] :: IsDecimal(c))
    ensures n < |s| ==> !IsDecimal(s[n])
  {
    if s == "" || !IsDecimal(s[0]) then 0 else 1 + DecimalRun(s[1..])
  }

  lemma {:induction false} DecimalRunIs(digits: string, rest: string)
    requires (forall c <- digits :: IsDecimal(c)) && (rest == "" || !IsDecimal(rest[0]))
    ensures DecimalRun(digits + rest) == |digits|
  {
    if digits == "" {
      assert digits + rest == rest;
    } else {
      assert (digits + rest)[1..] == digits[1..] + rest;
      DecimalRunIs(digits[1..], rest);
    }
  }

  // ---- numerals, apart from any code that makes or reads them ----

  lemma NumeralTexts()
    ensures Print(0x1F8, 16) == "1f8" && Print(26, 16) == "1a" && Print(1250, 10) == "1250" && Print(0, 10) == "0"
    ensures ParseInt("1f8", 16) == Some(0x1F8) && ParseInt("1250", 10) == Some(1250)
  {
    NumeralNext(0x1F8, 16);
    NumeralNext(0x1F, 16);
    NumeralNext(26, 16);
    NumeralNext(1250, 10);
    NumeralNext(125, 10);
    NumeralNext(12, 10);
    ParseOfPrint(0x1F8, 16);
    ParseOfPrint(1250, 10);
    hide ParseInt;
  }

  lemma NumeralNext(n: nat, base: nat)
    requires 2 <= base <= 16
    ensures Print(n, base) == (if n < base then "" else Print(n / base, base)) + [DIGITS[n % base]]
  {
    assert n < base ==> n % base == n;
  }

  /** No numeral but `0` begins with a zero. */
  lemma {:induction false} NoLeadingZero(n: nat, base: nat)
    requires 2 <= base <= 16 && 0 < n
    ensures Print(n, base)[0] != '0'
  {
    if n >= base {
      NoLeadingZero(n / base, base);
    }
  }

  function Upper(s: string): string {
    seq(|s|, k requires 0 <= k < |s| => if 'a' <= s[k] <= 'z' then s[k] - 'a' + 'A' else s[k])
  }

  /** Digits in capitals are read alike. */
  lemma CapitalsRead(n: nat, base: nat)
    requires 2 <= base <= 16
    ensures ParseInt(Upper(Print(n, base)), base) == Some(n)
  {
    hide Print, Value, DigitValue;
    var s := Print(n, base);
    ValueOfPrint(n, base);
    UpperValue(s, base);
    if |s| >= 2 {
      assert s[1] in s;
    }
    hide ParseInt;
    UpperHasNoPrefix(s, base);
  }

  lemma UpperHasNoPrefix(s: string, base: nat)
    requires s != "" && forall c <- s :: IsLowerHex(c)
    ensures ParseInt(Upper(s), base) == Value(Upper(s), base)
  {
    hide Value;
    if |s| >= 2 {
      assert s[1] in s;
      hide IsDecimal;
      assert Upper(s)[1] != 'x' && Upper(s)[1] != 'X';
    }
  }

  /** So is a hexadecimal number behind `0x`. */
  lemma PrefixRead(n: nat)
    ensures ParseInt("0x" + Print(n, 16), 16) == Some(n) && ParseInt("0X" + Print(n, 16), 16) == Some(n)
  {
    ValueOfPrint(n, 16);
    var s := Print(n, 16);
    hide Print, Value, IsLowerHex;
    assert ("0x" + s)[2..] == s && ("0X" + s)[2..] == s;
  }

  lemma {:induction false} UpperValue(s: string, base: nat)
    ensures Value(Upper(s), base) == Value(s, base)
  {
    if s != "" {
      UpperValue(s[..|s| - 1], base);
      assert Upper(s)[..|s| - 1] == Upper(s[..|s| - 1]);
    }
  }
}

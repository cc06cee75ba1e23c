/**
 The line buffer in front of the command input: text arrives in pieces cut anywhere, and is handed out a line at a time.
 */
module MiLines {
  import opened Text

  const NEWLINE := '\n'

  /** The buffer, what reading the main file will still return, and what the second file has been given. */
  datatype Tee = Tee(buff: seq<string>, input: seq<string>, dup: string)

  /** One call of readline; at the end of its input the main file returns nothing. */
  function LineRead(s: Tee): (r: (Tee, string))
    ensures s.buff != [] ==> r.0.buff != []
  {
    if |s.buff| > 1 then
      var d := s.buff[0] + [NEWLINE];
      (Tee(s.buff[1..], s.input, s.dup + d), d)
    else
      var last := if s.buff == [] then "" else s.buff[0];
      var (got, later) := if s.input == [] then ("", []) else (s.input[0], s.input[1..]);
      var pieces := Split(last + got, NEWLINE);
      if |pieces| > 1 then
        var d := pieces[0] + [NEWLINE];
        (Tee(pieces[1..], later, s.dup + d), d)
      else (Tee(pieces, later, s.dup), "")
  }

  function Opened(input: seq<string>): Tee {
    Tee([], input, "")
  }

  /** The buffer after n calls, and what they have returned. */
  function LinesRead(input: seq<string>, n: nat): (Tee, seq<string>) {
    if n == 0 then (Opened(input), [])
    else
      var (s, results) := LinesRead(input, n - 1);
      var (s', d) := LineRead(s);
      (s', results + [d])
  }

  function Concat(texts: seq<string>): string {
    if texts == [] then "" else texts[0] + Concat(texts[1..])
  }

  function NonEmpty(results: seq<string>): seq<string> {
    if results == [] then []
    else NonEmpty(results[..|results| - 1]) + if results[|results| - 1] == "" then [] else [results[|results| - 1]]
  }

  /** Exactly one newline, at the end. */
  predicate IsLine(d: string) {
    d != "" && d[|d| - 1] == '\n' && '\n' !in d[..|d| - 1]
  }

  /** The complete lines of a text: what ends at a newline, in order. */
  function Lines(text: string): (lines: seq<string>)
    decreases |text|
  {
    var i := IndexOf(text, '\n');
    if i == |text| then [] else [text[..i + 1]] + Lines(text[i + 1..])
  }

  /** Nothing more will come: all input has been read and no complete line is held back. */
  predicate Dry(s: Tee) {
    s.input == [] && |s.buff| <= 1
  }

  // ---- one call ----

  lemma {:induction false} ConcatAppend(texts: seq<string>, d: string)
    ensures Concat(texts + [d]) == Concat(texts) + d
  {
    if texts == [] {
      assert [] + [d] == [d];
      assert Concat([d]) == d + Concat([]);
    } else {
      ConcatAppend(texts[1..], d);
      assert (texts + [d])[1..] == texts[1..] + [d];
      assert texts[0] + (Concat(texts[1..]) + d) == Concat(texts) + d;
    }
  }

  /** The text held in the buffer and still to be read. */
  function Held(s: Tee): string {
    Join(s.buff, NEWLINE) + Concat(s.input)
  }

  /** A call moves text from the front of what is held to its result, a line or nothing. */
  lemma LineMoves(s: Tee)
    requires Without(s.buff, NEWLINE)
    ensures var (s', d) := LineRead(s);
      && Without(s'.buff, NEWLINE) && Held(s) == d + Held(s') && s'.dup == s.dup + d
      && (d == "" || IsLine(d)) && (d == "" ==> |s'.buff| == 1)
      && |s.input| - |s'.input| == (if |s.buff| > 1 || s.input == [] then 0 else 1)
  {
    hide Split, IndexOf, Join, Without, IsLine, Concat;
    if |s.buff| > 1 {
      FrontTaken(s.buff, Concat(s.input));
    } else {
      var last := if s.buff == [] then "" else s.buff[0];
      var got := if s.input == [] then "" else s.input[0];
      var later := if s.input == [] then [] else s.input[1..];
      HeldOf(s, last, got, later);
      JoinOfSplit(last + got, NEWLINE);
      var pieces := Split(last + got, NEWLINE);
      if |pieces| > 1 {
        FrontTaken(pieces, Concat(later));
      } else {
        assert pieces == [pieces[0]];
        JoinOne(pieces[0], NEWLINE);
      }
    }
  }

  lemma HeldOf(s: Tee, last: string, got: string, later: seq<string>)
    requires |s.buff| <= 1 && last == (if s.buff == [] then "" else s.buff[0])
    requires if s.input == [] then got == "" && later == [] else s.input == [got] + later
    ensures Held(s) == (last + got) + Concat(later)
  {
    if s.input == [] {
      assert (last + got) + Concat(later) == last + Concat(s.input);
    } else {
      assert s.input[1..] == later;
    }
    assert last + (got + Concat(later)) == (last + got) + Concat(later);
  }

  lemma LineOf(piece: string)
    requires NEWLINE !in piece
    ensures IsLine(piece + [NEWLINE])
  {
    var d := piece + [NEWLINE];
    assert d[..|d| - 1] == piece;
  }

  lemma FrontTaken(pieces: seq<string>, rest: string)
    requires |pieces| > 1 && Without(pieces, NEWLINE)
    ensures var d := pieces[0] + [NEWLINE];
      && Without(pieces[1..], NEWLINE) && IsLine(d)
      && Join(pieces, NEWLINE) + rest == d + (Join(pieces[1..], NEWLINE) + rest)
  {
    var d, behind := pieces[0] + [NEWLINE], pieces[1..];
    assert pieces[0] in pieces;
    LineOf(pieces[0]);
    assert forall piece <- behind :: piece in pieces;
    hide IsLine;
    assert [pieces[0]] + behind == pieces;
    JoinNext(pieces[0], behind, NEWLINE);
    hide Join;
    Regroup(d, Join(behind, NEWLINE), rest);
  }

  // ---- all calls ----

  lemma LinesOfLine(d: string, tail: string)
    requires IsLine(d)
    ensures Lines(d + tail) == [d] + Lines(tail)
  {
    var text := d + tail;
    forall j: nat | j < |d| - 1
      ensures text[j] != NEWLINE
    {
      assert text[j] == d[..|d| - 1][j];
    }
    IndexOfFirst(text, NEWLINE, |d| - 1);
    hide IndexOf;
    assert text[..|d|] == d && text[|d|..] == tail;
  }

  /** Text whose front is a list of lines has these lines first. */
  lemma {:induction false} LinesOfLines(lines: seq<string>, rest: string)
    requires forall d <- lines :: IsLine(d)
    ensures Lines(Concat(lines) + rest) == lines + Lines(rest)
  {
    hide Lines, IsLine;
    if lines == [] {
      assert Concat([]) + rest == rest;
      assert [] + Lines(rest) == Lines(rest);
    } else {
      var d, tail := lines[0], Concat(lines[1..]) + rest;
      assert d in lines;
      assert Concat(lines) + rest == d + tail;
      LinesOfLine(d, tail);
      LinesOfLines(lines[1..], rest);
      assert [d] + (lines[1..] + Lines(rest)) == lines + Lines(rest);
    }
  }

  ghost predicate Tallies(input: seq<string>, s: Tee, results: seq<string>) {
    && Without(s.buff, NEWLINE)
    && Concat(input) == Concat(results) + Held(s) && s.dup == Concat(results)
    && Concat(NonEmpty(results)) == Concat(results)
    && forall d <- NonEmpty(results) :: IsLine(d)
  }

  lemma ResultAdded(results: seq<string>, d: string)
    requires d == "" || IsLine(d)
    requires forall e <- NonEmpty(results) :: IsLine(e)
    requires Concat(NonEmpty(results)) == Concat(results)
    ensures var all := results + [d];
      && NonEmpty(all) == NonEmpty(results) + (if d == "" then [] else [d])
      && Concat(all) == Concat(results) + d && Concat(NonEmpty(all)) == Concat(all)
      && forall e <- NonEmpty(all) :: IsLine(e)
  {
    var all := results + [d];
    assert all[..|all| - 1] == results;
    ConcatAppend(results, d);
    hide Concat, IsLine;
    if d == "" {
      assert NonEmpty(results) + [] == NonEmpty(results);
      assert Concat(results) + "" == Concat(results);
    } else {
      ConcatAppend(NonEmpty(results), d);
    }
  }

  lemma CallTallies(input: seq<string>, s: Tee, results: seq<string>)
    requires Tallies(input, s, results)
    ensures var (s', d) := LineRead(s); Tallies(input, s', results + [d])
  {
    hide LineRead, Held, Concat, IsLine, NonEmpty;
    LineMoves(s);
    var (s', d) := LineRead(s);
    ResultAdded(results, d);
    assert Concat(results) + (d + Held(s')) == (Concat(results) + d) + Held(s');
  }

  lemma {:induction false} RunTallies(input: seq<string>, n: nat)
    ensures var (s, results) := LinesRead(input, n); Tallies(input, s, results)
  {
    if n == 0 {
      assert Concat(input) == Concat([]) + Held(Opened(input));
    } else {
      RunTallies(input, n - 1);
      hide LineRead, Tallies;
      CallTallies(input, LinesRead(input, n - 1).0, LinesRead(input, n - 1).1);
    }
  }

  /** Every call returns a line or reads on, until there is nothing more to come. */
  lemma {:induction false} CallsProgress(input: seq<string>, n: nat)
    ensures var (s, results) := LinesRead(input, n);
      |s.input| <= |input| && (!Dry(s) ==> |NonEmpty(results)| + |input| - |s.input| >= n)
  {
    hide LineRead, Tallies, Dry, NonEmpty;
    if n > 0 {
      CallsProgress(input, n - 1);
      RunTallies(input, n - 1);
      CallProgresses(input, LinesRead(input, n - 1).0, LinesRead(input, n - 1).1);
    }
  }

  lemma CallProgresses(input: seq<string>, s: Tee, results: seq<string>)
    requires Tallies(input, s, results)
    ensures var (s', d) := LineRead(s);
      && |s'.input| <= |s.input| && (Dry(s) ==> Dry(s'))
      && (!Dry(s') ==> |NonEmpty(results + [d])| - |s'.input| > |NonEmpty(results)| - |s.input|)
  {
    assert |s.buff| > 1 ==> LineRead(s).1 != "" by { hide Split; }
    hide LineRead, Held, Concat, IsLine, NonEmpty;
    LineMoves(s);
    DryStays(s);
    ResultAdded(results, LineRead(s).1);
  }

  lemma DryStays(s: Tee)
    requires Without(s.buff, NEWLINE)
    ensures Dry(s) ==> Dry(LineRead(s).0)
  {
    if Dry(s) {
      var last := if s.buff == [] then "" else s.buff[0];
      assert s.buff != [] ==> s.buff[0] in s.buff;
      assert last + "" == last;
      SplitNone(last, NEWLINE);
    }
  }

  /** A buffer of m pieces holds m - 1 complete lines. */
  lemma {:induction false} HeldLines(pieces: seq<string>)
    requires pieces != [] && Without(pieces, NEWLINE)
    ensures |Lines(Join(pieces, NEWLINE))| == |pieces| - 1
  {
    if |pieces| == 1 {
      assert pieces[0] in pieces;
      IndexOfNone(pieces[0], NEWLINE);
    } else {
      FrontTaken(pieces, "");
      var d := pieces[0] + [NEWLINE];
      HeldLines(pieces[1..]);
      LinesOfLines([d], Join(pieces[1..], NEWLINE));
      assert Concat([d]) == d;
      assert Join(pieces, NEWLINE) == d + Join(pieces[1..], NEWLINE);
    }
  }

  // ---- main results ----

  /**
   Conservation: what calls have returned, the buffered pieces joined by newlines and what is still to be read are
   together all the text; each call returns nothing or one line with exactly one newline, at its end.
   */
  lemma NothingIsLost(input: seq<string>, n: nat)
    ensures var (s, results) := LinesRead(input, n);
      && Concat(input) == Concat(NonEmpty(results)) + Join(s.buff, NEWLINE) + Concat(s.input)
      && s.dup == Concat(NonEmpty(results))
      && forall d <- NonEmpty(results) :: IsLine(d)
  {
    RunTallies(input, n);
    hide LinesRead, IsLine;
    var (s, results) := LinesRead(input, n);
    assert Concat(results) + Held(s) == Concat(results) + Join(s.buff, NEWLINE) + Concat(s.input);
  }

  /** The lines returned are the first complete lines of the text; after enough calls, all of them. */
  lemma ReturnsTheLines(input: seq<string>, n: nat)
    ensures var (s, results) := LinesRead(input, n); var all := Lines(Concat(input));
      && NonEmpty(results) <= all
      && (n >= |input| + |all| ==> NonEmpty(results) == all)
      && (Dry(s) ==> NonEmpty(results) == all)
  {
    RunTallies(input, n);
    CallsProgress(input, n);
    var (s, results) := LinesRead(input, n);
    hide LinesRead, IsLine;
    LinesOfLines(NonEmpty(results), Held(s));
    if s.input == [] {
      assert Held(s) == Join(s.buff, NEWLINE);
      if s.buff == [] {
        assert Lines("") == [];
      } else {
        HeldLines(s.buff);
      }
    }
    hide Lines, Concat, Held;
  }

  /** However the same text is cut, the same lines come out, in the same order. */
  lemma CutsDoNotMatter(input: seq<string>, n: nat, input': seq<string>, n': nat)
    requires Concat(input) == Concat(input')
    ensures var lines, lines' := NonEmpty(LinesRead(input, n).1), NonEmpty(LinesRead(input', n').1);
      && (lines <= lines' || lines' <= lines)
      && (Dry(LinesRead(input, n).0) && Dry(LinesRead(input', n').0) ==> lines == lines')
  {
    ReturnsTheLines(input, n);
    ReturnsTheLines(input', n');
    hide *;
  }

  predicate LineAvailable(s: Tee) {
    |s.buff| > 1
  }

  /** Only a call that finds no complete line in the buffer reads from the main file, and it may return nothing. */
  lemma AvailableLine(s: Tee)
    requires Without(s.buff, NEWLINE)
    ensures LineAvailable(s) ==> IsLine(LineRead(s).1) && LineRead(s).0.input == s.input
    ensures !LineAvailable(s) && s.input != [] ==> LineRead(s).0.input == s.input[1..]
  {
    LineMoves(s);
    hide Split;
  }

  class TeeedFile {
    var buff: seq<string>
    var input: seq<string>       // what reading the main file's descriptor will return
    var dup: string              // what the second file has been given

    constructor (input: seq<string>)
      ensures State() == Opened(input)
    {
      this.buff, this.input, dup := [], input, "";
    }

    function State(): Tee
      reads this
    {
      Tee(buff, input, dup)
    }

    predicate HasLineAvailable()
      reads this
    {
      LineAvailable(State())
    }

    /** `os.read` on the main file. */
    method Read() returns (d: string)
      modifies this`input
      ensures if old(input) == [] then d == "" && input == [] else [d] + input == old(input)
    {
      if input == [] {
        d := "";
      } else {
        d, input := input[0], input[1..];
      }
    }

    method Readline() returns (d: string)
      modifies this
      ensures (State(), d) == LineRead(old(State()))
      ensures old(HasLineAvailable()) ==> input == old(input)
    {
      hide Split;
      if |buff| > 1 {
        d := buff[0] + [NEWLINE];
        buff := buff[1..];
      } else {
        d := Read();
        if buff != [] {
          var last := buff[|buff| - 1];
          buff := buff[..|buff| - 1];
          assert buff == [];
          d := last + d;
        } else {
          assert "" + d == d;
        }
        assert [] + Split(d, NEWLINE) == Split(d, NEWLINE);
        buff := buff + Split(d, NEWLINE);
        if |buff| > 1 {
          d := buff[0] + [NEWLINE];
          buff := buff[1..];
        } else {
          d := "";
        }
      }
      assert dup + "" == dup;
      dup := dup + d;
    }
  }
}

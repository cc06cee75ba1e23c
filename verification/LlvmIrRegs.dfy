/**
 Every instruction of an LLVM IR function is one source line, and every instruction with an integer result is one
 debugger register with a name of its own.
 */
module LlvmIrRegs {
  import opened Wrappers
  import opened Digits

  /** An instruction: the operand name LLVM prints for it, unquoted, and the width of its type if that is an integer. */
  datatype IrInstr = IrInstr(name: string, width: Option<nat>)

  /** The instructions of each basic block. */
  type IrFunction = seq<seq<IrInstr>>

  /** Which instruction: the number of its block and its position there. */
  datatype Loc = Loc(block: nat, pos: nat)

  datatype RegRow = RegRow(codeline: nat, index: Option<nat>, loc: Loc, width: Option<nat>, name: Option<string>)

  predicate InFunction(fn: IrFunction, loc: Loc) {
    loc.block < |fn| && loc.pos < |fn[loc.block]|
  }

  function InstrAt(fn: IrFunction, loc: Loc): IrInstr
    requires InFunction(fn, loc)
  {
    fn[loc.block][loc.pos]
  }

  /** The source asserts that an instruction with a register has a name. */
  ghost predicate Named(fn: IrFunction) {
    forall loc: Loc :: InFunction(fn, loc) && InstrAt(fn, loc).width.Some? ==> InstrAt(fn, loc).name != ""
  }

  // ---- names ----

  predicate IsIdChar(c: char) {
    IsAlnum(c) || c == '_'
  }

  /** Letters, digits and the underscore. */
  lemma NameCharacters(c: char)
    ensures IsIdChar(c) <==>
      0x30 <= c as nat <= 0x39 || 0x41 <= c as nat <= 0x5A || 0x61 <= c as nat <= 0x7A || c == '_'
  {
  }

  function BadRun(s: string): (n: nat)
    ensures n <= |s|
    ensures s != "" && !IsIdChar(s[0]) ==> n > 0
  {
    if s == "" || IsIdChar(s[0]) then 0 else 1 + BadRun(s[1..])
  }

  /** Replaces each run of characters outside `[0-9a-zA-Z_]` by one underscore. */
  function Sanitize(s: string): (r: string)
    ensures forall c <- r :: IsIdChar(c)
    decreases |s|
  {
    if s == "" then ""
    else if IsIdChar(s[0]) then [s[0]] + Sanitize(s[1..])
    else "_" + Sanitize(s[BadRun(s)..])
  }

  /** The names tried in turn: the base itself, then base_1, base_2, ... */
  function Candidate(base: string, i: nat): string {
    if i == 0 then base else base + "_" + Print(i, 10)
  }

  lemma CandidatesDiffer(base: string, i: nat, j: nat)
    requires Candidate(base, i) == Candidate(base, j)
    ensures i == j
  {
    var s, k := Candidate(base, i), |base| + 1;
    if i > 0 && j > 0 {
      assert s[k..] == Print(i, 10) && s[k..] == Print(j, 10);
      PrintInjective(i, j, 10);
    } else {
      hide Print;
    }
  }

  ghost function Tried(base: string, n: nat): set<string> {
    if n == 0 then {} else Tried(base, n - 1) + {Candidate(base, n - 1)}
  }

  lemma {:induction false} TriedHas(base: string, n: nat, name: string)
    ensures name in Tried(base, n) <==> exists i: nat :: i < n && name == Candidate(base, i)
  {
    hide Candidate;
    if n > 0 {
      TriedHas(base, n - 1, name);
    }
  }

  lemma {:induction false} TriedSize(base: string, n: nat)
    ensures |Tried(base, n)| == n
  {
    hide Candidate;
    if n > 0 {
      TriedSize(base, n - 1);
      var last := Candidate(base, n - 1);
      TriedHas(base, n - 1, last);
      if last in Tried(base, n - 1) {
        var i: nat :| i < n - 1 && last == Candidate(base, i);
        CandidatesDiffer(base, i, n - 1);
      }
    }
  }

  lemma SubsetSize<T>(small: set<T>, large: set<T>)
    requires small <= large
    ensures |small| <= |large|
  {
    assert large == small + (large - small);
  }

  /** Pigeonhole: as many candidates as are taken, at least so many names have been seen. */
  lemma TakenBound(base: string, seen: set<string>, n: nat)
    requires forall i: nat :: i < n ==> Candidate(base, i) in seen
    ensures n <= |seen|
  {
    hide Candidate;
    TriedSize(base, n);
    forall name | name in Tried(base, n) ensures name in seen {
      TriedHas(base, n, name);
    }
    SubsetSize(Tried(base, n), seen);
  }

  /** The first candidate that is not taken. */
  ghost predicate IsFirstFree(base: string, seen: set<string>, name: string) {
    exists i: nat :: FirstFreeAt(base, seen, name, i)
  }

  ghost predicate FirstFreeAt(base: string, seen: set<string>, name: string, i: nat) {
    name == Candidate(base, i) && name !in seen && forall j: nat :: j < i ==> Candidate(base, j) in seen
  }

  /** Names the first free candidate from the i-th on; the pigeonhole bound makes the search end. */
  function FreshFrom(base: string, seen: set<string>, i: nat): (name: string)
    requires forall j: nat :: j < i ==> Candidate(base, j) in seen
    ensures IsFirstFree(base, seen, name)
    decreases |seen| + 1 - i
  {
    TakenBound(base, seen, i);
    if Candidate(base, i) !in seen then
      assert FirstFreeAt(base, seen, Candidate(base, i), i);
      Candidate(base, i)
    else
      TakenBound(base, seen, i + 1);
      FreshFrom(base, seen, i + 1)
  }

  function FreshName(base: string, seen: set<string>): (name: string)
    ensures IsFirstFree(base, seen, name) && name !in seen
  {
    var name := FreshFrom(base, seen, 0);
    assert name !in seen by {
      var i: nat :| FirstFreeAt(base, seen, name, i);
    }
    name
  }

  lemma FirstFreeIsUnique(base: string, seen: set<string>, a: string, b: string)
    requires IsFirstFree(base, seen, a) && IsFirstFree(base, seen, b)
    ensures a == b
  {
    hide Candidate;
    var i: nat :| FirstFreeAt(base, seen, a, i);
    var j: nat :| FirstFreeAt(base, seen, b, j);
    assert !(i < j) && !(j < i);
  }

  /** The renaming loop. */
  method PickName(base: string, seen: set<string>) returns (name: string)
    ensures name == FreshName(base, seen)
  {
    name := base;
    var nameI := 1;
    while name in seen
      invariant nameI >= 1 && name == Candidate(base, nameI - 1)
      invariant forall i: nat :: i < nameI - 1 ==> Candidate(base, i) in seen
      decreases |seen| + 1 - nameI
    {
      TakenBound(base, seen, nameI);
      name := base + "_" + Print(nameI, 10);
      nameI := nameI + 1;
    }
    assert FirstFreeAt(base, seen, name, nameI - 1);
    FirstFreeIsUnique(base, seen, name, FreshName(base, seen));
  }

  // ---- lines and registers ----

  function Typed(rows: seq<RegRow>): (n: nat)
    ensures n <= |rows|
  {
    if rows == [] then 0
    else Typed(rows[..|rows| - 1]) + if rows[|rows| - 1].index.Some? then 1 else 0
  }

  function NamesOf(rows: seq<RegRow>): set<string> {
    set row <- rows | row.name.Some? :: row.name.value
  }

  function BaseName(name: string, sanitize: bool): string {
    if sanitize then Sanitize(name) else name
  }

  /** The row of one instruction, given the rows of all instructions before it. */
  function NextRow(line: nat, regOffset: nat, instr: IrInstr, loc: Loc, sanitize: bool, prior: seq<RegRow>): RegRow {
    if instr.width == None then RegRow(line, None, loc, None, None)
    else RegRow(line, Some(regOffset + Typed(prior)), loc, instr.width,
                Some(FreshName(BaseName(instr.name, sanitize), NamesOf(prior))))
  }

  /** Number of instructions in the blocks before block b. */
  function Before(fn: IrFunction, b: nat): nat
    requires b <= |fn|
  {
    if b == 0 then 0 else Before(fn, b - 1) + |fn[b - 1]|
  }

  /** The line of the j-th instruction overall, in block b: the offset, plus j, plus two lines for each block before. */
  function CodeLine(fn: IrFunction, offset: nat, loc: Loc): nat
    requires loc.block <= |fn|
  {
    offset + Before(fn, loc.block) + loc.pos + 2 * loc.block
  }

  predicate ValidPlace(fn: IrFunction, b: nat, i: nat) {
    b <= |fn| && (b == |fn| ==> i == 0) && (b < |fn| ==> i <= |fn[b]|)
  }

  /** The rows of everything before position i of block b. */
  function RowsUpTo(fn: IrFunction, offset: nat, regOffset: nat, sanitize: bool, b: nat, i: nat): (rows: seq<RegRow>)
    requires ValidPlace(fn, b, i)
    ensures |rows| == Before(fn, b) + i
    decreases b, i
  {
    if i > 0 then
      var loc := Loc(b, i - 1);
      var prior := RowsUpTo(fn, offset, regOffset, sanitize, b, i - 1);
      prior + [NextRow(CodeLine(fn, offset, loc), regOffset, InstrAt(fn, loc), loc, sanitize, prior)]
    else if b > 0 then RowsUpTo(fn, offset, regOffset, sanitize, b - 1, |fn[b - 1]|)
    else []
  }

  function AllRows(fn: IrFunction, offset: nat, regOffset: nat, sanitize: bool): seq<RegRow> {
    RowsUpTo(fn, offset, regOffset, sanitize, |fn|, 0)
  }

  lemma RowsStep(fn: IrFunction, offset: nat, regOffset: nat, sanitize: bool, b: nat, i: nat)
    requires b < |fn| && i < |fn[b]|
    ensures var prior := RowsUpTo(fn, offset, regOffset, sanitize, b, i);
      RowsUpTo(fn, offset, regOffset, sanitize, b, i + 1) ==
      prior + [NextRow(CodeLine(fn, offset, Loc(b, i)), regOffset, fn[b][i], Loc(b, i), sanitize, prior)]
    ensures CodeLine(fn, offset, Loc(b, i + 1)) == CodeLine(fn, offset, Loc(b, i)) + 1
  {
    hide NextRow;
  }

  lemma RowsBlock(fn: IrFunction, offset: nat, regOffset: nat, sanitize: bool, b: nat)
    requires b < |fn|
    ensures RowsUpTo(fn, offset, regOffset, sanitize, b + 1, 0) ==
      RowsUpTo(fn, offset, regOffset, sanitize, b, |fn[b]|)
    ensures CodeLine(fn, offset, Loc(b + 1, 0)) == CodeLine(fn, offset, Loc(b, |fn[b]|)) + 2
  {
    hide NextRow;
  }

  lemma RowsEmpty(fn: IrFunction, offset: nat, regOffset: nat, sanitize: bool)
    ensures RowsUpTo(fn, offset, regOffset, sanitize, 0, 0) == []
    ensures Carries(offset, regOffset, {}, CodeLine(fn, offset, Loc(0, 0)), regOffset, [])
  {
  }

  lemma RowsAppend(rows: seq<RegRow>, row: RegRow)
    ensures NamesOf(rows + [row]) == NamesOf(rows) + if row.name.Some? then {row.name.value} else {}
    ensures Typed(rows + [row]) == Typed(rows) + if row.index.Some? then 1 else 0
  {
    var all := rows + [row];
    assert forall r :: r in all <==> r in rows || r == row;
    assert all[..|rows|] == rows;
  }

  /** What the generator carries from one instruction to the next, given the rows yielded so far. */
  predicate Carries(codelineOffset: nat, regIndexOffset: nat, seenNames: set<string>,
                    line: nat, regOffset: nat, rows: seq<RegRow>)
  {
    codelineOffset == line && regIndexOffset == regOffset + Typed(rows) && seenNames == NamesOf(rows)
  }

  /** The body of the inner loop: one instruction, one row. */
  method YieldRow(instr: IrInstr, loc: Loc, sanitizeNames: bool, codelineOffset: nat, regIndexOffset: nat,
                  seenNames: set<string>, ghost regOffset: nat, ghost prior: seq<RegRow>)
    returns (row: RegRow, regIndexOffset': nat, seenNames': set<string>)
    requires instr.width.Some? ==> instr.name != ""
    requires Carries(codelineOffset, regIndexOffset, seenNames, codelineOffset, regOffset, prior)
    ensures row == NextRow(codelineOffset, regOffset, instr, loc, sanitizeNames, prior)
    ensures Carries(codelineOffset, regIndexOffset', seenNames', codelineOffset, regOffset, prior + [row])
  {
    regIndexOffset', seenNames' := regIndexOffset, seenNames;
    if instr.width == None {
      row := RegRow(codelineOffset, None, loc, None, None);
    } else {
      var name := PickName(BaseName(instr.name, sanitizeNames), seenNames);
      seenNames' := seenNames + {name};
      row := RegRow(codelineOffset, Some(regIndexOffset), loc, instr.width, Some(name));
      regIndexOffset' := regIndexOffset + 1;
    }
    hide FreshName, Sanitize, Typed, NamesOf;
    RowsAppend(prior, row);
  }

  /** The generator, with the rows it yields collected in order. */
  method LlvmIrIterRegs(offset: nat, regOffset: nat, fn: IrFunction, sanitizeNames: bool) returns (rows: seq<RegRow>)
    requires Named(fn)
    ensures rows == AllRows(fn, offset, regOffset, sanitizeNames)
  {
    var seenNames: set<string> := {};
    var codelineOffset, regIndexOffset := offset, regOffset;
    rows := [];
    hide RowsUpTo, NextRow, CodeLine, Typed, NamesOf, FreshName, Sanitize;
    RowsEmpty(fn, offset, regOffset, sanitizeNames);
    for b := 0 to |fn|
      invariant rows == RowsUpTo(fn, offset, regOffset, sanitizeNames, b, 0)
      invariant Carries(codelineOffset, regIndexOffset, seenNames, CodeLine(fn, offset, Loc(b, 0)), regOffset, rows)
    {
      hide RowsUpTo, NextRow, CodeLine, Typed, NamesOf, FreshName, Sanitize;
      for i := 0 to |fn[b]|
        invariant rows == RowsUpTo(fn, offset, regOffset, sanitizeNames, b, i)
        invariant Carries(codelineOffset, regIndexOffset, seenNames, CodeLine(fn, offset, Loc(b, i)), regOffset, rows)
      {
        hide RowsUpTo, NextRow, FreshName, Sanitize, Typed, NamesOf, CodeLine;
        var row;
        assert InFunction(fn, Loc(b, i));
        row, regIndexOffset, seenNames := YieldRow(fn[b][i], Loc(b, i), sanitizeNames, codelineOffset, regIndexOffset,
                                                   seenNames, regOffset, rows);
        rows := rows + [row];
        RowsStep(fn, offset, regOffset, sanitizeNames, b, i);
        codelineOffset := codelineOffset + 1;
      }
      codelineOffset := codelineOffset + 2;
      RowsBlock(fn, offset, regOffset, sanitizeNames, b);
    }
  }

  // ---- what the rows promise ----

  /** Names of registers are pairwise distinct. */
  ghost predicate DistinctNames(rows: seq<RegRow>) {
    forall j: nat, k: nat :: j < k < |rows| && rows[j].name.Some? && rows[k].name.Some? ==> rows[j].name != rows[k].name
  }

  /**
   Each row describes an instruction at its line; exactly the rows of integer instructions have a register, and
   register numbers count up from regOffset.
   */
  ghost predicate Describes(rows: seq<RegRow>, fn: IrFunction, offset: nat, regOffset: nat) {
    forall k: nat :: k < |rows| ==>
      && InFunction(fn, rows[k].loc) && rows[k].codeline == CodeLine(fn, offset, rows[k].loc)
      && rows[k].width == InstrAt(fn, rows[k].loc).width
      && (rows[k].width.Some? <==> rows[k].index.Some?) && (rows[k].width.Some? <==> rows[k].name.Some?)
      && (rows[k].index.Some? ==> rows[k].index.value == regOffset + Typed(rows[..k]))
  }

  lemma DistinctNext(prior: seq<RegRow>, line: nat, regOffset: nat, instr: IrInstr, loc: Loc, sanitize: bool)
    requires DistinctNames(prior)
    ensures DistinctNames(prior + [NextRow(line, regOffset, instr, loc, sanitize, prior)])
  {
    var row := NextRow(line, regOffset, instr, loc, sanitize, prior);
    assert row.name.Some? ==> row.name.value !in NamesOf(prior);
    hide NextRow;
    forall j: nat | j < |prior| && prior[j].name.Some?
      ensures prior[j].name != row.name
    {
      assert prior[j] in prior && prior[j].name.value in NamesOf(prior);
    }
  }

  lemma {:induction false} NamesAreDistinct(fn: IrFunction, offset: nat, regOffset: nat, sanitize: bool, b: nat, i: nat)
    requires ValidPlace(fn, b, i)
    ensures DistinctNames(RowsUpTo(fn, offset, regOffset, sanitize, b, i))
    decreases b, i
  {
    if i > 0 {
      NamesAreDistinct(fn, offset, regOffset, sanitize, b, i - 1);
      RowsStep(fn, offset, regOffset, sanitize, b, i - 1);
      hide RowsUpTo, NextRow, CodeLine, DistinctNames;
      var loc := Loc(b, i - 1);
      DistinctNext(RowsUpTo(fn, offset, regOffset, sanitize, b, i - 1), CodeLine(fn, offset, loc), regOffset,
                   InstrAt(fn, loc), loc, sanitize);
    } else if b > 0 {
      RowsBlock(fn, offset, regOffset, sanitize, b - 1);
      NamesAreDistinct(fn, offset, regOffset, sanitize, b - 1, |fn[b - 1]|);
      hide RowsUpTo, DistinctNames;
    }
  }

  lemma NextRowIs(line: nat, regOffset: nat, instr: IrInstr, loc: Loc, sanitize: bool, prior: seq<RegRow>)
    ensures var row := NextRow(line, regOffset, instr, loc, sanitize, prior);
      && row.loc == loc && row.codeline == line && row.width == instr.width
      && row.index == (if row.width == None then None else Some(regOffset + Typed(prior)))
      && (row.width.Some? <==> row.name.Some?)
  {
    hide FreshName, NamesOf, Typed;
  }

  lemma DescribesNext(prior: seq<RegRow>, fn: IrFunction, offset: nat, regOffset: nat, sanitize: bool, loc: Loc)
    requires Describes(prior, fn, offset, regOffset) && InFunction(fn, loc)
    ensures Describes(prior + [NextRow(CodeLine(fn, offset, loc), regOffset, InstrAt(fn, loc), loc, sanitize, prior)],
                      fn, offset, regOffset)
  {
    hide NextRow, CodeLine, Typed, InstrAt, FreshName, NamesOf;
    var row := NextRow(CodeLine(fn, offset, loc), regOffset, InstrAt(fn, loc), loc, sanitize, prior);
    NextRowIs(CodeLine(fn, offset, loc), regOffset, InstrAt(fn, loc), loc, sanitize, prior);
    var rows := prior + [row];
    forall k: nat | k < |rows|
      ensures rows[..k] == prior[..k] && rows[k] == if k < |prior| then prior[k] else row
    {
    }
    assert prior[..|prior|] == prior;
  }

  lemma {:induction false} RowsDescribe(
    fn: IrFunction, offset: nat, regOffset: nat, sanitize: bool, b: nat, i: nat)
    requires ValidPlace(fn, b, i)
    ensures Describes(RowsUpTo(fn, offset, regOffset, sanitize, b, i), fn, offset, regOffset)
    decreases b, i
  {
    if i > 0 {
      hide RowsUpTo, NextRow, CodeLine, Describes;
      RowsDescribe(fn, offset, regOffset, sanitize, b, i - 1);
      RowsStep(fn, offset, regOffset, sanitize, b, i - 1);
      var loc := Loc(b, i - 1);
      DescribesNext(RowsUpTo(fn, offset, regOffset, sanitize, b, i - 1), fn, offset, regOffset, sanitize, loc);
    } else if b > 0 {
      RowsBlock(fn, offset, regOffset, sanitize, b - 1);
      RowsDescribe(fn, offset, regOffset, sanitize, b - 1, |fn[b - 1]|);
      hide RowsUpTo, Describes;
    }
  }

  /** The j-th instruction overall owns the j-th row, and the line stated for it. */
  lemma {:induction false} RowOfInstr(
    fn: IrFunction, offset: nat, regOffset: nat, sanitize: bool, b: nat, i: nat, loc: Loc)
    requires ValidPlace(fn, b, i) && InFunction(fn, loc)
    requires loc.block < b || (loc.block == b && loc.pos < i)
    ensures var rows := RowsUpTo(fn, offset, regOffset, sanitize, b, i);
      var j := Before(fn, loc.block) + loc.pos;
      && j < |rows| && rows[j].loc == loc && rows[j].width == InstrAt(fn, loc).width
      && rows[j].codeline == CodeLine(fn, offset, loc) == offset + j + 2 * loc.block
    decreases b, i
  {
    hide RowsUpTo, FreshName, NextRow;
    if i > 0 {
      RowsStep(fn, offset, regOffset, sanitize, b, i - 1);
      if loc != Loc(b, i - 1) {
        RowOfInstr(fn, offset, regOffset, sanitize, b, i - 1, loc);
      } else {
        NextRowIs(CodeLine(fn, offset, loc), regOffset, InstrAt(fn, loc), loc, sanitize,
                  RowsUpTo(fn, offset, regOffset, sanitize, b, i - 1));
      }
    } else {
      RowsBlock(fn, offset, regOffset, sanitize, b - 1);
      RowOfInstr(fn, offset, regOffset, sanitize, b - 1, |fn[b - 1]|, loc);
    }
  }

  lemma {:induction false} BeforeMonotone(fn: IrFunction, a: nat, b: nat)
    requires a <= b <= |fn|
    ensures Before(fn, a) <= Before(fn, b)
  {
    if a < b {
      BeforeMonotone(fn, a, b - 1);
    }
  }

  /** A source line, and so the address 8 * line, identifies one instruction. */
  lemma LineIdentifiesInstr(fn: IrFunction, offset: nat, a: Loc, b: Loc)
    requires InFunction(fn, a) && InFunction(fn, b)
    ensures CodeLine(fn, offset, a) == CodeLine(fn, offset, b) <==> a == b
  {
    if a.block < b.block {
      BeforeMonotone(fn, a.block + 1, b.block);
    } else if b.block < a.block {
      BeforeMonotone(fn, b.block + 1, a.block);
    }
  }

  // ---- which names ----

  /** None of the first k rows has the name. */
  predicate Unused(rows: seq<RegRow>, k: nat, name: string)
    requires k <= |rows|
  {
    forall j: nat :: j < k ==> rows[j].name != Some(name)
  }

  /** Row k is named `base`, or if that is taken by an earlier row, `base_i` with the least i >= 1 that is not. */
  ghost predicate NamedAfter(rows: seq<RegRow>, k: nat, base: string)
    requires k < |rows|
  {
    if Unused(rows, k, base) then rows[k].name == Some(base)
    else exists i: nat :: i >= 1 && rows[k].name == Some(base + "_" + Print(i, 10)) && LeastUnused(rows, k, base, i)
  }

  ghost predicate LeastUnused(rows: seq<RegRow>, k: nat, base: string, i: nat)
    requires k <= |rows|
  {
    && Unused(rows, k, base + "_" + Print(i, 10))
    && forall j: nat :: 1 <= j < i ==> !Unused(rows, k, base + "_" + Print(j, 10))
  }

  /** The words and gaps of a text in turn, beginning and ending with a word. */
  function Interleave(words: seq<string>, gaps: seq<string>): string
    requires |words| == |gaps| + 1
  {
    if gaps == [] then words[0] else words[0] + gaps[0] + Interleave(words[1..], gaps[1..])
  }

  predicate AreWords(words: seq<string>, gaps: seq<string>) {
    && |words| == |gaps| + 1
    && (forall word <- words :: forall c <- word :: IsIdChar(c))
    && (forall gap <- gaps :: gap != "" && forall c <- gap :: !IsIdChar(c))
    && forall k: nat :: 0 < k < |words| - 1 ==> words[k] != ""
  }

  function Underscores(n: nat): seq<string> {
    seq(n, _ => "_")
  }

  /** `clean` has the words of `name`, with one underscore for each run of other characters between or around them. */
  ghost predicate Cleans(name: string, clean: string) {
    exists words, gaps :: AreWords(words, gaps)
      && name == Interleave(words, gaps) && clean == Interleave(words, Underscores(|gaps|))
  }

  /** The words and gaps of a name and of what has become of it. */
  predicate Cut(name: string, clean: string, words: seq<string>, gaps: seq<string>) {
    && AreWords(words, gaps)
    && name == Interleave(words, gaps) && clean == Interleave(words, Underscores(|gaps|))
    && (name != "" && IsIdChar(name[0]) ==> words[0] != "") && (name == "" ==> gaps == [])
  }

  lemma {:induction false} SanitizeCleans(name: string) returns (words: seq<string>, gaps: seq<string>)
    ensures Cut(name, Sanitize(name), words, gaps)
    decreases |name|
  {
    hide IsIdChar, Cut;
    if name == "" {
      words, gaps := [""], [];
      EmptyCut();
    } else if IsIdChar(name[0]) {
      var rest := name[1..];
      words, gaps := SanitizeCleans(rest);
      words := CutBehindChar(name[0], rest, Sanitize(rest), words, gaps);
      assert [name[0]] + rest == name;
    } else {
      var n := BadRun(name);
      BadRunIs(name);
      words, gaps := SanitizeCleans(name[n..]);
      assert name[..n] + name[n..] == name;
      words, gaps := CutBehindGap(name[..n], name[n..], Sanitize(name[n..]), words, gaps);
    }
  }

  lemma EmptyCut()
    ensures Cut("", "", [""], [])
  {
  }

  lemma CutBehindChar(c: char, name: string, clean: string, words: seq<string>, gaps: seq<string>)
    returns (longer: seq<string>)
    requires IsIdChar(c) && Cut(name, clean, words, gaps)
    ensures Cut([c] + name, [c] + clean, longer, gaps)
  {
    longer := [[c] + words[0]] + words[1..];
    LongerWord(c, words, gaps);
    LongerWord(c, words, Underscores(|gaps|));
    LongerAreWords(c, words, gaps);
    hide Interleave, AreWords, IsIdChar;
  }

  lemma CutBehindGap(gap: string, name: string, clean: string, words: seq<string>, gaps: seq<string>)
    returns (words': seq<string>, gaps': seq<string>)
    requires gap != "" && (forall c <- gap :: !IsIdChar(c)) && (name != "" ==> IsIdChar(name[0]))
    requires Cut(name, clean, words, gaps)
    ensures Cut(gap + name, "_" + clean, words', gaps')
  {
    words', gaps' := [""] + words, [gap] + gaps;
    MoreAreWords(gap, words, gaps);
    assert (gap + name)[0] == gap[0] && gap[0] in gap;
    hide IsIdChar, AreWords;
    assert Underscores(|gaps'|)[1..] == Underscores(|gaps|);
    assert words'[1..] == words && gaps'[1..] == gaps;
  }

  lemma LongerWord(c: char, words: seq<string>, gaps: seq<string>)
    requires |words| == |gaps| + 1
    ensures Interleave([[c] + words[0]] + words[1..], gaps) == [c] + Interleave(words, gaps)
  {
  }

  lemma LongerAreWords(c: char, words: seq<string>, gaps: seq<string>)
    requires AreWords(words, gaps) && IsIdChar(c)
    ensures AreWords([[c] + words[0]] + words[1..], gaps)
  {
    hide IsIdChar;
    var longer := [[c] + words[0]] + words[1..];
    assert words[0] in words;
    assert forall d <- [c] + words[0] :: d == c || d in words[0];
    assert forall word <- longer :: word == [c] + words[0] || word in words;
  }

  lemma MoreAreWords(gap: string, words: seq<string>, gaps: seq<string>)
    requires AreWords(words, gaps) && gap != "" && (forall c <- gap :: !IsIdChar(c))
    requires gaps != [] ==> words[0] != ""
    ensures AreWords([""] + words, [gap] + gaps)
  {
    hide IsIdChar;
  }

  lemma {:induction false} BadRunIs(s: string)
    ensures forall c <- s[..BadRun(s)] :: !IsIdChar(c)
    ensures BadRun(s) < |s| ==> IsIdChar(s[BadRun(s)])
  {
    if s != "" && !IsIdChar(s[0]) {
      BadRunIs(s[1..]);
      assert s[..BadRun(s)] == [s[0]] + s[1..][..BadRun(s[1..])];
    }
  }

  /**
   Row k belongs to the k-th instruction, and its name is made from the instruction's own name or, sanitized, from the
   clean form of that.
   */
  ghost predicate RowNamed(rows: seq<RegRow>, fn: IrFunction, sanitize: bool, k: nat)
    requires k < |rows|
  {
    var loc := rows[k].loc;
    && InFunction(fn, loc) && k == Before(fn, loc.block) + loc.pos
    && (rows[k].name.Some? ==>
          var own := InstrAt(fn, loc).name;
          if sanitize then exists base: string :: Cleans(own, base) && NamedAfter(rows, k, base)
          else NamedAfter(rows, k, own))
  }

  ghost predicate NamesFollow(rows: seq<RegRow>, fn: IrFunction, sanitize: bool) {
    forall k: nat :: k < |rows| ==> RowNamed(rows, fn, sanitize, k)
  }

  lemma UnusedIff(rows: seq<RegRow>, name: string)
    ensures Unused(rows, |rows|, name) <==> name !in NamesOf(rows)
  {
    if name in NamesOf(rows) {
      var row :| row in rows && row.name == Some(name);
      var j: nat :| j < |rows| && rows[j] == row;
    }
  }

  lemma UnusedKept(rows: seq<RegRow>, row: RegRow, k: nat, name: string)
    requires k <= |rows|
    ensures Unused(rows + [row], k, name) <==> Unused(rows, k, name)
  {
    var all := rows + [row];
    assert forall j: nat | j < k :: all[j] == rows[j];
    if !Unused(rows, k, name) {
      var j: nat :| j < k && rows[j].name == Some(name);
      assert all[j].name == Some(name);
    }
  }

  lemma FirstFreeIsNamed(rows: seq<RegRow>, row: RegRow, base: string)
    requires row.name.Some? && IsFirstFree(base, NamesOf(rows), row.name.value)
    ensures NamedAfter(rows + [row], |rows|, base)
  {
    var all, k, name := rows + [row], |rows|, row.name.value;
    var i: nat :| FirstFreeAt(base, NamesOf(rows), name, i);
    forall any: string
      ensures Unused(all, k, any) <==> any !in NamesOf(rows)
    {
      UnusedIff(rows, any);
      UnusedKept(rows, row, k, any);
    }
    hide NamesOf, Unused, Print;
    assert Candidate(base, 0) == base;
    if i > 0 {
      forall j: nat | 1 <= j < i
        ensures base + "_" + Print(j, 10) in NamesOf(rows)
      {
        assert Candidate(base, j) == base + "_" + Print(j, 10);
      }
      assert LeastUnused(all, k, base, i);
    }
  }

  lemma EarlierRowsNamed(rows: seq<RegRow>, row: RegRow, fn: IrFunction, sanitize: bool, k: nat)
    requires k < |rows| && RowNamed(rows, fn, sanitize, k)
    ensures RowNamed(rows + [row], fn, sanitize, k)
  {
    var all := rows + [row];
    forall any: string
      ensures Unused(all, k, any) <==> Unused(rows, k, any)
    {
      UnusedKept(rows, row, k, any);
    }
    hide Unused, Print, Before, Cleans;
  }

  lemma NextRowNamed(prior: seq<RegRow>, fn: IrFunction, offset: nat, regOffset: nat, sanitize: bool, loc: Loc)
    requires InFunction(fn, loc) && |prior| == Before(fn, loc.block) + loc.pos
    ensures var row := NextRow(CodeLine(fn, offset, loc), regOffset, InstrAt(fn, loc), loc, sanitize, prior);
      RowNamed(prior + [row], fn, sanitize, |prior|)
  {
    hide NamesOf, Typed, CodeLine, Before, NamedAfter, IsFirstFree, Cleans, Sanitize;
    var row := NextRow(CodeLine(fn, offset, loc), regOffset, InstrAt(fn, loc), loc, sanitize, prior);
    if row.name.Some? {
      var base := BaseName(InstrAt(fn, loc).name, sanitize);
      FirstFreeIsNamed(prior, row, base);
      if sanitize {
        SanitizedIsClean(InstrAt(fn, loc).name);
      }
    }
  }

  lemma SanitizedIsClean(name: string)
    ensures Cleans(name, Sanitize(name))
  {
    var words, gaps := SanitizeCleans(name);
    hide AreWords, Interleave, Sanitize;
  }

  lemma {:induction false} RowsNamed(fn: IrFunction, offset: nat, regOffset: nat, sanitize: bool, b: nat, i: nat)
    requires ValidPlace(fn, b, i)
    ensures NamesFollow(RowsUpTo(fn, offset, regOffset, sanitize, b, i), fn, sanitize)
    decreases b, i
  {
    hide RowsUpTo, NextRow, CodeLine, Before, RowNamed;
    if i > 0 {
      RowsNamed(fn, offset, regOffset, sanitize, b, i - 1);
      RowsStep(fn, offset, regOffset, sanitize, b, i - 1);
      var prior, loc := RowsUpTo(fn, offset, regOffset, sanitize, b, i - 1), Loc(b, i - 1);
      NextRowNamed(prior, fn, offset, regOffset, sanitize, loc);
      var row := NextRow(CodeLine(fn, offset, loc), regOffset, InstrAt(fn, loc), loc, sanitize, prior);
      forall k: nat | k < |prior|
        ensures RowNamed(prior + [row], fn, sanitize, k)
      {
        EarlierRowsNamed(prior, row, fn, sanitize, k);
      }
    } else if b > 0 {
      RowsBlock(fn, offset, regOffset, sanitize, b - 1);
      RowsNamed(fn, offset, regOffset, sanitize, b - 1, |fn[b - 1]|);
    } else {
      RowsEmpty(fn, offset, regOffset, sanitize);
    }
  }

  /** The instructions with a register have different names to begin with. */
  ghost predicate OwnNamesDiffer(fn: IrFunction) {
    forall a: Loc, b: Loc | InFunction(fn, a) && InFunction(fn, b) && a != b ::
      InstrAt(fn, a).width.Some? && InstrAt(fn, b).width.Some? ==> InstrAt(fn, a).name != InstrAt(fn, b).name
  }

  /** Then each register has its instruction's name. */
  lemma {:induction false} OwnNamesKept(rows: seq<RegRow>, fn: IrFunction, k: nat)
    requires OwnNamesDiffer(fn) && NamesFollow(rows, fn, false) && k < |rows| && rows[k].name.Some?
    requires forall row <- rows :: row.name.Some? ==> InFunction(fn, row.loc) && InstrAt(fn, row.loc).width.Some?
    ensures rows[k].name == Some(InstrAt(fn, rows[k].loc).name)
  {
    assert RowNamed(rows, fn, false, k);
    assert rows[k] in rows;
    var own := InstrAt(fn, rows[k].loc).name;
    hide Before;
    forall j: nat | j < k
      ensures rows[j].name != Some(own)
    {
      if rows[j].name.Some? {
        OwnNamesKept(rows, fn, j);
        assert RowNamed(rows, fn, false, j);
        assert rows[j] in rows;
      }
    }
    assert Unused(rows, k, own);
  }

  /**
   For any function: no two registers share a name, each has the name of its instruction, or the clean form of it, as
   far as earlier rows leave it free; register numbers are consecutive from regOffset, and each instruction has its own
   row and line.
   */
  lemma IndexIsSound(fn: IrFunction, offset: nat, regOffset: nat, sanitize: bool)
    ensures var rows := AllRows(fn, offset, regOffset, sanitize);
      && |rows| == Before(fn, |fn|)
      && DistinctNames(rows) && Describes(rows, fn, offset, regOffset) && NamesFollow(rows, fn, sanitize)
      && forall loc: Loc | InFunction(fn, loc) ::
        var j := Before(fn, loc.block) + loc.pos;
        && j < |rows| && rows[j].loc == loc && rows[j].width == InstrAt(fn, loc).width
        && rows[j].codeline == offset + j + 2 * loc.block
  {
    NamesAreDistinct(fn, offset, regOffset, sanitize, |fn|, 0);
    RowsDescribe(fn, offset, regOffset, sanitize, |fn|, 0);
    RowsNamed(fn, offset, regOffset, sanitize, |fn|, 0);
    hide DistinctNames, Describes, NamesFollow;
    forall loc: Loc | InFunction(fn, loc)
      ensures var rows := AllRows(fn, offset, regOffset, sanitize);
        var j := Before(fn, loc.block) + loc.pos;
        && j < |rows| && rows[j].loc == loc && rows[j].width == InstrAt(fn, loc).width
        && rows[j].codeline == offset + j + 2 * loc.block
    {
      RowOfInstr(fn, offset, regOffset, sanitize, |fn|, 0, loc);
    }
    hide RowsUpTo;
  }
}

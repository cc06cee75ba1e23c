/** Dropping options that a command ignores, each with the values that belong to it. */
module FilterArgs {
  import opened Wrappers
  import opened Text

  /** A pattern is recognised by its first word, and only where there are as many words left as it has. */
  predicate Fits(args: seq<string>, pattern: seq<string>) {
    pattern != [] && |pattern| <= |args| && args[0] == pattern[0]
  }

  /** Length of the longest pattern that fits at the head of `args`; 0 if none does. */
  function Longest(args: seq<string>, ignored: seq<seq<string>>): (n: nat)
    ensures n <= |args|
  {
    if ignored == [] then 0
    else
      var front, last := Longest(args, ignored[..|ignored| - 1]), ignored[|ignored| - 1];
      if Fits(args, last) && |last| > front then |last| else front
  }

  /** No fitting pattern is longer, and unless it is 0 there is one. */
  lemma {:induction false} LongestIs(args: seq<string>, ignored: seq<seq<string>>)
    ensures forall p <- ignored :: Fits(args, p) ==> |p| <= Longest(args, ignored)
    ensures Longest(args, ignored) > 0 ==> exists p <- ignored :: Fits(args, p) && |p| == Longest(args, ignored)
  {
    if ignored != [] {
      LongestIs(args, ignored[..|ignored| - 1]);
      hide Fits;
      assert ignored == ignored[..|ignored| - 1] + [ignored[|ignored| - 1]];
    }
  }

  /** Skips the longest pattern that fits; keeps a word at which none does. */
  function Filtered(args: seq<string>, ignored: seq<seq<string>>): seq<string>
    decreases |args|
  {
    if args == [] then []
    else
      var n := Longest(args, ignored);
      if n == 0 then [args[0]] + Filtered(args[1..], ignored) else Filtered(args[n..], ignored)
  }

  lemma LongestNext(args: seq<string>, ignored: seq<seq<string>>, p: seq<string>)
    ensures Longest(args, ignored + [p]) ==
      if Fits(args, p) && |p| > Longest(args, ignored) then |p| else Longest(args, ignored)
  {
    assert (ignored + [p])[..|ignored|] == ignored;
  }

  lemma FilteredNext(args: seq<string>, ignored: seq<seq<string>>)
    requires args != []
    ensures var n := Longest(args, ignored);
      Filtered(args, ignored) ==
        if n == 0 then [args[0]] + Filtered(args[1..], ignored) else Filtered(args[n..], ignored)
  {
  }

  /** What is kept of the first i words, with what will be kept of the rest, is the result. */
  ghost predicate KeptSoFar(args: seq<string>, ignored: seq<seq<string>>, res: seq<string>, i: nat)
    requires i <= |args|
  {
    res + Filtered(args[i..], ignored) == Filtered(args, ignored)
  }

  lemma WordDone(args: seq<string>, ignored: seq<seq<string>>, res: seq<string>, i: nat)
    requires i < |args| && KeptSoFar(args, ignored, res, i)
    ensures var n := Longest(args[i..], ignored);
      if n == 0 then KeptSoFar(args, ignored, res + [args[i]], i + 1) else KeptSoFar(args, ignored, res, i + n)
  {
    hide Filtered, Longest;
    var n, rest := Longest(args[i..], ignored), args[i..];
    FilteredNext(rest, ignored);
    if n == 0 {
      assert rest[1..] == args[i + 1..];
      Regroup(res, [args[i]], Filtered(rest[1..], ignored));
    } else {
      assert rest[n..] == args[i + n..];
    }
  }

  lemma KeptEnds(args: seq<string>, ignored: seq<seq<string>>, res: seq<string>)
    ensures res == [] ==> KeptSoFar(args, ignored, res, 0)
    ensures KeptSoFar(args, ignored, res, |args|) ==> res == Filtered(args, ignored)
  {
    assert args[0..] == args && args[|args|..] == [] && res + [] == res;
    assert Filtered([], ignored) == [];
    assert [] + Filtered(args, ignored) == Filtered(args, ignored);
    hide Filtered;
  }

  /** n is the length of the longest of the first k patterns that fits at word i, and none of them is empty. */
  ghost predicate Best(args: seq<string>, i: nat, ignored: seq<seq<string>>, k: nat, n: nat)
    requires i < |args| && k <= |ignored|
  {
    [] !in ignored[..k] && n == Longest(args[i..], ignored[..k])
  }

  lemma BestEnds(args: seq<string>, i: nat, ignored: seq<seq<string>>, n: nat)
    requires i < |args|
    ensures Best(args, i, ignored, 0, 0)
    ensures Best(args, i, ignored, |ignored|, n) ==> [] !in ignored && n == Longest(args[i..], ignored)
  {
    assert ignored[..0] == [] && ignored[..|ignored|] == ignored;
    assert Longest(args[i..], []) == 0;
    hide Longest;
  }

  /** One pattern more has been compared with the word. */
  lemma BestNext(args: seq<string>, i: nat, ignored: seq<seq<string>>, k: nat, n: nat)
    requires i < |args| && k < |ignored| && ignored[k] != [] && Best(args, i, ignored, k, n)
    ensures var p := ignored[k];
      Best(args, i, ignored, k + 1, if args[i] == p[0] && |p| + i <= |args| && |p| > n then |p| else n)
  {
    assert ignored[..k + 1] == ignored[..k] + [ignored[k]];
    LongestNext(args[i..], ignored[..k], ignored[k]);
    hide Longest;
  }

  /** The nested loops; None where the first word meets an empty pattern, which has no first word (IndexError). */
  method Filter(args: seq<string>, ignoredArgs: seq<seq<string>>) returns (r: Option<seq<string>>)
    ensures r == if args != [] && [] in ignoredArgs then None else Some(Filtered(args, ignoredArgs))
  {
    var res: seq<string> := [];
    var longestPattern: nat := 0;
    hide *;
    KeptEnds(args, ignoredArgs, res);
    for argI := 0 to |args|
      invariant argI + longestPattern <= |args|
      invariant if argI == 0 then longestPattern == 0 else [] !in ignoredArgs
      invariant KeptSoFar(args, ignoredArgs, res, argI + longestPattern)
    {
      hide *;
      if longestPattern != 0 {
        longestPattern := longestPattern - 1;
        continue;
      }
      var a := args[argI];
      BestEnds(args, argI, ignoredArgs, 0);
      for k := 0 to |ignoredArgs|
        invariant Best(args, argI, ignoredArgs, k, longestPattern)
      {
        hide *;
        var ignorePattern := ignoredArgs[k];
        if ignorePattern == [] {
          return None;
        }
        BestNext(args, argI, ignoredArgs, k, longestPattern);
        var prnLen := |ignorePattern|;
        if a == ignorePattern[0] && prnLen + argI <= |args| {
          longestPattern := if longestPattern >= prnLen then longestPattern else prnLen;
        }
      }
      BestEnds(args, argI, ignoredArgs, longestPattern);
      WordDone(args, ignoredArgs, res, argI);
      if longestPattern == 0 {
        res := res + [a];
      } else {
        longestPattern := longestPattern - 1;
      }
    }
    KeptEnds(args, ignoredArgs, res);
    return Some(res);
  }

  /** Some words of `b`, in the order of `b`. */
  predicate Subsequence(a: seq<string>, b: seq<string>)
    decreases |b|
  {
    a == [] || (b != [] && ((a[0] == b[0] && Subsequence(a[1..], b[1..])) || Subsequence(a, b[1..])))
  }

  lemma {:induction false} SubsequenceBehind(a: seq<string>, b: seq<string>, n: nat)
    requires n <= |b| && Subsequence(a, b[n..])
    ensures Subsequence(a, b)
    decreases n
  {
    if n == 0 {
      assert b[0..] == b;
    } else {
      assert b[1..][n - 1..] == b[n..];
      SubsequenceBehind(a, b[1..], n - 1);
    }
  }

  /** The result holds only words of the input, in their order. */
  lemma {:induction false} FilteredIsSubsequence(args: seq<string>, ignored: seq<seq<string>>)
    ensures Subsequence(Filtered(args, ignored), args)
    decreases |args|
  {
    if args != [] {
      var n := Longest(args, ignored);
      FilteredNext(args, ignored);
      hide Longest, Filtered;
      if n == 0 {
        FilteredIsSubsequence(args[1..], ignored);
        var rest := Filtered(args[1..], ignored);
        assert ([args[0]] + rest)[1..] == rest;
      } else {
        FilteredIsSubsequence(args[n..], ignored);
        SubsequenceBehind(Filtered(args[n..], ignored), args, n);
      }
    }
  }

  lemma {:induction false} FilteredIsShorter(args: seq<string>, ignored: seq<seq<string>>)
    ensures |Filtered(args, ignored)| <= |args|
    decreases |args|
  {
    if args != [] {
      var n := Longest(args, ignored);
      FilteredIsShorter(if n == 0 then args[1..] else args[n..], ignored);
      hide Longest;
    }
  }

  /** What fits at a word with fewer words behind it fits there with more. */
  lemma FitsMore(args: seq<string>, fewer: seq<string>, ignored: seq<seq<string>>)
    requires args != [] && fewer != [] && args[0] == fewer[0] && |fewer| <= |args| && Longest(args, ignored) == 0
    ensures Longest(fewer, ignored) == 0
  {
    LongestIs(args, ignored);
    LongestIs(fewer, ignored);
    hide Longest;
    assert forall p <- ignored :: Fits(fewer, p) ==> Fits(args, p);
  }

  /** Filtering a second time changes nothing. */
  lemma {:induction false} FilteredTwice(args: seq<string>, ignored: seq<seq<string>>)
    ensures Filtered(Filtered(args, ignored), ignored) == Filtered(args, ignored)
    decreases |args|
  {
    if args != [] {
      var n := Longest(args, ignored);
      FilteredNext(args, ignored);
      hide Longest, Filtered;
      if n == 0 {
        FilteredTwice(args[1..], ignored);
        FilteredIsShorter(args[1..], ignored);
        var rest := Filtered(args[1..], ignored);
        var kept := [args[0]] + rest;
        assert kept[1..] == rest;
        FitsMore(args, kept, ignored);
        FilteredNext(kept, ignored);
      } else {
        FilteredTwice(args[n..], ignored);
      }
    }
  }

  predicate SameHead(p: seq<string>, q: seq<string>) {
    |p| == |q| && (p != [] ==> p[0] == q[0])
  }

  predicate SameHeads(ignored: seq<seq<string>>, ignored': seq<seq<string>>) {
    |ignored| == |ignored'| && forall k: nat | k < |ignored| :: SameHead(ignored[k], ignored'[k])
  }

  lemma {:induction false} HeadsDecideLongest(args: seq<string>, ignored: seq<seq<string>>, ignored': seq<seq<string>>)
    requires SameHeads(ignored, ignored')
    ensures Longest(args, ignored) == Longest(args, ignored')
  {
    if ignored != [] {
      HeadsDecideLongest(args, ignored[..|ignored| - 1], ignored'[..|ignored'| - 1]);
      assert SameHead(ignored[|ignored| - 1], ignored'[|ignored'| - 1]);
    }
  }

  /** Words behind the first of a pattern are not compared: only its first word and its length count. */
  lemma {:induction false} OnlyHeadsCount(args: seq<string>, ignored: seq<seq<string>>, ignored': seq<seq<string>>)
    requires SameHeads(ignored, ignored')
    ensures Filtered(args, ignored) == Filtered(args, ignored')
    decreases |args|
  {
    if args != [] {
      HeadsDecideLongest(args, ignored, ignored');
      var n := Longest(args, ignored);
      FilteredNext(args, ignored);
      FilteredNext(args, ignored');
      hide Longest, Filtered, SameHeads;
      OnlyHeadsCount(if n == 0 then args[1..] else args[n..], ignored, ignored');
    }
  }

  // ---- against dropping whole patterns only ----

  predicate Occurs(args: seq<string>, pattern: seq<string>) {
    pattern != [] && pattern <= args
  }

  /** Length of the longest pattern that `args` begins with, word for word; 0 if there is none. */
  function WholeLongest(args: seq<string>, ignored: seq<seq<string>>): (n: nat)
    ensures n <= |args|
  {
    if ignored == [] then 0
    else
      var front, last := WholeLongest(args, ignored[..|ignored| - 1]), ignored[|ignored| - 1];
      if Occurs(args, last) && |last| > front then |last| else front
  }

  lemma {:induction false} WholeLongestIs(args: seq<string>, ignored: seq<seq<string>>)
    ensures forall p <- ignored :: Occurs(args, p) ==> |p| <= WholeLongest(args, ignored)
    ensures WholeLongest(args, ignored) > 0 ==>
      exists p <- ignored :: Occurs(args, p) && |p| == WholeLongest(args, ignored)
  {
    if ignored != [] {
      WholeLongestIs(args, ignored[..|ignored| - 1]);
      hide Occurs;
      assert ignored == ignored[..|ignored| - 1] + [ignored[|ignored| - 1]];
    }
  }

  /** No pattern that is recognised by its first word alone is longer than every pattern that occurs. */
  predicate NoHalfMatch(args: seq<string>, ignored: seq<seq<string>>) {
    forall p <- ignored :: Fits(args, p) && !(p <= args) ==> |p| <= WholeLongest(args, ignored)
  }

  /** At one word the code skips a whole pattern, or nothing, exactly under that condition. */
  lemma LongestIsWholeIff(args: seq<string>, ignored: seq<seq<string>>)
    ensures Longest(args, ignored) == WholeLongest(args, ignored) <==> NoHalfMatch(args, ignored)
  {
    LongestIs(args, ignored);
    WholeLongestIs(args, ignored);
    hide Longest, WholeLongest;
    assert forall p <- ignored :: Occurs(args, p) ==> Fits(args, p);
  }

  /** Drops the longest pattern that occurs; keeps a word at which none does. */
  function WholeFiltered(args: seq<string>, ignored: seq<seq<string>>): seq<string>
    decreases |args|
  {
    if args == [] then []
    else
      var n := WholeLongest(args, ignored);
      if n == 0 then [args[0]] + WholeFiltered(args[1..], ignored) else WholeFiltered(args[n..], ignored)
  }

  /** How many words are skipped at each word the code looks at, 0 for one that is kept. */
  function Skips(args: seq<string>, ignored: seq<seq<string>>): seq<nat>
    decreases |args|
  {
    if args == [] then []
    else
      var n := Longest(args, ignored);
      [n] + Skips(args[if n == 0 then 1 else n..], ignored)
  }

  function WholeSkips(args: seq<string>, ignored: seq<seq<string>>): seq<nat>
    decreases |args|
  {
    if args == [] then []
    else
      var n := WholeLongest(args, ignored);
      [n] + WholeSkips(args[if n == 0 then 1 else n..], ignored)
  }

  /** The words that are left when these numbers of words are skipped. */
  function Left(args: seq<string>, skips: seq<nat>): seq<string>
    decreases |skips|
  {
    if skips == [] || args == [] || skips[0] > |args| then []
    else if skips[0] == 0 then [args[0]] + Left(args[1..], skips[1..])
    else Left(args[skips[0]..], skips[1..])
  }

  lemma {:induction false} FilteredIsLeft(args: seq<string>, ignored: seq<seq<string>>)
    ensures Filtered(args, ignored) == Left(args, Skips(args, ignored))
    decreases |args|
  {
    if args != [] {
      var n := Longest(args, ignored);
      var rest := args[if n == 0 then 1 else n..];
      FilteredIsLeft(rest, ignored);
      FilteredNext(args, ignored);
      LeftNext(args, n, Skips(rest, ignored));
      hide Longest, Filtered, Left;
    }
  }

  lemma {:induction false} WholeFilteredIsLeft(args: seq<string>, ignored: seq<seq<string>>)
    ensures WholeFiltered(args, ignored) == Left(args, WholeSkips(args, ignored))
    decreases |args|
  {
    if args != [] {
      var n := WholeLongest(args, ignored);
      var rest := args[if n == 0 then 1 else n..];
      WholeFilteredIsLeft(rest, ignored);
      WholeFilteredNext(args, ignored);
      LeftNext(args, n, WholeSkips(rest, ignored));
      hide WholeLongest, WholeFiltered, Left;
    }
  }

  lemma LeftNext(args: seq<string>, n: nat, skips: seq<nat>)
    requires args != [] && n <= |args|
    ensures Left(args, [n] + skips) == if n == 0 then [args[0]] + Left(args[1..], skips) else Left(args[n..], skips)
  {
    assert ([n] + skips)[1..] == skips;
  }

  /** At none of the words the code looks at is a pattern recognised by its first word alone. */
  predicate NoHalfMatches(args: seq<string>, ignored: seq<seq<string>>)
    decreases |args|
  {
    args == []
    || (NoHalfMatch(args, ignored)
        && var n := Longest(args, ignored); NoHalfMatches(args[if n == 0 then 1 else n..], ignored))
  }

  /**
   The code skips exactly the patterns that occur as a whole if and only if at none of the words it looks at a pattern
   is recognised by its first word alone; it then leaves what dropping whole patterns leaves.
   */
  lemma {:induction false} SkipsWholeIff(args: seq<string>, ignored: seq<seq<string>>)
    ensures Skips(args, ignored) == WholeSkips(args, ignored) <==> NoHalfMatches(args, ignored)
    ensures NoHalfMatches(args, ignored) ==> Filtered(args, ignored) == WholeFiltered(args, ignored)
    decreases |args|
  {
    hide Longest, WholeLongest, NoHalfMatch;
    if args != [] {
      LongestIsWholeIff(args, ignored);
      var n, m := Longest(args, ignored), WholeLongest(args, ignored);
      var rest := args[if n == 0 then 1 else n..];
      SkipsWholeIff(rest, ignored);
      assert Skips(args, ignored)[0] == n && Skips(args, ignored)[1..] == Skips(rest, ignored);
      assert WholeSkips(args, ignored)[0] == m;
      assert n == m ==> WholeSkips(args, ignored)[1..] == WholeSkips(rest, ignored);
    }
  }

  /** An option with another value is dropped as well. */
  lemma OtherValueIsDropped()
    ensures Filtered(["--thread", "2"], [["--thread", "1"]]) == []
    ensures WholeFiltered(["--thread", "2"], [["--thread", "1"]]) == ["--thread", "2"]
  {
    var args, p := ["--thread", "2"], ["--thread", "1"];
    var none: seq<seq<string>> := [];
    assert [p][..0] == none;
    assert Fits(args, p) && Longest(args, [p]) == 2;
    assert args[2..] == [];
    assert args[1] != p[1] && WholeLongest(args, [p]) == 0;
    assert args[1..] == ["2"];
    assert WholeLongest(["2"], [p]) == 0;
    assert ["2"][1..] == [];
  }

  // ---- the patterns the callers give: an option with one value ----

  predicate IsOption(word: string, ignored: seq<seq<string>>) {
    exists p <- ignored :: p != [] && p[0] == word
  }

  /** Each pattern is an option and a value, and no value is itself an option. */
  predicate OptionsWithValues(ignored: seq<seq<string>>) {
    forall p <- ignored :: |p| == 2 && !IsOption(p[1], ignored)
  }

  lemma OptionLengths(args: seq<string>, ignored: seq<seq<string>>)
    requires OptionsWithValues(ignored) && args != []
    ensures Longest(args, ignored) == if |args| >= 2 && IsOption(args[0], ignored) then 2 else 0
    ensures WholeLongest(args, ignored) == if |args| >= 2 && args[..2] in ignored then 2 else 0
  {
    LongestIs(args, ignored);
    WholeLongestIs(args, ignored);
    hide Longest, WholeLongest;
    if |args| >= 2 && IsOption(args[0], ignored) {
      var p :| p in ignored && p != [] && p[0] == args[0];
      assert Fits(args, p);
    }
    if |args| >= 2 && args[..2] in ignored {
      assert Occurs(args, args[..2]);
    }
    assert forall p <- ignored :: Occurs(args, p) ==> p == args[..2];
  }

  /** An option is left only as the last word. */
  lemma {:induction false} OptionsAreLast(args: seq<string>, ignored: seq<seq<string>>, k: nat)
    requires OptionsWithValues(ignored) && k + 1 < |Filtered(args, ignored)|
    ensures !IsOption(Filtered(args, ignored)[k], ignored)
    decreases |args|
  {
    OptionLengths(args, ignored);
    FilteredNext(args, ignored);
    hide Longest, Filtered, IsOption, OptionsWithValues;
    if Longest(args, ignored) != 0 {
      OptionsAreLast(args[2..], ignored, k);
    } else if k > 0 {
      OptionsAreLast(args[1..], ignored, k - 1);
    }
  }

  lemma WholeFilteredNext(args: seq<string>, ignored: seq<seq<string>>)
    requires args != []
    ensures var n := WholeLongest(args, ignored);
      WholeFiltered(args, ignored) ==
        if n == 0 then [args[0]] + WholeFiltered(args[1..], ignored) else WholeFiltered(args[n..], ignored)
  {
  }

  /** Where the code drops an option with another value, it does not leave what dropping whole patterns leaves. */
  lemma HalfMatchShows(args: seq<string>, ignored: seq<seq<string>>)
    requires OptionsWithValues(ignored) && args != []
    requires Longest(args, ignored) == 2 && WholeLongest(args, ignored) == 0
    ensures Filtered(args, ignored) != WholeFiltered(args, ignored)
  {
    var left, behind, rest := Filtered(args, ignored), args[1..], args[2..];
    OptionLengths(args, ignored);
    FilteredNext(args, ignored);
    WholeFilteredNext(args, ignored);
    hide Filtered, WholeFiltered, Longest, WholeLongest;
    if left == WholeFiltered(args, ignored) {
      assert IsOption(left[0], ignored);
      if |left| > 1 {
        OptionsAreLast(args, ignored, 0);
      } else {
        assert WholeFiltered(behind, ignored) == [];
        OptionLengths(behind, ignored);
        WholeFilteredNext(behind, ignored);
        assert behind[..2] in ignored && behind[..2][1] == rest[0];
        OptionLengths(rest, ignored);
        FilteredNext(rest, ignored);
      }
    }
  }

  lemma NoHalfMatchesNext(args: seq<string>, ignored: seq<seq<string>>)
    requires args != []
    ensures var n := Longest(args, ignored);
      NoHalfMatches(args, ignored) <==>
        NoHalfMatch(args, ignored) && NoHalfMatches(args[if n == 0 then 1 else n..], ignored)
  {
  }

  /**
   For patterns of an option and a value, as every caller gives them, what is left is what dropping whole patterns
   leaves exactly under that condition.
   */
  lemma {:induction false} LeavesTheSameIff(args: seq<string>, ignored: seq<seq<string>>)
    requires OptionsWithValues(ignored)
    ensures Filtered(args, ignored) == WholeFiltered(args, ignored) <==> NoHalfMatches(args, ignored)
    decreases |args|
  {
    if args != [] {
      OptionLengths(args, ignored);
      LongestIsWholeIff(args, ignored);
      FilteredNext(args, ignored);
      WholeFilteredNext(args, ignored);
      NoHalfMatchesNext(args, ignored);
      assert |args| >= 2 && args[..2] in ignored ==> IsOption(args[0], ignored);
      hide Longest, WholeLongest, Filtered, WholeFiltered, NoHalfMatches, NoHalfMatch, IsOption, OptionsWithValues;
      var n, m := Longest(args, ignored), WholeLongest(args, ignored);
      var rest := args[if n == 0 then 1 else n..];
      if n == m {
        LeavesTheSameIff(rest, ignored);
        SamePrefix(args[0], Filtered(rest, ignored), WholeFiltered(rest, ignored));
      } else {
        assert n == 2 && m == 0;
        HalfMatchShows(args, ignored);
      }
    }
  }

  lemma SamePrefix(word: string, a: seq<string>, b: seq<string>)
    ensures [word] + a == [word] + b <==> a == b
  {
    assert ([word] + a)[1..] == a && ([word] + b)[1..] == b;
  }
}

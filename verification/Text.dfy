/** Cutting text at separators and putting it together again, as `str.split` and `str.join` do. */
module Text {
  lemma Regroup<T>(a: seq<T>, b: seq<T>, c: seq<T>)
    ensures (a + b) + c == a + (b + c)
  {
  }

  /** Position of the first `c` in `s`, or the length of `s`. */
  function IndexOf(s: string, c: char): (i: nat)
    ensures i <= |s| && c !in s[..i]
    ensures i < |s| ==> s[i] == c
  {
    if s == "" || s[0] == c then 0 else 1 + IndexOf(s[1..], c)
  }

  lemma {:induction false} IndexOfFirst(s: string, c: char, i: nat)
    requires i < |s| && s[i] == c && forall j: nat :: j < i ==> s[j] != c
    ensures IndexOf(s, c) == i
  {
    if i > 0 {
      IndexOfFirst(s[1..], c, i - 1);
    }
  }

  lemma {:induction false} IndexOfAtMost(s: string, c: char, i: nat)
    requires i < |s| && s[i] == c
    ensures IndexOf(s, c) <= i
  {
    if i > 0 && s[0] != c {
      IndexOfAtMost(s[1..], c, i - 1);
    }
  }

  lemma {:induction false} IndexOfNone(s: string, c: char)
    requires forall j: nat :: j < |s| ==> s[j] != c
    ensures IndexOf(s, c) == |s|
  {
    if s != "" {
      IndexOfNone(s[1..], c);
    }
  }

  /** Splits at every `sep`, like `str.split`: always at least one piece. */
  function Split(s: string, sep: char): (pieces: seq<string>)
    ensures pieces != []
    decreases |s|
  {
    var i := IndexOf(s, sep);
    if i == |s| then [s] else [s[..i]] + Split(s[i + 1..], sep)
  }

  /** The pieces before and behind the first separator. */
  lemma SplitFirst(s: string, sep: char, first: string, rest: string)
    requires s == first + [sep] + rest && sep !in first
    ensures Split(s, sep) == [first] + Split(rest, sep)
  {
    IndexOfFirst(s, sep, |first|);
    hide IndexOf;
    assert s[..|first|] == first && s[|first| + 1..] == rest;
  }

  lemma SplitNone(s: string, sep: char)
    requires sep !in s
    ensures Split(s, sep) == [s]
  {
    IndexOfNone(s, sep);
  }

  /** `sep.join(pieces)`. */
  function Join(pieces: seq<string>, sep: char): string {
    if pieces == [] then ""
    else if |pieces| == 1 then pieces[0]
    else pieces[0] + [sep] + Join(pieces[1..], sep)
  }

  predicate Without(pieces: seq<string>, sep: char) {
    forall piece <- pieces :: sep !in piece
  }

  /** Splitting loses nothing, and no piece holds the separator. */
  lemma {:induction false} JoinOfSplit(s: string, sep: char)
    ensures Join(Split(s, sep), sep) == s && Without(Split(s, sep), sep)
    decreases |s|
  {
    hide IndexOf, Split, Join;
    var i := IndexOf(s, sep);
    if i < |s| {
      var first, rest := s[..i], s[i + 1..];
      CutAt(s, i);
      SplitFirst(s, sep, first, rest);
      JoinOfSplit(rest, sep);
      JoinNext(first, Split(rest, sep), sep);
      assert sep !in first;
    } else {
      assert s[..i] == s;
      SplitNone(s, sep);
      JoinOne(s, sep);
    }
  }

  lemma CutAt(s: string, i: nat)
    requires i < |s|
    ensures s == s[..i] + [s[i]] + s[i + 1..]
  {
  }

  lemma JoinOne(s: string, sep: char)
    ensures Join([s], sep) == s
  {
  }

  lemma JoinNext(first: string, pieces: seq<string>, sep: char)
    requires pieces != []
    ensures Join([first] + pieces, sep) == first + [sep] + Join(pieces, sep)
  {
    assert ([first] + pieces)[1..] == pieces;
  }

  /** Joined pieces are split where they were joined. */
  lemma {:induction false} SplitOfJoin(pieces: seq<string>, sep: char)
    requires pieces != [] && Without(pieces, sep)
    ensures Split(Join(pieces, sep), sep) == pieces
  {
    hide Split;
    assert pieces[0] in pieces;
    if |pieces| == 1 {
      SplitNone(pieces[0], sep);
    } else {
      SplitOfJoin(pieces[1..], sep);
      SplitFirst(Join(pieces, sep), sep, pieces[0], Join(pieces[1..], sep));
    }
  }
}

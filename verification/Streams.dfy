/** The stream of acknowledgements and packets that one end writes and the other end takes apart. */
module Streams {
  import opened Wrappers
  import opened Digits
  import opened RemoteMessages

  datatype Item = Ack | Pkt(payload: string)

  /** How a pass over received text ends: all used, the rest ignored, or an exception. */
  datatype End = Drained | Ignored | Raised

  datatype Scanned = Scanned(items: seq<Item>, end: End)

  function PrintItem(item: Item): string {
    match item
    case Ack => "+"
    case Pkt(payload) => PacketReply(payload)
  }

  function PrintItems(items: seq<Item>): string {
    if items == [] then "" else PrintItem(items[0]) + PrintItems(items[1..])
  }

  /** No payload holds the end-of-payload mark. */
  predicate Framed(items: seq<Item>) {
    forall item <- items :: item.Pkt? ==> '#' !in item.payload
  }

  /** What the receiver takes from one piece of received text, in order. */
  function Scan(text: string): Scanned {
    if text == "" then Scanned([], Drained)
    else if text[0] == '+' then
      var rest := Scan(text[1..]);
      Scanned([Ack] + rest.items, rest.end)
    else match ParserReply(text)
      case NoFrame => Scanned([], Ignored)
      case BadFrame => Scanned([], Raised)
      case Frame(payload, length) =>
        var rest := Scan(text[length..]);
        Scanned([Pkt(payload)] + rest.items, rest.end)
  }

  lemma ScanFirst(item: Item, text: string)
    requires Framed([item])
    ensures Scan(PrintItem(item) + text) == Scanned([item] + Scan(text).items, Scan(text).end)
  {
    var all := PrintItem(item) + text;
    assert all[|PrintItem(item)|..] == text;
    match item {
      case Ack =>
      case Pkt(payload) =>
        assert item in [item];
        FrameRoundTrip(payload, text);
    }
  }

  /** Exactly the printed items are taken, in order, and the text behind them is taken as if it came alone. */
  lemma {:induction false} ScanOfPrint(items: seq<Item>, text: string)
    requires Framed(items)
    ensures Scan(PrintItems(items) + text) == Scanned(items + Scan(text).items, Scan(text).end)
  {
    hide Scan, PrintItem;
    if items == [] {
      assert PrintItems(items) + text == text;
      assert items + Scan(text).items == Scan(text).items;
    } else {
      var first, rest := items[0], items[1..];
      ScanOfPrint(rest, text);
      ScanFirst(first, PrintItems(rest) + text);
      assert PrintItems(items) + text == PrintItem(first) + (PrintItems(rest) + text);
      assert items + Scan(text).items == [first] + (rest + Scan(text).items);
    }
  }

  lemma {:induction false} PrintAppend(items: seq<Item>, more: seq<Item>)
    ensures PrintItems(items + more) == PrintItems(items) + PrintItems(more)
  {
    if items == [] {
      assert items + more == more;
    } else {
      assert (items + more)[1..] == items[1..] + more;
      PrintAppend(items[1..], more);
    }
  }

  /** k is the length of the text of some first few items. */
  predicate Boundary(items: seq<Item>, k: nat) {
    exists n: nat :: n <= |items| && k == |PrintItems(items[..n])|
  }

  lemma ScanWhole(items: seq<Item>)
    requires Framed(items)
    ensures Scan(PrintItems(items)) == Scanned(items, Drained)
  {
    ScanOfPrint(items, "");
    assert PrintItems(items) + "" == PrintItems(items);
    assert items + Scan("").items == items;
  }

  lemma CutAtBoundary(items: seq<Item>, k: nat)
    requires Framed(items) && k <= |PrintItems(items)| && Boundary(items, k)
    ensures var s := PrintItems(items);
      exists n: nat :: n <= |items|
        && Scan(s[..k]) == Scanned(items[..n], Drained) && Scan(s[k..]) == Scanned(items[n..], Drained)
  {
    hide Scan, PrintItems;
    var s := PrintItems(items);
    var n: nat :| n <= |items| && k == |PrintItems(items[..n])|;
    PrintAppend(items[..n], items[n..]);
    assert items[..n] + items[n..] == items;
    assert s[..k] == PrintItems(items[..n]) && s[k..] == PrintItems(items[n..]);
    ScanWhole(items[..n]);
    ScanWhole(items[n..]);
  }

  lemma BoundaryShift(items: seq<Item>, k: nat)
    requires items != [] && |PrintItem(items[0])| <= k
    requires Boundary(items[1..], k - |PrintItem(items[0])|)
    ensures Boundary(items, k)
  {
    var n: nat :| n <= |items| - 1 && k - |PrintItem(items[0])| == |PrintItems(items[1..][..n])|;
    assert items[..n + 1][1..] == items[1..][..n];
    assert k == |PrintItems(items[..n + 1])|;
  }

  lemma ScanCutFrame(payload: string, k: nat)
    requires '#' !in payload && 0 < k < |payload| + 4
    ensures Scan(PacketReply(payload)[..k]).items == []
  {
    CutFrameIsNoFrame(payload, k);
    assert PacketReply(payload)[..k][0] == '$';
    hide PacketReply, ParserReply;
  }

  lemma ScanFrameTail(payload: string, k: nat, rest: string)
    requires '#' !in payload && 0 < k < |payload| + 4
    ensures var got := Scan(PacketReply(payload)[k..] + rest).items; got == [] || got[0] != Pkt(payload)
  {
    FrameTailIsOther(payload, k, rest);
    hide PacketReply, ParserReply;
  }

  lemma CutInsideFirst(items: seq<Item>, k: nat)
    requires Framed(items) && items != [] && 0 < k < |PrintItem(items[0])|
    ensures var s := PrintItems(items);
      k <= |s| && Scan(s[..k]).items == []
      && (Scan(s[k..]).items == [] || Scan(s[k..]).items[0] != items[0])
  {
    hide PacketReply, Scan;
    assert items[0] in items;
    var s, payload := PrintItems(items), items[0].payload;
    var frame, rest := PacketReply(payload), PrintItems(items[1..]);
    ScanCutFrame(payload, k);
    ScanFrameTail(payload, k, rest);
    assert s[..k] == frame[..k];
    assert s[k..] == frame[k..] + rest;
  }

  /**
   Neither end puts a frame together from two pieces: if the text of some items arrives in two pieces, the receiver
   gets the same items exactly when the cut falls between two items.
   */
  lemma CutKeepsItemsIff(items: seq<Item>, k: nat)
    requires Framed(items) && k <= |PrintItems(items)|
    ensures var s := PrintItems(items);
      Scan(s[..k]).items + Scan(s[k..]).items == items <==> Boundary(items, k)
  {
    hide Scan, PrintItems, Boundary;
    var s := PrintItems(items);
    if Boundary(items, k) {
      CutAtBoundary(items, k);
      var n: nat :| n <= |items|
        && Scan(s[..k]) == Scanned(items[..n], Drained) && Scan(s[k..]) == Scanned(items[n..], Drained);
      assert items[..n] + items[n..] == items;
    } else {
      CutOffBoundary(items, k);
    }
  }

  lemma {:induction false} CutOffBoundary(items: seq<Item>, k: nat)
    requires Framed(items) && k <= |PrintItems(items)| && !Boundary(items, k)
    ensures var s := PrintItems(items); Scan(s[..k]).items + Scan(s[k..]).items != items
  {
    hide Scan, ParserReply, PrintItem;
    var s := PrintItems(items);
    assert |PrintItems(items[..0])| == 0;
    if k > 0 {
      var first, rest := items[0], items[1..];
      var length := |PrintItem(first)|;
      if k < length {
        CutInsideFirst(items, k);
      } else {
        var t := PrintItems(rest);
        if Boundary(rest, k - length) { BoundaryShift(items, k); }
        CutOffBoundary(rest, k - length);
        assert s[..k] == PrintItem(first) + t[..k - length];
        assert s[k..] == t[k - length..];
        assert Framed([first]);
        ScanFirst(first, t[..k - length]);
        var a, b := Scan(t[..k - length]).items, Scan(s[k..]).items;
        assert Scan(s[..k]).items == [first] + a;
        assert ([first] + a + b)[1..] == a + b;
      }
    }
  }

  /** What ends a pass: text behind whole items that is no frame is dropped, and a frame with a wrong sum raises. */
  lemma ScanStops(items: seq<Item>, payload: string, sum: string, rest: string)
    requires Framed(items) && '#' !in payload && |sum| == 2 && IsAlnum(sum[0]) && IsAlnum(sum[1])
    requires ParseInt(sum, 16) != Some(Checksum(payload))
    ensures Scan(PrintItems(items) + ("$" + payload + "#" + sum + rest)) == Scanned(items, Raised)
    ensures rest != "" && rest[0] != '$' && rest[0] != '+' ==> Scan(PrintItems(items) + rest) == Scanned(items, Ignored)
  {
    var bad := "$" + payload + "#" + sum + rest;
    FrameAcceptedIff(payload, sum, rest);
    ScanOfPrint(items, bad);
    ScanOfPrint(items, rest);
    hide ParserReply, ParseInt, Checksum, IsAlnum, PrintItems;
    assert Scan(bad) == Scanned([], Raised);
    if rest != "" && rest[0] != '$' && rest[0] != '+' {
      GarbageIsNoFrame(rest);
      assert Scan(rest) == Scanned([], Ignored);
    }
    hide Scan;
    assert items + [] == items;
  }
}

/**
 Frames of the GDB Remote Serial Protocol ("Overview" and "Packet Acknowledgment"): `$payload#cc`, where `cc` is the
 sum of the payload's character codes modulo 256 in two hexadecimal digits, and the acknowledgement `+`.
 Text is text, not bytes: both ends decode ASCII.
 */
module RemoteMessages {
  import opened Wrappers
  import opened Digits
  import opened Text

  /** What a receiver finds at the head of its input. */
  datatype Parsed =
    | NoFrame                                // the regular expression does not match
    | BadFrame                               // ValueError or AssertionError: the session ends
    | Frame(payload: string, length: nat)    // a frame of that many characters

  function CodeSum(text: string): nat {
    if text == "" then 0 else CodeSum(text[..|text| - 1]) + text[|text| - 1] as nat
  }

  function Checksum(text: string): nat {
    CodeSum(text) % 256
  }

  /** The accumulating loop: the running sum is cut to eight bits after every character. */
  method ComputeChecksum(packet: string) returns (checksum: nat)
    ensures checksum == Checksum(packet)
  {
    checksum := 0;
    for i := 0 to |packet|
      invariant checksum == Checksum(packet[..i])
    {
      checksum := checksum + packet[i] as nat;
      checksum := checksum % 256;
      assert packet[..i + 1][..i] == packet[..i];
    }
    assert packet[..|packet|] == packet;
  }

  /** `{n:02x}` for a number below 256. */
  function Hex2(n: nat): (s: string)
    requires n < 256
    ensures |s| == 2 && IsLowerHex(s[0]) && IsLowerHex(s[1])
    ensures ParseInt(s, 16) == Some(n)
  {
    var s := [Digit(n / 16), Digit(n % 16)];
    assert ParseInt(s, 16) == Some(n) by {
      ValueOfAppend("", 0, n / 16, 16);
      assert "" + [Digit(n / 16)] == [Digit(n / 16)];
      ValueOfAppend([Digit(n / 16)], n / 16, n % 16, 16);
      assert [Digit(n / 16)] + [Digit(n % 16)] == s;
    }
    s
  }

  function PacketReply(payload: string): (frame: string)
    ensures |frame| == |payload| + 4
  {
    "$" + payload + "#" + Hex2(Checksum(payload))
  }

  function ParserReply(text: string): (r: Parsed)
    ensures r.Frame? ==> 0 < r.length <= |text|
  {
    if text == "" || text[0] != '$' then NoFrame
    else
      var end := 1 + IndexOf(text[1..], '#');
      if |text| < end + 3 || !IsAlnum(text[end + 1]) || !IsAlnum(text[end + 2]) then NoFrame
      else
        var payload := text[1..end];
        var sum := ParseInt(text[end + 1..end + 3], 16);
        if sum == Some(Checksum(payload)) then Frame(payload, end + 3) else BadFrame
  }

  /** A frame without `#` in its payload is read back whatever follows it. */
  lemma FrameRoundTrip(payload: string, rest: string)
    requires '#' !in payload
    ensures ParserReply(PacketReply(payload) + rest) == Frame(payload, |payload| + 4)
  {
    var text := PacketReply(payload) + rest;
    var end := |payload| + 1;
    assert forall j: nat :: j < |payload| ==> text[1..][j] == payload[j];
    IndexOfFirst(text[1..], '#', |payload|);
    assert text[1..end] == payload;
    assert text[end + 1..end + 3] == Hex2(Checksum(payload));
  }

  /**
   The source escapes nothing (its translation table has string keys), so a payload survives framing exactly when it
   holds no `#`.
   */
  lemma FrameRoundTripIff(payload: string, rest: string)
    ensures ParserReply(PacketReply(payload) + rest) == Frame(payload, |payload| + 4) <==> '#' !in payload
  {
    if '#' !in payload {
      FrameRoundTrip(payload, rest);
    } else {
      var text := PacketReply(payload) + rest;
      var i :| 0 <= i < |payload| && payload[i] == '#';
      assert text[1..][i] == '#';
      IndexOfAtMost(text[1..], '#', i);
    }
  }

  /** A frame cut short anywhere is not recognised, so what has arrived of it is dropped. */
  lemma CutFrameIsNoFrame(payload: string, k: nat)
    requires '#' !in payload && k < |payload| + 4
    ensures ParserReply(PacketReply(payload)[..k]) == NoFrame
  {
    var text := PacketReply(payload)[..k];
    if k > |payload| + 1 {
      IndexOfFirst(text[1..], '#', |payload|);
    } else if k > 0 {
      assert forall j: nat :: j < k - 1 ==> text[1..][j] == payload[j];
      IndexOfNone(text[1..], '#');
    }
  }

  /** The tail of a frame that was cut never reads as the frame it was cut from. */
  lemma FrameTailIsOther(payload: string, k: nat, rest: string)
    requires '#' !in payload && 0 < k < |payload| + 4
    ensures var r := ParserReply(PacketReply(payload)[k..] + rest); r.Frame? ==> r.payload != payload
  {
    var frame := PacketReply(payload);
    var text := frame[k..] + rest;
    if text[0] == '$' {
      assert text[0] == frame[k];
      assert k <= |payload|;
      var i := |payload| - k;
      assert text[1..][i] == frame[|payload| + 1] == '#';
      assert forall j: nat :: j < i ==> text[1..][j] == payload[k + j];
      IndexOfFirst(text[1..], '#', i);
    }
  }

  /** Of all sums a frame may carry only its payload's is accepted; letters that are no number end the session too. */
  lemma FrameAcceptedIff(payload: string, sum: string, rest: string)
    requires '#' !in payload && |sum| == 2 && IsAlnum(sum[0]) && IsAlnum(sum[1])
    ensures ParserReply("$" + payload + "#" + sum + rest) ==
      if ParseInt(sum, 16) == Some(Checksum(payload)) then Frame(payload, |payload| + 4) else BadFrame
  {
    hide ParseInt, Checksum, IsAlnum;
    var text := "$" + payload + "#" + sum + rest;
    var end := |payload| + 1;
    assert forall j: nat :: j < |payload| ==> text[1..][j] == payload[j];
    IndexOfFirst(text[1..], '#', |payload|);
    assert text[1..end] == payload && text[end + 1..end + 3] == sum;
  }

  /** Text that begins with anything but a dollar sign is no frame. */
  lemma GarbageIsNoFrame(text: string)
    requires text == "" || text[0] != '$'
    ensures ParserReply(text) == NoFrame
  {
  }

  // ---- what the checksum is, apart from any code that computes it ----

  lemma {:induction false} CodeSumAppend(a: string, b: string)
    ensures CodeSum(a + b) == CodeSum(a) + CodeSum(b)
    decreases |b|
  {
    if b == "" {
      assert a + b == a;
    } else {
      var front := b[..|b| - 1];
      assert (a + b)[..|a| + |b| - 1] == a + front;
      CodeSumAppend(a, front);
    }
  }

  /** The checksum of one character is its code modulo 256, and checksums add up modulo 256. */
  lemma ChecksumLaws(c: char, a: string, b: string)
    ensures Checksum("") == 0 && Checksum([c]) == c as nat % 256
    ensures Checksum(a + b) == (Checksum(a) + Checksum(b)) % 256
  {
    CodeSumAppend(a, b);
    CodeSumOfOne(c);
    hide CodeSum;
    SumModulo(CodeSum(a), CodeSum(b));
  }

  lemma SumModulo(x: nat, y: nat)
    ensures (x + y) % 256 == (x % 256 + y % 256) % 256
  {
  }

  lemma CodeSumOfOne(c: char)
    ensures CodeSum([c]) == c as nat && CodeSum("") == 0
  {
    assert [c][..0] == "";
  }

  lemma CodeSumOfTwo(a: char, b: char)
    ensures CodeSum([a, b]) == a as nat + b as nat
  {
    CodeSumOfOne(a);
    CodeSumOfOne(b);
    CodeSumAppend([a], [b]);
    hide CodeSum;
    assert [a] + [b] == [a, b];
  }

  lemma CodeSumOfThree(a: char, b: char, c: char)
    ensures CodeSum([a, b, c]) == a as nat + b as nat + c as nat
  {
    CodeSumOfTwo(a, b);
    CodeSumOfOne(c);
    CodeSumAppend([a, b], [c]);
    hide CodeSum;
    assert [a, b] + [c] == [a, b, c];
  }

  lemma CodeSumOfFour(a: char, b: char, c: char, d: char)
    ensures CodeSum([a, b, c, d]) == a as nat + b as nat + c as nat + d as nat
  {
    CodeSumOfTwo(a, b);
    CodeSumOfTwo(c, d);
    CodeSumAppend([a, b], [c, d]);
    hide CodeSum;
    assert [a, b] + [c, d] == [a, b, c, d];
  }

  lemma FourPieces(a: string, b: string, c: string, d: string)
    ensures CodeSum(a + (b + (c + d))) == CodeSum(a) + CodeSum(b) + CodeSum(c) + CodeSum(d)
  {
    CodeSumAppend(c, d);
    CodeSumAppend(b, c + d);
    CodeSumAppend(a, b + (c + d));
    hide CodeSum;
  }

  lemma FrameText(payload: string, high: nat, low: nat)
    requires high < 16 && low < 16 && CodeSum(payload) % 256 == 16 * high + low
    ensures PacketReply(payload) == "$" + payload + "#" + [DIGITS[high], DIGITS[low]]
  {
    hide CodeSum, Hex2, ParseInt, IsLowerHex;
    Hex2Text(high, low);
  }

  lemma Hex2Text(high: nat, low: nat)
    requires high < 16 && low < 16
    ensures 16 * high + low < 256 && Hex2(16 * high + low) == [DIGITS[high], DIGITS[low]]
  {
    hide ParseInt, IsLowerHex, DigitValue, IsDecimal;
    var n := 16 * high + low;
    assert n / 16 == high && n % 16 == low;
  }

  /** The frames of replies, down to the last character. */
  lemma ReplyFrames()
    ensures PacketReply("OK") == "$" + "OK" + "#9a" && PacketReply("") == "$" + "" + "#00"
    ensures PacketReply("E01") == "$" + "E01" + "#a6"
  {
    hide PacketReply;
    CodeSumOfTwo('O', 'K');
    FrameText("OK", 9, 10);
    CodeSumOfOne('O');
    FrameText("", 0, 0);
    CodeSumOfThree('E', '0', '1');
    FrameText("E01", 10, 6);
    hide CodeSum;
  }

  /** The frames of stop packets. */
  lemma StopFrames()
    ensures PacketReply("S05") == "$" + "S05" + "#b8" && PacketReply("S02") == "$" + "S02" + "#b5"
    ensures PacketReply("S09") == "$" + "S09" + "#bc"
  {
    hide PacketReply, CodeSum;
    CodeSumOfThree('S', '0', '5');
    FrameText("S05", 11, 8);
    CodeSumOfThree('S', '0', '2');
    FrameText("S02", 11, 5);
    CodeSumOfThree('S', '0', '9');
    FrameText("S09", 11, 12);
  }

  /** The frames of the handshake, as the client's transcript of it has them. */
  lemma HandshakeFrames()
    ensures PacketReply("vMustReplyEmpty") == "$" + "vMustReplyEmpty" + "#3a"
    ensures PacketReply("QStartNoAckMode") == "$" + "QStartNoAckMode" + "#b0"
  {
    hide PacketReply, CodeSum;
    CodeSumOfFour('v', 'M', 'u', 's');
    CodeSumOfFour('t', 'R', 'e', 'p');
    CodeSumOfFour('l', 'y', 'E', 'm');
    CodeSumOfThree('p', 't', 'y');
    FourPieces("vMus", "tRep", "lyEm", "pty");
    assert "vMus" + ("tRep" + ("lyEm" + "pty")) == "vMustReplyEmpty";
    FrameText("vMustReplyEmpty", 3, 10);
    NoAckFrame();
  }

  lemma NoAckFrame()
    ensures PacketReply("QStartNoAckMode") == "$" + "QStartNoAckMode" + "#b0"
  {
    hide PacketReply, CodeSum;
    CodeSumOfFour('Q', 'S', 't', 'a');
    CodeSumOfFour('r', 't', 'N', 'o');
    CodeSumOfFour('A', 'c', 'k', 'M');
    CodeSumOfThree('o', 'd', 'e');
    FourPieces("QSta", "rtNo", "AckM", "ode");
    assert "QSta" + ("rtNo" + ("AckM" + "ode")) == "QStartNoAckMode";
    FrameText("QStartNoAckMode", 11, 0);
  }
}

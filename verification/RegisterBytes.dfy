/**
 Register values on the wire: `int.to_bytes(n, 'little')`, `hexlify`, `unhexlify` and `int.from_bytes(b, 'little')`,
 with the value taken from a simulation constant as `val & vld_mask`.
 */
module RegisterBytes {
  import opened Wrappers
  import opened Digits
  import opened RemoteMessages

  type Byte = b: int | 0 <= b < 256

  /** A simulation constant: its bits, which of them are known, and its declared width. */
  datatype BitsValue = BitsValue(val: nat, vldMask: nat, width: nat)

  function Pow(base: nat, n: nat): (p: nat)
    ensures base > 0 ==> p > 0
  {
    if n == 0 then 1 else base * Pow(base, n - 1)
  }

  /** `a & b`. */
  function BitAnd(a: nat, b: nat): (r: nat)
    ensures r <= b
    decreases b
  {
    if b == 0 then 0 else (a % 2) * (b % 2) + 2 * BitAnd(a / 2, b / 2)
  }

  /** `ceil(width / 8)`. */
  function ByteSize(width: nat): nat {
    (width + 7) / 8
  }

  /** The low n bytes of v, least significant first. */
  function LittleEndian(v: nat, n: nat): (bytes: seq<Byte>)
    ensures |bytes| == n
  {
    if n == 0 then [] else [v % 256] + LittleEndian(v / 256, n - 1)
  }

  /** `v.to_bytes(n, 'little')`; None stands for OverflowError. */
  function ToBytes(v: nat, n: nat): (r: Option<seq<Byte>>)
    ensures r.Some? ==> |r.value| == n
  {
    if v < Pow(256, n) then Some(LittleEndian(v, n)) else None
  }

  function FromBytes(bytes: seq<Byte>): nat {
    if bytes == [] then 0 else bytes[0] + 256 * FromBytes(bytes[1..])
  }

  function Hexlify(bytes: seq<Byte>): (s: string)
    ensures |s| == 2 * |bytes|
    ensures forall c <- s :: IsLowerHex(c)
  {
    if bytes == [] then "" else Hex2(bytes[0]) + Hexlify(bytes[1..])
  }

  /** `binascii.unhexlify`; None stands for binascii.Error. */
  function Unhexlify(s: string): Option<seq<Byte>> {
    if s == "" then Some([])
    else if |s| == 1 then None
    else
      var high, low, rest := DigitValue(s[0]), DigitValue(s[1]), Unhexlify(s[2..]);
      if high.Some? && low.Some? && high.value < 16 && low.value < 16 && rest.Some?
      then Some([high.value * 16 + low.value] + rest.value)
      else None
  }

  lemma Hex2Digits(b: Byte)
    ensures DigitValue(Hex2(b)[0]) == Some(b / 16) && DigitValue(Hex2(b)[1]) == Some(b % 16)
  {
    hide ParseInt;
  }

  lemma UnhexPair(b: Byte, rest: string)
    ensures Unhexlify(Hex2(b) + rest) ==
      if Unhexlify(rest) == None then None else Some([b] + Unhexlify(rest).value)
  {
    Hex2Digits(b);
    hide Hex2, DigitValue, ParseInt, IsLowerHex;
    assert (Hex2(b) + rest)[2..] == rest;
  }

  lemma {:induction false} UnhexOfHex(bytes: seq<Byte>)
    ensures Unhexlify(Hexlify(bytes)) == Some(bytes)
  {
    if bytes != [] {
      UnhexPair(bytes[0], Hexlify(bytes[1..]));
      UnhexOfHex(bytes[1..]);
      assert [bytes[0]] + bytes[1..] == bytes;
      hide Hex2, DigitValue, Unhexlify, ParseInt, IsLowerHex;
    }
  }

  lemma DivideBound(v: nat, n: nat)
    requires n > 0 && v < Pow(256, n)
    ensures v / 256 < Pow(256, n - 1)
  {
  }

  lemma {:induction false} FromOfLittleEndian(v: nat, n: nat)
    requires v < Pow(256, n)
    ensures FromBytes(LittleEndian(v, n)) == v
  {
    if n > 0 {
      DivideBound(v, n);
      FromOfLittleEndian(v / 256, n - 1);
      assert LittleEndian(v, n)[1..] == LittleEndian(v / 256, n - 1);
    }
  }

  lemma {:induction false} PowAdd(base: nat, m: nat, n: nat)
    ensures Pow(base, m + n) == Pow(base, m) * Pow(base, n)
  {
    if m > 0 {
      PowAdd(base, m - 1, n);
      assert Pow(base, m + n) == base * (Pow(base, m - 1) * Pow(base, n));
    }
  }

  lemma {:induction false} PowMonotone(m: nat, n: nat)
    requires m <= n
    ensures Pow(2, m) <= Pow(2, n)
  {
    if m < n {
      PowMonotone(m, n - 1);
    }
  }

  lemma {:induction false} BytesHoldBits(n: nat)
    ensures Pow(256, n) == Pow(2, 8 * n)
  {
    if n > 0 {
      BytesHoldBits(n - 1);
      PowAdd(2, 8, 8 * (n - 1));
      assert Pow(2, 8) == 256 by {
        assert Pow(2, 4) == 16;
        PowAdd(2, 4, 4);
      }
      assert 8 * n == 8 + 8 * (n - 1);
    }
  }

  /** The declared width bounds the mask; the bits that are not known may hold anything. */
  predicate WellTyped(v: BitsValue) {
    v.vldMask < Pow(2, v.width)
  }

  /** The value a register is reported with. */
  function Known(v: BitsValue): nat {
    BitAnd(v.val, v.vldMask)
  }

  /** The `p` reply for a register; None stands for OverflowError. */
  function RegisterReply(v: BitsValue): Option<string> {
    var bytes := ToBytes(Known(v), ByteSize(v.width));
    if bytes.Some? then Some(Hexlify(bytes.value)) else None
  }

  /** What the client makes of a reply to `p`; None stands for ValueError. */
  function ReadReply(reply: string): Option<nat> {
    var bytes := Unhexlify(reply);
    if bytes.Some? then Some(FromBytes(bytes.value)) else None
  }

  /** A value whose bits are all known is reported as it is. */
  lemma {:induction false} FullMask(v: nat, width: nat)
    requires v < Pow(2, width)
    ensures BitAnd(v, Pow(2, width) - 1) == v
  {
    if width > 0 {
      FullMask(v / 2, width - 1);
      var mask := Pow(2, width) - 1;
      assert mask % 2 == 1 && mask / 2 == Pow(2, width - 1) - 1;
    }
  }

  lemma KnownFits(v: BitsValue)
    requires WellTyped(v)
    ensures Known(v) < Pow(256, ByteSize(v.width))
  {
    BytesHoldBits(ByteSize(v.width));
    PowMonotone(v.width, 8 * ByteSize(v.width));
  }

  /** Little-endian bytes in hexadecimal read back as the number, for any number of bytes that holds it. */
  lemma NumberRoundTrip(v: nat, n: nat)
    requires v < Pow(256, n)
    ensures ToBytes(v, n).Some? && ReadReply(Hexlify(ToBytes(v, n).value)) == Some(v)
  {
    UnhexOfHex(LittleEndian(v, n));
    FromOfLittleEndian(v, n);
  }

  /** `^S([0-9a-fA-F]{2})`: what the client takes for a stop packet. */
  predicate IsStop(payload: string) {
    |payload| >= 3 && payload[0] == 'S' && IsHex(payload[1]) && IsHex(payload[2])
  }

  predicate IsHex(c: char) {
    IsLowerHex(c) || 'A' <= c <= 'F'
  }

  /**
   A register value of any width goes through bytes, hexadecimal, frame, checksum, unframing and back unchanged,
   whatever follows on the stream; and the reply is never a stop packet, the `OK` reply or an `Enn` error.
   */
  lemma RegisterValueEndToEnd(v: BitsValue, rest: string)
    requires WellTyped(v)
    ensures RegisterReply(v).Some?
    ensures var reply := RegisterReply(v).value;
      && ParserReply(PacketReply(reply) + rest) == Frame(reply, |reply| + 4)
      && ReadReply(reply) == Some(Known(v))
      && !IsStop(reply) && reply != "OK" && !("E" <= reply)
  {
    KnownFits(v);
    NumberRoundTrip(Known(v), ByteSize(v.width));
    var reply := RegisterReply(v).value;
    hide Hexlify;
    assert '#' !in reply;
    FrameRoundTrip(reply, rest);
    if reply != "" {
      assert IsLowerHex(reply[0]) by { assert reply[0] in reply; }
    }
  }

  // ---- what the bytes are, apart from any code that makes them ----

  /** n is the least number of bytes that hold `width` bits. */
  predicate LeastBytes(width: nat, n: nat) {
    width <= 8 * n && (n > 0 ==> 8 * (n - 1) < width)
  }

  lemma ByteSizeIsLeast(width: nat, n: nat)
    ensures LeastBytes(width, ByteSize(width)) && (LeastBytes(width, n) ==> n == ByteSize(width))
  {
  }

  /** Bit k of a number, counted from the least. */
  function Bit(n: nat, k: nat): nat {
    if k == 0 then n % 2 else Bit(n / 2, k - 1)
  }

  /** `a & b` has the bits that both have. */
  lemma {:induction false} BitOfAnd(a: nat, b: nat, k: nat)
    ensures Bit(BitAnd(a, b), k) == if Bit(a, k) == 1 && Bit(b, k) == 1 then 1 else 0
    decreases k
  {
    if b == 0 {
      NoBit(k);
    } else {
      LowBitOfAnd(a, b);
      if k > 0 {
        BitOfAnd(a / 2, b / 2, k - 1);
      }
      hide BitAnd;
    }
  }

  lemma LowBitOfAnd(a: nat, b: nat)
    requires b > 0
    ensures BitAnd(a, b) % 2 == (if a % 2 == 1 && b % 2 == 1 then 1 else 0)
    ensures BitAnd(a, b) / 2 == BitAnd(a / 2, b / 2)
  {
    var rest := BitAnd(a / 2, b / 2);
    assert BitAnd(a, b) == (a % 2) * (b % 2) + 2 * rest;
    hide BitAnd;
    ProductOfBits(a % 2, b % 2, rest);
  }

  lemma ProductOfBits(x: nat, y: nat, rest: nat)
    requires x < 2 && y < 2
    ensures (x * y + 2 * rest) % 2 == (if x == 1 && y == 1 then 1 else 0) && (x * y + 2 * rest) / 2 == rest
  {
    assert x * y == if x == 1 then y else 0;
  }

  lemma {:induction false} NoBit(k: nat)
    ensures Bit(0, k) == 0
  {
    if k > 0 {
      NoBit(k - 1);
    }
  }

  /** The number has the bits that the value has and that are known. */
  ghost predicate HasKnownBits(n: nat, v: BitsValue) {
    forall k: nat :: Bit(n, k) == if Bit(v.val, k) == 1 && Bit(v.vldMask, k) == 1 then 1 else 0
  }

  lemma KnownBits(v: BitsValue)
    ensures HasKnownBits(Known(v), v)
  {
    forall k: nat
      ensures Bit(Known(v), k) == if Bit(v.val, k) == 1 && Bit(v.vldMask, k) == 1 then 1 else 0
    {
      BitOfAnd(v.val, v.vldMask, k);
    }
  }

  /** There is one number with given bits. */
  lemma {:induction false} BitsDecide(m: nat, n: nat)
    requires forall k: nat :: Bit(m, k) == Bit(n, k)
    ensures m == n
    decreases m + n
  {
    if m != 0 || n != 0 {
      assert m % 2 == Bit(m, 0) == Bit(n, 0) == n % 2;
      forall k: nat
        ensures Bit(m / 2, k) == Bit(n / 2, k)
      {
        assert Bit(m, k + 1) == Bit(n, k + 1);
      }
      BitsDecide(m / 2, n / 2);
    }
  }

  /** Byte k of a number, counted from the least. */
  function ByteOf(v: nat, k: nat): Byte {
    if k == 0 then v % 256 else ByteOf(v / 256, k - 1)
  }

  lemma {:induction false} LittleEndianAt(v: nat, n: nat, k: nat)
    requires k < n
    ensures LittleEndian(v, n)[k] == ByteOf(v, k)
  {
    if k > 0 {
      LittleEndianAt(v / 256, n - 1, k - 1);
    }
  }

  lemma {:induction false} HexlifyAt(bytes: seq<Byte>, k: nat)
    requires k < |bytes|
    ensures Hexlify(bytes)[2 * k] == "0123456789abcdef"[bytes[k] / 16]
    ensures Hexlify(bytes)[2 * k + 1] == "0123456789abcdef"[bytes[k] % 16]
  {
    hide ParseInt, IsLowerHex;
    if k > 0 {
      HexlifyAt(bytes[1..], k - 1);
      hide Hex2;
    }
  }

  /**
   On the wire byte k of a number is the pair of digits 2k and 2k + 1, the higher half first: the least significant byte
   comes first.
   */
  lemma NumberOnWire(v: nat, n: nat, k: nat)
    requires v < Pow(256, n) && k < n
    ensures ToBytes(v, n).Some? && |Hexlify(ToBytes(v, n).value)| == 2 * n
    ensures var text := Hexlify(ToBytes(v, n).value);
      && text[2 * k] == "0123456789abcdef"[ByteOf(v, k) / 16]
      && text[2 * k + 1] == "0123456789abcdef"[ByteOf(v, k) % 16]
  {
    hide Hexlify, Pow, ByteOf, LittleEndian, IsLowerHex;
    LittleEndianAt(v, n, k);
    HexlifyAt(LittleEndian(v, n), k);
  }

  /** A reply is read exactly if it is pairs of hexadecimal digits, in small letters or capitals. */
  lemma {:induction false} ReadsIff(reply: string)
    ensures ReadReply(reply).Some? <==> |reply| % 2 == 0 && forall c <- reply :: IsHex(c)
    decreases |reply|
  {
    if |reply| >= 2 {
      ReadsIff(reply[2..]);
      HexDigits(reply[0]);
      HexDigits(reply[1]);
      hide FromBytes, IsHex, DigitValue;
      assert reply[0] in reply && reply[1] in reply;
      assert forall c <- reply :: c == reply[0] || c == reply[1] || c in reply[2..];
      assert forall c <- reply[2..] :: c in reply;
    }
  }

  lemma HexDigits(c: char)
    ensures DigitValue(c).Some? && DigitValue(c).value < 16 <==> IsHex(c)
  {
  }

  lemma {:induction false} ZeroByte(k: nat)
    ensures ByteOf(0, k) == 0
  {
    if k > 0 {
      ZeroByte(k - 1);
    }
  }

  /** Zero is sent as that many zeros. */
  lemma ZeroOnWire(n: nat, j: nat)
    requires j < 2 * n
    ensures ToBytes(0, n).Some? && Hexlify(ToBytes(0, n).value)[j] == '0'
  {
    hide Pow, IsLowerHex;
    NumberOnWire(0, n, j / 2);
    ZeroByte(j / 2);
    hide Hexlify, ByteOf, LittleEndian;
    assert j == 2 * (j / 2) || j == 2 * (j / 2) + 1;
  }
}

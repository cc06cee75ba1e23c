/** What a debugger makes of the register replies as they come over the wire. */
module RegisterTexts {
  import opened Wrappers
  import opened Digits
  import opened Text
  import opened Interpreter
  import opened RegisterBytes
  import opened RegisterLayout
  import opened RemoteMessages
  import opened Requests
  import opened CmdHandler
  import opened ServerStub
  import opened RegisterSessions

  /** The value behind `key`, up to the next semicolon, and what follows it. */
  function Field(text: string, key: string): Option<(string, string)> {
    if !(key <= text) then None
    else
      var value := text[|key|..];
      var n := IndexOf(value, ';');
      if n == |value| then None else Some((value[..n], value[n + 1..]))
  }

  /** What a debugger reads in a register description. */
  function ReadDesc(text: string): Option<RegDesc> {
    match Field(text, "name:")
    case None => None
    case Some((name, behindName)) =>
      match Field(behindName, "bitsize:")
      case None => None
      case Some((bits, behindBits)) =>
        match Field(behindBits, "offset:")
        case None => None
        case Some((offset, _)) =>
          if ParseInt(bits, 10).Some? && ParseInt(offset, 10).Some?
          then Some(RegDesc(name, ParseInt(bits, 10).value, ParseInt(offset, 10).value)) else None
  }

  lemma FieldIs(key: string, value: string, rest: string)
    requires ';' !in value
    ensures Field(key + (value + (";" + rest)), key) == Some((value, rest))
  {
    var s := value + (";" + rest);
    IndexOfFirst(s, ';', |value|);
    hide IndexOf;
    assert (key + s)[|key|..] == s && s[..|value|] == value && s[|value| + 1..] == rest;
  }

  lemma NumberFieldIs(key: string, n: nat, rest: string)
    ensures Field(key + (Print(n, 10) + (";" + rest)), key) == Some((Print(n, 10), rest))
    ensures ParseInt(Print(n, 10), 10) == Some(n)
  {
    ParseOfPrint(n, 10);
    assert !IsDecimal(';');
    hide Print;
    FieldIs(key, Print(n, 10), rest);
  }

  lemma DescTextIsRead(d: RegDesc, tail: string)
    requires ';' !in d.name
    ensures ReadDesc(DescText(d.name, Print(d.width, 10), Print(d.offset, 10), tail)) == Some(d)
  {
    hide Field, Print, ParseInt;
    var offset := "offset:" + (Print(d.offset, 10) + (";" + tail));
    var bits := "bitsize:" + (Print(d.width, 10) + (";" + offset));
    FieldIs("name:", d.name, bits);
    NumberFieldIs("bitsize:", d.width, offset);
    NumberFieldIs("offset:", d.offset, tail);
  }

  lemma PcNumbers()
    ensures Print(64, 10) == "64" && Print(0, 10) == "0"
  {
    assert Print(6, 10) == "6" && Digit(4) == '4';
  }

  /** The payload at the head of received text, if there is a frame. */
  function Received(text: string): Option<string> {
    var m := ParserReply(text);
    if m.Frame? then Some(m.payload) else None
  }

  /** What a debugger reads in a framed description, whatever follows it. */
  function ReceivedDesc(text: string): Option<RegDesc> {
    match Received(text)
    case None => None
    case Some(payload) => ReadDesc(payload)
  }

  /** A name that neither the frame nor the description cuts short. */
  predicate Plain(name: string) {
    ';' !in name && '#' !in name
  }

  /** No name with a semicolon or the end-of-payload mark is ever read. */
  lemma ReadNameIsPlain(text: string)
    ensures ReceivedDesc(text).Some? ==> Plain(ReceivedDesc(text).value.name)
  {
    hide ReadDesc, ParserReply;
    var m := ParserReply(text);
    if m.Frame? && ReadDesc(m.payload).Some? {
      hide Field;
      PayloadHasNoMark(text);
      NameIsField(m.payload);
      FieldIsCut(m.payload, "name:");
    }
  }

  lemma PayloadHasNoMark(text: string)
    requires ParserReply(text).Frame?
    ensures '#' !in ParserReply(text).payload
  {
    hide IndexOf, ParseInt, Checksum, IsAlnum;
  }

  lemma NameIsField(payload: string)
    requires ReadDesc(payload).Some?
    ensures Field(payload, "name:").Some? && ReadDesc(payload).value.name == Field(payload, "name:").value.0
  {
    hide Field, ParseInt;
  }

  lemma FieldIsCut(text: string, key: string)
    requires Field(text, key).Some?
    ensures ';' !in Field(text, key).value.0 && forall c <- Field(text, key).value.0 :: c in text
  {
    hide IndexOf;
    var value := text[|key|..];
    assert Field(text, key).value.0 == value[..IndexOf(value, ';')];
    assert forall c <- value :: c in text;
  }

  lemma NumeralHasNoMark(n: nat)
    ensures '#' !in Print(n, 10)
  {
    assert !IsDecimal('#');
    hide Print;
  }

  lemma DescHasNoMark(d: RegDesc, index: nat)
    requires '#' !in d.name
    ensures '#' !in PrintDesc(d, index)
  {
    NumeralHasNoMark(d.width);
    NumeralHasNoMark(d.offset);
    hide Print;
    if index == PC_INDEX {
      TextHasNoMark("pc", "64", "0", PC_TAIL);
    } else {
      assert '#' !in REG_TAIL;
      hide DescText;
      TextHasNoMark(d.name, Print(d.width, 10), Print(d.offset, 10), REG_TAIL + d.name + ";");
    }
  }

  lemma TextHasNoMark(name: string, bits: string, offset: string, tail: string)
    requires '#' !in name && '#' !in bits && '#' !in offset && '#' !in tail
    ensures '#' !in DescText(name, bits, offset, tail)
  {
  }

  lemma FramedIsReceived(payload: string, rest: string)
    requires '#' !in payload
    ensures Received(PacketReply(payload) + rest) == Some(payload)
  {
    FrameRoundTrip(payload, rest);
    hide PacketReply, ParserReply;
  }

  /**
   The framed description is read back, whatever follows it, as what it was printed from exactly if the register's name
   holds no semicolon and no `#`: the first ends a field, and the second, which nothing escapes, ends the payload.
   */
  lemma DescRoundTrip(t: Target, index: nat, rest: string)
    requires index < |RegisterDescs(t)|
    ensures var d := RegisterDescs(t)[index];
      ReceivedDesc(PacketReply(PrintDesc(d, index)) + rest) == Some(d) <==> Plain(d.name)
  {
    hide ReadDesc, DescText, SessionRegisters, Descs, Print, PacketReply, Received;
    var d := RegisterDescs(t)[index];
    ReadNameIsPlain(PacketReply(PrintDesc(d, index)) + rest);
    if Plain(d.name) {
      DescHasNoMark(d, index);
      FramedIsReceived(PrintDesc(d, index), rest);
      DescTextIsRead(d, if index == 0 then PC_TAIL else REG_TAIL + d.name + ";");
      if index == 0 {
        PcNumbers();
      }
    }
  }

  /** The first `#` ends the payload. */
  lemma MarkEndsPayload(head: string, more: string)
    requires '#' !in head
    ensures Received("$" + (head + ("#" + more))).Some? ==> Received("$" + (head + ("#" + more))) == Some(head)
  {
    var text, behind := "$" + (head + ("#" + more)), head + ("#" + more);
    assert text[1..] == behind && behind[|head|] == '#';
    assert forall j: nat | j < |head| :: behind[j] == head[j];
    IndexOfFirst(behind, '#', |head|);
    hide IndexOf, ParseInt, Checksum, IsAlnum;
    assert text[1..|head| + 1] == head;
  }

  lemma MarkedText(d: RegDesc) returns (more: string)
    requires d.name == "a#b"
    ensures PrintDesc(d, 1) == "name:a" + ("#" + more)
  {
    hide Print;
    var behind := PrintDesc(d, 1)[5 + |d.name|..];
    assert PrintDesc(d, 1) == "name:" + (d.name + behind);
    hide PrintDesc;
    more := "b" + behind;
    assert "name:" + ("a#b" + behind) == "name:a" + ("#" + ("b" + behind));
  }

  /** A name that LLVM prints in quotes: it has no semicolon, and no description arrives. */
  lemma MarkInName(d: RegDesc, rest: string)
    requires d.name == "a#b"
    ensures ';' !in d.name && ReceivedDesc(PacketReply(PrintDesc(d, 1)) + rest) == None
  {
    hide PrintDesc, ReadDesc, Received, Hex2, CodeSum;
    var more := MarkedText(d);
    var info := PrintDesc(d, 1);
    var behind := more + ("#" + Hex2(Checksum(info)) + rest);
    assert PacketReply(info) + rest == "$" + ("name:a" + ("#" + behind));
    hide PacketReply;
    MarkEndsPayload("name:a", behind);
    NoFieldEnd();
  }

  lemma NoFieldEnd()
    ensures ReadDesc("name:a") == None
  {
    IndexOfNone("a", ';');
    hide IndexOf;
    assert "name:a"[5..] == "a";
  }

  /** What the handler answers to a packet. */
  function Replied(t: Target, h: Handler, packet: string): Option<string>
    requires HasInstr(t, h.interp)
  {
    Answer(t, h, Dispatch(packet)).1
  }

  lemma RepliesOf(t: Target, h: Handler, index: nat)
    requires HasInstr(t, h.interp) && index < |RegisterDescs(t)|
    ensures Replied(t, h, "qRegisterInfo" + Print(index, 16)) == Some(PrintDesc(RegisterDescs(t)[index], index))
    ensures Replied(t, h, "g") == RegisterLayout.ReadRegisters(t, h.interp)
    ensures Replied(t, h, "p" + Print(index, 16)) == RegisterLayout.ReadRegister(t, h.interp, index)
  {
    hide Dispatch, Print, PrintDesc, RegisterDescs, RegisterLayout.ReadRegister, RegisterLayout.ReadRegisters, HasInstr;
    RegisterInfoRequest(index);
    PlainQuestions();
    CommandRoundTrip(AskRegister(index));
  }

  /** A register's bytes in hexadecimal arrive as they were sent. */
  lemma ValuesArrive(t: Target, i: Interp, index: nat, rest: string)
    requires HasInstr(t, i)
    ensures var one := RegisterLayout.ReadRegister(t, i, index);
      one.Some? ==> Received(PacketReply(one.value) + rest) == one
    ensures var all := RegisterLayout.ReadRegisters(t, i);
      all.Some? ==> Received(PacketReply(all.value) + rest) == all
  {
    hide Hexlify, BytesOf, ToBytes, SessionRegisters, JoinBytes, PcValue, PcValueInAll, Received, PacketReply;
    assert !IsLowerHex('#');
    hide IsLowerHex;
    var one, all := RegisterLayout.ReadRegister(t, i, index), RegisterLayout.ReadRegisters(t, i);
    if one.Some? {
      FramedIsReceived(one.value, rest);
    }
    if all.Some? {
      FramedIsReceived(all.value, rest);
    }
  }

  /**
   What arrives of the three framed replies, whatever follows each: the description of the register, and a reply to `g`
   of which the announced part is the reply to `p`.
   */
  ghost predicate FramesAgree(t: Target, h: Handler, index: nat, rest: string)
    requires HasInstr(t, h.interp) && index < |RegisterDescs(t)|
  {
    var info, all := Replied(t, h, "qRegisterInfo" + Print(index, 16)), Replied(t, h, "g");
    var one := Replied(t, h, "p" + Print(index, 16));
    && info.Some? && all.Some? && one.Some?
    && ReceivedDesc(PacketReply(info.value) + rest) == Some(RegisterDescs(t)[index])
    && Received(PacketReply(all.value) + rest).Some? && Received(PacketReply(one.value) + rest).Some?
    && Cut(RegisterDescs(t)[index], Received(PacketReply(all.value) + rest).value)
       == Received(PacketReply(one.value) + rest).value
  }

  /**
   In every session that has not been closed, for every register: what arrives of the three replies agrees exactly if
   the name holds neither a semicolon nor a `#`, and it is not the program counter before the first run.
   */
  lemma RepliesAgree(t: Target, args: FnArgs, arrivals: seq<Option<string>>, index: nat, rest: string)
    requires KeepsTypes(t) && 8 * LineCount(t) < Pow(256, PC_BYTES) && index < |RegisterDescs(t)|
    ensures var r := Serve(t, InitialStub(t, args), arrivals); var h := r.stub.h;
      r.life != Closed ==>
        && HasInstr(t, h.interp)
        && (FramesAgree(t, h, index, rest) <==>
              && Plain(RegisterDescs(t)[index].name)
              && (h.interp.instr.Some? || t.codelineOffset == 0 || index != PC_INDEX))
  {
    hide Serve, KeepsTypes, RegisterLayout.ReadRegister, RegisterLayout.ReadRegisters, HasInstr, Print, PacketReply;
    hide Replied, Received, ReceivedDesc, PrintDesc, Cut, LineCount, RegisterDescs, Pow;
    LayoutAgreesInSessions(t, args, arrivals, index);
    var r := Serve(t, InitialStub(t, args), arrivals);
    if r.life != Closed {
      DescRoundTrip(t, index, rest);
      RepliesOf(t, r.stub.h, index);
      ValuesArrive(t, r.stub.h.interp, index, rest);
    }
  }
}

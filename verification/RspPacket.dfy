// rsp_packet_helpers.cpp: the framing of GDB's Remote Serial Protocol.
module RspPacket {
  import opened Wrappers
  import opened Bits
  import opened HexDigits

  const GDB_RSP_BREAK_CMD: byte := 0x03
  const GDB_BUF_MAX: nat := 16385

  const START: byte := '$' as byte
  const END: byte := '#' as byte
  const ESCAPE: byte := '}' as byte
  const STAR: byte := '*' as byte
  const ACK: byte := '+' as byte
  const NACK: byte := '-' as byte

  // The exceptions of get_packet_2 and put_packet.
  datatype Fault =
    | InvalidStart(ch: byte)
    | Overflow
    | ClosedInPacket
    | StartInPacket
    | IllegalHexDigit
    | BadChecksum(computed: byte, received: byte)
    | AckClosed
    | RetransmissionRequested
    | InvalidAck(ch: byte)

  // ----- Escaping and checksum -----

  predicate Special(ch: byte) {
    ch == START || ch == END || ch == STAR || ch == ESCAPE
  }

  // ch ^ 0x20
  function FlipCase(ch: byte): byte {
    if ch / 0x20 % 2 == 1 then ch - 0x20 else ch + 0x20
  }

  function EscapedByte(ch: byte): seq<byte> {
    if Special(ch) then [ESCAPE, FlipCase(ch)] else [ch]
  }

  function Escape(payload: seq<byte>): seq<byte> {
    if payload == [] then [] else Escape(payload[..|payload| - 1]) + EscapedByte(payload[|payload| - 1])
  }

  // What the client does with the body of a packet; an escape character at the very end stands for nothing.
  function Unescape(body: seq<byte>): seq<byte> {
    if body == [] then []
    else if body[0] != ESCAPE then [body[0]] + Unescape(body[1..])
    else if |body| == 1 then []
    else [FlipCase(body[1])] + Unescape(body[2..])
  }

  // A body has no raw start or end character.
  predicate Clean(body: seq<byte>) {
    START !in body && END !in body
  }

  // The sum of all bytes in an unsigned char.
  function Checksum(body: seq<byte>): byte {
    if body == [] then 0 else (Checksum(body[..|body| - 1]) as nat + body[|body| - 1] as nat) % 0x100
  }

  lemma {:induction false} ChecksumJoin(a: seq<byte>, b: seq<byte>)
    ensures Checksum(a + b) == (Checksum(a) as nat + Checksum(b) as nat) % 0x100
  {
    if b == [] {
      assert a + b == a;
      Modulo(Checksum(a), 0);
    } else {
      var front, last := b[..|b| - 1], b[|b| - 1];
      assert a + b == a + front + [last] && (a + b)[..|a + b| - 1] == a + front;
      ChecksumJoin(a, front);
      JoinedSums(Checksum(a), Checksum(front), last);
    }
  }

  lemma JoinedSums(x: nat, y: nat, z: nat)
    ensures ((x + y) % 0x100 + z) % 0x100 == (x + (y + z) % 0x100) % 0x100
  {
    Modulo(x + y, z);
    Modulo(y + z, x);
  }

  lemma Modulo(x: nat, y: nat)
    ensures (x % 0x100 + y) % 0x100 == (x + y) % 0x100
  {
  }

  function Total(bytes: seq<byte>): nat {
    if bytes == [] then 0 else bytes[0] + Total(bytes[1..])
  }

  // It is the sum as a number, modulo 256.
  lemma {:induction false} ChecksumIsSum(body: seq<byte>)
    ensures Checksum(body) == Total(body) % 0x100
  {
    if body != [] {
      assert body == [body[0]] + body[1..];
      ChecksumIsSum(body[1..]);
      ChecksumJoin([body[0]], body[1..]);
      OneByte(body[0]);
      Modulo(Total(body[1..]), body[0]);
    }
  }

  lemma OneByte(b: byte)
    ensures Checksum([b]) == b
  {
    assert [b][..0] == [];
  }

  // The reply OK is $OK#9a on the connection.
  lemma FrameOfOK()
    ensures Frame(['O' as byte, 'K' as byte])
         == ['$' as byte, 'O' as byte, 'K' as byte, '#' as byte, '9' as byte, 'a' as byte]
  {
    OneByte('O' as byte);
    assert ['O' as byte, 'K' as byte][..1] == ['O' as byte];
  }

  // The four special characters, as they are sent.
  lemma EscapedForms()
    ensures EscapedByte('$' as byte) == [0x7d, 0x04] && EscapedByte('#' as byte) == [0x7d, 0x03]
    ensures EscapedByte('*' as byte) == [0x7d, 0x0a] && EscapedByte('}' as byte) == [0x7d, 0x5d]
    ensures forall ch: byte :: ch as char !in {'$', '#', '*', '}'} ==> EscapedByte(ch) == [ch]
  {
  }

  function FrameEnd(checksum: byte): seq<byte> {
    [END, HexChar(checksum / 16), HexChar(checksum % 16)]
  }

  function Frame(body: seq<byte>): seq<byte> {
    [START] + body + FrameEnd(Checksum(body))
  }

  lemma FrameParts(before: seq<byte>, body: seq<byte>)
    ensures before + [START] + body + FrameEnd(Checksum(body)) == before + Frame(body)
  {
  }

  lemma {:induction false} EscapeIsClean(payload: seq<byte>)
    ensures Clean(Escape(payload))
  {
    if payload != [] {
      EscapeIsClean(payload[..|payload| - 1]);
    }
  }

  lemma {:induction false} EscapeFront(ch: byte, payload: seq<byte>)
    ensures Escape([ch] + payload) == Escape([ch]) + Escape(payload)
  {
    if payload == [] {
      assert [ch] + payload == [ch];
    } else {
      var init, last := payload[..|payload| - 1], payload[|payload| - 1];
      assert ([ch] + payload)[..|payload|] == [ch] + init;
      EscapeFront(ch, init);
    }
  }

  // Undoing the escape of one byte.
  lemma UnescapeByte(ch: byte, e: seq<byte>)
    ensures Unescape(EscapedByte(ch) + e) == [ch] + Unescape(e)
  {
    var s := EscapedByte(ch) + e;
    if Special(ch) {
      assert s[0] == ESCAPE && s[1] == FlipCase(ch) && s[2..] == e;
    } else {
      assert s[0] == ch && s[1..] == e;
    }
  }

  lemma {:induction false} UnescapeEscape(payload: seq<byte>)
    ensures Unescape(Escape(payload)) == payload
  {
    if payload != [] {
      var ch, rest := payload[0], payload[1..];
      assert payload == [ch] + rest;
      EscapeFront(ch, rest);
      EscapeOne(ch);
      UnescapeEscape(rest);
      UnescapeByte(ch, Escape(rest));
    }
  }

  lemma EscapeOne(ch: byte)
    ensures Escape([ch]) == EscapedByte(ch)
  {
    assert [ch][..0] == [];
  }

  // ----- What get_packet_2 makes of the bytes received -----

  datatype Parsed =
    | Packet(body: seq<byte>, rest: seq<byte>)
    | Break(rest: seq<byte>)
    | Closed
    | Failed(fault: Fault, rest: seq<byte>)

  // After the start character, with `body` already read.
  function ParseBody(input: seq<byte>, body: seq<byte>): Parsed
    decreases |input|
  {
    if |body| >= GDB_BUF_MAX - 1 then Failed(Overflow, input)
    else if input == [] then Failed(ClosedInPacket, [])
    else if input[0] == END then ParseChecksum(input[1..], body)
    else if input[0] == START then Failed(StartInPacket, input[1..])
    else ParseBody(input[1..], body + [input[0]])
  }

  function ParseChecksum(input: seq<byte>, body: seq<byte>): Parsed {
    if |input| < 2 then Failed(ClosedInPacket, [])
    else
      var high, low, rest := ParseHexDigit(input[0]), ParseHexDigit(input[1]), input[2..];
      if high.None? || low.None? then Failed(IllegalHexDigit, rest)
      else if Checksum(body) == 16 * high.value + low.value then Packet(body, rest)
      else Failed(BadChecksum(Checksum(body), 16 * high.value + low.value), rest)
  }

  function Parse(input: seq<byte>, first: bool): Parsed {
    if input == [] then Closed
    else if input[0] == START then ParseBody(input[1..], [])
    else if input[0] == GDB_RSP_BREAK_CMD then Break(input[1..])
    else if first && (input[0] == ACK || input[0] == NACK) then Parse(input[1..], first)
    else Failed(InvalidStart(input[0]), input[1..])
  }

  // The client's request to go on.
  lemma ParseContinue(tail: seq<byte>, first: bool)
    ensures Parse(['$' as byte, 'c' as byte, '#' as byte, '6' as byte, '3' as byte] + tail, first)
         == Packet(['c' as byte], tail)
  {
    OneByte('c' as byte);
    FrameAccepted(['c' as byte], '6' as byte, '3' as byte, tail, first);
    assert [START] + ['c' as byte] + [END, '6' as byte, '3' as byte]
        == ['$' as byte, 'c' as byte, '#' as byte, '6' as byte, '3' as byte];
  }

  // Whatever comes in front of a packet: acknowledgements are skipped before the first one, a break
  // character is a request of its own, and anything else is an error.
  lemma {:induction false} InFront(skipped: seq<byte>, rest: seq<byte>)
    requires OnlyAcks(skipped)
    ensures Parse(skipped + rest, true) == Parse(rest, true)
    ensures skipped != [] ==> Parse(skipped + rest, false) == Failed(InvalidStart(skipped[0]), skipped[1..] + rest)
    ensures rest != [] && rest[0] == 0x03 ==> Parse(rest, true) == Break(rest[1..])
    ensures rest != [] && rest[0] !in {START, GDB_RSP_BREAK_CMD, ACK, NACK} ==>
              Parse(rest, true) == Failed(InvalidStart(rest[0]), rest[1..])
  {
    if skipped == [] {
      assert skipped + rest == rest;
    } else {
      assert (skipped + rest)[1..] == skipped[1..] + rest;
      InFront(skipped[1..], rest);
    }
  }

  // ----- The acknowledgement of what has been sent -----

  predicate Acknowledges(input: seq<byte>) {
    input != [] && input[0] == ACK
  }

  function BehindAck(input: seq<byte>): seq<byte> {
    if input == [] then [] else input[1..]
  }

  // ----- The properties of the framing -----

  lemma {:induction false} ParseCleanBody(body: seq<byte>, tail: seq<byte>, done: seq<byte>)
    requires Clean(body)
    ensures ParseBody(body + tail, done)
         == if |done| + |body| < GDB_BUF_MAX - 1 then ParseBody(tail, done + body)
            else Failed(Overflow, (body + tail)[if |done| < GDB_BUF_MAX - 1 then GDB_BUF_MAX - 1 - |done| else 0..])
    decreases |body|
  {
    if body == [] {
      assert body + tail == tail && done + body == done;
    } else if |done| < GDB_BUF_MAX - 1 {
      assert (body + tail)[1..] == body[1..] + tail;
      assert done + [body[0]] + body[1..] == done + body;
      ParseCleanBody(body[1..], tail, done + [body[0]]);
    }
  }

  // Two bytes that stand for a checksum.
  predicate IsChecksum(high: byte, low: byte, sum: byte) {
    && ParseHexDigit(high).Some? && ParseHexDigit(low).Some?
    && 16 * ParseHexDigit(high).value + ParseHexDigit(low).value == sum
  }

  // A frame is accepted, and its body delivered as it is, exactly when it fits the buffer.
  lemma FrameAccepted(body: seq<byte>, high: byte, low: byte, tail: seq<byte>, first: bool)
    requires Clean(body) && IsChecksum(high, low, Checksum(body))
    ensures var p := Parse([START] + body + [END, high, low] + tail, first);
            if |body| <= GDB_BUF_MAX - 2 then p == Packet(body, tail) else p.Failed? && p.fault == Overflow
  {
    hide Checksum, ParseHexDigit;
    var input := [START] + body + [END, high, low] + tail;
    assert input[1..] == body + ([END, high, low] + tail);
    ParseCleanBody(body, [END, high, low] + tail, []);
    assert [] + body == body;
    assert ([END, high, low] + tail)[1..] == [high, low] + tail;
    assert ([high, low] + tail)[2..] == tail;
  }

  // What put_packet sends is read back by get_packet_2, and undoing the escapes gives the payload.
  lemma FramingRoundTrip(payload: seq<byte>, tail: seq<byte>, first: bool)
    requires |Escape(payload)| <= GDB_BUF_MAX - 2
    ensures Parse(Frame(Escape(payload)) + tail, first) == Packet(Escape(payload), tail)
    ensures Unescape(Escape(payload)) == payload
  {
    var body := Escape(payload);
    var sum := Checksum(body);
    EscapeIsClean(payload);
    UnescapeEscape(payload);
    FrameAccepted(body, HexChar(sum / 16), HexChar(sum % 16), tail, first);
    assert Frame(body) + tail == [START] + body + [END, HexChar(sum / 16), HexChar(sum % 16)] + tail;
  }

  predicate OnlyAcks(s: seq<byte>) {
    forall i :: 0 <= i < |s| ==> s[i] == ACK || s[i] == NACK
  }

  lemma FrameAtFront(input: seq<byte>, body: seq<byte>, end: seq<byte>, rest: seq<byte>)
    requires input != [] && input[0] == START && [] + input[1..] == body + end + rest
    ensures input == [] + ([START] + body + end) + rest
  {
    assert [] + input[1..] == input[1..];
    assert input == [START] + input[1..];
    assert [START] + (body + end + rest) == ([START] + body + end) + rest;
    assert [] + ([START] + body + end) == [START] + body + end;
  }

  lemma OneMoreSkipped(input: seq<byte>, skipped: seq<byte>, frame: seq<byte>, rest: seq<byte>)
    requires input != [] && input[1..] == skipped + frame + rest
    ensures input == [input[0]] + skipped + frame + rest
  {
    assert input == [input[0]] + input[1..];
  }

  // Nothing but a frame that fits the buffer is accepted, behind acknowledgements at the very start
  // of a connection.
  lemma {:induction false} AcceptedIsFrame(input: seq<byte>, first: bool) returns (skipped: seq<byte>, high: byte,
                                           low: byte)
    requires Parse(input, first).Packet?
    ensures var Packet(body, rest) := Parse(input, first);
            && input == skipped + ([START] + body + [END, high, low]) + rest
            && OnlyAcks(skipped) && (!first ==> skipped == [])
            && Clean(body) && |body| <= GDB_BUF_MAX - 2 && IsChecksum(high, low, Checksum(body))
  {
    hide ParseHexDigit;
    var p := Parse(input, first);
    if input[0] == START {
      skipped := [];
      high, low := AcceptedBody(input[1..], []);
      FrameAtFront(input, p.body, [END, high, low], p.rest);
    } else {
      skipped, high, low := AcceptedIsFrame(input[1..], first);
      var Packet(body, rest) := p;
      OneMoreSkipped(input, skipped, [START] + body + [END, high, low], rest);
      skipped := [input[0]] + skipped;
    }
  }

  lemma {:induction false} AcceptedBody(input: seq<byte>, done: seq<byte>) returns (high: byte, low: byte)
    requires ParseBody(input, done).Packet? && Clean(done)
    ensures var Packet(body, rest) := ParseBody(input, done);
            && done + input == body + [END, high, low] + rest
            && Clean(body) && |body| <= GDB_BUF_MAX - 2 && IsChecksum(high, low, Checksum(body))
    decreases |input|
  {
    if input[0] == END {
      high, low := input[1], input[2];
      assert input == [END, high, low] + input[1..][2..];
    } else {
      high, low := AcceptedBody(input[1..], done + [input[0]]);
      assert done + [input[0]] + input[1..] == done + input;
    }
  }

  // ----- Damage in transit -----

  lemma SumsDiffer(a: byte, b: byte, c: byte)
    requires a != b
    ensures (a as nat + c as nat) % 0x100 != (b as nat + c as nat) % 0x100
  {
  }

  lemma {:induction false} ChecksumOfChange(body: seq<byte>, i: nat, ch: byte)
    requires i < |body| && ch != body[i]
    ensures Checksum(body[i := ch]) != Checksum(body)
  {
    var init := body[..|body| - 1];
    if i < |body| - 1 {
      assert body[i := ch][..|body| - 1] == init[i := ch];
      ChecksumOfChange(init, i, ch);
      SumsDiffer(Checksum(init[i := ch]), Checksum(init), body[|body| - 1]);
    } else {
      assert body[i := ch][..|body| - 1] == init;
      SumsDiffer(ch, body[i], Checksum(init));
    }
  }

  // One byte of the body replaced by another one, other than '$' and '#', is always noticed.
  lemma SingleByteDamageIsNoticed(body: seq<byte>, high: byte, low: byte, tail: seq<byte>, first: bool, i: nat,
                                  ch: byte)
    requires Clean(body) && IsChecksum(high, low, Checksum(body)) && |body| <= GDB_BUF_MAX - 2
    requires i < |body| && ch != body[i] && ch != START && ch != END
    ensures Parse([START] + body[i := ch] + [END, high, low] + tail, first)
         == Failed(BadChecksum(Checksum(body[i := ch]), Checksum(body)), tail)
  {
    hide Checksum, ParseHexDigit;
    var damaged := body[i := ch];
    ChecksumOfChange(body, i, ch);
    var input := [START] + damaged + [END, high, low] + tail;
    assert input[1..] == damaged + ([END, high, low] + tail);
    ParseCleanBody(damaged, [END, high, low] + tail, []);
    assert [] + damaged == damaged;
    assert ([END, high, low] + tail)[1..] == [high, low] + tail;
    assert ([high, low] + tail)[2..] == tail;
  }

  // ----- The connection to the client -----

  // struct rsp_buf
  class RspBuf {
    const data: array<byte>
    var len: nat

    ghost predicate Valid()
      reads this
    {
      data.Length == GDB_BUF_MAX && len <= GDB_BUF_MAX
    }

    function Contents(): seq<byte>
      requires Valid()
      reads this, data
    {
      data[..len]
    }

    // Nothing is known about the data, which is never assigned.
    constructor ()
      ensures Valid() && fresh(data) && len == 0
    {
      data := new byte[GDB_BUF_MAX];
      len := 0;
    }

    method Fill(text: seq<byte>)
      requires Valid() && |text| < GDB_BUF_MAX
      modifies this, data
      ensures Valid() && Contents() == text
    {
      for i := 0 to |text|
        invariant data[..i] == text[..i] && data.Length == GDB_BUF_MAX
      {
        data[i] := text[i];
      }
      data[|text|] := 0;
      len := |text|;
    }
  }

  datatype Arrival = ReceivedPacket | ReceivedClosed | ReceivedFault(fault: Fault)

  class Connection {
    var input: seq<byte>   // what the client sends, up to the end of the connection
    var output: seq<byte>

    constructor (input: seq<byte>)
      ensures this.input == input && output == []
    {
      this.input, output := input, [];
    }

    // get_rsp_char; None when the client has closed the connection.
    method GetChar() returns (c: Option<byte>)
      modifies this`input
      ensures if old(input) == [] then c == None && input == []
               else c == Some(old(input)[0]) && input == old(input)[1..]
    {
      if input == [] {
        return None;
      }
      c := Some(input[0]);
      input := input[1..];
    }

    // put_rsp_char
    method PutChar(ch: byte)
      modifies this`output
      ensures output == old(output) + [ch]
    {
      output := output + [ch];
    }

    // The first loop of get_packet_2.
    method FindStart(isFirstPacket: bool) returns (found: bool, r: Parsed)
      modifies this`input
      ensures if found then Parse(old(input), isFirstPacket) == ParseBody(input, [])
              else r == Parse(old(input), isFirstPacket) && (r.Break? || r.Closed? || r.Failed?)
      ensures !found && !r.Closed? ==> r.rest == input
    {
      found := false;
      r := Closed;
      while true
        invariant Parse(old(input), isFirstPacket) == Parse(input, isFirstPacket) && !found
        decreases |input|
      {
        var ch := GetChar();
        if ch.None? {
          return;
        }
        if ch.value == START {
          found := true;
          return;
        }
        if ch.value == GDB_RSP_BREAK_CMD {
          r := Break(input);
          return;
        }
        if !isFirstPacket || (ch.value != ACK && ch.value != NACK) {
          r := Failed(InvalidStart(ch.value), input);
          return;
        }
      }
    }

    // The second loop of get_packet_2, up to the end character.
    method ReadBody(buf: RspBuf) returns (fault: Option<Fault>, checksum: byte)
      requires buf.Valid()
      modifies this`input, buf, buf.data
      ensures buf.Valid()
      ensures fault == None ==> ParseBody(old(input), []) == ParseChecksum(input, buf.Contents())
      ensures fault == None ==> checksum == Checksum(buf.Contents()) && buf.len < GDB_BUF_MAX && buf.data[buf.len] == 0
      ensures fault.Some? ==> ParseBody(old(input), []) == Failed(fault.value, input)
    {
      checksum := 0;
      var count := 0;
      ghost var body: seq<byte> := [];
      while true
        invariant count <= GDB_BUF_MAX - 1 && buf.Valid() && buf.data[..count] == body
        invariant ParseBody(old(input), []) == ParseBody(input, body) && checksum == Checksum(body)
        decreases |input|
      {
        if count >= GDB_BUF_MAX - 1 {
          return Some(Overflow), checksum;
        }
        var ch := GetChar();
        if ch == Some(END) {
          break;
        }
        if ch.None? {
          return Some(ClosedInPacket), checksum;
        }
        if ch.value == START {
          return Some(StartInPacket), checksum;
        }
        assert (body + [ch.value])[..|body|] == body;
        checksum := (checksum as nat + ch.value as nat) % 0x100;
        buf.data[count] := ch.value;
        body := body + [ch.value];
        count := count + 1;
      }
      buf.data[count] := 0;
      buf.len := count;
      assert buf.data[..count] == body;
      return None, checksum;
    }

    // The end of get_packet_2.
    method ReadChecksum(checksum: byte) returns (fault: Option<Fault>)
      modifies this
      ensures forall body {:trigger ParseChecksum(old(input), body)} :: Checksum(body) == checksum ==>
                ParseChecksum(old(input), body) ==
                match fault case None => Packet(body, input) case Some(f) => Failed(f, input)
      ensures output == old(output) + if fault == None then [ACK] else []
    {
      var ch1 := GetChar();
      if ch1.None? {
        return Some(ClosedInPacket);
      }
      var ch2 := GetChar();
      if ch2.None? {
        return Some(ClosedInPacket);
      }
      var high, low := ParseHexDigit(ch1.value), ParseHexDigit(ch2.value);
      if high.None? || low.None? {
        return Some(IllegalHexDigit);
      }
      var xmitcsum: byte := 16 * high.value + low.value;
      if checksum == xmitcsum {
        PutChar(ACK);
        return None;
      }
      return Some(BadChecksum(checksum, xmitcsum));
    }

    // get_packet_2: a packet, or the break character alone, ends up in the buffer; a packet is
    // acknowledged, and nothing else is sent.
    method GetPacket(isFirstPacket: bool, buf: RspBuf) returns (r: Arrival)
      requires buf.Valid()
      modifies this, buf, buf.data
      ensures buf.Valid()
      ensures match Parse(old(input), isFirstPacket)
              case Packet(body, rest) =>
                r == ReceivedPacket && buf.Contents() == body && input == rest && output == old(output) + [ACK]
              case Break(rest) =>
                r == ReceivedPacket && buf.Contents() == [GDB_RSP_BREAK_CMD] && input == rest && output == old(output)
              case Closed => r == ReceivedClosed && output == old(output)
              case Failed(fault, rest) => r == ReceivedFault(fault) && input == rest && output == old(output)
      ensures r == ReceivedPacket && Parse(old(input), isFirstPacket).Packet? ==>
                buf.len < GDB_BUF_MAX && buf.data[buf.len] == 0
    {
      var found, p := FindStart(isFirstPacket);
      if !found {
        if p.Closed? {
          return ReceivedClosed;
        }
        if p.Failed? {
          return ReceivedFault(p.fault);
        }
        buf.data[0] := GDB_RSP_BREAK_CMD;
        buf.len := 1;
        return ReceivedPacket;
      }
      var fault, checksum := ReadBody(buf);
      if fault.None? {
        fault := ReadChecksum(checksum);
      }
      r := if fault.None? then ReceivedPacket else ReceivedFault(fault.value);
    }

    // One byte of a body.
    method SendByte(ch: byte, checksum: byte, ghost body: seq<byte>) returns (sum: byte)
      requires checksum == Checksum(body)
      modifies this`output
      ensures output == old(output) + [ch] && sum == Checksum(body + [ch])
    {
      assert (body + [ch])[..|body|] == body;
      sum := (checksum as nat + ch as nat) % 0x100;
      PutChar(ch);
    }

    // One byte of the payload, escaped if necessary.
    method SendEscaped(next: byte, checksum: byte, ghost body: seq<byte>) returns (sum: byte)
      requires checksum == Checksum(body)
      modifies this`output
      ensures output == old(output) + EscapedByte(next) && sum == Checksum(body + EscapedByte(next))
    {
      var ch := next;
      sum := checksum;
      ghost var sent := body;
      if Special(ch) {
        sum := SendByte(ESCAPE, sum, body);
        sent := body + [ESCAPE];
        ch := FlipCase(ch);
      }
      sum := SendByte(ch, sum, sent);
      assert Special(next) ==> sent + [ch] == body + [ESCAPE, ch];
    }

    method SendBody(buf: RspBuf) returns (checksum: byte)
      requires buf.Valid()
      modifies this`output
      ensures output == old(output) + Escape(buf.Contents()) && checksum == Checksum(Escape(buf.Contents()))
    {
      checksum := 0;
      assert buf.data[..0] == [] && Checksum(Escape([])) == checksum && Escape([]) == [];
      hide Checksum;
      for count := 0 to buf.len
        invariant checksum == Checksum(Escape(buf.data[..count]))
        invariant output == old(output) + Escape(buf.data[..count])
      {
        assert buf.data[..count + 1][..count] == buf.data[..count];
        checksum := SendEscaped(buf.data[count], checksum, Escape(buf.data[..count]));
      }
    }

    // put_packet up to the acknowledgement.
    method SendFrame(buf: RspBuf)
      requires buf.Valid()
      modifies this`output
      ensures output == old(output) + Frame(Escape(buf.Contents()))
    {
      PutChar(START);
      var checksum := SendBody(buf);
      SendFrameEnd(checksum);
      FrameParts(old(output), Escape(buf.Contents()));
    }

    method SendFrameEnd(checksum: byte)
      modifies this`output
      ensures output == old(output) + FrameEnd(checksum)
    {
      PutChar(END);
      PutChar(HexChar(checksum / 16));
      PutChar(HexChar(checksum % 16));
    }

    // put_packet
    method PutPacket(buf: RspBuf) returns (fault: Option<Fault>)
      requires buf.Valid()
      modifies this
      ensures output == old(output) + Frame(Escape(buf.Contents()))
      ensures input == if old(input) == [] then [] else old(input)[1..]
      ensures fault == if old(input) == [] then Some(AckClosed)
                       else if old(input)[0] == ACK then None
                       else if old(input)[0] == NACK then Some(RetransmissionRequested)
                       else Some(InvalidAck(old(input)[0]))
    {
      SendFrame(buf);
      var ackCh := GetChar();
      if ackCh.None? {
        return Some(AckClosed);
      }
      if ackCh.value == ACK {
        return None;
      }
      return Some(if ackCh.value == NACK then RetransmissionRequested else InvalidAck(ackCh.value));
    }

    // put_str_packet. The text has to leave room for a terminator.
    method PutStrPacket(text: seq<byte>) returns (fault: Option<Fault>)
      requires |text| < GDB_BUF_MAX - 1
      modifies this
      ensures output == old(output) + Frame(Escape(text))
      ensures input == if old(input) == [] then [] else old(input)[1..]
      ensures fault == None <==> old(input) != [] && old(input)[0] == ACK
    {
      var buf := new RspBuf();
      buf.Fill(text);
      fault := PutPacket(buf);
    }
  }
}

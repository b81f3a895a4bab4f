// rsp_or10.cpp: the client's requests to read and write memory.
module RspMemory {
  import opened Wrappers
  import opened Bits
  import opened HexDigits
  import opened RspPacket
  import opened Cpu
  import opened ChainCommands
  import opened DbgApi
  import opened ByteMemory
  import opened MemoryAccess

  const OK: seq<byte> := ['O' as byte, 'K' as byte]
  const STD_ERROR_CODE: seq<byte> := ['E' as byte, '0' as byte, '1' as byte]

  // Refused is an exception before anything has been sent, NoAck one about the acknowledgement. A failed
  // assertion ends the program; past Undefined, C does not say what it does.
  datatype Handled = Replied | Refused | NoAck | FailedAssertion | Undefined

  function Acknowledged(fault: Option<Fault>): Handled {
    if fault == None then Replied else NoAck
  }

  // ----- Whether a reply fits -----

  // The guard against overflowing the packet buffer, in unsigned 32-bit arithmetic.
  predicate FitsPacket(len: word) {
    2 * len % WORD_MODULUS < GDB_BUF_MAX
  }

  // The digits and their terminator stay inside the reply.
  predicate ReplyFits(mem: Memory, start: word, len: word) {
    2 * |LoadBytes(mem, start, len)| < GDB_BUF_MAX
  }

  // Whatever can be sent passes.
  lemma NothingFittingIsRefused(len: word)
    requires len <= 8192
    ensures FitsPacket(len) && forall mem, start :: ReplyFits(mem, start, len)
  {
    GuardIsSafe(len);
  }

  lemma {:induction false} AllReadable(mem: Memory, start: word, n: nat)
    requires forall a: word :: WordAddr(a) in mem
    ensures |LoadBytes(mem, start, n)| == n
  {
    if n > 0 {
      AllReadable(mem, start, n - 1);
    }
  }

  ghost function FullMemory(): (mem: Memory)
    ensures forall a: word :: WordAddr(a) in mem
  {
    map a: nat | a < WORD_MODULUS && a % 4 == 0 :: 0
  }

  // A length that passes the guard, with a reply that leaves its buffer.
  lemma GuardCanFail(mem: Memory, start: word)
    requires forall a: word :: WordAddr(a) in mem
    ensures FitsPacket(0x8000_0000) && !ReplyFits(mem, start, 0x8000_0000)
  {
    AllReadable(mem, start, 0x8000_0000);
  }

  // Two ranges of lengths pass the guard, and of these exactly the one below 2^31 is safe with any
  // memory and address.
  lemma GuardIsSafe(len: word)
    requires FitsPacket(len)
    ensures 2 * len < GDB_BUF_MAX || 0 <= 2 * (len - 0x8000_0000) < GDB_BUF_MAX
    ensures (forall mem, start :: ReplyFits(mem, start, len)) <==> len < 0x8000_0000
  {
    if len < 0x8000_0000 {
      forall mem, start ensures ReplyFits(mem, start, len) {
      }
    } else {
      AllReadable(FullMemory(), 0, len);
      assert !ReplyFits(FullMemory(), 0, len);
    }
  }

  lemma {:induction false} HexNeedsNoEscape(bytes: seq<byte>)
    ensures Escape(HexOf(bytes)) == HexOf(bytes)
  {
    if bytes != [] {
      var init, b := bytes[..|bytes| - 1], bytes[|bytes| - 1];
      HexNeedsNoEscape(init);
      var high, low := HexChar(b / 16), HexChar(b % 16);
      assert HexOf(bytes) == HexOf(init) + [high] + [low];
      EscapeBack(HexOf(init) + [high], low);
      EscapeBack(HexOf(init), high);
    }
  }

  lemma EscapeBack(text: seq<byte>, ch: byte)
    requires !Special(ch)
    ensures Escape(text + [ch]) == Escape(text) + [ch]
  {
    assert (text + [ch])[..|text|] == text;
  }

  // The loop of rsp_read_mem over the data.
  method FormatData(data: seq<byte>) returns (reply: seq<byte>)
    ensures reply == HexOf(data)
  {
    reply := [];
    for off := 0 to |data|
      invariant reply == HexOf(data[..off])
    {
      var ch := data[off];
      assert data[..off + 1][..off] == data[..off];
      reply := reply + [HexChar(ch / 16), HexChar(ch % 16)];
    }
    assert data[..|data|] == data;
  }

  // A reply has been acknowledged, or not, by the client's next byte.
  ghost predicate Answered(r: Handled, conn: Connection, input: seq<byte>)
    reads conn
  {
    (r == Replied <==> Acknowledges(input)) && conn.input == BehindAck(input)
  }

  // rsp_read_mem, for a request that reads as an address and a length. With clean receivers, the data is
  // what the memory holds.
  method ReadMemory(port: JtagPort, conn: Connection, addr: word, len: word) returns (r: Handled, ghost data: seq<byte>)
    requires Ready(port.target)
    modifies port`target, conn
    ensures OnlyMemoryChanged(old(port.target), port.target) && port.target.unit.cpu == old(port.target.unit.cpu)
    ensures r == Refused <==> len == 0 || !FitsPacket(len)
    ensures r == Undefined <==> r != Refused && 2 * |data| >= GDB_BUF_MAX
    ensures r in {Refused, Undefined} ==> conn.output == old(conn.output) && conn.input == old(conn.input)
    ensures r in {Replied, NoAck} ==>
              conn.output == old(conn.output) + Frame(HexOf(data)) && Answered(r, conn, old(conn.input))
    ensures r != FailedAssertion && |data| <= len
    ensures port.Clean() && r != Refused ==> data == LoadBytes(port.target.unit.cpu.mem, addr, len)
  {
    hide HexOf, LoadBytes, Frame, Escape;
    if len == 0 || !FitsPacket(len) {
      return Refused, [];
    }
    var dataRead := ReadMem(port, addr, len);
    data := dataRead;
    if 2 * |dataRead| >= GDB_BUF_MAX {
      // The digits would go past the end of the reply.
      return Undefined, data;
    }
    var reply := FormatData(dataRead);
    HexNeedsNoEscape(data);
    var buf := new RspBuf();
    buf.Fill(reply);
    var fault := conn.PutPacket(buf);
    r := Acknowledged(fault);
  }

  // ----- Announced lengths -----

  type Int = x: int | -0x8000_0000 <= x < 0x8000_0000

  // 2 * len as a C int; `overflow` stands for the products that C does not define.
  function Doubled(len: Int, overflow: int -> int): int {
    if -0x4000_0000 <= len < 0x4000_0000 then 2 * len else overflow(len)
  }

  // Whether comparing the product with the number of digits tells what it should.
  predicate TellsLength(len: Int, overflow: int -> int, digits: nat) {
    Doubled(len, overflow) == digits <==> 2 * len == digits
  }

  // Comparing the product with the number of digits is right, whatever C makes of an overflow, for
  // exactly the lengths that cannot overflow.
  lemma CheckIsRight(len: Int)
    ensures (forall overflow: int -> int, digits: nat :: TellsLength(len, overflow, digits))
       <==> -0x4000_0000 <= len < 0x4000_0000
  {
    if !(-0x4000_0000 <= len < 0x4000_0000) {
      assert !TellsLength(len, x => 2, 2);
    }
  }

  // On a host that wraps around, M0,80000001:ab passes.
  lemma WrappedLengthPasses()
    ensures Doubled(-0x7FFF_FFFF, x => (2 * x + 0x8000_0000) % WORD_MODULUS - 0x8000_0000) == 2
  {
  }

  // ----- Where the digits are -----

  const COLON: byte := ':' as byte

  // memchr, from index i on; None is a null pointer.
  function FirstAt(data: seq<byte>, ch: byte, i: nat): (p: Option<nat>)
    requires i <= |data|
    ensures p.Some? ==> i <= p.value < |data| && data[p.value] == ch
    decreases |data| - i
  {
    if i == |data| then None else if data[i] == ch then Some(i) else FirstAt(data, ch, i + 1)
  }

  lemma {:induction false} NotThere(data: seq<byte>, ch: byte, i: nat)
    requires i <= |data|
    ensures FirstAt(data, ch, i).None? <==> ch !in data[i..]
    decreases |data| - i
  {
    if i < |data| {
      NotThere(data, ch, i + 1);
      assert data[i..] == [data[i]] + data[i + 1..];
    }
  }

  // More data behind does not matter once the character has been found.
  lemma {:induction false} FoundInFront(front: seq<byte>, rest: seq<byte>, ch: byte, i: nat)
    requires i <= |front| && FirstAt(front, ch, i).Some?
    ensures FirstAt(front + rest, ch, i) == FirstAt(front, ch, i)
    decreases |front| - i
  {
    if front[i] != ch {
      FoundInFront(front, rest, ch, i + 1);
    }
  }

  lemma {:induction false} FoundBehind(front: seq<byte>, rest: seq<byte>, ch: byte, i: nat)
    requires i <= |front| && ch !in front && rest != [] && rest[0] == ch
    ensures FirstAt(front + rest, ch, i) == Some(|front|)
    decreases |front| - i
  {
    if i < |front| {
      FoundBehind(front, rest, ch, i + 1);
    }
  }

  predicate AllHex(text: seq<byte>) {
    forall i :: 0 <= i < |text| ==> ParseHexDigit(text[i]).Some?
  }

  // ----- What a write request comes to -----

  // Ends is without an answer, and without an effect.
  datatype WritePlan = Ends(how: Handled) | ReportsError | Stores(data: seq<byte>)

  // `data` is the whole buffer, of which n bytes have been received: without a colon among them, one is
  // found in whatever lies behind, or none at all.
  function PlanWrite(addr: word, len: Int, data: seq<byte>, n: nat, mem: Memory, overflow: int -> int,
                     assertions: bool): (plan: WritePlan)
    ensures plan.Ends? ==> plan.how in {Refused, FailedAssertion, Undefined}
  {
    match FirstAt(data, COLON, 0)
    case None => Ends(Undefined)
    case Some(p) =>
      if Doubled(len, overflow) != n - (p + 1) then Ends(Refused)
      else if len < 0 then PlanNegative(addr, mem, assertions)
      else PlanDigits(len, data[p + 1..], assertions)
  }

  // No digit is parsed for a negative length, and the write goes on beyond an empty vector, unless the
  // word that an unaligned address is in cannot be read.
  function PlanNegative(addr: word, mem: Memory, assertions: bool): WritePlan {
    if assertions then Ends(FailedAssertion)
    else if Lane(addr) != 0 && WordAddr(addr) !in mem then ReportsError
    else Ends(Undefined)
  }

  // Without assertions, a length of 0 is answered without touching the memory.
  function PlanDigits(len: nat, symdat: seq<byte>, assertions: bool): WritePlan {
    if 2 * len > |symdat| then Ends(if AllHex(symdat) then Undefined else Refused)
    else if ParsePairs(symdat, len).None? then Ends(Refused)
    else if len == 0 && assertions then Ends(FailedAssertion)
    else Stores(ParsePairs(symdat, len).value)
  }

  // The whole buffer after a packet has been received.
  function InBuffer(body: seq<byte>, stale: seq<byte>): seq<byte> {
    body + [0] + stale
  }

  // With a colon, and a length whose product cannot overflow: the bytes that the digits stand for are to be
  // stored if there are exactly as many as announced.
  lemma WritePlanned(front: seq<byte>, text: seq<byte>, stale: seq<byte>, addr: word, len: Int, mem: Memory,
                     overflow: int -> int, assertions: bool) returns (data: seq<byte>)
    requires COLON !in front && -0x4000_0000 <= len < 0x4000_0000
    ensures var body := front + [COLON] + text;
            var plan := PlanWrite(addr, len, InBuffer(body, stale), |body|, mem, overflow, assertions);
            if |text| != 2 * len || !AllHex(text) then plan == Ends(Refused)
            else
              && plan == (if len == 0 && assertions then Ends(FailedAssertion) else Stores(data))
              && |data| == len && HexOf(data) == Lowered(text)
  {
    hide ParsePairs, HexOf, Lowered;
    var body, symdat := front + [COLON] + text, text + [0] + stale;
    var all := InBuffer(body, stale);
    assert all == front + ([COLON] + symdat);
    FoundBehind(front, [COLON] + symdat, COLON, 0);
    assert all[|front| + 1..] == symdat;
    data := [];
    if |text| == 2 * len {
      AllPairsAreDigits(symdat, len);
      assert symdat[..2 * len] == text;
      if AllHex(text) {
        data := ParsePairs(symdat, len).value;
        ParsedRoundTrip(symdat, len);
      }
    }
  }

  // What is announced as the number of digits in a packet with a colon.
  function DigitCount(body: seq<byte>): nat
    requires COLON in body
  {
    NotThere(body, COLON, 0);
    assert body[0..] == body;
    |body| - (FirstAt(body, COLON, 0).value + 1)
  }

  // A write of a negative length that gets past the check, and past the reading of the first word.
  predicate OverrunsVector(addr: word, len: Int, body: seq<byte>, mem: Memory, overflow: int -> int, assertions: bool)
    requires COLON in body
  {
    && len < 0 && !assertions && Doubled(len, overflow) == DigitCount(body)
    && (Lane(addr) == 0 || WordAddr(addr) in mem)
  }

  // Whatever the rest of the buffer holds, a write is defined exactly if there is a colon in the packet
  // itself, and the length is not a negative one that gets through.
  lemma WriteIsDefined(addr: word, len: Int, body: seq<byte>, mem: Memory, overflow: int -> int, assertions: bool,
                       size: nat)
    ensures (forall stale :: |stale| == size ==>
               PlanWrite(addr, len, InBuffer(body, stale), |body|, mem, overflow, assertions) != Ends(Undefined))
       <==> COLON in body && !OverrunsVector(addr, len, body, mem, overflow, assertions)
  {
    var zeros := seq<byte>(size, _ => 0);
    if COLON in body {
      forall stale
        ensures PlanWrite(addr, len, InBuffer(body, stale), |body|, mem, overflow, assertions) == Ends(Undefined)
           <==> OverrunsVector(addr, len, body, mem, overflow, assertions)
      {
        PlanWithColon(addr, len, body, stale, mem, overflow, assertions);
      }
      assert |zeros| == size;
    } else {
      NotThere(InBuffer(body, zeros), COLON, 0);
      assert InBuffer(body, zeros)[0..] == InBuffer(body, zeros);
      assert PlanWrite(addr, len, InBuffer(body, zeros), |body|, mem, overflow, assertions) == Ends(Undefined);
    }
  }

  lemma PlanWithColon(addr: word, len: Int, body: seq<byte>, stale: seq<byte>, mem: Memory, overflow: int -> int,
                      assertions: bool)
    requires COLON in body
    ensures PlanWrite(addr, len, InBuffer(body, stale), |body|, mem, overflow, assertions) == Ends(Undefined)
       <==> OverrunsVector(addr, len, body, mem, overflow, assertions)
  {
    var data := InBuffer(body, stale);
    NotThere(body, COLON, 0);
    assert body[0..] == body && data == body + ([0] + stale);
    FoundInFront(body, [0] + stale, COLON, 0);
    var p := FirstAt(body, COLON, 0).value;
    var symdat := data[p + 1..];
    assert symdat[|body| - (p + 1)] == 0;
    assert !AllHex(symdat);
  }

  // ----- Writing -----

  // The call of memchr.
  method MemChr(buf: RspBuf, ch: byte) returns (p: Option<nat>)
    requires buf.Valid()
    ensures p == FirstAt(buf.data[..], ch, 0)
  {
    for i := 0 to GDB_BUF_MAX
      invariant FirstAt(buf.data[..], ch, 0) == FirstAt(buf.data[..], ch, i)
    {
      if buf.data[i] == ch {
        return Some(i);
      }
    }
    return None;
  }

  // The loop of rsp_write_mem over the digits; an exception of parse_hex_digit, or reading on behind the
  // buffer, ends it early.
  method ParseData(symdat: seq<byte>, len: nat) returns (early: Option<Handled>, data: seq<byte>)
    ensures 2 * len > |symdat| ==> early == Some(if AllHex(symdat) then Undefined else Refused)
    ensures 2 * len <= |symdat| ==> early == if ParsePairs(symdat, len).None? then Some(Refused) else None
    ensures early.None? ==> 2 * len <= |symdat| && ParsePairs(symdat, len) == Some(data)
  {
    data := [];
    for off := 0 to len
      invariant 2 * off <= |symdat| && ParsePairs(symdat, off) == Some(data)
    {
      AllPairsAreDigits(symdat, off);
      for k := off * 2 to off * 2 + 2
        invariant k <= |symdat| && forall i :: 0 <= i < k ==> ParseHexDigit(symdat[i]).Some?
      {
        if k == |symdat| {
          return Some(Undefined), data;
        }
        if ParseHexDigit(symdat[k]).None? {
          BadDigitFound(symdat, k, len);
          return Some(Refused), data;
        }
      }
      data := data + [16 * ParseHexDigit(symdat[off * 2]).value + ParseHexDigit(symdat[off * 2 + 1]).value];
    }
    early := None;
  }

  lemma BadDigitFound(text: seq<byte>, k: nat, n: nat)
    requires k < 2 * n && k < |text| && ParseHexDigit(text[k]).None?
    ensures if 2 * n <= |text| then ParsePairs(text, n).None? else !AllHex(text)
  {
    if 2 * n <= |text| {
      AllPairsAreDigits(text, n);
    }
  }

  // What the memory is after a write.
  ghost predicate MemoryIs(plan: WritePlan, before: Cpu, addr: word, after: Cpu) {
    if plan.Stores? then MemoryWritten(before, addr, plan.data, after.mem) else after == before
  }

  // What can be said of it even if something shows through.
  ghost predicate MemoryMayBe(plan: WritePlan, before: Cpu, addr: word, after: Cpu) {
    if plan.Stores? then ChangedInRange(before, addr, |plan.data|, after.mem) else after == before
  }

  function AnswerTo(plan: WritePlan, cpu: Cpu, addr: word): seq<byte>
    requires !plan.Ends?
  {
    if plan.Stores? && AllWritable(cpu, addr, |plan.data|) then OK else STD_ERROR_CODE
  }

  // rsp_write_mem, for a request that reads as an address and a length. With clean receivers, it goes as
  // planned. In any case, no other memory is touched.
  method WriteMemory(port: JtagPort, conn: Connection, buf: RspBuf, addr: word, len: Int,
                     overflow: int -> int, assertions: bool) returns (r: Handled)
    requires Ready(port.target) && buf.Valid() && buf.len < GDB_BUF_MAX
    modifies port`target, conn
    ensures OnlyMemoryChanged(old(port.target), port.target)
    ensures var cpu := old(port.target.unit.cpu);
            var plan := PlanWrite(addr, len, old(buf.data[..]), buf.len, cpu.mem, overflow, assertions);
            && MemoryMayBe(plan, cpu, addr, port.target.unit.cpu)
            && if r in {Replied, NoAck} then
                 && conn.output in {old(conn.output) + Frame(OK), old(conn.output) + Frame(STD_ERROR_CODE)}
                 && Answered(r, conn, old(conn.input))
               else conn.output == old(conn.output) && conn.input == old(conn.input)
    ensures var cpu := old(port.target.unit.cpu);
            var plan := PlanWrite(addr, len, old(buf.data[..]), buf.len, cpu.mem, overflow, assertions);
            port.Clean() ==>
              && MemoryIs(plan, cpu, addr, port.target.unit.cpu)
              && match plan
                 case Ends(how) => r == how
                 case ReportsError => r in {Replied, NoAck} && conn.output == old(conn.output) + Frame(STD_ERROR_CODE)
                 case Stores(data) =>
                   && r in {Replied, NoAck}
                   && conn.output == old(conn.output)
                                     + Frame(if AllWritable(cpu, addr, |data|) then OK else STD_ERROR_CODE)
  {
    hide PlanNegative, PlanDigits, Escape, Frame, MemoryIs, MemoryMayBe, AllWritable;
    var colon := MemChr(buf, COLON);
    if colon.None? {
      NothingDone(Undefined, port.target.unit.cpu, addr);
      return Undefined;
    }
    var symdat := buf.data[colon.value + 1..];
    assert symdat == buf.data[..][colon.value + 1..];
    if Doubled(len, overflow) != buf.len - (colon.value + 1) {
      NothingDone(Refused, port.target.unit.cpu, addr);
      return Refused;
    }
    var early, errorBit;
    if len < 0 {
      early, errorBit := WriteNegative(port, addr, assertions);
    } else {
      early, errorBit := WriteDigits(port, addr, len, symdat, assertions);
    }
    if early.Some? {
      return early.value;
    }
    Literals();
    var fault := conn.PutStrPacket(if errorBit then STD_ERROR_CODE else OK);
    r := Acknowledged(fault);
  }

  lemma NothingDone(how: Handled, cpu: Cpu, addr: word)
    ensures MemoryIs(Ends(how), cpu, addr, cpu) && MemoryMayBe(Ends(how), cpu, addr, cpu)
  {
  }

  // Carrying out either part of the plan, up to the answer.
  ghost predicate CarriedOut(plan: WritePlan, before: Cpu, addr: word, after: Cpu, early: Option<Handled>,
                             errorBit: bool)
  {
    && MemoryIs(plan, before, addr, after)
    && early == (if plan.Ends? then Some(plan.how) else None)
    && (plan.ReportsError? ==> errorBit)
    && (plan.Stores? ==> errorBit == !AllWritable(before, addr, |plan.data|))
  }

  // The start of dbg_cpu0_write_mem_2, for a count that is negative as an int, and no data.
  method WriteNegative(port: JtagPort, addr: word, assertions: bool) returns (early: Option<Handled>, errorBit: bool)
    requires Ready(port.target)
    modifies port`target
    ensures OnlyMemoryChanged(old(port.target), port.target)
    ensures early.Some? ==> early.value in {FailedAssertion, Undefined}
    ensures var cpu := old(port.target.unit.cpu);
            var plan := PlanNegative(addr, cpu.mem, assertions);
            && MemoryMayBe(plan, cpu, addr, port.target.unit.cpu)
            && (port.Clean() ==> CarriedOut(plan, cpu, addr, port.target.unit.cpu, early, errorBit))
  {
    if assertions {
      return Some(FailedAssertion), false;
    }
    errorBit := false;
    if addr % 4 != 0 {
      var value;
      errorBit, value := ReadWord(port, addr - addr % 4);
    }
    early := if errorBit then None else Some(Undefined);
  }

  method WriteDigits(port: JtagPort, addr: word, len: nat, symdat: seq<byte>, assertions: bool)
    returns (early: Option<Handled>, errorBit: bool)
    requires Ready(port.target) && |symdat| < GDB_BUF_MAX
    modifies port`target
    ensures OnlyMemoryChanged(old(port.target), port.target)
    ensures early.Some? ==> early.value in {Refused, FailedAssertion, Undefined}
    ensures var cpu := old(port.target.unit.cpu);
            var plan := PlanDigits(len, symdat, assertions);
            && MemoryMayBe(plan, cpu, addr, port.target.unit.cpu)
            && (port.Clean() ==> CarriedOut(plan, cpu, addr, port.target.unit.cpu, early, errorBit))
  {
    var data;
    early, data := ParseData(symdat, len);
    errorBit := false;
    if early.Some? {
      return;
    }
    if len == 0 && assertions {
      return Some(FailedAssertion), false;
    }
    errorBit := StoreData(port, addr, data);
  }

  method StoreData(port: JtagPort, addr: word, data: seq<byte>) returns (error: bool)
    requires Ready(port.target) && |data| < WORD_MODULUS
    modifies port`target
    ensures OnlyMemoryChanged(old(port.target), port.target)
    ensures ChangedInRange(old(port.target.unit.cpu), addr, |data|, port.target.unit.cpu.mem)
    ensures port.Clean() ==> error == !AllWritable(old(port.target.unit.cpu), addr, |data|)
    ensures port.Clean() ==> MemoryWritten(old(port.target.unit.cpu), addr, data, port.target.unit.cpu.mem)
  {
    error := false;
    if data != [] {
      ghost var stored: nat;
      error, stored := WriteMem(port, addr, |data|, data);
    }
  }

  // All data has been stored, or a part from the start of it if some word does not accept it.
  ghost predicate MemoryWritten(cpu: Cpu, addr: word, data: seq<byte>, mem: Memory) {
    if AllWritable(cpu, addr, |data|) then mem == StoreBytes(cpu.mem, addr, data, |data|)
    else exists n: nat :: n < |data| && StoredUpTo(cpu, mem, addr, data, n)
  }

  lemma Literals()
    ensures Escape(OK) == OK && Escape(STD_ERROR_CODE) == STD_ERROR_CODE
  {
    assert OK == [] + ['O' as byte] + ['K' as byte];
    EscapeBack([] + ['O' as byte], 'K' as byte);
    EscapeBack([], 'O' as byte);
    assert STD_ERROR_CODE == [] + ['E' as byte] + ['0' as byte] + ['1' as byte];
    EscapeBack([] + ['E' as byte] + ['0' as byte], '1' as byte);
    EscapeBack([] + ['E' as byte], '0' as byte);
    EscapeBack([], 'E' as byte);
  }

  // An M request answered with OK, followed by an m request for the same range: the reply is the
  // data that was sent, in lower case.
  lemma WrittenIsReadBack(cpu: Cpu, addr: word, len: Int, body: seq<byte>, stale: seq<byte>, overflow: int -> int,
                          assertions: bool, mem: Memory)
    requires -0x4000_0000 <= len < 0x4000_0000
    requires PlanWrite(addr, len, InBuffer(body, stale), |body|, cpu.mem, overflow, assertions).Stores?
    requires AllWritable(cpu, addr, len)
    requires var plan := PlanWrite(addr, len, InBuffer(body, stale), |body|, cpu.mem, overflow, assertions);
             MemoryWritten(cpu, addr, plan.data, mem)
    ensures COLON in body && |body| >= 2 * len
    ensures HexOf(LoadBytes(mem, addr, len)) == Lowered(body[|body| - 2 * len..])
  {
    hide LoadBytes, StoreBytes, HexOf, ParsePairs, Lowered, FirstAt, StoredUpTo;
    var all := InBuffer(body, stale);
    var p := FirstAt(all, COLON, 0).value;
    var symdat := all[p + 1..];
    var data := ParsePairs(symdat, len).value;
    assert body[p] == COLON;
    assert symdat[..2 * len] == body[|body| - 2 * len..];
    LoadStored(cpu, addr, data, len);
    ParsedRoundTrip(symdat, len);
    assert data[..len] == data;
  }
}

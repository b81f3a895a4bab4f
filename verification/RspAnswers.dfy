// rsp_or10.cpp: what a client gets from a stopped target, request by request, and what it makes of the CPU.
module RspAnswers {
  import opened Wrappers
  import opened Bits
  import opened HexDigits
  import opened RspPacket
  import opened RspMemory
  import opened RspLog
  import opened RspRequests
  import opened Cpu
  import opened ByteMemory
  import opened Watchpoints

  // ----- Registers -----

  // The number behind register n of the client's, of those that can be read.
  function RegisterValue(cpu: Cpu, n: nat): (value: Option<word>)
    requires n < 35
  {
    var reg: half := if n < 32 then 1024 + n else if n == 33 then 16 else 17;
    if n == 32 then Some(0) else if reg in cpu.spr then Some(cpu.spr[reg]) else None
  }

  lemma {:induction false} GprShown(cpu: Cpu, m: nat, n: nat)
    requires n < m <= MAX_GPRS && GprText(cpu, m).Some?
    ensures RegisterValue(cpu, n).Some?
            && GprText(cpu, m).value[8 * n..8 * n + 8] == Digits(RegisterValue(cpu, n).value, 8)
  {
    hide Digits;
    var text := GprText(cpu, m).value;
    assert text == GprText(cpu, m - 1).value + Digits(cpu.spr[SPR_GPR_BASE + (m - 1)], 8);
    if n < m - 1 {
      GprShown(cpu, m - 1, n);
      assert text[8 * n..8 * n + 8] == GprText(cpu, m - 1).value[8 * n..8 * n + 8];
    }
  }

  // Each register has eight digits of its own in the reply to g.
  lemma RegisterShown(cpu: Cpu, n: nat)
    requires RegistersText(cpu).Some? && n < 35
    ensures |RegistersText(cpu).value| == 8 * 35 && RegisterValue(cpu, n).Some?
    ensures RegistersText(cpu).value[8 * n..8 * n + 8] == Digits(RegisterValue(cpu, n).value, 8)
  {
    hide Digits, GprText;
    var text, gprs := RegistersText(cpu).value, GprText(cpu, MAX_GPRS).value;
    if n < 32 {
      GprShown(cpu, MAX_GPRS, n);
      assert text[8 * n..8 * n + 8] == gprs[8 * n..8 * n + 8];
    }
  }

  lemma {:induction false} GprsThere(cpu: Cpu, m: nat)
    requires m <= MAX_GPRS
    ensures GprText(cpu, m).Some? <==> forall n :: 0 <= n < m ==> RegisterValue(cpu, n).Some?
  {
    hide Digits;
    if m > 0 {
      GprsThere(cpu, m - 1);
      assert RegisterValue(cpu, m - 1).Some? <==> SPR_GPR_BASE + (m - 1) in cpu.spr;
    }
  }

  lemma AllShown(cpu: Cpu)
    ensures RegistersText(cpu).Some? <==> forall n :: 0 <= n < 35 ==> RegisterValue(cpu, n).Some?
  {
    hide Digits, GprText;
    GprsThere(cpu, MAX_GPRS);
    assert RegisterValue(cpu, 33).Some? <==> SPR_NPC in cpu.spr;
    assert RegisterValue(cpu, 34).Some? <==> SPR_SR in cpu.spr;
  }

  // g after P shows the value written at the same number, and everything else as before.
  lemma WrittenIsShown(host: Host, n: nat, digits: seq<byte>, cpu: Cpu, m: nat)
    requires RegistersText(cpu).Some? && n < 35 && n != 32 && m < 35 && RegisterRead(digits, host.unassigned).Some?
    ensures RegisterWritten(host, Some((n, digits)), cpu).Some?
    ensures var after := RegisterWritten(host, Some((n, digits)), cpu).value;
            && RegistersText(after).Some?
            && RegistersText(after).value[8 * m..8 * m + 8]
               == if m == n then Digits(RegisterRead(digits, host.unassigned).value, 8)
                  else RegistersText(cpu).value[8 * m..8 * m + 8]
  {
    hide Digits, RegistersText, RegisterRead;
    AllShown(cpu);
    assert RegisterValue(cpu, n).Some?;
    var after := RegisterWritten(host, Some((n, digits)), cpu).value;
    forall k | 0 <= k < 35
      ensures RegisterValue(after, k)
           == if k == n then RegisterRead(digits, host.unassigned) else RegisterValue(cpu, k)
    {
    }
    assert forall k :: 0 <= k < 35 ==> RegisterValue(cpu, k).Some?;
    AllShown(after);
    RegisterShown(after, m);
    RegisterShown(cpu, m);
  }

  // g is answered if all registers can be read.
  lemma RegistersAnswer(host: Host, body: seq<byte>, stale: seq<byte>, cpu: Cpu, slots: seq<word>)
    requires body != [] && body[0] as char == 'g'
    ensures if forall n :: 0 <= n < 35 ==> RegisterValue(cpu, n).Some? then
              RegistersText(cpu).Some? && EffectOf(host, body, stale, cpu, slots) == Answers(RegistersText(cpu).value)
            else EffectOf(host, body, stale, cpu, slots) == Refuses
  {
    AllShown(cpu);
    hide RegistersText;
    if RegistersText(cpu).Some? {
      RegisterShown(cpu, 0);
    }
  }

  // Register 32 is accepted and ignored.
  predicate CanBeWritten(host: Host, n: nat, digits: seq<byte>, cpu: Cpu) {
    n == 32 || (n < 35 && RegisterValue(cpu, n).Some? && RegisterRead(digits, host.unassigned).Some?)
  }

  lemma RegisterWriteAnswer(host: Host, body: seq<byte>, stale: seq<byte>, cpu: Cpu, slots: seq<word>, n: nat,
                            digits: seq<byte>, after: Cpu, slots': seq<word>)
    requires body != [] && body[0] as char == 'P' && host.writeReg(body) == Some((n, digits))
    requires CpuTook(false, host, body, stale, cpu, slots, after, slots')
    ensures EffectOf(host, body, stale, cpu, slots)
         == if CanBeWritten(host, n, digits, cpu) then Answers(Bytes("OK")) else Refuses
    ensures forall m :: 0 <= m < 35 ==>
              RegisterValue(after, m) == if m == n != 32 && CanBeWritten(host, n, digits, cpu)
                                         then RegisterRead(digits, host.unassigned) else RegisterValue(cpu, m)
    ensures slots' == slots && after == cpu.(spr := after.spr) && after.spr.Keys == cpu.spr.Keys
    ensures forall r: half :: r in cpu.spr && !(1024 <= r < 1056) && r != 16 && r != 17 ==> after.spr[r] == cpu.spr[r]
  {
    assert Bytes("OK") == OK;
  }

  // ----- Memory -----

  // m for what fits: all that can be read before the first word that cannot be.
  lemma ReadAnswer(host: Host, body: seq<byte>, stale: seq<byte>, cpu: Cpu, slots: seq<word>, addr: word, len: word)
    returns (data: seq<byte>)
    requires body != [] && body[0] as char == 'm' && host.readMem(body) == Some((addr, len)) && len < 0x8000_0000
    ensures EffectOf(host, body, stale, cpu, slots) == if 1 <= len <= 8192 then Answers(HexOf(data)) else Refuses
    ensures |data| <= len && (|data| < len ==> WordAddr(Address(addr, |data|)) !in cpu.mem)
    ensures forall j :: 0 <= j < |data| ==>
              WordAddr(Address(addr, j)) in cpu.mem && data[j] == ByteAt(cpu.mem, Address(addr, j))
  {
    hide LoadBytes, HexOf, ByteAt, WordAddr, Address;
    data := LoadBytes(cpu.mem, addr, len);
    if len <= 8192 {
      NothingFittingIsRefused(len);
    }
    forall j | 0 <= j < |data|
      ensures WordAddr(Address(addr, j)) in cpu.mem && data[j] == ByteAt(cpu.mem, Address(addr, j))
    {
      LoadedByte(cpu.mem, addr, len, j);
    }
    if |data| < len {
      LoadStopsAtUnreadable(cpu.mem, addr, len);
    }
  }

  // M with a colon, and with a length whose product cannot overflow.
  lemma WriteAnswer(host: Host, front: seq<byte>, text: seq<byte>, stale: seq<byte>, cpu: Cpu, slots: seq<word>,
                    addr: word, len: Int, after: Cpu, slots': seq<word>)
    returns (data: seq<byte>)
    requires front != [] && front[0] as char == 'M' && COLON !in front && -0x4000_0000 <= len < 0x4000_0000
    requires host.writeMem(front + [COLON] + text) == Some((addr, len))
    requires CpuTook(false, host, front + [COLON] + text, stale, cpu, slots, after, slots')
    ensures var writable := forall j :: 0 <= j < len ==> AcceptsByte(cpu, addr, j);
            && EffectOf(host, front + [COLON] + text, stale, cpu, slots)
               == (if |text| != 2 * len || !AllHex(text) then Refuses
                   else if len == 0 && host.assertions then Aborts
                   else Answers(Bytes(if writable then "OK" else "E01")))
            && if |text| == 2 * len && AllHex(text) then
                 && |data| == len && HexOf(data) == Lowered(text)
                 && (writable ==> after.mem == StoreBytes(cpu.mem, addr, data, len))
               else after == cpu
    ensures slots' == slots && after == cpu.(mem := after.mem, writeAddr := after.writeAddr)
  {
    assert StoreBytes(cpu.mem, addr, [], 0) == cpu.mem;
    hide PlanWrite, InBuffer, AllHex, HexOf, Lowered, StoreBytes, AllWritable, RegistersText, RegisterWritten;
    data := WritePlanned(front, text, stale, addr, len, cpu.mem, host.overflow, host.assertions);
    if len >= 0 {
      AllWritableIff(cpu, addr, len);
    }
    assert Bytes("OK") == OK && Bytes("E01") == STD_ERROR_CODE;
  }

  // An M request that has been answered with OK, and then m for the same range: the answer is the digits of
  // the request, in lower case.
  lemma WrittenReadsBack(host: Host, write: seq<byte>, read: seq<byte>, addr: word, len: Int, stale: seq<byte>,
                         stale': seq<byte>, before: Cpu, after: Cpu, slots: seq<word>)
    requires write != [] && write[0] == 'M' as byte && host.writeMem(write) == Some((addr, len))
    requires read != [] && read[0] == 'm' as byte && 1 <= len && host.readMem(read) == Some((addr, len))
    requires |write| + 1 + |stale| == GDB_BUF_MAX
    requires EffectOf(host, write, stale, before, slots) == Answers(OK) && Written(host, write, stale, before, after)
    ensures |write| >= 2 * len
    ensures EffectOf(host, read, stale', after, slots) == Answers(Lowered(write[|write| - 2 * len..]))
  {
    hide AllWritable, LoadBytes, StoreBytes, Lowered, HexOf, AllHex, ParsePairs, FirstAt;
    WrittenIsReadBack(before, addr, len, write, stale, host.overflow, host.assertions, after.mem);
    NothingFittingIsRefused(len);
  }

  // ----- Watchpoints -----

  lemma WatchpointAnswer(host: Host, body: seq<byte>, stale: seq<byte>, cpu: Cpu, slots: seq<word>, addr: word,
                         kind: nat, after: Cpu, slots': seq<word>)
    requires |body| >= 2 && body[0] as char in {'z', 'Z'} && body[1] as char == '1'
    requires host.watchpoint(body) == Some((addr, kind)) && (kind == 4 || !host.assertions)
    requires CpuTook(false, host, body, stale, cpu, slots, after, slots')
    ensures var inserting := body[0] as char == 'Z';
            var done := addr in slots || (inserting && 0 in slots);
            && EffectOf(host, body, stale, cpu, slots) == Answers(Bytes(if done then "OK" else "E01"))
            && (done && inserting ==> addr in slots') && (!done ==> slots' == slots && after == cpu)
            && forall a: word :: a != 0 && a != addr ==> (a in slots' <==> a in slots)
  {
    hide Inserted, Removed;
    assert Bytes("OK") == OK && Bytes("E01") == STD_ERROR_CODE;
    InsertFailsIff(slots, addr);
    RemoveFailsIff(slots, addr);
    if SlotsAfter(slots, body[0] as char == 'Z', addr).Some? {
      if body[0] as char == 'Z' {
        InsertKeepsOthers(slots, addr, 1);
      }
      forall a: word | a != 0 && a != addr ensures a in slots' <==> a in slots {
        if body[0] as char == 'Z' {
          InsertKeepsOthers(slots, addr, a);
        } else {
          RemoveKeepsOthers(slots, addr, a);
        }
      }
    }
  }

  // ----- Other requests -----

  predicate NoEnd(name: seq<byte>, ends: string) {
    forall i :: 0 <= i < |name| ==> !EndsName(name[i], ends)
  }

  lemma {:induction false} NameIs(body: seq<byte>, i: nat, name: seq<byte>, ends: string)
    requires i + |name| <= |body| && body[i..i + |name|] == name && NoEnd(name, ends)
    requires i + |name| == |body| || EndsName(body[i + |name|], ends)
    ensures Name(body, ends, i) == name
    decreases |name|
  {
    hide EndsName;
    if name != [] {
      assert body[i] == name[0];
      assert body[i + 1..i + |name|] == name[1..];
      NameIs(body, i + 1, name[1..], ends);
    }
  }

  // Requests that are answered without looking at anything.
  lemma FixedAnswers(host: Host, rest: seq<byte>, stale: seq<byte>, cpu: Cpu, slots: seq<word>)
    ensures EffectOf(host, Bytes("!") + rest, stale, cpu, slots) == Answers(Bytes("OK"))
    ensures EffectOf(host, Bytes("H") + rest, stale, cpu, slots) == Answers(Bytes("OK"))
    ensures EffectOf(host, Bytes("?") + rest, stale, cpu, slots) == Answers(Bytes("S05"))
    ensures EffectOf(host, Bytes("D") + rest, stale, cpu, slots) == Answers([])
    ensures EffectOf(host, Bytes("X") + rest, stale, cpu, slots) == Answers([])
    ensures EffectOf(host, [0x03], stale, cpu, slots) == Answers(Bytes("S05"))
    ensures EffectOf(host, Bytes("k") + rest, stale, cpu, slots) == Ignores
    ensures EffectOf(host, Bytes("c"), stale, cpu, slots) == Resumes(false)
    ensures EffectOf(host, Bytes("s"), stale, cpu, slots) == Resumes(true)
    ensures rest != [] ==> EffectOf(host, Bytes("c") + rest, stale, cpu, slots) == Refuses
    ensures rest != [] ==> EffectOf(host, Bytes("s") + rest, stale, cpu, slots) == Refuses
  {
    assert Bytes("OK") == OK && Bytes("S05") == STOP_REPLY;
  }

  // The names of queries, and what is answered to each of them.
  function QueryAnswer(name: string): Option<string> {
    match name
    case "C" => Some("")
    case "Offsets" => Some("Text=0;Data=0;Bss=0")
    case "Supported" => Some("PacketSize=4000")
    case "Symbol" => Some("OK")
    case "Attached" => Some("")
    case "TStatus" => Some("")
    case _ => None
  }

  lemma QueriesAre(host: Host, name: string, rest: seq<byte>, stale: seq<byte>, cpu: Cpu, slots: seq<word>)
    requires name in {"C", "Offsets", "Supported", "Symbol", "Attached", "TStatus"}
    requires rest == [] || EndsName(rest[0], ",:;")
    ensures EffectOf(host, Bytes("q") + Bytes(name) + rest, stale, cpu, slots)
         == Answers(Bytes(QueryAnswer(name).value))
  {
    hide EffectOf, ReplyEffect, UnknownEffect, EndsName, NoEnd;
    var body := Bytes("q") + Bytes(name) + rest;
    assert body[1..1 + |name|] == Bytes(name);
    PlainNames(name);
    NameIs(body, 1, Bytes(name), ",:;");
    assert Bytes("OK") == OK && Bytes("") == [];
    assert Bytes(name)[0] == name[0] as byte && Bytes("Offsets")[0] == 'O' as byte;
    hide Bytes;
    QueryOf(host, body, stale, cpu, slots);
  }

  lemma QueryOf(host: Host, body: seq<byte>, stale: seq<byte>, cpu: Cpu, slots: seq<word>)
    requires body != [] && body[0] == 'q' as byte
    ensures EffectOf(host, body, stale, cpu, slots) == QueryEffect(host, body)
  {
    hide RegistersText, RegisterWritten, ReadEffect, WriteEffect, WatchpointEffect, VEffect, ReplyEffect,
         UnknownEffect, QueryEffect;
  }

  lemma PlainNames(name: string)
    requires name in {"C", "Offsets", "Supported", "Symbol", "Attached", "TStatus"}
    ensures NoEnd(Bytes(name), ",:;")
  {
  }

  // What a monitor command replies with, if it fits in a packet.
  lemma MonitorAnswer(host: Host, command: seq<byte>, stale: seq<byte>, cpu: Cpu, slots: seq<word>)
    ensures EffectOf(host, Bytes("qRcmd,") + command, stale, cpu, slots)
         == match host.monitor(command)
            case None => Refuses
            case Some(reply) => if |reply| < 16384 then Answers(reply) else if host.assertions then Aborts else Refuses
  {
    hide EffectOf, UnknownEffect;
    var body := Bytes("qRcmd,") + command;
    assert body[1..5] == Bytes("Rcmd") && body[6..] == command;
    assert ",:;"[0] == ',';
    NameIs(body, 1, Bytes("Rcmd"), ",:;");
    QueryOf(host, body, stale, cpu, slots);
  }

  // Of all operations on the target's execution, only killing it is known, and does nothing.
  lemma OperationsAre(host: Host, name: seq<byte>, rest: seq<byte>, stale: seq<byte>, cpu: Cpu, slots: seq<word>)
    requires name != [] && NoEnd(name, ";?") && (rest == [] || EndsName(rest[0], ";?"))
    ensures EffectOf(host, Bytes("v") + name + rest, stale, cpu, slots)
         == Answers(if name == Bytes("Kill") then Bytes("OK") else [])
  {
    hide EffectOf, EndsName, NoEnd;
    var body := Bytes("v") + name + rest;
    assert body[1..1 + |name|] == name;
    NameIs(body, 1, name, ";?");
    assert Bytes("OK") == OK;
    OperationOf(host, body, stale, cpu, slots);
  }

  lemma OperationOf(host: Host, body: seq<byte>, stale: seq<byte>, cpu: Cpu, slots: seq<word>)
    requires body != [] && body[0] == 'v' as byte
    ensures EffectOf(host, body, stale, cpu, slots) == VEffect(body)
  {
    hide RegistersText, RegisterWritten, ReadEffect, WriteEffect, WatchpointEffect, QueryEffect, ReplyEffect,
         UnknownEffect, VEffect;
  }

  // Other kinds of watchpoints are answered with nothing, and so are requests that are not known, unless
  // they fail an assertion.
  lemma UnknownAnswer(host: Host, body: seq<byte>, stale: seq<byte>, cpu: Cpu, slots: seq<word>)
    ensures body == [] || body[0] as char !in "!H?cskmMzZgPqvDX" + [3 as char] ==>
              EffectOf(host, body, stale, cpu, slots) == if host.assertions then Aborts else Answers([])
    ensures body != [] && body[0] as char in {'z', 'Z'} && (|body| == 1 || body[1] as char != '1') ==>
              EffectOf(host, body, stale, cpu, slots) == Answers([])
    ensures body != [] && body[0] as char in {'z', 'Z'} && |body| > 1 && body[1] as char == '1' ==>
              match host.watchpoint(body)
              case None => EffectOf(host, body, stale, cpu, slots) == Refuses
              case Some((addr, kind)) =>
                host.assertions && kind != 4 ==> EffectOf(host, body, stale, cpu, slots) == Aborts
  {
  }
}

// What each request of the client should lead to, as a function of the request and the state of the
// target: the reference for process_client_command.
module RspRequests {
  import opened Wrappers
  import opened Bits
  import opened HexDigits
  import opened RspPacket
  import opened RspMemory
  import opened RspLog
  import opened Cpu
  import opened ByteMemory
  import opened Watchpoints
  import opened DebugRegisters

  const MAX_GPRS: nat := 32
  const PPC_REGNUM: nat := 32
  const NPC_REGNUM: nat := 33
  const SR_REGNUM: nat := 34
  const BREAKPOINT_KIND: nat := 4

  // What sscanf makes of requests, and the replies to "monitor" commands; None is an exception. Then how
  // the bridge has been built, and what C leaves open.
  datatype Host = Host(
    watchpoint: seq<byte> -> Option<(word, nat)>,            // address and kind
    readMem: seq<byte> -> Option<(word, word)>,              // address and length
    writeMem: seq<byte> -> Option<(word, Int)>,              // address and length
    writeReg: seq<byte> -> Option<(nat, seq<byte>)>,         // register number and at most 8 characters
    monitor: seq<byte> -> Option<seq<byte>>,
    assertions: bool,
    overflow: int -> int,
    unassigned: word)

  // Refuses is an exception, which ends the connection. Aborts is a failed assertion and Overruns
  // undefined behaviour; either is the end of the program.
  datatype Effect = Answers(reply: seq<byte>) | Resumes(step: bool) | Ignores | Refuses | Stops | Aborts | Overruns

  // An ASCII text.
  function Bytes(s: string): (bytes: seq<byte>)
    ensures |bytes| == |s|
  {
    seq<byte>(|s|, i requires 0 <= i < |s| => if s[i] < 128 as char then s[i] as byte else 0)
  }

  // ----- Memory and watchpoints -----

  function ReadEffect(request: Option<(word, word)>, mem: Memory): Effect {
    match request
    case None => Refuses
    case Some((addr, len)) =>
      if len == 0 || !FitsPacket(len) then Refuses
      else if !ReplyFits(mem, addr, len) then Overruns
      else Answers(HexOf(LoadBytes(mem, addr, len)))
  }

  // `stale` is what the rest of the packet buffer holds, which is never assigned.
  function WritePlanOf(host: Host, request: (word, Int), body: seq<byte>, stale: seq<byte>, cpu: Cpu): WritePlan {
    PlanWrite(request.0, request.1, InBuffer(body, stale), |body|, cpu.mem, host.overflow, host.assertions)
  }

  function WriteEffect(host: Host, body: seq<byte>, stale: seq<byte>, cpu: Cpu): Effect {
    match host.writeMem(body)
    case None => Refuses
    case Some(request) =>
      match WritePlanOf(host, request, body, stale, cpu)
      case Ends(FailedAssertion) => Aborts
      case Ends(Undefined) => Overruns
      case Ends(_) => Refuses
      case plan => Answers(AnswerTo(plan, cpu, request.0))
  }

  // The CPU after a request to write memory.
  ghost predicate Written(host: Host, body: seq<byte>, stale: seq<byte>, before: Cpu, after: Cpu) {
    match host.writeMem(body)
    case None => after == before
    case Some(request) => MemoryIs(WritePlanOf(host, request, body, stale, before), before, request.0, after)
  }

  // The slots for hardware breakpoints after a request; None is an error reply.
  function SlotsAfter(slots: seq<word>, inserting: bool, addr: word): Option<seq<word>> {
    if inserting then Inserted(slots, addr) else Removed(slots, addr)
  }

  function WatchpointEffect(host: Host, inserting: bool, body: seq<byte>, slots: seq<word>): Effect {
    if |body| < 2 || body[1] != '1' as byte then Answers([])
    else
      match host.watchpoint(body)
      case None => Refuses
      case Some((addr, kind)) =>
        if kind != BREAKPOINT_KIND && host.assertions then Aborts
        else Answers(if SlotsAfter(slots, inserting, addr).Some? then OK else STD_ERROR_CODE)
  }

  // What such a request makes of the slots.
  ghost predicate SlotsBecame(host: Host, body: seq<byte>, inserting: bool, before: seq<word>, after: seq<word>) {
    if |body| < 2 || body[1] != '1' as byte then after == before
    else
      match host.watchpoint(body)
      case None => after == before
      case Some((addr, kind)) =>
        if kind != BREAKPOINT_KIND && host.assertions then after == before
        else
          match SlotsAfter(before, inserting, addr)
          case None => after == before
          case Some(slots) => after == slots
  }

  // ----- Registers -----

  // The general purpose registers up to number n, eight digits each; None if one cannot be read.
  function GprText(cpu: Cpu, n: nat): (text: Option<seq<byte>>)
    requires n <= MAX_GPRS
    ensures text.Some? ==> |text.value| == 8 * n
  {
    if n == 0 then Some([])
    else
      var init := GprText(cpu, n - 1);
      if init.None? || SPR_GPR_BASE + (n - 1) !in cpu.spr then None
      else Some(init.value + Digits(cpu.spr[SPR_GPR_BASE + (n - 1)], 8))
  }

  // The program counter in between is not supported and reads as zero.
  function RegistersText(cpu: Cpu): Option<seq<byte>> {
    var gprs := GprText(cpu, MAX_GPRS);
    if gprs.None? || SPR_NPC !in cpu.spr || SPR_SR !in cpu.spr then None
    else Some(gprs.value + Digits(0, 8) + Digits(cpu.spr[SPR_NPC], 8) + Digits(cpu.spr[SPR_SR], 8))
  }

  // The hardware number of a register of the client's, None if there is none, and Some(None) for the one
  // that is ignored.
  function RegisterNumber(regnum: nat): Option<Option<half>> {
    if regnum == PPC_REGNUM then Some(None)
    else if regnum == NPC_REGNUM then Some(Some(SPR_NPC))
    else if regnum == SR_REGNUM then Some(Some(SPR_SR))
    else if regnum < MAX_GPRS then Some(Some(SPR_GPR_BASE + regnum))
    else None
  }

  // The CPU after a request to write a register; None is an exception.
  function RegisterWritten(host: Host, request: Option<(nat, seq<byte>)>, cpu: Cpu): Option<Cpu> {
    match request
    case None => None
    case Some((regnum, text)) =>
      match RegisterNumber(regnum)
      case None => None
      case Some(None) => Some(cpu)
      case Some(Some(reg)) =>
        var value := RegisterRead(text, host.unassigned);
        if value.None? || reg !in cpu.spr then None else Some(cpu.(spr := cpu.spr[reg := value.value]))
  }

  // ----- Names -----

  predicate EndsName(c: byte, ends: string) {
    exists i :: 0 <= i < |ends| && ends[i] < 128 as char && c == ends[i] as byte
  }

  // The name behind the first character, up to any of the given ones.
  function Name(body: seq<byte>, ends: string, i: nat): (name: seq<byte>)
    requires i <= |body|
    ensures i + |name| <= |body| && name == body[i..i + |name|]
    decreases |body| - i
  {
    if i == |body| || EndsName(body[i], ends) then [] else [body[i]] + Name(body, ends, i + 1)
  }

  function UnknownEffect(host: Host): Effect {
    if host.assertions then Aborts else Answers([])
  }

  function ReplyEffect(host: Host, reply: Option<seq<byte>>): Effect {
    if reply.None? then Refuses
    else if |reply.value| >= GDB_BUF_MAX - 1 then (if host.assertions then Aborts else Refuses)
    else Answers(reply.value)
  }

  function QueryEffect(host: Host, body: seq<byte>): Effect
    requires body != []
  {
    var name := Name(body, ",:;", 1);
    if name == [] then Refuses
    else if name == Bytes("C") then Answers([])
    else if name == Bytes("Offsets") then Answers(Bytes("Text=0;Data=0;Bss=0"))
    else if name == Bytes("Rcmd") && 1 + |name| < |body| && body[1 + |name|] == ',' as byte
    then ReplyEffect(host, host.monitor(body[2 + |name|..]))
    else if name == Bytes("Supported") then Answers(Bytes("PacketSize=4000"))
    else if name == Bytes("Symbol") then Answers(OK)
    else if name == Bytes("Attached") || name == Bytes("TStatus") then Answers([])
    else UnknownEffect(host)
  }

  function VEffect(body: seq<byte>): Effect
    requires body != []
  {
    var name := Name(body, ";?", 1);
    if name == [] then Refuses else if name == Bytes("Kill") then Answers(OK) else Answers([])
  }

  // ----- All requests -----

  // An empty request is one that the bridge does not know.
  function EffectOf(host: Host, body: seq<byte>, stale: seq<byte>, cpu: Cpu, slots: seq<word>): Effect {
    if body == [] then UnknownEffect(host)
    else if body[0] == GDB_RSP_BREAK_CMD then Answers(STOP_REPLY)
    else
      match body[0] as char
      case '!' => Answers(OK)
      case 'H' => Answers(OK)
      case '?' => Answers(STOP_REPLY)
      case 'c' => if |body| == 1 then Resumes(false) else Refuses
      case 's' => if |body| == 1 then Resumes(true) else Refuses
      case 'k' => Ignores
      case 'm' => ReadEffect(host.readMem(body), cpu.mem)
      case 'M' => WriteEffect(host, body, stale, cpu)
      case 'z' => WatchpointEffect(host, false, body, slots)
      case 'Z' => WatchpointEffect(host, true, body, slots)
      case 'g' => ReplyEffect(host, RegistersText(cpu))
      case 'P' => if RegisterWritten(host, host.writeReg(body), cpu).None? then Refuses else Answers(OK)
      case 'q' => QueryEffect(host, body)
      case 'v' => VEffect(body)
      case 'D' => Answers([])
      case 'X' => Answers([])
      case _ => UnknownEffect(host)
  }

  // ----- Undefined behaviour -----

  // Whatever the rest of the buffer may hold.
  ghost predicate IsDefined(host: Host, body: seq<byte>, cpu: Cpu, slots: seq<word>, size: nat) {
    forall stale :: |stale| == size ==> EffectOf(host, body, stale, cpu, slots) != Overruns
  }

  // A read whose reply leaves its buffer; GuardIsSafe says which lengths can lead to that.
  predicate OverrunsReply(host: Host, body: seq<byte>, cpu: Cpu) {
    && body != [] && body[0] == 'm' as byte && host.readMem(body).Some?
    && var (addr, len) := host.readMem(body).value;
       len > 0 && FitsPacket(len) && !ReplyFits(cpu.mem, addr, len)
  }

  // A write without a colon, or with a negative length that gets through.
  predicate OverrunsRequest(host: Host, body: seq<byte>, cpu: Cpu) {
    && body != [] && body[0] == 'M' as byte && host.writeMem(body).Some?
    && var (addr, len) := host.writeMem(body).value;
       COLON in body ==> OverrunsVector(addr, len, body, cpu.mem, host.overflow, host.assertions)
  }

  // These two kinds of requests, and no others, can run into undefined behaviour.
  lemma WhatCanOverrun(host: Host, body: seq<byte>, cpu: Cpu, slots: seq<word>, size: nat)
    ensures IsDefined(host, body, cpu, slots, size)
       <==> !OverrunsReply(host, body, cpu) && !OverrunsRequest(host, body, cpu)
    ensures OverrunsReply(host, body, cpu) ==> host.readMem(body).value.1 >= 0x8000_0000
  {
    hide Name, Bytes, RegistersText, RegisterWritten, ReplyFits, FitsPacket, SlotsAfter, AllWritable, LoadBytes, HexOf,
         PlanWrite, OverrunsVector;
    var zeros := seq<byte>(size, _ => 0);
    if body != [] && body[0] == 'm' as byte && host.readMem(body).Some? {
      if OverrunsReply(host, body, cpu) {
        GuardIsSafe(host.readMem(body).value.1);
        assert EffectOf(host, body, zeros, cpu, slots) == Overruns;
      }
    } else if body != [] && body[0] == 'M' as byte && host.writeMem(body).Some? {
      var (addr, len) := host.writeMem(body).value;
      WriteIsDefined(addr, len, body, cpu.mem, host.overflow, host.assertions, size);
      forall stale
        ensures EffectOf(host, body, stale, cpu, slots) == Overruns
           <==> PlanWrite(addr, len, InBuffer(body, stale), |body|, cpu.mem, host.overflow, host.assertions)
                == Ends(Undefined)
      {
      }
    }
  }

  // M0,1 has no colon. With none in the rest of the buffer, either, the pointer to the digits is undefined.
  lemma WriteWithoutColon(host: Host, cpu: Cpu, slots: seq<word>, size: nat)
    requires host.writeMem(Bytes("M0,1")) == Some((0, 1))
    ensures EffectOf(host, Bytes("M0,1"), seq<byte>(size, _ => 0), cpu, slots) == Overruns
  {
    var zeros := seq<byte>(size, _ => 0);
    NotThere(InBuffer(Bytes("M0,1"), zeros), COLON, 0);
  }

  // M0,ffffffff has none, either, and a colon left behind it makes it announce -2 digits, which it has.
  lemma NegativeWriteWithoutColon(host: Host, cpu: Cpu, slots: seq<word>, rest: seq<byte>)
    requires host.writeMem(Bytes("M0,ffffffff")) == Some((0, -1))
    ensures EffectOf(host, Bytes("M0,ffffffff"), [COLON] + rest, cpu, slots)
         == if host.assertions then Aborts else Overruns
  {
    var body := Bytes("M0,ffffffff");
    FoundBehind(body + [0], [COLON] + rest, COLON, 0);
  }

  // The CPU after a request that does not resume it.
  ghost predicate CpuBecame(host: Host, body: seq<byte>, stale: seq<byte>, before: Cpu, after: Cpu) {
    if body == [] then after == before
    else if body[0] == 'M' as byte then
      after == before.(mem := after.mem, writeAddr := after.writeAddr)
          && Written(host, body, stale, before, after)
    else if body[0] == 'P' as byte then
      after == if RegisterWritten(host, host.writeReg(body), before).None? then before
               else RegisterWritten(host, host.writeReg(body), before).value
    else after == before
  }

  // While the target is running, only a break is expected.
  function RunningEffect(body: seq<byte>): Effect {
    if body != [] && body[0] == GDB_RSP_BREAK_CMD then Stops else Refuses
  }

  function RequestEffect(running: bool, host: Host, body: seq<byte>, stale: seq<byte>, cpu: Cpu,
                         slots: seq<word>): Effect
  {
    if running then RunningEffect(body) else EffectOf(host, body, stale, cpu, slots)
  }

  // Whether the target is taken to be running afterwards.
  function RunsAfter(effect: Effect, running: bool): bool {
    effect.Resumes? || (running && !effect.Stops?)
  }

  // The CPU and the slots for hardware breakpoints after a request.
  ghost predicate CpuTook(running: bool, host: Host, body: seq<byte>, stale: seq<byte>, before: Cpu,
                          slots: seq<word>, after: Cpu, slots': seq<word>)
  {
    if running then
      slots' == slots && after == if RunningEffect(body).Stops? then before.(stalled := true) else before
    else
      var effect := EffectOf(host, body, stale, before, slots);
      if effect.Resumes? then slots' == slots && after == LetRun(before, effect.step)
      else if body != [] && body[0] as char in {'z', 'Z'} then
        && SlotsBecame(host, body, body[0] as char == 'Z', slots, slots')
        && OnlySlotsChanged(before, |slots|, after) && (slots' == slots ==> after == before)
      else slots' == slots && CpuBecame(host, body, stale, before, after)
  }

  // The request that has come in, if any, and how it is acknowledged.
  function RequestIn(parsed: Parsed): Option<seq<byte>> {
    match parsed
    case Packet(body, _) => Some(body)
    case Break(_) => Some([GDB_RSP_BREAK_CMD])
    case _ => None
  }

  function Acknowledgement(parsed: Parsed): seq<Event> {
    if parsed.Packet? then [Acked] else []
  }

  // ----- Outcomes -----

  // How a handler ends: Threw is an exception, and the last two are the end of the program.
  datatype Ending = Done | Threw | Aborted | OutOfBounds

  function Finished(ok: bool): Ending {
    if ok then Done else Threw
  }

  predicate IsOver(r: Ending) {
    r == Aborted || r == OutOfBounds
  }

  // What an effect adds to the events of a session, and takes from the input: an answer has to be
  // acknowledged by the client's next byte.
  ghost predicate Took(e: Effect, r: Ending, input: seq<byte>, rest: seq<byte>, before: seq<Event>, after: seq<Event>) {
    match e
    case Answers(reply) =>
      r == Finished(Acknowledges(input)) && rest == BehindAck(input) && after == before + [Sent(reply)]
    case Resumes(_) => r == Done && rest == input && after == before + [Resumed]
    case Ignores => r == Done && rest == input && after == before
    case Refuses => r == Threw && rest == input && after == before
    case Stops =>
      r == Finished(Acknowledges(input)) && rest == BehindAck(input) && after == before + [Halted] + [Sent(STOP_REPLY)]
    case Aborts => r == Aborted && rest == input && after == before
    case Overruns => r == OutOfBounds && rest == input && after == before
  }

  lemma TookMore(e: Effect, r: Ending, input: seq<byte>, rest: seq<byte>, before: seq<Event>, after: seq<Event>)
    requires Took(e, r, input, rest, before, after)
    ensures before <= after
  {
  }

  // The same with the end of the connection, should the request fail.
  ghost predicate Concluded(e: Effect, connected: bool, r: Ending, input: seq<byte>, rest: seq<byte>,
                            before: seq<Event>, after: seq<Event>)
  {
    if IsOver(r) || connected then r != Threw && Took(e, r, input, rest, before, after)
    else
      && r == Done && after != [] && after[|after| - 1] == Detached
      && Took(e, Threw, input, rest, before, after[..|after| - 1])
  }
}

// dbg_api.cpp, register part: each function is one atomic operation of the debug unit,
// carried out bit by bit over JTAG.
module DbgApi {
  import opened Bits
  import opened Clocks
  import opened Tap
  import opened Cpu
  import opened DebugUnit
  import opened Target
  import opened ChainCommands
  import opened Receivers

  // Between operations: Run-Test/Idle, with the debug module selected.
  predicate Ready(t: Target) {
    t.tap == RunTestIdle && DebugSelected(t)
  }

  // A command code above a register number: (code << 16) | reg
  function CommandWord(code: nat, reg: half): word
    requires code < 8
  {
    PowersOfTwo();
    ShlLessThan(code, 16, 3);
    assert Pow2(19) == 8 * Pow2(16);
    OrWord(Shl(code, 16), reg)
  }

  lemma CommandWordBit(code: nat, reg: half, k: nat)
    requires code < 8
    ensures Bit(CommandWord(code, reg), k) == if k < 16 then Bit(reg, k) else Bit(code, k - 16)
  {
    OrBit(Shl(code, 16), reg, k);
    ShlBit(code, 16, k);
    PowersOfTwo();
    if k >= 16 { HighBit(reg, 16, k); }
  }

  // After a command word has gone through, the last 19 bits are its register and its code.
  lemma DecodeCommandWord(shift: ShiftRegister, code: nat, reg: half)
    requires code < 8
    requires forall k :: 0 <= k < 19 ==> shift[32 + k] == Bit(CommandWord(code, reg), k)
    ensures FromBits(shift[32..48]) == reg && FromBits(shift[48..51]) == code
  {
    PowersOfTwo();
    forall k | 0 <= k < 16
      ensures shift[32..48][k] == Bit(reg, k)
    {
      CommandWordBit(code, reg, k);
    }
    FromBitsIs(shift[32..48], reg);
    forall k | 0 <= k < 3
      ensures shift[48..51][k] == Bit(code, k)
    {
      CommandWordBit(code, reg, 16 + k);
      assert shift[32 + (16 + k)] == Bit(CommandWord(code, reg), 16 + k);
    }
    FromBitsIs(shift[48..51], code);
  }

  function After(shift: ShiftRegister, data: seq<word>, len: nat): ShiftRegister
    requires Holds(data, len)
  {
    (shift + StreamBits(data, len))[len..]
  }

  lemma DecodeWrite(shift: ShiftRegister, reg: half, value: word)
    ensures Decode(After(shift, [value, CommandWord(DEBUG_CMD_WRITE_CPU_SPR, reg)], 51)) == SprWrite(reg, value)
  {
    var data := [value, CommandWord(DEBUG_CMD_WRITE_CPU_SPR, reg)];
    var after := After(shift, data, 51);
    assert after == StreamBits(data, 51);
    DecodeCommandWord(after, DEBUG_CMD_WRITE_CPU_SPR, reg);
    PowersOfTwo();
    FromBitsIs(after[0..32], value);
  }

  lemma DecodeRead(shift: ShiftRegister, reg: half)
    ensures Decode(After(shift, [CommandWord(DEBUG_CMD_READ_CPU_SPR, reg)], 19)) == SprRead(reg)
  {
    var data := [CommandWord(DEBUG_CMD_READ_CPU_SPR, reg)];
    assert After(shift, data, 19)[32..] == StreamBits(data, 19);
    DecodeCommandWord(After(shift, data, 19), DEBUG_CMD_READ_CPU_SPR, reg);
  }

  lemma DecodeIsStalled(shift: ShiftRegister)
    ensures Decode(After(shift, [DEBUG_CMD_IS_CPU_STALLED], DEBUG_CMD_LEN)) == StallQuery
  {
    var after := After(shift, [DEBUG_CMD_IS_CPU_STALLED], DEBUG_CMD_LEN);
    PowersOfTwo();
    FromBitsIs(after[48..51], DEBUG_CMD_IS_CPU_STALLED);
  }

  // Shifts a command in, triggers it on Update-DR, and goes back to read the reply.
  method SendCommand(port: JtagPort, data: seq<word>, len: nat, ghost cmd: Command)
    requires Ready(port.target) && 0 < len && Holds(data, len)
    requires Decode(After(port.target.unit.shift, data, len)) == cmd
    modifies port`target
    ensures port.target == old(port.target).(tap := ShiftDr, unit := port.target.unit)
    ensures Executed(old(port.target.unit), cmd, port.target.unit) && port.target.unit.pos == 0
    ensures port.target.unit.delay == old(port.target.unit.delay)
  {
    port.MoveFromIdleToShiftDr();
    StreamShift(port.target, data, len, true);
    port.WriteStream(data, len, true);
    port.MoveFromExit1ToIdle();
    port.MoveFromIdleToShiftDr();
  }

  // Reads the next bit of the reply into a byte.
  method ReadReplyBit(port: JtagPort, before: byte) returns (bitRead: byte)
    requires port.target.tap == ShiftDr && DebugSelected(port.target)
    modifies port`target
    ensures bitRead
         == ReceivedByte(port.clears, before, ReplyBit(old(port.target.unit.reply), old(port.target.unit.pos)))
    ensures port.target == old(port.target).(unit := port.target.unit)
    ensures port.target.unit == old(port.target.unit).(shift := port.target.unit.shift,
                                                       pos := old(port.target.unit.pos) + 1)
  {
    bitRead := port.ReadWriteBit(ZERO_BIT, before);
  }

  // The pass, from i on, that the wait for an acknowledge bit ends with: the one that reads it, or an
  // earlier one in which something shows through.
  function AckPass(delay: nat, clears: bool, acks: nat -> byte, i: nat): (n: nat)
    ensures i <= delay ==> i <= n <= delay
    decreases delay - i
  {
    if i >= delay || ShowsThrough(clears, acks(i)) then i else AckPass(delay, clears, acks, i + 1)
  }

  lemma {:induction false} CleanAck(delay: nat, clears: bool, acks: nat -> byte, i: nat)
    requires i <= delay && forall k :: 0 <= k < delay ==> !ShowsThrough(clears, acks(k))
    ensures AckPass(delay, clears, acks, i) == delay
    decreases delay - i
  {
    if i < delay {
      CleanAck(delay, clears, acks, i + 1);
    }
  }

  // The wait is right for every delay exactly when nothing shows through in any pass.
  lemma WaitIsRight(clears: bool, acks: nat -> byte)
    ensures (forall delay :: AckPass(delay, clears, acks, 0) == delay) <==> clears || forall i :: acks(i) / 2 == 0
  {
    if clears || forall i :: acks(i) / 2 == 0 {
      forall delay ensures AckPass(delay, clears, acks, 0) == delay {
        CleanAck(delay, clears, acks, 0);
      }
    } else {
      var i: nat :| acks(i) / 2 != 0;
      EarlyAck(i + 1, clears, acks, 0, i);
    }
  }

  lemma {:induction false} EarlyAck(delay: nat, clears: bool, acks: nat -> byte, k: nat, i: nat)
    requires k <= i < delay && ShowsThrough(clears, acks(i))
    ensures AckPass(delay, clears, acks, k) <= i
    decreases i - k
  {
    if k < i && !ShowsThrough(clears, acks(k)) {
      EarlyAck(delay, clears, acks, k + 1, i);
    }
  }

  // A byte that held 2 ends the wait before the CPU has answered.
  lemma WaitCanEndEarly(acks: nat -> byte)
    requires acks(0) == 2
    ensures AckPass(1, false, acks, 0) == 0
  {
  }

  // Returns the error bit. The loop takes as many turns as the acknowledge delay, unless something
  // shows through.
  method WaitForCpuAck(port: JtagPort) returns (error: bool)
    requires port.target.tap == ShiftDr && DebugSelected(port.target)
    requires port.target.unit.reply.Ack? && port.target.unit.pos == 0
    modifies port`target
    ensures var n, reply := |old(port.target.unit.log)|, old(port.target.unit.reply);
            var pass := AckPass(reply.delay, port.clears, port.Acks(n), 0);
            && port.target.unit == old(port.target.unit).(shift := port.target.unit.shift, pos := pass + 2)
            && error == (ReplyBit(reply, pass + 1) || ShowsThrough(port.clears, port.stack.flags(n)))
    ensures port.Clean() ==> error == old(port.target.unit.reply.error)
    ensures port.Clean() ==> port.target.unit.pos == old(port.target.unit.reply.delay) + 2
    ensures port.target == old(port.target).(unit := port.target.unit)
  {
    ghost var delay := port.target.unit.reply.delay;
    ghost var n, acks := |port.target.unit.log|, port.Acks(|port.target.unit.log|);
    ghost var last := AckPass(delay, port.clears, acks, 0);
    var pass := 0;
    var acknowledged := false;
    while !acknowledged
      invariant port.target == old(port.target).(unit := port.target.unit)
      invariant port.target.unit == old(port.target.unit).(shift := port.target.unit.shift, pos := pass)
      invariant if acknowledged then pass == last + 1
               else pass <= delay && AckPass(delay, port.clears, acks, pass) == last
      decreases delay + 1 - pass
    {
      var before := port.stack.acks(|port.target.unit.log|, pass);
      TestedByte(port.clears, before, ReplyBit(port.target.unit.reply, pass));
      var bitRead := ReadReplyBit(port, before);
      acknowledged := bitRead != 0;
      pass := pass + 1;
    }
    if port.Clean() {
      CleanAck(delay, port.clears, acks, 0);
    }
    TestedByte(port.clears, port.stack.flags(n), ReplyBit(port.target.unit.reply, last + 1));
    var errorBitRead := ReadReplyBit(port, port.stack.flags(|port.target.unit.log|));
    error := errorBitRead != 0;
  }

  lemma ReplyValue(t: Target, bits: seq<bool>)
    requires t.tap == ShiftDr && DebugSelected(t) && |bits| == 32
    requires t.unit.reply.Ack? && t.unit.pos == t.unit.reply.delay + 2
    ensures FromBits(ShiftedOut(t, bits)) == t.unit.reply.value
  {
    PowersOfTwo();
    forall k | 0 <= k < 32
      ensures ShiftedOut(t, bits)[k] == Bit(t.unit.reply.value, k)
    {
      assert ReplyBit(t.unit.reply, t.unit.pos + k) == Bit(t.unit.reply.value, k);
    }
    FromBitsIs(ShiftedOut(t, bits), t.unit.reply.value);
  }

  // Reads the 32-bit value that follows the error bit.
  method ReadSprValue(port: JtagPort, before: word) returns (value: word)
    requires port.target.tap == ShiftDr && DebugSelected(port.target) && port.target.unit.reply.Ack?
    modifies port`target
    ensures old(port.target.unit.pos) == old(port.target.unit.reply.delay) + 2 ==>
              value == old(port.target.unit.reply.value)
    ensures port.target == old(port.target).(unit := port.target.unit)
    ensures port.target.unit == old(port.target.unit).(shift := port.target.unit.shift, pos := port.target.unit.pos)
  {
    ghost var bits := StreamBits([0], 32);
    StreamShift(port.target, [0], 32, false);
    FullWord(port.clears, before, ShiftedOut(port.target, bits));
    if port.target.unit.pos == port.target.unit.reply.delay + 2 {
      ReplyValue(port.target, bits);
    }
    var data := port.ReadWriteStream([0], [before], 32, false);
    value := data[0];
  }

  // What a complete operation amounts to: one command and a closing NOP.
  ghost predicate Completed(t0: Target, cmd: Command, t1: Target) {
    t1 == t0.(unit := t1.unit) &&
    t1.unit.cpu == Exec(t0.unit.cpu, cmd).cpu &&
    t1.unit.log == t0.unit.log + [cmd, Nop] &&
    t1.unit.delay == t0.unit.delay
  }

  method ReadSpr(port: JtagPort, reg: half) returns (error: bool, value: word)
    requires Ready(port.target)
    modifies port`target
    ensures Completed(old(port.target), SprRead(reg), port.target)
    ensures var outcome := ReadRegister(old(port.target.unit.cpu), reg);
            port.Clean() ==> (error, value) == (outcome.error, outcome.value)
  {
    DecodeRead(port.target.unit.shift, reg);
    SendCommand(port, [CommandWord(DEBUG_CMD_READ_CPU_SPR, reg)], 19, SprRead(reg));
    error := WaitForCpuAck(port);
    if error {
      value := 0;
    } else {
      value := ReadSprValue(port, port.stack.values(|port.target.unit.log|));
    }
    port.FinishAndLeaveNop();
  }

  // The part that writing shares with writing and reading back.
  method StartWriteSpr(port: JtagPort, reg: half, value: word) returns (error: bool)
    requires Ready(port.target)
    modifies port`target
    ensures port.target == old(port.target).(tap := ShiftDr, unit := port.target.unit)
    ensures Executed(old(port.target.unit), SprWrite(reg, value), port.target.unit)
    ensures port.target.unit.delay == old(port.target.unit.delay)
    ensures port.Clean() ==> port.target.unit.pos == port.target.unit.reply.delay + 2
    ensures port.Clean() ==> error == port.target.unit.reply.error
  {
    DecodeWrite(port.target.unit.shift, reg, value);
    SendCommand(port, [value, CommandWord(DEBUG_CMD_WRITE_CPU_SPR, reg)], 51, SprWrite(reg, value));
    error := WaitForCpuAck(port);
  }

  method WriteSpr(port: JtagPort, reg: half, value: word) returns (error: bool)
    requires Ready(port.target)
    modifies port`target
    ensures Completed(old(port.target), SprWrite(reg, value), port.target)
    ensures port.Clean() ==> error == WriteRegister(old(port.target.unit.cpu), reg, value).error
  {
    error := StartWriteSpr(port, reg, value);
    port.FinishAndLeaveNop();
  }

  // Writes a register and reads the new value in a single transaction.
  method WriteAndReadSpr(port: JtagPort, reg: half, value: word) returns (error: bool, valueRead: word)
    requires Ready(port.target)
    modifies port`target
    ensures Completed(old(port.target), SprWrite(reg, value), port.target)
    ensures var outcome := WriteRegister(old(port.target.unit.cpu), reg, value);
            port.Clean() ==> error == outcome.error && valueRead == if error then 0 else outcome.value
  {
    error := StartWriteSpr(port, reg, value);
    if error {
      valueRead := 0;
    } else {
      valueRead := ReadSprValue(port, port.stack.values(|port.target.unit.log|));
    }
    port.FinishAndLeaveNop();
  }

  method IsCpuStalled(port: JtagPort) returns (stalled: bool)
    requires Ready(port.target)
    modifies port`target
    ensures Completed(old(port.target), StallQuery, port.target)
    ensures var before := port.stack.flags(|old(port.target.unit.log)| + 1);
            stalled == (port.target.unit.cpu.stalled || ShowsThrough(port.clears, before))
    ensures port.Clean() ==> stalled == port.target.unit.cpu.stalled
  {
    DecodeIsStalled(port.target.unit.shift);
    SendCommand(port, [DEBUG_CMD_IS_CPU_STALLED], DEBUG_CMD_LEN, StallQuery);
    var before := port.stack.flags(|port.target.unit.log|);
    TestedByte(port.clears, before, port.target.unit.cpu.stalled);
    var bitRead := ReadReplyBit(port, before);
    stalled := bitRead != 0;
    port.FinishAndLeaveNop();
  }
}

// chain_commands.cpp: moving the TAP controller, loading instructions and
// finding out which devices are in the chain.
module ChainCommands {
  import opened Bits
  import opened Clocks
  import opened Tap
  import opened DebugUnit
  import opened Target
  import opened IrPacking
  import opened Enumeration
  import opened Receivers

  const MAX_BITS_PER_CHUNK: nat := 2048

  const ZERO_BUFFER: seq<word> := seq<word>(MAX_BITS_PER_CHUNK / 32, _ => 0)

  const ZERO_BIT := Packet(false, false, false)
  const TMS := Packet(false, true, false)
  const TRST := Packet(false, false, true)

  // One bit as sent by the bridge. A wired TRST line resets the TAP whatever TMS says.
  function SendPacket(t: Target, p: Packet): Target {
    if p.trst && t.trstWired then Enter(t, TestLogicReset) else Step(t, Clock(p.tms, p.tdo))
  }

  // Everything about the target that no clock event can change.
  ghost predicate SameHardware(t: Target, u: Target) {
    t.trstWired == u.trstWired && t.devices == u.devices && t.under == u.under && t.irCapture == u.irCapture &&
    t.debugInstruction == u.debugInstruction
  }

  lemma SendKeepsHardware(t: Target, p: Packet)
    ensures SameHardware(SendPacket(t, p), t)
    ensures !p.trst ==> SendPacket(t, p).tap == Next(t.tap, p.tms)
    ensures !p.trst && Next(t.tap, p.tms) == TestLogicReset ==> SendPacket(t, p).selection == PowerUp
  {
    hide ShiftUnit, Update, CaptureDrPath;
  }

  // Run-Test/Idle left for Shift-DR.
  function Capturing(t: Target): Target {
    if DebugSelected(t) then t.(tap := ShiftDr, unit := t.unit.(pos := 0))
    else t.(tap := ShiftDr, dr := CaptureDrPath(t))
  }

  // The first 32 bits that come out then.
  function FirstWord(t: Target): word {
    PowersOfTwo();
    FromBits(ShiftedOut(Capturing(t), StreamBits([0], 32)))
  }

  // With one device in the path, that is its IDCODE, and zero if it is in BYPASS.
  lemma FirstWordOfDevice(t: Target, d: Device)
    requires t.selection.Loaded? && !DebugSelected(t) && t.under(t.selection.instruction) == [d]
    ensures FirstWord(t) == if d.IdCode? then d.code else 0
  {
    hide FromBits, Pow2;
    var zeros := StreamBits([0], 32);
    assert CapturedPath([d]) == Captured(d) + CapturedPath([d][1..]);
    assert CapturedPath([d]) == Captured(d);
    var out := ShiftedOut(Capturing(t), zeros);
    var code: word := if d.IdCode? then d.code else 0;
    PowersOfTwo();
    forall k | 0 <= k < 32 ensures out[k] == Bit(code, k) {
      ZeroBit(k);
    }
    FromBitsIs(out, code);
  }

  lemma ZerosDecodeAsNop(shift: ShiftRegister)
    ensures Decode((shift + StreamBits(ZERO_BUFFER, DEBUG_CMD_LEN))[DEBUG_CMD_LEN..]) == Nop
  {
    var after: ShiftRegister := (shift + StreamBits(ZERO_BUFFER, DEBUG_CMD_LEN))[DEBUG_CMD_LEN..];
    forall k | 0 <= k < DEBUG_CMD_LEN
      ensures after[48 + k] == Bit(0, k)
    {
      ZeroBit(k);
    }
    FromBitsIs(after[48..51], 0);
  }

  // The bridge's end of the JTAG cable. A stream transfer is the sequence of clock events
  // StreamClocks; the cable drivers are proved to produce that sequence.
  class JtagPort {
    var target: Target
    var irSize: nat
    var irPrefixBits: nat
    var irPostfixBits: nat
    var debugCommand: word
    var irChain: seq<word>
    const oversize: OversizeShift
    const clears: bool  // whether the cable clears what it receives data into
    const stack: Stack

    constructor (t: Target, irSize: nat, irPrefixBits: nat, irPostfixBits: nat, debugCommand: word,
                 oversize: OversizeShift, clears: bool, stack: Stack)
      ensures target == t && this.irSize == irSize && this.irPrefixBits == irPrefixBits
      ensures this.irPostfixBits == irPostfixBits && this.debugCommand == debugCommand
      ensures this.clears == clears && this.stack == stack
    {
      this.clears, this.stack := clears, stack;
      target := t;
      this.irSize, this.irPrefixBits, this.irPostfixBits := irSize, irPrefixBits, irPostfixBits;
      this.debugCommand, this.oversize := debugCommand, oversize;
      irChain := [];
    }

    // ----- Single bits and streams -----

    method WriteBit(p: Packet)
      modifies `target
      ensures target == SendPacket(old(target), p)
    {
      target := SendPacket(target, p);
    }

    method ReadWriteBit(p: Packet, before: byte) returns (bitIn: byte)
      requires !p.trst
      modifies `target
      ensures target == SendPacket(old(target), p)
      ensures bitIn == ReceivedByte(clears, before, Tdo(old(target), Clock(p.tms, p.tdo)))
    {
      bitIn := ReceivedByte(clears, before, Tdo(target, Clock(p.tms, p.tdo)));
      target := SendPacket(target, p);
    }

    // The clock events of a stream, and the levels of TDO at them.
    method ClockStream(outData: seq<word>, len: nat, lastTms: bool) returns (received: seq<bool>)
      requires Holds(outData, len) && InShift(target.tap)
      modifies `target
      ensures target == Run(old(target), StreamClocks(outData, len, lastTms))
      ensures received == Tdos(old(target), StreamClocks(outData, len, lastTms))
    {
      var cs := StreamClocks(outData, len, lastTms);
      received := [];
      for i := 0 to len
        invariant target == Run(old(target), cs[..i])
        invariant received == Tdos(old(target), cs[..i])
      {
        RunOneMore(old(target), cs, i);
        assert cs[i] == Clock(cs[i].tms, cs[i].tdi);
        received := received + [Tdo(target, cs[i])];
        target := SendPacket(target, Packet(cs[i].tdi, cs[i].tms, false));
      }
      assert cs[..len] == cs;
    }

    method ReadWriteStream(outData: seq<word>, before: seq<word>, len: nat, lastTms: bool) returns (inData: seq<word>)
      requires Holds(outData, len) && |before| == (len + 31) / 32 && InShift(target.tap)
      modifies `target
      ensures target == Run(old(target), StreamClocks(outData, len, lastTms))
      ensures inData == ReceivedWords(clears, before, Tdos(old(target), StreamClocks(outData, len, lastTms)))
    {
      var received := ClockStream(outData, len, lastTms);
      inData := ReceivedWords(clears, before, received);
    }

    method WriteStream(outData: seq<word>, len: nat, lastTms: bool)
      requires len > 0 && Holds(outData, len) && InShift(target.tap)
      modifies `target
      ensures target == Run(old(target), StreamClocks(outData, len, lastTms))
    {
      var _ := ClockStream(outData, len, lastTms);
    }

    // ----- Moves between TAP states -----

    // From any state at all, with TRST wired or not.
    method TapReset()
      modifies `target
      ensures target.tap == RunTestIdle && target.selection == PowerUp
      ensures SameHardware(target, old(target))
    {
      WriteBit(ZERO_BIT);
      SendKeepsHardware(old(target), ZERO_BIT);
      ghost var start := target.tap;
      for i := 0 to 8
        invariant target.tap == AfterOnes(start, i)
        invariant target.tap == TestLogicReset ==> target.selection == PowerUp
        invariant SameHardware(target, old(target))
      {
        SendKeepsHardware(target, TMS);
        WriteBit(TMS);
      }
      OnesReset(start, 8);
      WriteBit(TRST);
      WriteBit(ZERO_BIT);
    }

    method MoveFromIdleToShiftDr()
      requires target.tap == RunTestIdle
      modifies `target
      ensures target == if DebugSelected(old(target))
                        then old(target).(tap := ShiftDr, unit := old(target).unit.(pos := 0))
                        else old(target).(tap := ShiftDr, dr := CaptureDrPath(old(target)))
    {
      WriteBit(TMS);
      WriteBit(ZERO_BIT);
      WriteBit(ZERO_BIT);
    }

    method MoveFromExit1ToIdle()
      requires target.tap == Exit1Dr
      modifies `target
      ensures target == if DebugSelected(old(target))
                        then old(target).(tap := RunTestIdle, unit := Update(old(target).unit))
                        else old(target).(tap := RunTestIdle)
    {
      WriteBit(TMS);
      WriteBit(ZERO_BIT);
    }

    method MoveFromIdleToShiftIr()
      requires target.tap == RunTestIdle
      modifies `target
      ensures target == old(target).(tap := ShiftIr, ir := old(target).irCapture)
    {
      WriteBit(TMS);
      WriteBit(TMS);
      WriteBit(ZERO_BIT);
      WriteBit(ZERO_BIT);
    }

    method MoveFromExit1IrToIdle()
      requires target.tap == Exit1Ir
      modifies `target
      ensures target == old(target).(tap := RunTestIdle, selection := Loaded(old(target).ir))
    {
      WriteBit(TMS);
      WriteBit(ZERO_BIT);
    }

    // ----- Instructions -----

    function ChainSize(): nat
      reads this
    {
      irSize + irPrefixBits + irPostfixBits
    }

    method BuildIrChain(opcode: word)
      modifies `irChain
      ensures irChain == IrWords(opcode, irSize, irPrefixBits, irPostfixBits, oversize)
    {
      hide FirstIrWord, SpillIrWord;
      irChain := seq<word>(ChainWords(ChainSize()), _ => 0);
      for i := 0 to ChainWords(ChainSize())
        invariant |irChain| == ChainWords(ChainSize())
        invariant forall j :: 0 <= j < i ==> irChain[j] == ALL_ONES
      {
        irChain := irChain[i := ALL_ONES];
      }
      var startOffset := irPostfixBits / 32;
      var startShift := irPostfixBits - startOffset * 32;
      irChain := irChain[startOffset := FirstIrWord(opcode, startShift, irSize, oversize)];
      if startShift + irSize > 32 {
        irChain := irChain[startOffset + 1 := SpillIrWord(opcode, startShift, irSize, oversize)];
      }
    }

    // Scans exactly the bits of the prepared stream into the instruction registers of the chain.
    method SetIr(opcode: word)
      requires target.tap == RunTestIdle && ChainSize() >= 1
      modifies `target, `irChain
      ensures irChain == IrWords(opcode, irSize, irPrefixBits, irPostfixBits, oversize)
      ensures target == old(target).(tap := RunTestIdle, ir := target.ir, selection := Loaded(target.ir))
      ensures target.ir == Scanned(target.irCapture, StreamBits(irChain, ChainSize()))
    {
      hide IrWords, StreamClocks;
      BuildIrChain(opcode);
      MoveFromIdleToShiftIr();
      InstructionScan(target, irChain, ChainSize());
      WriteStream(irChain, ChainSize(), true);
      MoveFromExit1IrToIdle();
    }

    // The instruction registers of the chain after the scan of an opcode for the target.
    function Instruction(opcode: word): (instruction: seq<bool>)
      reads this
      ensures |instruction| == |target.irCapture|
    {
      Scanned(target.irCapture, StreamBits(IrWords(opcode, irSize, irPrefixBits, irPostfixBits, oversize), ChainSize()))
    }

    // With an opcode that selects the debug module and BYPASS everywhere else, it is selected.
    method SetIrToCpuDebugModule()
      requires target.tap == RunTestIdle && ChainSize() >= 1
      modifies `target, `irChain
      ensures target == old(target).(ir := target.ir, selection := Loaded(Instruction(debugCommand)))
      ensures target.tap == RunTestIdle
      ensures irPostfixBits % 32 + irSize < 32 && SelectsDebug(target.debugInstruction) ==>
                |target.irCapture| == ChainSize() ==> DebugSelected(target)
    {
      SetIr(debugCommand);
      if irPostfixBits % 32 + irSize < 32 && SelectsDebug(target.debugInstruction)
         && |target.irCapture| == ChainSize() {
        IrWordsCarryShort(debugCommand, irSize, irPrefixBits, irPostfixBits, oversize);
        ScanReplaces(ChainSize(), StreamBits(irChain, ChainSize()));
        assert target.ir == target.debugInstruction;
      }
    }

    ghost predicate SelectsDebug(instruction: seq<bool>)
      reads this
    {
      |instruction| == ChainSize() &&
      forall k :: 0 <= k < ChainSize() ==> instruction[k] == IrBit(debugCommand, irPostfixBits, irSize, k)
    }

    // Reads 32 bits of the data path.
    method ReadFirstWord() returns (w: word)
      requires target.tap == RunTestIdle
      modifies `target
      ensures target == old(target).(dr := target.dr, unit := target.unit)
      ensures w == FirstWord(old(target))
    {
      hide ReceivedWord, Stray, StreamClocks, Run, Tdos, ShiftedOut, CaptureDrPath;
      MoveFromIdleToShiftDr();
      StreamShift(target, [0], 32, true);
      FullWord(clears, stack.idRead, ShiftedOut(target, StreamBits([0], 32)));
      var data := ReadWriteStream([0], [stack.idRead], 32, true);
      w := data[0];
      MoveFromExit1ToIdle();
    }

    // jtag_get_idcode: the word that comes out first under an instruction.
    method GetIdCode(opcode: word) returns (idCode: word)
      requires target.tap == RunTestIdle && ChainSize() >= 1
      modifies `target, `irChain
      ensures target
           == old(target).(ir := target.ir, selection := Loaded(target.ir), dr := target.dr, unit := target.unit)
      ensures target.ir == Instruction(opcode)
      ensures idCode == FirstWord(old(target).(ir := target.ir, selection := Loaded(target.ir)))
    {
      SetIr(opcode);
      idCode := ReadFirstWord();
    }

    // ----- Ending a debug operation -----

    // Longer runs of zeros are asserted not to occur.
    method ShiftZerosIn(count: nat, lastTms: bool)
      requires 0 < count <= MAX_BITS_PER_CHUNK && InShift(target.tap)
      modifies `target
      ensures target == Run(old(target), StreamClocks(ZERO_BUFFER, count, lastTms))
    {
      WriteStream(ZERO_BUFFER, count, lastTms);
    }

    // Whatever was in the shift register, the closing Update-DR sees a NOP.
    method FinishAndLeaveNop()
      requires target.tap == ShiftDr && DebugSelected(target)
      modifies `target
      ensures target == old(target).(tap := RunTestIdle, unit := target.unit)
      ensures Executed(old(target).unit, Nop, target.unit) && target.unit.delay == old(target).unit.delay
    {
      ghost var zeros := StreamBits(ZERO_BUFFER, DEBUG_CMD_LEN);
      StreamShift(target, ZERO_BUFFER, DEBUG_CMD_LEN, true);
      ZerosDecodeAsNop(target.unit.shift);
      ShiftZerosIn(DEBUG_CMD_LEN, true);
      assert target.unit == ShiftUnit(old(target).unit, zeros);
      MoveFromExit1ToIdle();
    }

    // ----- Enumeration -----

    // One exchange of enumeration: bits out of the chain, which has put out n so far, for bits of the marker.
    method ExchangeMarkerBits(invalidCode: word, before: word, len: nat, ghost path: seq<bool>, ghost n: nat,
                              ghost bits: seq<bool>)
      returns (value: word, rest: word)
      requires target.tap == ShiftDr && !DebugSelected(target) && 0 < len <= 32
      requires target.dr == Fed(path, n)[n..] && invalidCode == MarkerRest(n) && bits == Fed(path, n + len)[n..n + len]
      modifies `target
      ensures target == old(target).(dr := Fed(path, n + len)[n + len..])
      ensures value == ReceivedWord(clears, before, bits)
      ensures rest == MarkerRest(n + len)
    {
      MarkerShift(target, path, n, n, len);
      var data := ReadWriteStream([invalidCode], [before], len, false);
      value := data[0];
      rest := ShrWord(invalidCode, len);
    }

    method LeaveShiftDr()
      requires target.tap == ShiftDr && !DebugSelected(target)
      modifies `target
      ensures target == old(target).(tap := RunTestIdle, dr := target.dr)
    {
      WriteBit(TMS);
      assert target.tap == Exit1Dr;
      MoveFromExit1ToIdle();
    }

    // What shows through behind the manufacturer field in each pass.
    ghost function Strays(): nat -> word {
      StraysOf(clears, stack.manufacturers)
    }

    // The rest of a pass of the enumeration loop, once a '1' start bit has been read.
    method ReadIdCode(invalidCode: word, pass: nat, ghost path: seq<bool>, ghost n: nat, ghost idCode: word)
      returns (done: bool, code: word, rest: word)
      requires target.tap == ShiftDr && !DebugSelected(target)
      requires target.dr == Fed(path, n + 1)[n + 1..] && invalidCode == MarkerRest(n + 1)
      requires Shows(path, n, IdCode(idCode)) && idCode % 2 == 1
      modifies `target
      ensures target == old(target).(dr := target.dr)
      ensures done <==> Ends(IdCode(idCode), Strays()(pass))
      ensures !done ==> code == ReadAs(IdCode(idCode), Strays()(pass)) && rest == MarkerRest(n + 32)
      ensures !done ==> target.dr == Fed(path, n + 32)[n + 32..]
    {
      hide Shows, MarkerRest, Ends, ReadAs, Fed, ToBits, ReceivedWord, Stray;
      var manufacturer, high;
      ShownParts(path, n, idCode, n + 32);
      FedPart(path, n + 12, n + 32, n + 1, n + 12);
      ghost var bits := ToBits(idCode, 32);
      manufacturer, rest := ExchangeMarkerBits(invalidCode, stack.manufacturers(pass), IDCODE_MANUFACTURER_ID_BIT_COUNT,
                                               path, n + 1, bits[1..12]);
      ManufacturerRead(clears, stack.manufacturers(pass), idCode, manufacturer);
      done, code := manufacturer == DONE_CODE, IDCODE_INVALID;
      if !done {
        high, rest := ExchangeMarkerBits(rest, stack.rests(pass), 20, path, n + 12, bits[12..32]);
        code := JoinCode(high, manufacturer);
        CodeRead(clears, stack.manufacturers(pass), stack.rests(pass), idCode, manufacturer, high);
      }
    }

    // One pass of the enumeration loop, when the chain shows a device.
    method ProbeDevice(invalidCode: word, pass: nat, ghost path: seq<bool>, ghost n: nat, ghost shown: Device)
      returns (startBit: byte, done: bool, code: word, rest: word)
      requires target.tap == ShiftDr && !DebugSelected(target)
      requires target.dr == Fed(path, n)[n..] && invalidCode == MarkerRest(n) && Shows(path, n, shown)
      modifies `target
      ensures startBit == (if shown.IdCode? then 1 else 0) && (done <==> Ends(shown, Strays()(pass)))
      ensures !done ==> code == ReadAs(shown, Strays()(pass)) && rest == MarkerRest(n + Length(shown))
      ensures target == old(target).(dr := target.dr)
      ensures !done ==> target.dr == Fed(path, n + Length(shown))[n + Length(shown)..]
    {
      hide MarkerRest, Fed, Low, Shr, Or, Shl;
      MarkerShiftBit(target, path, n, n);
      FedBit(path, n + 1, n);
      assert shown.IdCode? ==> OutBit(path, n + 0) == Bit(shown.code, 0);
      startBit := ReadWriteBit(Packet(invalidCode % 2 == 1, false, false), 0);
      rest := ShrWord(invalidCode, 1);
      if startBit == 0 {
        done, code := false, IDCODE_INVALID;
      } else {
        done, code, rest := ReadIdCode(rest, pass, path, n, shown.code);
      }
    }

    // The enumeration loop: up to 1024 codes, and whether any bit read was a '1'.
    method ReadCodes() returns (codes: seq<word>, oneRead: bool)
      requires target.tap == ShiftDr && !DebugSelected(target)
      requires target.dr == CapturedPath(target.devices)
      requires forall i :: 0 <= i < |target.devices| ==> ValidDevice(target.devices[i])
      modifies `target
      ensures target == old(target).(dr := target.dr)
      ensures var n := Passes(target.devices, Strays(), 0);
              && codes == CodesRead(target.devices, Strays(), n)
              && oneRead == OneSeen(target.devices, if n < MAX_DEVICE_COUNT then n + 1 else n)
    {
      hide Fed, CapturedPath, MarkerRest, Shows, Ends, ReadAs, Passes, OneSeen, CodesRead, Shown;
      codes, oneRead := [], false;
      var invalidCode: word := InitialMarker();
      ghost var devices, path, sent := target.devices, CapturedPath(target.devices), 0;
      NothingFed(path);
      NoPass(devices, Strays());
      while |codes| < MAX_DEVICE_COUNT
        invariant |codes| <= MAX_DEVICE_COUNT && sent == StartOf(devices, |codes|)
        invariant Passes(devices, Strays(), |codes|) == Passes(devices, Strays(), 0)
        invariant codes == CodesRead(devices, Strays(), |codes|) && oneRead == OneSeen(devices, |codes|)
        invariant invalidCode == MarkerRest(sent) && target == old(target).(dr := Fed(path, sent)[sent..])
        decreases MAX_DEVICE_COUNT - |codes|
      {
        ghost var shown := Shown(devices, |codes|);
        ShownComesOut(devices, |codes|);
        OneMorePass(devices, Strays(), |codes|);
        var startBit, done, code;
        startBit, done, code, invalidCode := ProbeDevice(invalidCode, |codes|, path, sent, shown);
        oneRead := oneRead || startBit != 0;
        if done {
          break;
        }
        sent := sent + Length(shown);
        codes := codes + [code];
      }
    }

    // 7 bits with value '1'.
    static function InitialMarker(): (w: word)
      ensures w == MarkerRest(0)
    {
      0x7f
    }

    // Reports the devices of the chain, or fails, as Reported says of the devices and of what the
    // receiving variables let through.
    method EnumerateChain() returns (result: Enumeration)
      requires target.tap == RunTestIdle && target.selection == PowerUp
      requires forall i :: 0 <= i < |target.devices| ==> ValidDevice(target.devices[i])
      modifies `target
      ensures result == Reported(target.devices, Strays())
      ensures result.Found? ==> target.tap == RunTestIdle
      ensures target == old(target).(tap := target.tap, dr := target.dr)
    {
      hide Passes, OneSeen, CodesRead, Shown, CapturedPath;
      MoveFromIdleToShiftDr();
      var codes, oneRead := ReadCodes();
      if !oneRead {
        result := AllZeros;
      } else if |codes| == 0 {
        result := NoDevices;
      } else if |codes| >= MAX_DEVICE_COUNT {
        result := TooManyDevices;
      } else {
        LeaveShiftDr();
        result := Found(codes);
      }
    }

    // ----- Clean receivers -----

    // What the bytes for acknowledge bits hold, after n commands.
    function Acks(n: nat): nat -> byte {
      i => stack.acks(n, i)
    }

    // Nothing shows through behind the single bits that are tested as bytes.
    ghost predicate Clean() {
      clears || ((forall n, i :: stack.acks(n, i) / 2 == 0) && forall n :: stack.flags(n) / 2 == 0)
    }
  }
}

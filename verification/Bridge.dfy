// main.cpp, configure_chain: from a cable just plugged in to a debug module ready for use.
module Bridge {
  import opened Wrappers
  import opened Bits
  import opened Clocks
  import opened Tap
  import opened Target
  import opened IrPacking
  import opened Enumeration
  import opened ChainCommands
  import opened DbgApi

  // What the BSDL files and the command line say of the device at a position with an IDCODE; None is
  // an error. An instruction register has at least one bit.
  datatype Lookup = Lookup(
    irSize: (nat, word) -> Option<IrSize>,
    debugCommand: (nat, word) -> Option<word>,
    idCodeCommand: word -> Option<word>)

  type IrSize = n: nat | n > 0 witness 1

  // The errors are those of configure_chain, in order.
  datatype Setup =
    | ReadyForUse(codes: seq<word>)
    | EnumerationFailed(why: Enumeration)
    | SeveralDevices
    | NoSuchDevice
    | NoIrSize
    | NoDebugCommand
    | NoIdCodeCommand
    | WrongIdCode(read: word)

  function Sum(sizes: seq<nat>): nat {
    if sizes == [] then 0 else Sum(sizes[..|sizes| - 1]) + sizes[|sizes| - 1]
  }

  // The codes that enumeration has found are those of one device, at the position asked for.
  predicate OneAt(found: Enumeration, pos: nat) {
    found.Found? && |found.codes| == 1 && pos == 0
  }

  // When setting up ends early; the look-ups are made in this order.
  predicate EndsEarly(codes: seq<word>, lookup: Lookup, pos: nat, r: Setup) {
    match r
    case SeveralDevices => |codes| > 1
    case NoSuchDevice => |codes| <= 1 && pos >= |codes|
    case NoIrSize => OneAt(Found(codes), pos) && lookup.irSize(pos, codes[0]).None?
    case NoDebugCommand =>
      OneAt(Found(codes), pos) && lookup.irSize(pos, codes[0]).Some? && lookup.debugCommand(pos, codes[0]).None?
    case NoIdCodeCommand =>
      && OneAt(Found(codes), pos) && lookup.irSize(pos, codes[0]).Some? && lookup.debugCommand(pos, codes[0]).Some?
      && lookup.idCodeCommand(codes[0]).None?
    case _ => false
  }

  predicate AllFound(lookup: Lookup, pos: nat, code: word) {
    lookup.irSize(pos, code).Some? && lookup.debugCommand(pos, code).Some? && lookup.idCodeCommand(code).Some?
  }

  // What the IDCODE instruction brings out of a chain with a single device, unless the same instruction
  // selects the debug module.
  function IdCodeUnder(devices: seq<Device>): word {
    if devices != [] && devices[0].IdCode? then devices[0].code else 0
  }

  // The IR lengths of the devices in front of the target, and of those behind it. `irSizes` stands
  // for the BSDL files.
  method SetPrefixAndPostfix(port: JtagPort, irSizes: seq<nat>, pos: nat)
    requires pos < |irSizes|
    modifies port`irPrefixBits, port`irPostfixBits
    ensures port.irPostfixBits == Sum(irSizes[..pos]) && port.irPrefixBits == Sum(irSizes[pos + 1..])
  {
    var total := 0;
    for i := 0 to |irSizes|
      invariant i <= pos ==> total == Sum(irSizes[..i])
      invariant i > pos ==> port.irPostfixBits == Sum(irSizes[..pos]) && total == Sum(irSizes[pos + 1..i])
    {
      if i == pos {
        port.irPostfixBits := total;
        total := 0;
      } else {
        assert i < pos ==> irSizes[..i + 1][..i] == irSizes[..i];
        assert i > pos ==> irSizes[pos + 1..i + 1][..i - pos - 1] == irSizes[pos + 1..i];
        total := total + irSizes[i];
      }
    }
    assert irSizes[pos + 1..|irSizes|] == irSizes[pos + 1..];
    port.irPrefixBits := total;
  }

  // Looks a device up and makes the settings for it, up to the sanity check; `early` is an error.
  method Configure(port: JtagPort, codes: seq<word>, lookup: Lookup, pos: nat) returns (early: Option<Setup>,
                   idCodeCommand: word)
    modifies port`irSize, port`irPrefixBits, port`irPostfixBits, port`debugCommand
    ensures early.Some? ==> EndsEarly(codes, lookup, pos, early.value)
    ensures early.None? ==>
              && OneAt(Found(codes), pos)
              && lookup.irSize(pos, codes[pos]) == Some(port.irSize) && port.irPrefixBits == port.irPostfixBits == 0
              && lookup.debugCommand(pos, codes[pos]) == Some(port.debugCommand)
              && lookup.idCodeCommand(codes[pos]) == Some(idCodeCommand)
  {
    idCodeCommand := 0;
    if |codes| > 1 {
      return Some(SeveralDevices), 0;
    }
    if pos >= |codes| {
      return Some(NoSuchDevice), 0;
    }
    var irSize := lookup.irSize(pos, codes[pos]);
    if irSize.None? {
      return Some(NoIrSize), 0;
    }
    port.irSize := irSize.value;
    SetPrefixAndPostfix(port, [irSize.value], pos);
    assert [irSize.value][..0] == [] && [irSize.value][1..] == [];
    var command := lookup.debugCommand(pos, codes[pos]);
    if command.None? {
      return Some(NoDebugCommand), 0;
    }
    port.debugCommand := command.value;
    var idCode := lookup.idCodeCommand(codes[pos]);
    if idCode.None? {
      return Some(NoIdCodeCommand), 0;
    }
    early, idCodeCommand := None, idCode.value;
  }

  // The IDCODE that comes out under the IDCODE instruction.
  method ReadBackIdCode(port: JtagPort, idCodeCommand: word) returns (idCode: word)
    requires port.target.tap == RunTestIdle && port.ChainSize() >= 1
    modifies port`target, port`irChain
    ensures port.target.tap == RunTestIdle && SameHardware(port.target, old(port.target))
    ensures var instruction := port.Instruction(idCodeCommand);
            |port.target.under(instruction)| == 1 && instruction != port.target.debugInstruction ==>
              idCode == IdCodeUnder(port.target.under(instruction))
  {
    hide Scanned, StreamBits, IrWords;
    ghost var instruction := port.Instruction(idCodeCommand);
    ghost var loaded := port.target.(ir := instruction, selection := Loaded(instruction));
    if |loaded.under(instruction)| == 1 && !DebugSelected(loaded) {
      FirstWordOfDevice(loaded, loaded.under(instruction)[0]);
    }
    idCode := port.GetIdCode(idCodeCommand);
  }

  // Whatever state the TAP is in beforehand, and whether or not TRST is wired. If what is looked up as
  // the length of the instruction register is not its length, other instructions are in force.
  method ConfigureChain(port: JtagPort, lookup: Lookup, pos: nat) returns (r: Setup, ghost idRead: word)
    requires forall i :: 0 <= i < |port.target.devices| ==> ValidDevice(port.target.devices[i])
    modifies port
    ensures var found := Reported(old(port.target.devices), port.Strays());
            match r
            case EnumerationFailed(why) => why == found && !found.Found?
            case SeveralDevices => found.Found? && |found.codes| > 1
            case NoSuchDevice => found.Found? && |found.codes| <= 1 && pos >= |found.codes|
            case _ =>
              && found.Found? && |found.codes| == 1 && pos == 0
              && var code := found.codes[0];
                 var hasSize, hasDebug := lookup.irSize(0, code).Some?, lookup.debugCommand(0, code).Some?;
                 match r
                 case NoIrSize => !hasSize
                 case NoDebugCommand => hasSize && !hasDebug
                 case NoIdCodeCommand => hasSize && hasDebug && lookup.idCodeCommand(code).None?
                 case ReadyForUse(codes) =>
                   hasSize && hasDebug && lookup.idCodeCommand(code).Some? && codes == [code] && idRead == code
                 case WrongIdCode(read) =>
                   hasSize && hasDebug && lookup.idCodeCommand(code).Some? && read == idRead != code
                 case _ => false
    ensures r.ReadyForUse? || r.WrongIdCode? ==>
              var code := Reported(old(port.target.devices), port.Strays()).codes[0];
              var instruction := port.Instruction(lookup.idCodeCommand(code).value);
              |old(port.target.under)(instruction)| == 1 && instruction != old(port.target.debugInstruction) ==>
                idRead == IdCodeUnder(old(port.target.under)(instruction))
    ensures r.ReadyForUse? ==>
              && lookup.debugCommand(pos, r.codes[pos]) == Some(port.debugCommand)
              && port.target.tap == RunTestIdle && port.target.selection == Loaded(port.Instruction(port.debugCommand))
    ensures r.ReadyForUse? && port.SelectsDebug(old(port.target.debugInstruction)) ==>
              port.irSize == |old(port.target.irCapture)| < 32 ==> Ready(port.target)
  {
    hide Reported, IdCodeUnder, IrWords, StreamBits, IrBit, Scanned;
    idRead := 0;
    port.TapReset();
    var found := port.EnumerateChain();
    if !found.Found? {
      return EnumerationFailed(found), idRead;
    }
    var early, command := Configure(port, found.codes, lookup, pos);
    if early.Some? {
      return early.value, idRead;
    }
    var id := ReadBackIdCode(port, command);
    idRead := id;
    if id != found.codes[pos] {
      return WrongIdCode(id), idRead;
    }
    port.SetIrToCpuDebugModule();
    r := ReadyForUse(found.codes);
  }

  // A chain with one device, on which everything goes as it should: it is ready for use if and only if the
  // IDCODE instruction brings out the code that enumeration has found.
  method ConfigureOne(port: JtagPort, lookup: Lookup) returns (r: Setup, ghost idRead: word)
    requires |port.target.devices| == 1 && ValidDevice(port.target.devices[0])
    requires port.target.devices[0].IdCode? && !LooksLikeMarker(port.target.devices[0])
    requires forall i: nat :: i < MAX_DEVICE_COUNT ==> port.Strays()(i) == 0
    requires AllFound(lookup, 0, port.target.devices[0].code)
    modifies port
    ensures var code := old(port.target.devices)[0].code;
            var instruction := port.Instruction(lookup.idCodeCommand(code).value);
            var under := old(port.target.under)(instruction);
            |under| == 1 && instruction != old(port.target.debugInstruction) ==>
              && r == (if under[0] == IdCode(code) then ReadyForUse([code]) else WrongIdCode(idRead))
              && idRead == if under[0].IdCode? then under[0].code else 0
  {
    hide Reported, IrWords, StreamBits, IrBit, Scanned, LooksLikeMarker;
    OneIsReported(port.target.devices, port.Strays());
    r, idRead := ConfigureChain(port, lookup, 0);
  }

  lemma OneIsReported(devices: seq<Device>, strays: nat -> word)
    requires |devices| == 1 && devices[0].IdCode? && !LooksLikeMarker(devices[0])
    requires forall i: nat :: i < MAX_DEVICE_COUNT ==> strays(i) == 0
    ensures Reported(devices, strays) == Found([devices[0].code])
  {
    CleanIsExpected(devices, strays);
    ExpectedIsComplete(devices);
    OneCode(devices[0]);
    assert devices == [devices[0]];
  }

  lemma OneCode(d: Device)
    ensures CodesOf([d]) == [CodeOf(d)]
  {
    assert [d][..0] == [];
  }
}

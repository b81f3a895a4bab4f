# OpenRISC OR10 tools: verified models

A Dafny model of two parts of the repository: the GDB-to-JTAG bridge and the directory rotation tool.

## The bridge

The bridge is a stack of four layers. Each one is proved to be a simpler thing for the layer above it.

1. **Cable drivers.** A stream of bits means a sequence of (TMS, TDI) clock events, `Clocks.StreamClocks`, and a stream
   read back means the TDO levels at these events (`Samples`). The USB-Blaster driver (`UsbBlaster`, `UsbBlasterRead`),
   the FT2232 driver (`Mpsse`, `Ft2232`, `Ft2232Stream`, `Ft2232Read`, `Ft2232Runs`) and the Xilinx cable driver
   (`CpldFormat`, `XpcDlc9`) compile it into packets for a device. The devices are modelled as decoders of these
   packets, and the drivers are proved to put the reference sequence on the wire, and the TDO levels at their places in
   the result.
2. **TAP and scan chain.** `Tap` is the 16-state controller of IEEE Std 1149.1-2001, clause 6, `Target` the chain as
   one long shift register behind it, moved by one clock event at a time. `ChainCommands` is the bridge's side, with
   instruction packing (`IrPacking`), chain enumeration (`Enumeration`) and what unassigned variables let through
   (`Receivers`), and `Bridge` sets everything up.
3. **Debug transactions.** `DebugUnit` decodes the last bits shifted in on Update-DR. `DbgApi` makes atomic register
   accesses out of TAP moves, and `MemoryAccess` a byte-wise memory (`ByteMemory`) out of word-only accesses.
4. **GDB Remote Serial Protocol.** `HexDigits`, `RspPacket` (framing), `RspMemory`, `Watchpoints`, and the session
   (`DebugRegisters`, `RspLog`, `RspRequests`, `RspAnswers`, `RspRuns`, `RspSession`), whose cached flags agree
   with the CPU's registers over every run. Requests have the effects that `RspRequests.EffectOf` gives as a plain
   function, `RspAnswers` says what that means for the client, and the session refines the transition system of `RspRuns`, about whose runs the promises to the client are proved: every
   stop of the CPU is reported at the next time-out, and nothing else is.

Layers 2 to 4 drive `ChainCommands.JtagPort`, which moves the target by itself. `CableApi` joins it to the drivers: with
any of the three cables, single bits and streams have the very contracts of `JtagPort`, for the target that the events
on the wire lead to, as long as TDO carries what that target puts out. This holds for an FT2232 whose TMS pin does not
hold its level, and for streams that the cable reads back right: `CableApi.ReadsRight`.

Assumed devices: the debug module as a 51-bit shift register with a reply that is shifted out after an arbitrary
acknowledge delay; the USB-Blaster's, FT2232's and CPLD's packet formats; a CPU that, while not stalled, changes
neither DMR1, DSR nor the watchpoint registers, and stalls by itself only on a trap sent to the debug unit or after a
single step. Parameters stand for what TDO carries, unused bits of replies, what variables hold that are never
assigned (`Receivers.Stack`; a packet buffer is an array with unknown contents), and whatever C leaves undefined:
shifts by 32 or more, by a negative count, and signed overflow. Whether assertions are compiled in is a parameter of
the session (`RspRequests.Host`); a failed one, or undefined behaviour, ends the run.

Places where the code does less than one might expect are stated with an input and their exact condition:

- FT2232: data bits go out under whatever level the TMS pin has. Whether the pin stays where a TMS command left it is
  a parameter of the chip (`World.holdsTms`). `PinClocksAreStreamClocks` is the condition for one call, `RunIsRight`
  for any run of them.
- FT2232: reading leaves the other bits of the receiver as they were, while dbg_api.cpp:90, :100 and :310 and
  chain_commands.cpp:674 pass unassigned variables. The conditions are `Receivers.TestIsRight` and `WordIsRight` for a
  single variable, `DbgApi.WaitIsRight` for the wait for an acknowledge bit, and `Enumeration.ReceiversAreRight` for
  enumeration. Accesses to registers and memory are right with clean receivers (`JtagPort.Clean`), which the other
  cables ensure; without them, still no memory outside the range asked for is changed. The session is stated for clean
  receivers.
- FT2232: replies with fewer than 8 bits must not be spread over two bytes of the buffer (`UnpackingIsRight`).
- USB-Blaster: a stream is read back out of order unless each reception starts with a word (`ReceptionsAreRight`), so
  with more than 62 whole bytes it always is (`ReadStream`), and from 8192 bits on reading never ends
  (`ClearingEndsIff`).
- Xilinx cable: a stream of more than 8191 bits is read back wrong (`OneTransferIsNeeded`).
- Bit-banging: the last shift count is the length minus one, so that more than 32 bits may go wrong (`BitBangIsStream`).
- Instruction scan: the IR lengths looked up have to be those of the devices (`Target.ScanReplaces`).
- Instruction packing: shift counts of 32 or more (`IrWordsCarryAlways`), and instructions that touch three words
  (`IrWordsCarryLong`).
- Enumeration: a device with manufacturer field 0x3F hides itself (`MarkerManufacturerHidesDevices`,
  `ExpectedIsComplete`).
- Watchpoints: an address can get into two slots (`InsertCanDuplicate`, `InsertDuplicatesIff`, `RemovedIsGoneIff`).
- Memory reads: the guard against overflowing the reply wraps around (`GuardCanFail`, `GuardIsSafe`).
- Memory writes: so does the comparison of the length with the number of digits (`WrappedLengthPasses`,
  `CheckIsRight`), and the colon is looked for behind the end of the packet, too (`WriteWithoutColon`,
  `NegativeWriteWithoutColon`, `WriteIsDefined`).
- Register writes: the accumulator for the digits is never assigned (`RegisterReadIsRight`).

## The rotation tool

`SlotNames` reads and writes slot names, `SlotOrder` sorts, `RotateDir` finds the next name, and `Rotation` is the
directory over all rotations. A number too big for a 64-bit integer reads as zero, as the tool's comments say. A plain
file in place of the new slot is only noticed after the old slots have been deleted (`BaseDir.Rotate`).

## Model

| member | source | states |
|---|---|---|
| `UsbBlaster.Driver.WriteBit` | Scripts/Projects/OpenRISC/OR10/GdbToJtagBridge/src/cable_drivers/cable_driver_common.cpp:28-45 | One clock event with the packet's TMS and TDI; no pin goes high without `clock_is_high` recording it. |
| `UsbBlaster.Driver.ReadWriteBit` | Scripts/Projects/OpenRISC/OR10/GdbToJtagBridge/src/cable_drivers/cable_driver_common.cpp:47-62 | The same, and the whole byte returned is TDO at that clock event. |
| `UsbBlaster.BitBangIsStream` | Scripts/Projects/OpenRISC/OR10/GdbToJtagBridge/src/cable_drivers/cable_driver_common.cpp:68-99 | Bit-banging a stream clocks the reference sequence, whatever the undefined last shift gives, if and only if it has at most 32 bits. |
| `UsbBlaster.Driver.BitBangStream` | Scripts/Projects/OpenRISC/OR10/GdbToJtagBridge/src/cable_drivers/cable_driver_common.cpp:68-99 | The clock events of the bit-bang loop, over every earlier history of the pins. |
| `UsbBlaster.Driver.BitBangReadStream` | Scripts/Projects/OpenRISC/OR10/GdbToJtagBridge/src/cable_drivers/cable_driver_common.cpp:104-147 | For every length, bit k of the input stream is the k-th TDO level and the rest of its last word is clear. |
| `UsbBlaster.Driver.Out` | Scripts/Projects/OpenRISC/OR10/GdbToJtagBridge/src/cable_drivers/cable_usbblaster.cpp:222-262 | The pins follow the byte sent, a rising TCK is one clock event, and `clock_is_high` is the new TCK level. |
| `UsbBlaster.Driver.SendPacket` | Scripts/Projects/OpenRISC/OR10/GdbToJtagBridge/src/cable_drivers/cable_usbblaster.cpp:379-399 | A byte-shift packet is only sent with TCK and TMS low, is at most 63 bytes long, and clocks its bytes bit 0 first. |
| `UsbBlaster.Driver.WriteStream` | Scripts/Projects/OpenRISC/OR10/GdbToJtagBridge/src/cable_drivers/cable_usbblaster.cpp:331-413 | Whatever the length and the calls before, the wire sees exactly the bit-at-a-time reference sequence of the stream. |
| `UsbBlasterRead.ReadStream` | Scripts/Projects/OpenRISC/OR10/GdbToJtagBridge/src/cable_drivers/cable_usbblaster.cpp:416-538 | Never ends if clearing the words does not. Otherwise the wire sees exactly the reference sequence, whatever comes back. The words are the receptions put together with the leftover bits; if nothing was given up and every reception started with a word, bit k is the k-th TDO level. That never happens with more than 62 whole bytes. |
| `UsbBlasterRead.ClearingEndsIff` | Scripts/Projects/OpenRISC/OR10/GdbToJtagBridge/src/cable_drivers/cable_usbblaster.cpp:457-459 | The loop that clears the words, with its 8-bit index, ends if and only if the stream has less than 8192 bits. |
| `UsbBlasterRead.ReceptionsAreRight` | Scripts/Projects/OpenRISC/OR10/GdbToJtagBridge/src/cable_drivers/cable_usbblaster.cpp:514-523 | Whatever the bytes are, receptions of the given sizes end up in order if and only if each one that brings anything starts at a multiple of four bytes. |
| `Ft2232.Ftdi.Flush` | Scripts/Projects/OpenRISC/OR10/GdbToJtagBridge/src/cable_drivers/cable_ft2232.cpp:317-365 | Everything queued is sent once, in order, and all its replies are collected behind those still unread; read index <= write index <= buffer length. |
| `Ft2232.Ftdi.Read` | Scripts/Projects/OpenRISC/OR10/GdbToJtagBridge/src/cable_drivers/cable_ft2232.cpp:367-404 | The next reply bytes, each handed out once and in order, over every interleaving with writes and flushes. |
| `Ft2232.Ftdi.Write` | Scripts/Projects/OpenRISC/OR10/GdbToJtagBridge/src/cable_drivers/cable_ft2232.cpp:406-451 | The chip will execute the command after everything queued before it, whether the write is buffered, flushes first or flushes at once. |
| `Mpsse.CommandAppended` | Scripts/Projects/OpenRISC/OR10/GdbToJtagBridge/src/cable_drivers/cable_ft2232.cpp:406-451 | Queueing a command behind complete ones means executing it after them, and adds up the reply bytes to expect. |
| `Ft2232Stream.ByteCommandDoes` | Scripts/Projects/OpenRISC/OR10/GdbToJtagBridge/src/cable_drivers/cable_ft2232.cpp:634-662 | The command built for a chunk of at most 65536 bytes decodes to just these bytes, LSB first, and to one reply byte each if asked. |
| `Ft2232Stream.WriteBytes` | Scripts/Projects/OpenRISC/OR10/GdbToJtagBridge/src/cable_drivers/cable_ft2232.cpp:622-677 | All chunks together send exactly the bytes given, for every number of bytes; the number of replies is returned. |
| `Ft2232Stream.BitCommandDoes` | Scripts/Projects/OpenRISC/OR10/GdbToJtagBridge/src/cable_drivers/cable_ft2232.cpp:698-733 | The command for up to 8 bits, or for one bit with TMS, decodes to exactly these bits: with TMS high in the second case, under the level of the pin otherwise. |
| `Ft2232Stream.WriteBits` | Scripts/Projects/OpenRISC/OR10/GdbToJtagBridge/src/cable_drivers/cable_ft2232.cpp:679-748 | All commands together send exactly the bits given, one reply byte for each command. |
| `Ft2232Stream.WriteStream` | Scripts/Projects/OpenRISC/OR10/GdbToJtagBridge/src/cable_drivers/cable_ft2232.cpp:807-831 | Bytes, leftover bits and the bit with TMS are together the first `len` bits of the buffer in order, with the replies to match. |
| `Ft2232Stream.StreamedWire` | Scripts/Projects/OpenRISC/OR10/GdbToJtagBridge/src/cable_drivers/cable_ft2232.cpp:807-831 | On the wire: the stream's bits LSB first, TMS high on the last one on request, under the level the TMS pin had before. |
| `Ft2232Stream.PinClocksAreStreamClocks` | Scripts/Projects/OpenRISC/OR10/GdbToJtagBridge/src/cable_drivers/cable_ft2232.cpp:911-956 | This is the reference sequence if and only if the TMS pin is low beforehand or the only bit sent is one with TMS high. |
| `Ft2232Stream.FtdiWriteBit` | Scripts/Projects/OpenRISC/OR10/GdbToJtagBridge/src/cable_drivers/cable_ft2232.cpp:911-926 | One clock event, sent at once; the TMS pin afterwards. |
| `Ft2232Stream.FtdiWriteStream` | Scripts/Projects/OpenRISC/OR10/GdbToJtagBridge/src/cable_drivers/cable_ft2232.cpp:946-956 | The clock events of the stream, sent at once, without replies; the TMS pin afterwards. |
| `Mpsse.BytesReplyBit` | Scripts/Projects/OpenRISC/OR10/GdbToJtagBridge/src/cable_drivers/cable_ft2232.cpp:797-799 | Bit k of the replies to whole bytes is the k-th TDO level. |
| `Ft2232Read.PlacedBit` | Scripts/Projects/OpenRISC/OR10/GdbToJtagBridge/src/cable_drivers/cable_ft2232.cpp:770-795 | Taking a reply apart puts its bits at the right offset and leaves all other bits of the buffer alone. |
| `Ft2232Read.ReadPackedBits` | Scripts/Projects/OpenRISC/OR10/GdbToJtagBridge/src/cable_drivers/cable_ft2232.cpp:750-805 | For every number of replies and bits: takes the reply bytes from the queue, once, and puts whole bytes by row, or the upper bits of each reply one behind the other; nothing with an empty request, and an error beyond 8 bits. |
| `Ft2232Read.UnpackingIsRight` | Scripts/Projects/OpenRISC/OR10/GdbToJtagBridge/src/cable_drivers/cable_ft2232.cpp:777-797 | Every bit gets to its place and no other changes, whatever a negative shift gives, if and only if no reply is spread over two bytes of the buffer. |
| `Ft2232Read.ReadStream` | Scripts/Projects/OpenRISC/OR10/GdbToJtagBridge/src/cable_drivers/cable_ft2232.cpp:833-854 | Bit k of the result is the k-th TDO level for every length and TMS flag; all other bits of the receiver stay as they were. |
| `Ft2232Read.FtdiReadStream` | Scripts/Projects/OpenRISC/OR10/GdbToJtagBridge/src/cable_drivers/cable_ft2232.cpp:958-970 | End to end: the clock events of the stream, every sampled level at its place, no reply left over, and the TMS pin afterwards. |
| `Ft2232Read.FtdiReadWriteBit` | Scripts/Projects/OpenRISC/OR10/GdbToJtagBridge/src/cable_drivers/cable_ft2232.cpp:928-944 | One clock event; bit 0 of the receiver is TDO, its seven other bits are not touched; the TMS pin afterwards. |
| `Ft2232Runs.RunIsRight` | Scripts/Projects/OpenRISC/OR10/GdbToJtagBridge/src/cable_drivers/cable_ft2232.cpp:911-970 | Over every list of calls, from a low TMS pin on, the wire is what was asked for if and only if the pin does not hold its level, or no data bits are sent once a bit with TMS has been. |
| `Ft2232Runs.PerformAll` | Scripts/Projects/OpenRISC/OR10/GdbToJtagBridge/src/cable_drivers/cable_ft2232.cpp:911-970 | The driver, making these calls one after the other, puts exactly that wire out, and leaves nothing to be read. |
| `XpcDlc9.AddedChange` | Scripts/Projects/OpenRISC/OR10/GdbToJtagBridge/src/cable_drivers/cable_xpc_dlc9.cpp:280-306 | After adding a bit the buffer encodes the bits so far plus the new one, and the rest of the last word is clear. |
| `XpcDlc9.Cable.AddBit` | Scripts/Projects/OpenRISC/OR10/GdbToJtagBridge/src/cable_drivers/cable_xpc_dlc9.cpp:280-306 | Adds one bit in place, inside the 4096-byte buffer. |
| `XpcDlc9.FullClocks` | Scripts/Projects/OpenRISC/OR10/GdbToJtagBridge/src/cable_drivers/cable_xpc_dlc9.cpp:259-306 | The changes encoded for clock events decode to exactly these clock events, in order. |
| `XpcDlc9.FullSamples` | Scripts/Projects/OpenRISC/OR10/GdbToJtagBridge/src/cable_drivers/cable_xpc_dlc9.cpp:259-306 | They sample TDO once at each of these events, and nowhere else. |
| `XpcDlc9.DummyIsSilent` | Scripts/Projects/OpenRISC/OR10/GdbToJtagBridge/src/cable_drivers/cable_xpc_dlc9.cpp:568-570 | The dummy bit neither toggles TCK nor samples TDO. |
| `XpcDlc9.Cable.Unpack` | Scripts/Projects/OpenRISC/OR10/GdbToJtagBridge/src/cable_drivers/cable_xpc_dlc9.cpp:346-385 | Undoes the cable's TDO format: bit k of the output is the k-th level sampled, for every number of samples. |
| `XpcDlc9.Cable.DoExtTransfer` | Scripts/Projects/OpenRISC/OR10/GdbToJtagBridge/src/cable_drivers/cable_xpc_dlc9.cpp:322-385 | A transfer clocks what has been added, stores the samples, and leaves an empty state. |
| `XpcDlc9.Cable.ReadWriteStream` | Scripts/Projects/OpenRISC/OR10/GdbToJtagBridge/src/cable_drivers/cable_xpc_dlc9.cpp:509-584 | For every length, the transfers together clock exactly the stream, none of them with a bit count that is a multiple of 4 or beyond the buffer; the input stream ends up with the samples of the last transfer. |
| `XpcDlc9.Cable.ReadWriteBit` | Scripts/Projects/OpenRISC/OR10/GdbToJtagBridge/src/cable_drivers/cable_xpc_dlc9.cpp:586-597 | One clock event; the whole byte returned is TDO at it. |
| `XpcDlc9.WholeStream` | Scripts/Projects/OpenRISC/OR10/GdbToJtagBridge/src/cable_drivers/cable_xpc_dlc9.cpp:540-570 | With a stream to send, that is the reference sequence. |
| `XpcDlc9.OneTransferIsNeeded` | Scripts/Projects/OpenRISC/OR10/GdbToJtagBridge/src/cable_drivers/cable_xpc_dlc9.cpp:553-557 | Reading a stream back is right for every input if and only if it has at most 8191 bits. |
| `CableApi.WriteBit` | Scripts/Projects/OpenRISC/OR10/GdbToJtagBridge/src/chain_commands.cpp:265-270 | Whichever cable is in use, the target behind the wire makes the one step that `ChainCommands` counts on. |
| `CableApi.ReadWriteBit` | Scripts/Projects/OpenRISC/OR10/GdbToJtagBridge/src/chain_commands.cpp:272-283 | The same, and the byte is what the target puts out, with the old upper bits behind it on the FT2232 only. |
| `CableApi.WriteStream` | Scripts/Projects/OpenRISC/OR10/GdbToJtagBridge/src/chain_commands.cpp:289-316 | The target behind the wire makes the clock events of the stream. |
| `CableApi.ReadWriteStream` | Scripts/Projects/OpenRISC/OR10/GdbToJtagBridge/src/chain_commands.cpp:322-360 | For every length that ends: the same, and the words are what the target puts out meanwhile, with the old bits behind it on the FT2232 only; on the Xilinx cable up to 8191 bits, on the USB-Blaster if the first reception brings all whole bytes. |
| `Receivers.TestIsRight` | Scripts/Projects/OpenRISC/OR10/GdbToJtagBridge/src/dbg_api.cpp:90-104 | Testing a received byte against zero is right for either bit if and only if the cable clears it or its upper seven bits were clear. |
| `Receivers.WordIsRight` | Scripts/Projects/OpenRISC/OR10/GdbToJtagBridge/src/chain_commands.cpp:674-682 | A received word is the number received if and only if none of its bits behind was set, unless cleared. |
| `Receivers.WordCanBeWrong` | Scripts/Projects/OpenRISC/OR10/GdbToJtagBridge/src/chain_commands.cpp:674-678 | Eleven zeros received over 0x800 are not zero. |
| `Tap.OnesReset` | Scripts/Projects/OpenRISC/OR10/GdbToJtagBridge/src/chain_commands.cpp:446-450 | Eight clock events with TMS high reach Test-Logic-Reset from each of the 16 states. |
| `ChainCommands.JtagPort.TapReset` | Scripts/Projects/OpenRISC/OR10/GdbToJtagBridge/src/chain_commands.cpp:432-474 | From any state, with TRST wired or not: Run-Test/Idle, with the power-up instructions. |
| `ChainCommands.JtagPort.MoveFromIdleToShiftDr` | Scripts/Projects/OpenRISC/OR10/GdbToJtagBridge/src/chain_commands.cpp:599-608 | The path through Capture-DR. |
| `ChainCommands.JtagPort.MoveFromExit1ToIdle` | Scripts/Projects/OpenRISC/OR10/GdbToJtagBridge/src/chain_commands.cpp:611-619 | The path through Update-DR, where the debug module sees what has been shifted in. |
| `ChainCommands.JtagPort.ReadWriteBit` | Scripts/Projects/OpenRISC/OR10/GdbToJtagBridge/src/chain_commands.cpp:272-283 | One step of the target; the byte has the bit put out, and what was above it before unless the cable clears it. |
| `ChainCommands.JtagPort.ReadWriteStream` | Scripts/Projects/OpenRISC/OR10/GdbToJtagBridge/src/chain_commands.cpp:322-360 | Only in a Shift state: the target makes the clock events of the stream, and the bits it puts out are put over what the receiving words held, or over zeros if the cable clears them. |
| `Target.ShiftRun` | Scripts/Projects/OpenRISC/OR10/GdbToJtagBridge/src/chain_commands.cpp:289-316 | A run of clock events with TMS high on the last one at most shifts exactly its bits through the selected path. |
| `IrPacking.IrWordsBit` | Scripts/Projects/OpenRISC/OR10/GdbToJtagBridge/src/chain_commands.cpp:542-596 | Every bit of the stream built for the instruction scan is the opcode's or a 1. |
| `IrPacking.IrWordsCarryShort` | Scripts/Projects/OpenRISC/OR10/GdbToJtagBridge/src/chain_commands.cpp:547-566 | If (postfix mod 32) + IR length < 32, the target gets the opcode modulo 2^length and all others BYPASS, whatever C leaves undefined. |
| `IrPacking.IrWordsCarryAlways` | Scripts/Projects/OpenRISC/OR10/GdbToJtagBridge/src/chain_commands.cpp:547-572 | Whatever long shifts give, this holds if and only if (postfix mod 32) + IR length < 32, or the opcode is all ones in the first word it touches and the rest needs no long shift. |
| `IrPacking.IrWordsCarryLong` | Scripts/Projects/OpenRISC/OR10/GdbToJtagBridge/src/chain_commands.cpp:567-572 | With long shifts giving 0 this holds if and only if the instruction touches at most two 32-bit words. |
| `ChainCommands.JtagPort.SetIr` | Scripts/Projects/OpenRISC/OR10/GdbToJtagBridge/src/chain_commands.cpp:542-596 | From Run-Test/Idle to Run-Test/Idle; the chain's instruction registers hold the last bits of the stream, behind what they captured if it is shorter. |
| `Target.ScanReplaces` | Scripts/Projects/OpenRISC/OR10/GdbToJtagBridge/src/chain_commands.cpp:582-590 | These are exactly the bits of the stream, whatever was captured, if and only if the lengths set up are those of the registers. |
| `ChainCommands.JtagPort.SetIrToCpuDebugModule` | Scripts/Projects/OpenRISC/OR10/GdbToJtagBridge/src/chain_commands.cpp:496-534 | The instruction built from the debug opcode is in force afterwards; if it selects the debug module with BYPASS everywhere else, the lengths are right and no shift is too long, the debug module is selected. |
| `ChainCommands.JtagPort.GetIdCode` | Scripts/Projects/OpenRISC/OR10/GdbToJtagBridge/src/chain_commands.cpp:722-751 | The word returned is the first 32 bits that the data path puts out under the instruction, whatever the receiver held. |
| `ChainCommands.JtagPort.FinishAndLeaveNop` | Scripts/Projects/OpenRISC/OR10/GdbToJtagBridge/src/chain_commands.cpp:477-493 | Whatever was shifted before, the closing Update-DR carries NOP. |
| `ChainCommands.JtagPort.ProbeDevice` | Scripts/Projects/OpenRISC/OR10/GdbToJtagBridge/src/chain_commands.cpp:647-693 | One pass reads the next device's code, over whatever the two receivers held, and stops where it sees the marker. |
| `ChainCommands.JtagPort.EnumerateChain` | Scripts/Projects/OpenRISC/OR10/GdbToJtagBridge/src/chain_commands.cpp:633-719 | Terminates, and reports or fails as `Reported` says of the devices and of the bits that show through; after a success the TAP is in Run-Test/Idle. |
| `Enumeration.CleanIsExpected` | Scripts/Projects/OpenRISC/OR10/GdbToJtagBridge/src/chain_commands.cpp:633-719 | If nothing shows through, that is what `Expected` says of the devices alone. |
| `Enumeration.ReceiversAreRight` | Scripts/Projects/OpenRISC/OR10/GdbToJtagBridge/src/chain_commands.cpp:674-682 | It is so for every chain if and only if the cable clears the receiver or no bit was set in it behind the manufacturer field, in any of the 1024 passes. |
| `Enumeration.StrayWordHidesTheEnd` | Scripts/Projects/OpenRISC/OR10/GdbToJtagBridge/src/chain_commands.cpp:674-682 | A receiver that holds 0x800 is enough for an empty chain to be reported as too long. |
| `Enumeration.CodeRead` | Scripts/Projects/OpenRISC/OR10/GdbToJtagBridge/src/chain_commands.cpp:684-688 | The code put together from the two words is the device's, with the bits that show through in the first. |
| `Enumeration.ExpectedIsComplete` | Scripts/Projects/OpenRISC/OR10/GdbToJtagBridge/src/chain_commands.cpp:633-719 | All codes are found, in chain order, with IDCODE_INVALID for each bypassed device, if and only if there are 1 to 1023 devices and none has manufacturer field 0x3F. |
| `Enumeration.OutcomesAre` | Scripts/Projects/OpenRISC/OR10/GdbToJtagBridge/src/chain_commands.cpp:633-719 | Every outcome on the devices: none found if the first one carries the marker, if there is one; all zeros for 1024 bypassed devices; too many for 1024 without the marker of which one has an IDCODE; otherwise the codes of all devices in front of the first marker, bypassed ones as 0xFFFFFFFF. |
| `Enumeration.ManufacturerIs` | Scripts/Projects/OpenRISC/OR10/GdbToJtagBridge/src/chain_commands.cpp:666-671 | The field compared with the marker is bits 1 to 11 of the code. |
| `Enumeration.MarkerManufacturerHidesDevices` | Scripts/Projects/OpenRISC/OR10/GdbToJtagBridge/src/chain_commands.cpp:666-671 | A device with that field hides itself and everything behind it. |
| `Bridge.ConfigureChain` | Scripts/Projects/OpenRISC/OR10/GdbToJtagBridge/src/main.cpp:192-337 | From any TAP state, with whatever IR length is looked up. Ready for use only if the IDCODE read back is the one code found, and WrongIdCode with what was read only if it is not; each other error exactly under its own condition on devices, position and look-ups, first one first. The IDCODE is that under the instruction the look-up leads to, and the debug module is ready if the length is right. |
| `Bridge.ConfigureOne` | Scripts/Projects/OpenRISC/OR10/GdbToJtagBridge/src/main.cpp:317-337 | One device without the marker's field, with everything looked up: ready for use if and only if the IDCODE instruction brings out this device's code, and otherwise WrongIdCode with what it brings out. |
| `Bridge.SetPrefixAndPostfix` | Scripts/Projects/OpenRISC/OR10/GdbToJtagBridge/src/main.cpp:251-267 | The prefix and postfix bits are the IR lengths of the devices behind and in front of the target. |
| `DbgApi.WaitForCpuAck` | Scripts/Projects/OpenRISC/OR10/GdbToJtagBridge/src/dbg_api.cpp:79-105 | Ends with the first pass in which the acknowledge bit or something else in the unassigned byte is set, and returns the next bit or what shows through; with clean receivers that is the acknowledge delay, and the error bit. |
| `DbgApi.WaitIsRight` | Scripts/Projects/OpenRISC/OR10/GdbToJtagBridge/src/dbg_api.cpp:88-95 | It ends with the acknowledge bit for every delay if and only if the cable clears the byte or its upper bits are clear in every pass. |
| `DbgApi.ReadSpr` | Scripts/Projects/OpenRISC/OR10/GdbToJtagBridge/src/dbg_api.cpp:122-169 | Bit by bit, but for the debug module one atomic read of the register asked for, followed by a NOP; with clean receivers the result is the register's. |
| `DbgApi.WriteSpr` | Scripts/Projects/OpenRISC/OR10/GdbToJtagBridge/src/dbg_api.cpp:182-232 | One atomic write of the value to the register, followed by a NOP; with clean receivers the error bit is the register's. |
| `DbgApi.WriteAndReadSpr` | Scripts/Projects/OpenRISC/OR10/GdbToJtagBridge/src/dbg_api.cpp:248-276 | One atomic write whose new value is read in the same transaction. |
| `DbgApi.IsCpuStalled` | Scripts/Projects/OpenRISC/OR10/GdbToJtagBridge/src/dbg_api.cpp:279-326 | One stall query, followed by a NOP; the result is the CPU's state, or true if something shows through. |
| `DbgApi.DecodeWrite` | Scripts/Projects/OpenRISC/OR10/GdbToJtagBridge/src/dbg_api.cpp:182-208 | The 51 bits shifted in decode to a write of exactly this value to exactly this register. |
| `ByteMemory.StoredBytes` | Scripts/Projects/OpenRISC/OR10/GdbToJtagBridge/src/dbg_api.cpp:441-573 | Storing data changes exactly the addressed bytes, addresses modulo 2^32, big endian. |
| `ByteMemory.AllWritableIff` | Scripts/Projects/OpenRISC/OR10/GdbToJtagBridge/src/dbg_api.cpp:441-573 | A range is writable if and only if the word of each of its bytes accepts writes. |
| `MemoryAccess.WriteMem` | Scripts/Projects/OpenRISC/OR10/GdbToJtagBridge/src/dbg_api.cpp:441-573 | Whatever comes back, nothing but words of the range that accept writes is changed, and no unassigned byte is sent. With clean receivers, word-only accesses amount to storing the bytes; an error is reported if and only if a word rejects writes, and then memory is the old one with some prefix of the data stored. |
| `ByteMemory.LoadStopsAtUnreadable` | Scripts/Projects/OpenRISC/OR10/GdbToJtagBridge/src/dbg_api.cpp:357-438 | Loading stops early only at a word that cannot be read. |
| `ByteMemory.LoadedByte` | Scripts/Projects/OpenRISC/OR10/GdbToJtagBridge/src/dbg_api.cpp:357-438 | Every byte loaded is the one at its address. |
| `MemoryAccess.ReadMem` | Scripts/Projects/OpenRISC/OR10/GdbToJtagBridge/src/dbg_api.cpp:357-438 | Whatever comes back, nothing is changed. With clean receivers, exactly the longest prefix of the requested bytes before the first unreadable word; the extra word read at an aligned end makes no difference. |
| `MemoryAccess.ReadWord` | Scripts/Projects/OpenRISC/OR10/GdbToJtagBridge/src/dbg_api.cpp:394-396 | One atomic write of the address that reads the word back, whatever comes back. |
| `ByteMemory.AssembledBytes` | Scripts/Projects/OpenRISC/OR10/GdbToJtagBridge/src/dbg_api.cpp:329-351 | Taking apart undoes assembling. |
| `ByteMemory.BigEndian` | Scripts/Projects/OpenRISC/OR10/GdbToJtagBridge/src/dbg_api.cpp:329-351 | The first byte in memory is the highest of the word. |
| `HexDigits.HexRoundTrip` | Scripts/Projects/OpenRISC/OR10/GdbToJtagBridge/src/rsp_string_helpers.h:38-80 | Parsing undoes formatting for every run of bytes. |
| `HexDigits.ParsedRoundTrip` | Scripts/Projects/OpenRISC/OR10/GdbToJtagBridge/src/rsp_string_helpers.h:48-80 | Formatting what has been parsed gives the text in lower case. |
| `HexDigits.AllPairsAreDigits` | Scripts/Projects/OpenRISC/OR10/GdbToJtagBridge/src/rsp_string_helpers.h:48-80 | Parsing succeeds if and only if every character is a hex digit of either case. |
| `HexDigits.DigitsAre` | Scripts/Projects/OpenRISC/OR10/GdbToJtagBridge/src/rsp_string_helpers.h:38-80 | The characters that stand for each value: one when formatting, both cases when parsing, and no others. |
| `HexDigits.Ascii2Hex` | Scripts/Projects/OpenRISC/OR10/GdbToJtagBridge/src/rsp_string_helpers.cpp:73-92 | The text up to its terminator as pairs of digits; a character from 0x80 on fails the assertion or, without assertions, reads beyond the table. |
| `HexDigits.Hex2Ascii` | Scripts/Projects/OpenRISC/OR10/GdbToJtagBridge/src/rsp_string_helpers.cpp:95-117 | The bytes of all pairs, or an error for a half pair or anything but digits. |
| `HexDigits.AsciiRoundTrip` | Scripts/Projects/OpenRISC/OR10/GdbToJtagBridge/src/rsp_string_helpers.cpp:73-117 | hex2ascii undoes ascii2hex. |
| `HexDigits.Reg2Hex` | Scripts/Projects/OpenRISC/OR10/GdbToJtagBridge/src/rsp_string_helpers.cpp:49-63 | Eight digits whose value is the number, and a terminator, written in place into a larger buffer, which is left alone around them. |
| `HexDigits.DigitsInOrder` | Scripts/Projects/OpenRISC/OR10/GdbToJtagBridge/src/rsp_string_helpers.cpp:49-63 | 0x12345678 is 12345678: the highest digit comes first. |
| `HexDigits.ParseReg32` | Scripts/Projects/OpenRISC/OR10/GdbToJtagBridge/src/rsp_string_helpers.cpp:26-47 | What the loop leaves of eight digits, or fewer, put over an accumulator that has never been assigned. |
| `HexDigits.RegisterReadIsRight` | Scripts/Projects/OpenRISC/OR10/GdbToJtagBridge/src/rsp_string_helpers.cpp:26-47 | That is the value of the digits, for every text, if and only if the accumulator held 0. |
| `RspPacket.Connection.GetPacket` | Scripts/Projects/OpenRISC/OR10/GdbToJtagBridge/src/rsp_packet_helpers.cpp:94-187 | The buffer, the bytes consumed, the acknowledgement and the error are those of `Parse` on the bytes received. |
| `RspPacket.ChecksumIsSum` | Scripts/Projects/OpenRISC/OR10/GdbToJtagBridge/src/rsp_packet_helpers.cpp:125-152 | The checksum of a body is the sum of its bytes modulo 256. |
| `RspPacket.InFront` | Scripts/Projects/OpenRISC/OR10/GdbToJtagBridge/src/rsp_packet_helpers.cpp:94-117 | In front of the first packet `+` and `-` are skipped, and fail later on; 0x03 is a request of its own, and anything else fails. |
| `RspPacket.ParseContinue` | Scripts/Projects/OpenRISC/OR10/GdbToJtagBridge/src/rsp_packet_helpers.cpp:94-187 | `$c#63` is the request c. |
| `RspPacket.FrameAccepted` | Scripts/Projects/OpenRISC/OR10/GdbToJtagBridge/src/rsp_packet_helpers.cpp:113-177 | A frame with a right checksum is accepted, body unchanged, if and only if the body has at most GDB_BUF_MAX - 2 bytes; otherwise it overflows. |
| `RspPacket.AcceptedIsFrame` | Scripts/Projects/OpenRISC/OR10/GdbToJtagBridge/src/rsp_packet_helpers.cpp:94-177 | Nothing else is accepted; before it only `+` and `-`, and only for the first packet. |
| `RspPacket.SingleByteDamageIsNoticed` | Scripts/Projects/OpenRISC/OR10/GdbToJtagBridge/src/rsp_packet_helpers.cpp:165-186 | One body byte replaced by another one, other than `$` and `#`, is always rejected by the checksum. |
| `RspPacket.Connection.PutPacket` | Scripts/Projects/OpenRISC/OR10/GdbToJtagBridge/src/rsp_packet_helpers.cpp:220-289 | Sends the frame of the escaped payload, and reads one byte: an acknowledgement if and only if it is `+`. |
| `RspPacket.FrameOfOK` | Scripts/Projects/OpenRISC/OR10/GdbToJtagBridge/src/rsp_packet_helpers.cpp:220-257 | The reply OK is sent as `$OK#9a`. |
| `RspPacket.EscapedForms` | Scripts/Projects/OpenRISC/OR10/GdbToJtagBridge/src/rsp_packet_helpers.cpp:239-249 | The four characters that are escaped, the bytes sent for them, and that no other is. |
| `RspPacket.EscapeIsClean` | Scripts/Projects/OpenRISC/OR10/GdbToJtagBridge/src/rsp_packet_helpers.cpp:239-249 | No raw `$` or `#` is ever in a body. |
| `RspPacket.UnescapeEscape` | Scripts/Projects/OpenRISC/OR10/GdbToJtagBridge/src/rsp_packet_helpers.cpp:239-249 | Undoing the escapes gives the payload back. |
| `RspPacket.FramingRoundTrip` | Scripts/Projects/OpenRISC/OR10/GdbToJtagBridge/src/rsp_packet_helpers.cpp:94-257 | get_packet_2 run on put_packet's output stores exactly the escaped payload. |
| `RspMemory.ReadMemory` | Scripts/Projects/OpenRISC/OR10/GdbToJtagBridge/src/rsp_or10.cpp:336-371 | Refused for length 0 or beyond the guard, undefined if the reply would leave its buffer; otherwise the reply is the data in lower-case hex, with clean receivers the readable prefix. |
| `RspAnswers.ReadAnswer` | Scripts/Projects/OpenRISC/OR10/GdbToJtagBridge/src/rsp_or10.cpp:336-371 | m for 1 to 8192 bytes is answered with the bytes at these addresses in hex, up to the first word that cannot be read, and ends the connection for any other length below 2^31. |
| `RspMemory.GuardCanFail` | Scripts/Projects/OpenRISC/OR10/GdbToJtagBridge/src/rsp_or10.cpp:348-368 | A read of 2^31 bytes passes the guard, and its reply leaves the buffer. |
| `RspMemory.GuardIsSafe` | Scripts/Projects/OpenRISC/OR10/GdbToJtagBridge/src/rsp_or10.cpp:348-368 | Of the two ranges of lengths that pass the guard, exactly the one below 2^31 is safe with every memory and address. |
| `RspMemory.NothingFittingIsRefused` | Scripts/Projects/OpenRISC/OR10/GdbToJtagBridge/src/rsp_or10.cpp:348-354 | Every length up to 8192 passes the guard, and its reply fits. |
| `RspMemory.WriteMemory` | Scripts/Projects/OpenRISC/OR10/GdbToJtagBridge/src/rsp_or10.cpp:385-429 | The colon is looked for in the whole buffer. With clean receivers: undefined without one; refused if the product of the length is not the number of digits behind it, which may be negative, or one is not a digit; an assertion or undefined behaviour for a length up to 0; otherwise the bytes, or a prefix that ends on a word, are stored, and OK is sent if and only if every word of the range accepts writes, E01 otherwise. In any case no other memory changes. |
| `RspAnswers.WriteAnswer` | Scripts/Projects/OpenRISC/OR10/GdbToJtagBridge/src/rsp_or10.cpp:385-429 | M with a colon and a length whose product cannot overflow: refused, with no effect, unless there are exactly twice as many hex digits as the length; otherwise OK if and only if every word of the range accepts writes, and then the memory is the old one with the bytes of the digits stored. |
| `RspMemory.WriteIsDefined` | Scripts/Projects/OpenRISC/OR10/GdbToJtagBridge/src/rsp_or10.cpp:392-425 | Whatever the rest of the buffer holds, a write is defined if and only if the packet itself has a colon, and no negative length gets past the check and the reading of the first word. |
| `RspMemory.CheckIsRight` | Scripts/Projects/OpenRISC/OR10/GdbToJtagBridge/src/rsp_or10.cpp:402-404 | Comparing the product with the number of digits is right, whatever an overflow gives, if and only if -2^30 <= length < 2^30. |
| `RspMemory.WrappedLengthPasses` | Scripts/Projects/OpenRISC/OR10/GdbToJtagBridge/src/rsp_or10.cpp:402-404 | The length -0x7FFFFFFF with two digits passes on a host that wraps around. |
| `RspMemory.WrittenIsReadBack` | Scripts/Projects/OpenRISC/OR10/GdbToJtagBridge/src/rsp_or10.cpp:336-429 | An M request whose data has been stored, then m for the same range: the digits of the request, in lower case. |
| `RspAnswers.WrittenReadsBack` | Scripts/Projects/OpenRISC/OR10/GdbToJtagBridge/src/rsp_or10.cpp:336-429 | M answered with OK, for one byte at least, and then m for the same range: the answer is the digits written, in lower case. |
| `DebugRegisters.WithStepBit` | Scripts/Projects/OpenRISC/OR10/GdbToJtagBridge/src/rsp_or10.cpp:139-152 | Only the ST bit of DMR1 changes. |
| `DebugRegisters.WhatIsSet` | Scripts/Projects/OpenRISC/OR10/GdbToJtagBridge/src/rsp_or10.cpp:139-254 | What is left of the CPU's registers by taking it over (DSR is 0x2000), letting it go (DRR is 0) and leaving it alone (DSR is 0): apart from that one and the ST bit, no register changes. |
| `RspSession.Session.SetSingleStepMode` | Scripts/Projects/OpenRISC/OR10/GdbToJtagBridge/src/rsp_or10.cpp:139-152 | The flag equals the ST bit afterwards. |
| `RspSession.Session.CollectCpuStopReason` | Scripts/Projects/OpenRISC/OR10/GdbToJtagBridge/src/rsp_or10.cpp:86-136 | Both assertions hold; the signal is TRAP, and watchpoint_addr equals the DVR registers. |
| `RspSession.Session.AcceptClient` | Scripts/Projects/OpenRISC/OR10/GdbToJtagBridge/src/rsp_server.cpp:245-256 | A connected session starts with the CPU stalled and every cached flag in agreement with it; in the CPU nothing else has changed but DSR and the ST bit. |
| `RspSession.Session.AttachToCpu` | Scripts/Projects/OpenRISC/OR10/GdbToJtagBridge/src/rsp_or10.cpp:155-186 | Registers other than the stall bit are only accessed once the CPU is stalled; traps go to the debug unit, single stepping is off, and the rest of the CPU is as it was. |
| `RspSession.Session.DetachFromCpu` | Scripts/Projects/OpenRISC/OR10/GdbToJtagBridge/src/rsp_or10.cpp:189-209 | Afterwards the CPU runs, no trap is diverted, single stepping is off, and the rest of the CPU is as it was. |
| `RspSession.Session.ContinueGeneric` | Scripts/Projects/OpenRISC/OR10/GdbToJtagBridge/src/rsp_or10.cpp:242-254 | One resume is recorded, and the CPU is the old one with DRR cleared, the ST bit clear, and running; every other register, memory and slot is as it was. |
| `RspSession.Session.StepGeneric` | Scripts/Projects/OpenRISC/OR10/GdbToJtagBridge/src/rsp_or10.cpp:852-868 | The same with the ST bit set. |
| `RspSession.Session.Watchpoint` | Scripts/Projects/OpenRISC/OR10/GdbToJtagBridge/src/rsp_or10.cpp:496-582 | The slots and the reply are those of `Inserted` or `Removed`, and the slots still equal the DVR registers. |
| `RspAnswers.WatchpointAnswer` | Scripts/Projects/OpenRISC/OR10/GdbToJtagBridge/src/rsp_or10.cpp:496-582 | Z1 is answered with OK if and only if the address is in a slot or one is free, z1 if and only if it is in a slot, and with E01 and no change otherwise. No other address comes or goes. |
| `Watchpoints.InsertFailsIff` | Scripts/Projects/OpenRISC/OR10/GdbToJtagBridge/src/rsp_or10.cpp:553-581 | Inserting fails if and only if the address is absent and no slot is free. |
| `Watchpoints.InsertKeepsOthers` | Scripts/Projects/OpenRISC/OR10/GdbToJtagBridge/src/rsp_or10.cpp:560-578 | The address is there afterwards, and no other one is lost or added. |
| `Watchpoints.InsertTwice` | Scripts/Projects/OpenRISC/OR10/GdbToJtagBridge/src/rsp_or10.cpp:562-567 | Inserting is idempotent. |
| `Watchpoints.RemoveFailsIff` | Scripts/Projects/OpenRISC/OR10/GdbToJtagBridge/src/rsp_or10.cpp:536-553 | Removing fails if and only if the address is absent. |
| `Watchpoints.RemoveKeepsOthers` | Scripts/Projects/OpenRISC/OR10/GdbToJtagBridge/src/rsp_or10.cpp:538-550 | No other address is lost or added by removing one. |
| `Watchpoints.RemovedIsGoneIff` | Scripts/Projects/OpenRISC/OR10/GdbToJtagBridge/src/rsp_or10.cpp:538-548 | A removed address is gone if and only if it was in one slot. |
| `Watchpoints.InsertCanDuplicate` | Scripts/Projects/OpenRISC/OR10/GdbToJtagBridge/src/rsp_or10.cpp:569-578 | A run of requests that leaves one address in two slots. |
| `Watchpoints.InsertDuplicatesIff` | Scripts/Projects/OpenRISC/OR10/GdbToJtagBridge/src/rsp_or10.cpp:560-578 | Inserting a present address changes anything if and only if a free slot comes before it; it is then in one more slot. |
| `RspSession.Session.PollCpu` | Scripts/Projects/OpenRISC/OR10/GdbToJtagBridge/src/rsp_or10.cpp:1053-1068 | A target that has stopped is reported once, at that moment, with S05; nothing happens otherwise, and afterwards no stopped target is still marked running. |
| `RspSession.Session.ProcessWhileRunning` | Scripts/Projects/OpenRISC/OR10/GdbToJtagBridge/src/rsp_or10.cpp:938-954 | A break stops and reports the target; anything else is an error. |
| `RspSession.Session.ReadAllRegs` | Scripts/Projects/OpenRISC/OR10/GdbToJtagBridge/src/rsp_or10.cpp:294-333 | The reply is the 32 general purpose registers, 0, NPC and SR in hex, or an exception if one cannot be read. |
| `RspAnswers.RegisterShown` | Scripts/Projects/OpenRISC/OR10/GdbToJtagBridge/src/rsp_or10.cpp:294-333 | The value of register n is at the n-th place of the reply: general purpose registers, 0, NPC, SR. |
| `RspAnswers.RegistersAnswer` | Scripts/Projects/OpenRISC/OR10/GdbToJtagBridge/src/rsp_or10.cpp:294-333 | g is answered if all 35 can be read, and ends the connection otherwise. |
| `RspSession.Session.WriteReg` | Scripts/Projects/OpenRISC/OR10/GdbToJtagBridge/src/rsp_or10.cpp:443-494 | Exactly the register asked for is written, in the CPU and with the value parsed; the same errors. |
| `RspAnswers.WrittenIsShown` | Scripts/Projects/OpenRISC/OR10/GdbToJtagBridge/src/rsp_or10.cpp:294-494 | After P with register n, the reply to g has the new value at place n, and at all others what it had before. |
| `RspAnswers.RegisterWriteAnswer` | Scripts/Projects/OpenRISC/OR10/GdbToJtagBridge/src/rsp_or10.cpp:443-494 | P is answered with OK if and only if the register is 32, which is ignored, or below 35, there, and the digits are good; only then, and only that register is changed. It ends the connection otherwise. |
| `RspSession.Session.Query` | Scripts/Projects/OpenRISC/OR10/GdbToJtagBridge/src/rsp_or10.cpp:760-849 | The reply to each of the queries known; an unknown one is asserted not to occur. |
| `RspSession.Session.VPacket` | Scripts/Projects/OpenRISC/OR10/GdbToJtagBridge/src/rsp_or10.cpp:903-935 | The replies to `vKill` and to all others. |
| `RspSession.Session.ProcessWhileStopped` | Scripts/Projects/OpenRISC/OR10/GdbToJtagBridge/src/rsp_or10.cpp:956-1050 | The poll speed assertion holds; every request, with whatever the rest of its buffer holds, has exactly the effect given by `EffectOf` on events, input, CPU, watchpoint slots and the running state, and keeps the invariant; exactly `c` and `s` resume the target, the latter by a single step. |
| `RspAnswers.FixedAnswers` | Scripts/Projects/OpenRISC/OR10/GdbToJtagBridge/src/rsp_or10.cpp:956-1050 | The answers that depend on nothing else, and what c, s and k do, with and without anything behind the letter. |
| `RspAnswers.QueriesAre` | Scripts/Projects/OpenRISC/OR10/GdbToJtagBridge/src/rsp_or10.cpp:760-849 | The answer to each fixed query, whatever follows its name. |
| `RspAnswers.MonitorAnswer` | Scripts/Projects/OpenRISC/OR10/GdbToJtagBridge/src/rsp_or10.cpp:760-849 | A monitor command replies with its result if that has less than 16384 characters; otherwise an assertion fails, or the connection ends. |
| `RspAnswers.OperationsAre` | Scripts/Projects/OpenRISC/OR10/GdbToJtagBridge/src/rsp_or10.cpp:903-935 | vKill is answered with OK, and any other v request with nothing. |
| `RspAnswers.UnknownAnswer` | Scripts/Projects/OpenRISC/OR10/GdbToJtagBridge/src/rsp_or10.cpp:956-1050 | Other letters fail an assertion, or are answered with nothing; so are other kinds of watchpoints, and a bad request for a hardware breakpoint ends the connection or fails an assertion. |
| `RspRequests.WhatCanOverrun` | Scripts/Projects/OpenRISC/OR10/GdbToJtagBridge/src/rsp_or10.cpp:336-429 | Whatever the rest of the packet buffer holds, a request is defined if and only if it is neither a read whose reply leaves its buffer, which takes 2^31 bytes or more, nor a write without a colon or with a negative length that gets through. |
| `RspRequests.WriteWithoutColon` | Scripts/Projects/OpenRISC/OR10/GdbToJtagBridge/src/rsp_or10.cpp:392-399 | `M0,1` with zeros behind it runs into undefined behaviour. |
| `RspRequests.NegativeWriteWithoutColon` | Scripts/Projects/OpenRISC/OR10/GdbToJtagBridge/src/rsp_or10.cpp:392-425 | So does `M0,ffffffff` with a colon left behind it, or it fails an assertion. |
| `RspSession.Session.ProcessClientCommand` | Scripts/Projects/OpenRISC/OR10/GdbToJtagBridge/src/rsp_or10.cpp:938-1050 | The effect of a request in either state, including failed assertions and undefined behaviour, which end the program; after an exception the session can still be detached. |
| `RspSession.Session.ProcessRequest` | Scripts/Projects/OpenRISC/OR10/GdbToJtagBridge/src/rsp_server.cpp:268-308 | A request that has been received and acknowledged has its effect; unless that ends the program, it ends the connection, after detaching, if and only if it fails. So does the end of input or a framing error. The invariant is kept in every case. |
| `RspSession.Session.Disconnect` | Scripts/Projects/OpenRISC/OR10/GdbToJtagBridge/src/rsp_or10.cpp:189-209 | From any state a request can leave behind: the CPU runs on alone, and the session may start again. |
| `RspSession.Session.Turn` | Scripts/Projects/OpenRISC/OR10/GdbToJtagBridge/src/rsp_server.cpp:311-386 | Each happening makes of the session, the whole CPU and the connection exactly what `RspRuns.Turned` says: a client is attached if there is none; a client's request takes effect; at a time-out a stop is reported, if there is one; nothing changes otherwise. The invariant is kept and the events stay in order. |
| `RspSession.Session.HandleAll` | Scripts/Projects/OpenRISC/OR10/GdbToJtagBridge/src/rsp_server.cpp:311-386 | All that happens, up to an exception or the end of the program, is a run of that transition system. After a time-out at the end no stopped target is marked running. |
| `RspRuns.StopIsReported` | Scripts/Projects/OpenRISC/OR10/GdbToJtagBridge/src/rsp_server.cpp:311-386 | In every run, a stop of the CPU is followed by S05 at the first time-out, unless the client gets active before, and by nothing else until then. |
| `RspRuns.NothingToReport` | Scripts/Projects/OpenRISC/OR10/GdbToJtagBridge/src/rsp_server.cpp:365-366 | Without a stop, a time-out changes nothing. |
| `RspRuns.ContinueResumes` | Scripts/Projects/OpenRISC/OR10/GdbToJtagBridge/src/rsp_or10.cpp:242-254 | `$c#63` to a stopped target: it is acknowledged and carried out, the reason register is cleared, single stepping is off, and nothing else in the CPU changes but the stall state. |
| `RspRuns.BreakpointIsReported` | Scripts/Projects/OpenRISC/OR10/GdbToJtagBridge/src/rsp_server.cpp:311-386 | In every run: a stopped target is told to go on, the CPU stops, and the next time-out tells the client so; nothing else is sent, and nothing else in the CPU changes after the stop. |
| `RspRuns.BreakStops` | Scripts/Projects/OpenRISC/OR10/GdbToJtagBridge/src/rsp_or10.cpp:938-954 | The break character stops a running target, and is answered with S05; without an acknowledgement of that, the connection ends and the CPU is left running. |
| `RspSession.Session.Serve` | Scripts/Projects/OpenRISC/OR10/GdbToJtagBridge/src/rsp_server.cpp:440-467 | Over every schedule, with whatever the clients send and the CPU does, up to the end of the program: the events stay in order, and as many halts and detaches as resumes. |
| `RspLog.EachResumeEndsOnce` | Scripts/Projects/OpenRISC/OR10/GdbToJtagBridge/src/rsp_or10.cpp:938-1068 | Each resume leaves the running state at most once. |
| `RspLog.HaltIsReported` | Scripts/Projects/OpenRISC/OR10/GdbToJtagBridge/src/rsp_or10.cpp:938-1068 | A halt comes out of the running state and is followed by exactly the stop reply. |
| `RspLog.SilentWhileRunning` | Scripts/Projects/OpenRISC/OR10/GdbToJtagBridge/src/rsp_or10.cpp:938-954 | While the target runs nothing is sent but acknowledgements. |
| `SlotNames.TimestampRoundTrip` | Scripts/Tools/RotateDir.pl:799-879 | Parsing a name made of a date and a sequence number gives both back, for every valid date. |
| `SlotNames.DateIs` | Scripts/Tools/RotateDir.pl:799-879 | The ten characters of a date: four digits of the year, two of the month, two of the day. |
| `SlotNames.TimestampNamesAre` | Scripts/Tools/RotateDir.pl:799-879 | A name that parses is year, month and day as digits with dashes between them, and no suffix for the number 1 or a dash and a number from 2 up. |
| `SlotNames.SequenceRoundTrip` | Scripts/Tools/RotateDir.pl:514-536 | The same for plain sequence numbers. |
| `SlotNames.SequenceNamesAre` | Scripts/Tools/RotateDir.pl:514-536 | Exactly the digit strings from 1 up to 2^63 - 1 are names of slots, and what number each one has. |
| `RotateDir.NextNumberIsNext` | Scripts/Tools/RotateDir.pl:524-533 | The next number is above all others of its date, and 1 or one more than one of them. |
| `RotateDir.NextSlotIsNewest` | Scripts/Tools/RotateDir.pl:506-600 | The new name parses back to a slot that is strictly newer than all others. |
| `RotateDir.ProcessSequenceSlots` | Scripts/Tools/RotateDir.pl:506-536 | The next name, or an error for a bad name or an integer overflow. |
| `RotateDir.ProcessTimestampSlots` | Scripts/Tools/RotateDir.pl:539-600 | The next name, or an error for a bad name, a date before an existing one, or an overflow. |
| `SlotOrder.SortedSlots` | Scripts/Tools/RotateDir.pl:776-796 | Sorting meets a duplicate if and only if two slots compare equal, and otherwise puts all of them in order of age. |
| `SlotNames.OlderIs` | Scripts/Tools/RotateDir.pl:776-796 | By year, month, day and sequence number, in this order. |
| `Rotation.BaseDir.DeleteOldSlots` | Scripts/Tools/RotateDir.pl:616-654 | Exactly the oldest slots go, down to one fewer than the slot count. |
| `Rotation.NewestStay` | Scripts/Tools/RotateDir.pl:616-654 | Everything that stays is newer than everything deleted, and the new slot is newer than all. |
| `Rotation.NewNameIsFree` | Scripts/Tools/RotateDir.pl:657-673 | Creation never collides with an existing slot. |
| `Rotation.BaseDir.Rotate` | Scripts/Tools/RotateDir.pl:387-428 | One rotation; an error before anything is deleted leaves the directory as it was. A plain file with the new slot's name fails it after the old slots are gone, and is the only thing that does. |
| `Rotation.HistoryGoesOn` | Scripts/Tools/RotateDir.pl:387-428 | In a history with a fixed scheme and, for dates, no date before the last one, a rotation succeeds and the disk holds the last slots created. |
| `Rotation.BaseDir.RotateRepeatedly` | Scripts/Tools/RotateDir.pl:387-428 | After any number k of rotations with slot count n, and no plain file named like a slot, the disk holds exactly the last min(k, n) slots created. |
| `Rotation.RecentNumberIsThere` | Scripts/Tools/RotateDir.pl:506-536 | With sequence numbers these are the numbers k - n + 1 to k ... |
| `Rotation.OnlyRecentNumbers` | Scripts/Tools/RotateDir.pl:506-536 | ... and no others. |

## Left out

- Sockets, poll(), TCP_CORK, signals, timers, tracing, USB calls and their failures: replaced by byte sequences and the assumed devices.
- JTAG errors and the exceptions they raise; only the debug module's own error bits are modelled.
- cable_ft245.cpp, cable_parallel.cpp, the simulation cables and the Xilinx cable's classic mode.
- UsbBlasterRead.ReadStream: every USB reception has its two leading bytes.
- Ft2232.Ftdi: the host's memory and its 32-bit buffer indices are not bounded, and the buffers are sequences that are replaced, since realloc() moves them anyway.
- Ft2232Stream.WriteStream: a stream of no bits with TMS is excluded, as it shifts by -1.
- XpcDlc9.Cable.ReadWriteStream: the result for more than 8191 bits is that of the last transfer, see OneTransferIsNeeded.
- ChainCommands.JtagPort.ShiftZerosIn: runs of more than 2048 zeros, which the source asserts not to occur.
- Data register prefix and postfix bits of other devices (asserted to be 0), and Altera virtual JTAG.
- RspSession.Session.Serve: stated for clean receivers; with others, cached flags need not agree with the CPU.
- The CPU's instructions, caches and bus: the CPU is its debug registers, a word memory and the stall state.
- RspSession.Session.ProcessWhileStopped: what sscanf makes of a request is a parameter, and so are the replies to monitor commands, whose own register accesses are not modelled.
- The CPU moves on between requests, not in the middle of one; no register is accessed there while it could.
- HexDigits.Ascii2Hex: char is signed, as on the bridge's hosts.
- BSDL parsing and command-line options.
- Rotation.BaseDir.Rotate: the options that switch deletion or creation off, the deletion delay, the current date, file system errors, and names with line breaks or non-ASCII digits.
- SlotOrder.SortSlots: Perl's sort is modelled by insertion; only its result matters.
- orbuild, makefiles, the Verilog sources and test cases.

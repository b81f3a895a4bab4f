// cable_usbblaster.cpp with the bit-bang routines of cable_driver_common.cpp: byte-shift packets
// and single pin writes put the same clock events on the wire.
module UsbBlaster {
  import opened Bits
  import opened Clocks
  import opened Samples

  // ----- The USB-Blaster itself -----

  const USBBLASTER_CMD_TCK: nat := 0x01
  const USBBLASTER_CMD_TMS: nat := 0x02
  const USBBLASTER_CMD_nCS: nat := 0x08
  const USBBLASTER_CMD_TDI: nat := 0x10
  const USBBLASTER_CMD_OE: nat := 0x20
  const USBBLASTER_CMD_READ: nat := 0x40
  const USBBLASTER_CMD_BYTESHIFT: nat := 0x80
  const USBBLASTER_MAX_WRITE: nat := 63

  // Pin levels, and the clock events so far. A byte shift only works when TCK is low at its start.
  datatype Pod = Pod(tck: bool, tms: bool, tdi: bool, wire: seq<Clock>, garbled: bool)

  function SetPins(pod: Pod, b: byte): Pod {
    var tck, tms, tdi := b % 2 == 1, b / 2 % 2 == 1, b / 16 % 2 == 1;
    Pod(tck, tms, tdi, if !pod.tck && tck then pod.wire + [Clock(tms, tdi)] else pod.wire, pod.garbled)
  }

  function ShiftBytes(pod: Pod, bytes: seq<byte>): Pod {
    if pod.tck then pod.(garbled := true) else pod.(wire := pod.wire + ByteClocks(bytes, pod.tms))
  }

  function Receive(pod: Pod, packet: seq<byte>): Pod
    decreases |packet|
  {
    if packet == [] then pod
    else if packet[0] < USBBLASTER_CMD_BYTESHIFT then Receive(SetPins(pod, packet[0]), packet[1..])
    else
      var n := packet[0] % 0x40;
      if |packet| < 1 + n then pod.(garbled := true)
      else Receive(ShiftBytes(pod, packet[1..1 + n]), packet[1 + n..])
  }

  // ----- The driver -----

  datatype Pins = Pins(tck: bool, tdi: bool, tms: bool)

  function PinByte(p: Pins, read: bool): byte {
    USBBLASTER_CMD_OE + USBBLASTER_CMD_nCS +
    (if read then USBBLASTER_CMD_READ else 0) + (if p.tck then USBBLASTER_CMD_TCK else 0) +
    (if p.tdi then USBBLASTER_CMD_TDI else 0) + (if p.tms then USBBLASTER_CMD_TMS else 0)
  }

  lemma PinByteSetsPins(pod: Pod, p: Pins, read: bool)
    ensures Receive(pod, [PinByte(p, read)])
            == Pod(p.tck, p.tms, p.tdi,
                   if !pod.tck && p.tck then pod.wire + [Clock(p.tms, p.tdi)] else pod.wire,
                   pod.garbled)
  {
    var b := PinByte(p, read);
    assert b % 2 == (if p.tck then 1 else 0);
    assert b / 2 % 2 == (if p.tms then 1 else 0);
    assert b / 16 % 2 == (if p.tdi then 1 else 0);
    assert [b][1..] == [];
  }

  // The first byte of a byte-shift packet.
  function Header(n: nat, read: bool): byte
    requires n <= USBBLASTER_MAX_WRITE
  {
    USBBLASTER_CMD_BYTESHIFT + (if read then USBBLASTER_CMD_READ else 0) + n
  }

  lemma HeaderIs(n: nat, read: bool)
    requires n <= USBBLASTER_MAX_WRITE
    ensures Header(n, read) >= USBBLASTER_CMD_BYTESHIFT && Header(n, read) % 0x40 == n
  {
    assert Header(n, read) == n + 2 * 0x40 || Header(n, read) == n + 3 * 0x40;
  }

  lemma ByteShiftClocks(pod: Pod, bytes: seq<byte>, read: bool)
    requires |bytes| <= USBBLASTER_MAX_WRITE && !pod.tck && !pod.tms
    ensures Receive(pod, [Header(|bytes|, read)] + bytes) == pod.(wire := pod.wire + ByteClocks(bytes, false))
  {
    hide ByteClocks, SetPins, Header;
    HeaderIs(|bytes|, read);
    var packet: seq<byte> := [Header(|bytes|, read)] + bytes;
    assert packet[1..1 + |bytes|] == bytes && packet[1 + |bytes|..] == [];
  }

  // The bit-bang reference shifts the last bit out with a count of len - 1, which C only
  // defines for up to 32 bits: `undef` stands for what longer streams get.
  function BitBangClocks(stream: seq<word>, len: nat, lastTms: bool, undef: bool): (cs: seq<Clock>)
    requires 0 < len && Holds(stream, len)
    ensures |cs| == len
  {
    var last := if len <= 32 then Bit(stream[(len - 1) / 32], len - 1) else undef;
    StreamClocks(stream, len, lastTms)[..len - 1] + [Clock(lastTms, last)]
  }

  lemma NextClock(sent: seq<Clock>, cs: seq<Clock>, i: nat)
    requires i < |cs|
    ensures sent + cs[..i] + [cs[i]] == sent + cs[..i + 1]
  {
  }

  lemma BitBangAt(stream: seq<word>, len: nat, lastTms: bool, undef: bool, i: nat)
    requires i < len && Holds(stream, len)
    ensures BitBangClocks(stream, len, lastTms, undef)[i]
         == Clock(lastTms && i == len - 1, if i < len - 1 || len <= 32 then StreamBit(stream, i) else undef)
  {
  }

  // Up to 32 bits that is the stream, whatever a longer shift gives; beyond, it is not for one or the
  // other value of the last bit.
  lemma BitBangIsStream(stream: seq<word>, len: nat, lastTms: bool)
    requires 0 < len && Holds(stream, len)
    ensures (forall undef :: BitBangClocks(stream, len, lastTms, undef) == StreamClocks(stream, len, lastTms))
       <==> len <= 32
  {
    var clocks := StreamClocks(stream, len, lastTms);
    assert clocks == clocks[..len - 1] + [clocks[len - 1]];
    if len > 32 {
      var bang := BitBangClocks(stream, len, lastTms, !StreamBit(stream, len - 1));
      assert bang[len - 1] != clocks[len - 1];
    }
  }

  class Driver {
    var clockIsHigh: bool
    var pod: Pod
    var scratchpad: array<byte>
    const tdo: nat -> bool  // the level of TDO at the n-th clock event

    // Unless the clock may be high, both TCK and TMS are low.
    ghost predicate Valid()
      reads this
    {
      scratchpad.Length == USBBLASTER_MAX_WRITE + 1 && !pod.garbled && (pod.tck || pod.tms ==> clockIsHigh)
    }

    // Nothing is known about the pins at the beginning.
    constructor (pod: Pod, tdo: nat -> bool)
      requires !pod.garbled
      ensures Valid() && this.pod == pod && this.tdo == tdo && fresh(scratchpad)
    {
      this.pod, this.tdo, clockIsHigh := pod, tdo, true;
      scratchpad := new byte[USBBLASTER_MAX_WRITE + 1](_ => 0);
    }

    method Out(p: Pins, read: bool)
      modifies `pod, `clockIsHigh
      ensures pod == Pod(p.tck, p.tms, p.tdi,
                         if !old(pod).tck && p.tck then old(pod).wire + [Clock(p.tms, p.tdi)] else old(pod).wire,
                         old(pod).garbled)
      ensures clockIsHigh == p.tck
    {
      PinByteSetsPins(pod, p, read);
      pod := Receive(pod, [PinByte(p, read)]);
      clockIsHigh := p.tck;
    }

    // cable_common_write_bit: set the data while the clock is low, then raise it. There is no TRST pin.
    method WriteBit(packet: Packet)
      requires Valid()
      modifies `pod, `clockIsHigh
      ensures Valid() && pod.wire == old(pod.wire) + [Clock(packet.tms, packet.tdo)]
    {
      Out(Pins(false, packet.tdo, packet.tms), false);
      Out(Pins(true, packet.tdo, packet.tms), false);
    }

    // cable_common_read_write_bit
    method ReadWriteBit(packet: Packet) returns (bitIn: byte)
      requires Valid()
      modifies `pod, `clockIsHigh
      ensures Valid() && pod.wire == old(pod.wire) + [Clock(packet.tms, packet.tdo)]
      ensures bitIn == if tdo(|old(pod.wire)|) then 1 else 0
    {
      Out(Pins(false, packet.tdo, packet.tms), false);
      bitIn := if tdo(|pod.wire|) then 1 else 0;
      Out(Pins(true, packet.tdo, packet.tms), true);
    }

    // cable_common_write_stream
    method BitBangStream(stream: seq<word>, len: nat, lastTms: bool, undef: bool)
      requires Valid() && 0 < len && Holds(stream, len)
      modifies `pod, `clockIsHigh
      ensures Valid() && pod.wire == old(pod.wire) + BitBangClocks(stream, len, lastTms, undef)
    {
      ghost var cs := StreamClocks(stream, len, lastTms);
      for i := 0 to len - 1
        invariant Valid() && pod.wire == old(pod.wire) + cs[..i]
      {
        WriteBit(Packet(StreamBit(stream, i), false, false));
        NextClock(old(pod.wire), cs, i);
      }
      var last := if len <= 32 then Bit(stream[(len - 1) / 32], len - 1) else undef;
      WriteBit(Packet(last, lastTms, false));
    }

    // cable_common_read_stream: what comes in is right for every length.
    method BitBangReadStream(outstream: seq<word>, instream: array<word>, len: nat, lastTms: bool, undef: bool)
      requires Valid() && 0 < len && Holds(outstream, len) && len <= 32 * instream.Length
      modifies `pod, `clockIsHigh, instream
      ensures Valid() && pod.wire == old(pod.wire) + BitBangClocks(outstream, len, lastTms, undef)
      ensures HoldsSamples(instream[..], Levels(tdo, |old(pod.wire)|, len), len)
    {
      ghost var cs := BitBangClocks(outstream, len, lastTms, undef);
      ghost var samples := Levels(tdo, |old(pod.wire)|, len);
      for i := 0 to len
        invariant Valid() && pod.wire == old(pod.wire) + cs[..i]
        invariant HoldsSamples(instream[..], samples, i)
      {
        LevelAt(tdo, |old(pod.wire)|, len, i);
        var inval := ExchangeBit(outstream, len, lastTms, undef, i);
        NextClock(old(pod.wire), cs, i);
        StoreSample(instream, i, inval, samples);
      }
      assert cs[..len] == cs;
    }

    // Bit i of it.
    method ExchangeBit(outstream: seq<word>, len: nat, lastTms: bool, undef: bool, i: nat) returns (inval: bool)
      requires Valid() && i < len && Holds(outstream, len)
      modifies `pod, `clockIsHigh
      ensures Valid() && pod.wire == old(pod.wire) + [BitBangClocks(outstream, len, lastTms, undef)[i]]
      ensures inval == tdo(|old(pod.wire)|)
    {
      BitBangAt(outstream, len, lastTms, undef, i);
      var outval := if i < len - 1 || len <= 32 then StreamBit(outstream, i) else undef;
      var bitIn := ReadWriteBit(Packet(outval, lastTms && i == len - 1, false));
      inval := bitIn == 1;
    }

    // Sends bytes `from` up to `to` of the stream in byte-shift mode.
    method SendPacket(stream: seq<word>, from: nat, to: nat, read: bool)
      requires Valid() && !clockIsHigh && from <= to <= from + USBBLASTER_MAX_WRITE && Holds(stream, 8 * to)
      modifies `pod, scratchpad
      ensures Valid() && pod.wire == old(pod.wire) + ByteClocks(StreamBytes(stream, from, to), false)
    {
      var bytes := StreamBytes(stream, from, to);
      FillScratchpad(bytes, read);
      ByteShiftClocks(pod, bytes, read);
      pod := Receive(pod, scratchpad[..|bytes| + 1]);
    }

    method FillScratchpad(bytes: seq<byte>, read: bool)
      requires |bytes| <= USBBLASTER_MAX_WRITE && scratchpad.Length == USBBLASTER_MAX_WRITE + 1
      modifies scratchpad
      ensures scratchpad[..|bytes| + 1] == [Header(|bytes|, read)] + bytes
    {
      scratchpad[0] := Header(|bytes|, read);
      for j := 0 to |bytes|
        invariant scratchpad[..1 + j] == [Header(|bytes|, read)] + bytes[..j]
      {
        scratchpad[1 + j] := bytes[j];
      }
      assert bytes[..|bytes|] == bytes;
    }

    // One pass of the packet loop.
    method SendRun(stream: seq<word>, from: nat, to: nat, ghost len: nat, ghost lastTms: bool, ghost wire: seq<Clock>)
      requires Valid() && !clockIsHigh && Holds(stream, len) && from <= to <= from + USBBLASTER_MAX_WRITE
      requires 8 * to <= len && (8 * to == len ==> !lastTms)
      requires pod.wire == wire + StreamClocks(stream, len, lastTms)[..8 * from]
      modifies `pod, scratchpad
      ensures Valid() && pod.wire == wire + StreamClocks(stream, len, lastTms)[..8 * to]
    {
      hide StreamClocks, StreamBytes, ByteClocks;
      ByteRun(stream, from, to, len, lastTms);
      SendPacket(stream, from, to, false);
      Extends(wire, StreamClocks(stream, len, lastTms), 8 * from, 8 * to);
    }

    // The packet loop of cable_usbblaster_write_stream, for all whole bytes of the stream.
    method SendBytes(stream: seq<word>, count: nat, ghost len: nat, ghost lastTms: bool)
      requires Valid() && !clockIsHigh && Holds(stream, len)
      requires 8 * count <= len && (8 * count == len ==> !lastTms)
      modifies `pod, scratchpad
      ensures Valid() && pod.wire == old(pod.wire) + StreamClocks(stream, len, lastTms)[..8 * count]
    {
      hide StreamClocks, StreamBytes, ByteClocks;
      var sent := 0;
      ghost var wire := pod.wire;
      assert StreamClocks(stream, len, lastTms)[..8 * sent] == [];
      while sent < count
        invariant sent <= count && Valid() && pod.wire == wire + StreamClocks(stream, len, lastTms)[..8 * sent]
      {
        var n := if count - sent > USBBLASTER_MAX_WRITE then USBBLASTER_MAX_WRITE else count - sent;
        SendRun(stream, sent, sent + n, len, lastTms, wire);
        sent := sent + n;
      }
    }

    // cable_usbblaster_write_stream: the wire sees exactly the reference sequence, whatever the
    // length and whatever calls came before.
    method WriteStream(stream: seq<word>, len: nat, lastTms: bool)
      requires Valid() && 0 < len && Holds(stream, len)
      modifies `pod, `clockIsHigh, scratchpad
      ensures Valid() && pod.wire == old(pod.wire) + StreamClocks(stream, len, lastTms)
    {
      var bytesToTransfer, leftoverBits := len / 8, len % 8;
      if leftoverBits == 0 && lastTms {
        bytesToTransfer, leftoverBits := bytesToTransfer - 1, leftoverBits + 8;
      }
      if bytesToTransfer == 0 {
        BitBangIsStream(stream, len, lastTms);
        BitBangStream(stream, len, lastTms, false);
        return;
      }
      if clockIsHigh {
        Out(Pins(false, false, false), false);
      }
      SendBytes(stream, bytesToTransfer, len, lastTms);
      clockIsHigh := false;
      SplitAtByte(old(pod.wire), stream, len, bytesToTransfer, leftoverBits, lastTms);
      if leftoverBits != 0 {
        var leftover: seq<word> := [StreamByte(stream, bytesToTransfer)];
        BitBangIsStream(leftover, leftoverBits, lastTms);
        BitBangStream(leftover, leftoverBits, lastTms, false);
      }
    }
  }

  lemma LeftoverClocks(stream: seq<word>, len: nat, from: nat, n: nat, lastTms: bool)
    requires 0 < n <= 8 && len == 8 * from + n && Holds(stream, len)
    ensures StreamClocks(stream, len, lastTms)[8 * from..] == StreamClocks([StreamByte(stream, from)], n, lastTms)
  {
    forall i | 0 <= i < n
      ensures StreamBit([StreamByte(stream, from)], i) == StreamBit(stream, 8 * from + i)
    {
      StreamByteBit(stream, from, i);
    }
  }

  // A stream is its whole bytes, and up to eight leftover bits sent from a word of their own.
  lemma SplitAtByte(sent: seq<Clock>, stream: seq<word>, len: nat, from: nat, n: nat, lastTms: bool)
    requires n <= 8 && len == 8 * from + n && Holds(stream, len)
    ensures n == 0 ==>
              sent + StreamClocks(stream, len, lastTms)[..8 * from] == sent + StreamClocks(stream, len, lastTms)
    ensures n > 0 ==> sent + StreamClocks(stream, len, lastTms)[..8 * from]
                      + StreamClocks([StreamByte(stream, from)], n, lastTms)
                      == sent + StreamClocks(stream, len, lastTms)
  {
    if n > 0 { LeftoverClocks(stream, len, from, n, lastTms); }
    Rejoin(sent, StreamClocks(stream, len, lastTms), 8 * from);
  }
}

// What a cable puts on the JTAG wires: one event per rising edge of TCK.
// StreamClocks is the bit-at-a-time meaning of a stream transfer.
module Clocks {
  import opened Bits

  datatype Clock = Clock(tms: bool, tdi: bool)

  // What the bridge asks a cable driver to send as a single bit.
  datatype Packet = Packet(tdo: bool, tms: bool, trst: bool)

  // Bit k of a stream of 32-bit words: LSB to MSB of word 0, then of word 1, and so on.
  predicate StreamBit(stream: seq<word>, k: nat)
    requires k / 32 < |stream|
  {
    Bit(stream[k / 32], k % 32)
  }

  predicate Holds(stream: seq<word>, len: nat) {
    len <= 32 * |stream|
  }

  function StreamBits(stream: seq<word>, len: nat): (bits: seq<bool>)
    requires Holds(stream, len)
    ensures |bits| == len
    ensures forall k :: 0 <= k < len ==> k / 32 < |stream| && bits[k] == StreamBit(stream, k)
  {
    seq(len, k requires 0 <= k < len => StreamBit(stream, k))
  }

  // The clock events of a stream transfer; TMS is high on the last one only, and only on request.
  function StreamClocks(stream: seq<word>, len: nat, lastTms: bool): (cs: seq<Clock>)
    requires Holds(stream, len)
    ensures |cs| == len
    ensures forall k :: 0 <= k < len ==>
              k / 32 < |stream| && cs[k] == Clock(lastTms && k == len - 1, StreamBit(stream, k))
  {
    seq(len, k requires 0 <= k < len => Clock(lastTms && k == len - 1, StreamBit(stream, k)))
  }

  // Byte j of the stream as it lies in the memory of a little-endian host.
  function StreamByte(stream: seq<word>, j: nat): (b: byte)
    requires j / 4 < |stream|
  {
    PowersOfTwo();
    Low(Shr(stream[j / 4], 8 * (j % 4)), 8)
  }

  lemma StreamByteBit(stream: seq<word>, j: nat, i: nat)
    requires j / 4 < |stream| && i < 8
    ensures (8 * j + i) / 32 < |stream|
    ensures Bit(StreamByte(stream, j), i) == StreamBit(stream, 8 * j + i)
  {
    var w := stream[j / 4];
    LowBit(Shr(w, 8 * (j % 4)), 8, i);
    ShrBit(w, 8 * (j % 4), i);
    assert (8 * j + i) / 32 == j / 4 && (8 * j + i) % 32 == 8 * (j % 4) + i;
  }

  // The bytes of the stream from index `from` up to, and not including, `to`.
  function StreamBytes(stream: seq<word>, from: nat, to: nat): (bs: seq<byte>)
    requires from <= to && Holds(stream, 8 * to)
    ensures |bs| == to - from
    ensures forall j :: 0 <= j < to - from ==> bs[j] == StreamByte(stream, from + j)
  {
    seq<byte>(to - from, j requires 0 <= j < to - from => StreamByte(stream, from + j))
  }

  // Byte after byte, bit 0 first.
  function BitsOf(buf: seq<byte>): (bits: seq<bool>)
    ensures |bits| == 8 * |buf|
  {
    if buf == [] then [] else BitsOf(buf[..|buf| - 1]) + ToBits(buf[|buf| - 1], 8)
  }

  lemma {:induction false} BitsOfJoin(a: seq<byte>, b: seq<byte>)
    ensures BitsOf(a + b) == BitsOf(a) + BitsOf(b)
  {
    if b == [] {
      assert a + b == a;
    } else {
      assert (a + b)[..|a + b| - 1] == a + b[..|b| - 1];
      BitsOfJoin(a, b[..|b| - 1]);
    }
  }

  predicate BufBit(buf: seq<byte>, k: nat)
    requires k / 8 < |buf|
  {
    Bit(buf[k / 8], k % 8)
  }

  lemma {:induction false} BitsOfBit(buf: seq<byte>, k: nat)
    requires k < 8 * |buf|
    ensures BitsOf(buf)[k] == BufBit(buf, k)
  {
    if k < 8 * (|buf| - 1) {
      BitsOfBit(buf[..|buf| - 1], k);
    }
  }

  // Bits sent under one TMS level.
  function Under(tms: bool, bits: seq<bool>): (cs: seq<Clock>)
    ensures |cs| == |bits|
  {
    seq(|bits|, i requires 0 <= i < |bits| => Clock(tms, bits[i]))
  }

  lemma UnderJoin(tms: bool, a: seq<bool>, b: seq<bool>)
    ensures Under(tms, a + b) == Under(tms, a) + Under(tms, b)
  {
  }

  function ByteClocks(bytes: seq<byte>, tms: bool): seq<Clock> {
    Under(tms, BitsOf(bytes))
  }

  // Shifting out a run of whole bytes of a stream clocks exactly that run of its bits.
  lemma ByteRun(stream: seq<word>, from: nat, to: nat, len: nat, lastTms: bool)
    requires from <= to && 8 * to <= len && Holds(stream, len)
    requires 8 * to == len ==> !lastTms
    ensures ByteClocks(StreamBytes(stream, from, to), false) == StreamClocks(stream, len, lastTms)[8 * from..8 * to]
  {
    var bytes := StreamBytes(stream, from, to);
    forall k | 0 <= k < 8 * (to - from) ensures BitsOf(bytes)[k] == StreamBit(stream, 8 * from + k) {
      RunBit(stream, from, to, k);
    }
  }

  lemma RunBit(stream: seq<word>, from: nat, to: nat, k: nat)
    requires from <= to && Holds(stream, 8 * to) && k < 8 * (to - from)
    ensures BitsOf(StreamBytes(stream, from, to))[k] == StreamBit(stream, 8 * from + k)
  {
    BitsOfBit(StreamBytes(stream, from, to), k);
    StreamByteBit(stream, from + k / 8, k % 8);
  }

  // Appending the next run of a sequence to what has been sent of it.
  lemma Extends<T>(sent: seq<T>, s: seq<T>, i: nat, j: nat)
    requires i <= j <= |s|
    ensures sent + s[..i] + s[i..j] == sent + s[..j]
  {
    assert s[..i] + s[i..j] == s[..j];
  }

  lemma Rejoin<T>(sent: seq<T>, s: seq<T>, i: nat)
    requires i <= |s|
    ensures sent + s[..i] + s[i..] == sent + s
    ensures i == |s| ==> sent + s[..i] == sent + s
  {
    assert s[..i] + s[i..] == s;
  }
}

// The packet formats of the Xilinx Platform Cable (DLC9), as the comments of
// cable_xpc_dlc9.cpp describe them.
module CpldFormat {
  import opened Bits
  import opened Clocks

  // One state change of an A6 transfer.
  datatype Change = Change(tdi: bool, tms: bool, toggle: bool, sample: bool)

  const NO_CHANGE := Change(false, false, false, false)

  // Change k of a transfer: four to a 16-bit word, TDI and TMS in the low byte,
  // clock toggle and TDO sampling in the high byte.
  function ChangeAt(buf: seq<byte>, k: nat): Change
    requires 2 * (k / 4) + 1 < |buf|
  {
    var i, j := 2 * (k / 4), k % 4;
    Change(Bit(buf[i], j), Bit(buf[i], 4 + j), Bit(buf[i + 1], j), Bit(buf[i + 1], 4 + j))
  }

  function ChangesOf(buf: seq<byte>, n: nat): (cs: seq<Change>)
    requires 2 * ((n + 3) / 4) <= |buf|
    ensures |cs| == n
  {
    if n == 0 then [] else ChangesOf(buf, n - 1) + [ChangeAt(buf, n - 1)]
  }

  // The clock events that changes cause: one for each toggle.
  function ClocksOf(changes: seq<Change>): seq<Clock> {
    if changes == [] then []
    else
      var front, last := changes[..|changes| - 1], changes[|changes| - 1];
      if last.toggle then ClocksOf(front) + [Clock(last.tms, last.tdi)] else ClocksOf(front)
  }

  // The TDO levels sampled, when `tdo(n)` is the level at the n-th clock event ever.
  function SamplesOf(changes: seq<Change>, base: nat, tdo: nat -> bool): seq<bool> {
    if changes == [] then []
    else
      var front := changes[..|changes| - 1];
      if changes[|changes| - 1].sample then SamplesOf(front, base, tdo) + [tdo(base + |ClocksOf(front)|)]
      else SamplesOf(front, base, tdo)
  }

  // How many bits the last, incomplete 32-bit group of samples is moved up by.
  function Padding(n: nat): nat {
    (16 - n % 16) % 16
  }

  // Bit p of the bytes that come back for the samples. Full 32-bit groups are in place, the rest
  // is right-justified in one or two 16-bit words; what lies below it is junk.
  predicate RawBit(samples: seq<bool>, junk: nat -> bool, p: nat) {
    var aligned, pad := |samples| / 32 * 32, Padding(|samples|);
    if p < aligned then samples[p]
    else if aligned + pad <= p < |samples| + pad then samples[p - pad]
    else junk(p)
  }

  function ReplyLength(n: nat): nat {
    2 * ((n + 15) / 16)
  }

  function ReplyByte(samples: seq<bool>, junk: nat -> bool, j: nat): byte {
    PowersOfTwo();
    FromBits(seq(8, i requires 0 <= i => RawBit(samples, junk, 8 * j + i)))
  }

  function ReplyBytes(samples: seq<bool>, junk: nat -> bool): (bytes: seq<byte>)
    ensures |bytes| == ReplyLength(|samples|)
    ensures forall j :: 0 <= j < |bytes| ==> bytes[j] == ReplyByte(samples, junk, j)
  {
    seq<byte>(ReplyLength(|samples|), j requires 0 <= j => ReplyByte(samples, junk, j))
  }

  lemma ReplyByteBit(samples: seq<bool>, junk: nat -> bool, j: nat, i: nat)
    requires i < 8
    ensures Bit(ReplyByte(samples, junk, j), i) == RawBit(samples, junk, 8 * j + i)
  {
    FromBitsBit(seq(8, i requires 0 <= i => RawBit(samples, junk, 8 * j + i)), i);
  }
}

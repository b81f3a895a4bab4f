// The command processor of FTDI's MPSSE, as far as cable_ft2232.cpp uses it.
module Mpsse {
  import opened Bits
  import opened Clocks

  // Opcodes; bit 0x20 asks for the TDO levels to be sent back.
  const WRITE_BYTES: byte := 0x19
  const WRITE_BITS: byte := 0x1B
  const WRITE_TMS_BITS: byte := 0x4B
  const DO_READ: nat := 0x20

  // The outside world: the level of TDO at the n-th clock event ever, the unused bits of a reply,
  // whether the TMS pin stays where a TMS command has left it, and what the host makes of shifts by a
  // negative count.
  datatype World = World(tdo: nat -> bool, junk: nat -> byte, holdsTms: bool, shift: (byte, int) -> nat)

  datatype Chip = Chip(tms: bool, wire: seq<Clock>, replies: seq<byte>)

  // ----- Replies -----

  // The reply to n clock events from number `base` on: TDO comes in at the top of a shift register.
  function BitsReply(w: World, base: nat, n: nat): byte {
    if n == 0 then w.junk(base)
    else BitsReply(w, base, n - 1) / 2 + if w.tdo(base + n - 1) then 0x80 else 0
  }

  // So n levels end up as the n most significant bits.
  lemma {:induction false} BitsReplyBit(w: World, base: nat, n: nat, i: nat)
    requires i < n <= 8
    ensures Bit(BitsReply(w, base, n), 8 - n + i) == w.tdo(base + i)
  {
    var earlier := BitsReply(w, base, n - 1);
    PowersOfTwo();
    assert Pow2(8) == 2 * Pow2(7);
    TopBit(earlier / 2, 7, 8 - n + i);
    if i < n - 1 {
      BitsReplyBit(w, base, n - 1, i);
    }
  }

  // One full byte for every eight levels.
  function BytesReply(w: World, base: nat, n: nat): (bytes: seq<byte>)
    ensures |bytes| == n
  {
    if n == 0 then [] else BytesReply(w, base, n - 1) + [BitsReply(w, base + 8 * (n - 1), 8)]
  }

  lemma {:induction false} BytesReplyJoin(w: World, base: nat, m: nat, n: nat)
    ensures BytesReply(w, base, m) + BytesReply(w, base + 8 * m, n) == BytesReply(w, base, m + n)
  {
    if n > 0 {
      BytesReplyJoin(w, base, m, n - 1);
      assert base + 8 * m + 8 * (n - 1) == base + 8 * (m + n - 1);
    } else {
      assert BytesReply(w, base, m) + [] == BytesReply(w, base, m);
    }
  }

  lemma {:induction false} BytesReplyBit(w: World, base: nat, n: nat, k: nat)
    requires k < 8 * n
    ensures BufBit(BytesReply(w, base, n), k) == w.tdo(base + k)
  {
    if k < 8 * (n - 1) {
      BytesReplyBit(w, base, n - 1, k);
    } else {
      BitsReplyBit(w, base + 8 * (n - 1), 8, k % 8);
    }
  }

  // ----- Commands -----

  predicate Reads(opcode: byte) {
    opcode / DO_READ % 2 == 1
  }

  function Base(opcode: byte): nat {
    if Reads(opcode) then opcode - DO_READ else opcode
  }

  // The size of the command at the start of c; 0 if it is incomplete or unknown.
  function CommandSize(c: seq<byte>): (n: nat)
    ensures n <= |c|
  {
    if |c| < 3 then 0
    else if Base(c[0]) == WRITE_BYTES then
      var n := (c[1] as nat) + 0x100 * (c[2] as nat) + 1;
      if 3 + n <= |c| then 3 + n else 0
    else if (Base(c[0]) == WRITE_BITS && c[1] < 8) || (Base(c[0]) == WRITE_TMS_BITS && c[1] < 7) then 3
    else 0
  }

  // TMS bits 0, 1, ... of a byte, with TDI at its bit 7.
  function TmsClocks(b: byte, n: nat): (cs: seq<Clock>)
    ensures |cs| == n
  {
    if n == 0 then [] else TmsClocks(b, n - 1) + [Clock(Bit(b, n - 1), Bit(b, 7))]
  }

  // What a complete command does.
  function Execute(w: World, chip: Chip, c: seq<byte>): Chip
    requires 0 < CommandSize(c) == |c|
  {
    var base := |chip.wire|;
    if Base(c[0]) == WRITE_BYTES then
      Chip(chip.tms, chip.wire + ByteClocks(c[3..], chip.tms),
           chip.replies + (if Reads(c[0]) then BytesReply(w, base, |c[3..]|) else []))
    else
      var n := c[1] + 1;
      Chip(if Base(c[0]) == WRITE_TMS_BITS && w.holdsTms then Bit(c[2], n - 1) else chip.tms,
           chip.wire + (if Base(c[0]) == WRITE_BITS then Under(chip.tms, ToBits(c[2], n)) else TmsClocks(c[2], n)),
           chip.replies + (if Reads(c[0]) then [BitsReply(w, base, n)] else []))
  }

  // Whether bytes are a run of complete commands.
  predicate Complete(c: seq<byte>)
    decreases |c|
  {
    c == [] || (CommandSize(c) > 0 && Complete(c[CommandSize(c)..]))
  }

  function RunCommands(w: World, chip: Chip, c: seq<byte>): Chip
    requires Complete(c)
    decreases |c|
  {
    if c == [] then chip
    else RunCommands(w, Execute(w, chip, c[..CommandSize(c)]), c[CommandSize(c)..])
  }

  // How many reply bytes commands cause.
  function ReplyCount(c: seq<byte>): nat
    requires Complete(c)
    decreases |c|
  {
    if c == [] then 0
    else
      var n := CommandSize(c);
      (if !Reads(c[0]) then 0 else if Base(c[0]) == WRITE_BYTES then n - 3 else 1) + ReplyCount(c[n..])
  }

  lemma {:induction false} RepliesCounted(w: World, chip: Chip, c: seq<byte>)
    requires Complete(c)
    ensures |RunCommands(w, chip, c).replies| == |chip.replies| + ReplyCount(c)
    ensures chip.replies <= RunCommands(w, chip, c).replies
    decreases |c|
  {
    if c != [] {
      RepliesCounted(w, Execute(w, chip, c[..CommandSize(c)]), c[CommandSize(c)..]);
    }
  }

  // Queueing a further command behind complete ones.
  lemma {:induction false} CommandAppended(w: World, chip: Chip, c: seq<byte>, d: seq<byte>)
    requires Complete(c) && 0 < CommandSize(d) == |d|
    ensures Complete(c + d) && Complete(d)
    ensures RunCommands(w, chip, c + d) == Execute(w, RunCommands(w, chip, c), d)
    ensures ReplyCount(c + d) == ReplyCount(c) + ReplyCount(d)
    decreases |c|
  {
    assert d[|d|..] == [] && d[..|d|] == d;
    if c == [] {
      assert c + d == d;
    } else {
      var n := CommandSize(c);
      assert CommandSize(c + d) == n;
      assert (c + d)[..n] == c[..n] && (c + d)[n..] == c[n..] + d;
      CommandAppended(w, Execute(w, chip, c[..n]), c[n..], d);
    }
  }
}

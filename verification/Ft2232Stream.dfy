// cable_ft2232.cpp: bit streams as MPSSE commands, and back from the chip's replies.
module Ft2232Stream {
  import opened Bits
  import opened Clocks
  import opened Mpsse
  import opened Ft2232

  const MAX_CHUNK: nat := 65536

  // ----- What a stream does to the chip -----

  // The replies to n bits sent in commands of at most one bit each with TMS, of at most 8 without:
  // one byte for each command.
  function ChunkReplies(w: World, base: nat, n: nat, withTms: bool): seq<byte> {
    if n == 0 then []
    else
      var last := if withTms then 1 else (n - 1) % 8 + 1;
      ChunkReplies(w, base, n - last, withTms) + [BitsReply(w, base + n - last, last)]
  }

  function Asked(postread: bool, replies: seq<byte>): seq<byte> {
    if postread then replies else []
  }

  function Sent(w: World, chip: Chip, bits: seq<bool>, withTms: bool, replies: seq<byte>): Chip {
    Chip(chip.tms || (withTms && w.holdsTms && bits != []),
         chip.wire + Under(withTms || chip.tms, bits),
         chip.replies + replies)
  }

  function BytesSent(w: World, chip: Chip, bytes: seq<byte>, postread: bool): Chip {
    Sent(w, chip, BitsOf(bytes), false, Asked(postread, BytesReply(w, |chip.wire|, |bytes|)))
  }

  function BitsSent(w: World, chip: Chip, bits: seq<bool>, postread: bool, withTms: bool): Chip {
    Sent(w, chip, bits, withTms, Asked(postread, ChunkReplies(w, |chip.wire|, |bits|, withTms)))
  }

  lemma SentJoin(w: World, chip: Chip, a: seq<bool>, b: seq<bool>, withTms: bool, r: seq<byte>, s: seq<byte>)
    ensures Sent(w, Sent(w, chip, a, withTms, r), b, withTms, s) == Sent(w, chip, a + b, withTms, r + s)
  {
    UnderJoin(withTms || chip.tms, a, b);
    assert chip.replies + r + s == chip.replies + (r + s);
    var x, y := Under(withTms || chip.tms, a), Under(withTms || chip.tms, b);
    assert chip.wire + x + y == chip.wire + (x + y);
  }

  lemma NothingSent(w: World, chip: Chip, postread: bool, withTms: bool)
    ensures BytesSent(w, chip, [], postread) == chip == BitsSent(w, chip, [], postread, withTms)
  {
    assert chip.wire + [] == chip.wire && chip.replies + [] == chip.replies;
  }

  lemma BytesSentJoin(w: World, chip: Chip, a: seq<byte>, b: seq<byte>, postread: bool)
    ensures BytesSent(w, BytesSent(w, chip, a, postread), b, postread) == BytesSent(w, chip, a + b, postread)
  {
    hide BitsOf, BytesReply;
    var base := |chip.wire|;
    BitsOfJoin(a, b);
    BytesReplyJoin(w, base, |a|, |b|);
    SentJoin(w, chip, BitsOf(a), BitsOf(b), false,
             Asked(postread, BytesReply(w, base, |a|)), Asked(postread, BytesReply(w, base + 8 * |a|, |b|)));
  }

  // A further chunk behind whole ones.
  lemma BitsSentJoin(w: World, chip: Chip, a: seq<bool>, b: seq<bool>, postread: bool, withTms: bool)
    requires 0 < |b| && if withTms then |b| == 1 else |b| <= 8 && |a| % 8 == 0
    ensures Sent(w, BitsSent(w, chip, a, postread, withTms), b, withTms,
                 Asked(postread, [BitsReply(w, |chip.wire| + |a|, |b|)]))
         == BitsSent(w, chip, a + b, postread, withTms)
  {
    NextChunkReply(w, |chip.wire|, |a|, |b|, withTms);
    SentJoin(w, chip, a, b, withTms, Asked(postread, ChunkReplies(w, |chip.wire|, |a|, withTms)),
             Asked(postread, [BitsReply(w, |chip.wire| + |a|, |b|)]));
  }

  lemma Rows(i: nat, n: nat)
    requires i % 8 == 0 && 0 < n <= 8
    ensures (i + n - 1) % 8 + 1 == n && (n == 8 ==> (i + n) % 8 == 0)
  {
  }

  lemma NextChunkReply(w: World, base: nat, i: nat, n: nat, withTms: bool)
    requires 0 < n && if withTms then n == 1 else n <= 8 && i % 8 == 0
    ensures ChunkReplies(w, base, i + n, withTms) == ChunkReplies(w, base, i, withTms) + [BitsReply(w, base + i, n)]
  {
    if !withTms {
      Rows(i, n);
    }
    assert base + (i + n) - n == base + i && i + n - n == i;
  }

  // ----- Single commands -----

  function Opcode(base: byte, postread: bool): byte
    requires base < 0xE0
  {
    if postread then base + DO_READ else base
  }

  function ByteCommand(bytes: seq<byte>, postread: bool): seq<byte>
    requires 0 < |bytes| <= MAX_CHUNK
  {
    [Opcode(WRITE_BYTES, postread), (|bytes| - 1) % 0x100, (|bytes| - 1) / 0x100] + bytes
  }

  // 0x01 | ( b << 7 ), as a byte
  function TmsByte(b: nat): byte {
    PowersOfTwo();
    OrBound(1, Low(Shl(b, 7), 8), 8);
    Or(1, Low(Shl(b, 7), 8))
  }

  // The command for n bits from bit i on.
  function BitCommand(buf: seq<byte>, i: nat, n: nat, postread: bool, withTms: bool): seq<byte>
    requires 0 < n <= 8 && i / 8 < |buf|
  {
    if withTms then [Opcode(WRITE_TMS_BITS, postread), n - 1, TmsByte(Shr(buf[i / 8], i % 8))]
    else [Opcode(WRITE_BITS, postread), n - 1, buf[i / 8]]
  }

  lemma ByteCommandIs(bytes: seq<byte>, postread: bool)
    requires 0 < |bytes| <= MAX_CHUNK
    ensures var c := ByteCommand(bytes, postread);
            CommandSize(c) == |c| && ReplyCount(c) == if postread then |bytes| else 0
  {
    var c := ByteCommand(bytes, postread);
    assert CommandSize(c) == |c|;
    assert c[|c|..] == [];
  }

  lemma ByteCommandDoes(w: World, chip: Chip, bytes: seq<byte>, postread: bool, c: seq<byte>)
    requires 0 < |bytes| <= MAX_CHUNK && c == ByteCommand(bytes, postread) && CommandSize(c) == |c|
    ensures Execute(w, chip, c) == BytesSent(w, chip, bytes, postread)
  {
    assert c[3..] == bytes;
  }

  lemma BitCommandIs(buf: seq<byte>, i: nat, n: nat, postread: bool, withTms: bool)
    requires 0 < n && i + n <= 8 * |buf| && n <= if withTms then 1 else 8
    ensures var c := BitCommand(buf, i, n, postread, withTms);
            CommandSize(c) == |c| && ReplyCount(c) == if postread then 1 else 0
  {
    var c := BitCommand(buf, i, n, postread, withTms);
    assert CommandSize(c) == |c|;
    assert c[|c|..] == [];
  }

  lemma BitCommandDoes(w: World, chip: Chip, buf: seq<byte>, i: nat, n: nat, postread: bool, withTms: bool,
                       c: seq<byte>)
    requires 0 < n && i + n <= 8 * |buf| && if withTms then n == 1 else n <= 8 && i % 8 == 0
    requires c == BitCommand(buf, i, n, postread, withTms) && CommandSize(c) == |c|
    ensures Execute(w, chip, c)
         == Sent(w, chip, BitsOf(buf)[i..i + n], withTms, Asked(postread, [BitsReply(w, |chip.wire|, n)]))
  {
    hide BitsReply;
    RowBits(buf, i, n, withTms);
    if withTms {
      TmsByteBits(Shr(buf[i / 8], i % 8));
      assert TmsClocks(c[2], 1) == Under(true, BitsOf(buf)[i..i + 1]);
    }
  }

  lemma RowBits(buf: seq<byte>, i: nat, n: nat, single: bool)
    requires 0 < n && i + n <= 8 * |buf| && if single then n == 1 else n <= 8 && i % 8 == 0
    ensures BitsOf(buf)[i..i + n] == if single then [Bit(Shr(buf[i / 8], i % 8), 0)] else ToBits(buf[i / 8], n)
  {
    if single {
      BitsOfBit(buf, i);
      ShrBit(buf[i / 8], i % 8, 0);
    } else {
      var row := ToBits(buf[i / 8], n);
      forall k | 0 <= k < n ensures BitsOf(buf)[i + k] == row[k] {
        RowBit(i, k);
        BitsOfBit(buf, i + k);
      }
    }
  }

  lemma RowBit(i: nat, k: nat)
    requires i % 8 == 0 && k < 8
    ensures (i + k) / 8 == i / 8 && (i + k) % 8 == k
  {
  }

  lemma TmsByteBits(b: nat)
    ensures Bit(TmsByte(b), 0) && Bit(TmsByte(b), 7) == Bit(b, 0)
  {
    var high := Low(Shl(b, 7), 8);
    OrBit(1, high, 0);
    OrBit(1, high, 7);
    LowBit(Shl(b, 7), 8, 7);
    ShlBit(b, 7, 7);
    assert !Bit(1, 7) by { ZeroBit(6); }
  }

  // ----- Writing -----

  // Sends one command of cable_ft2232_write_bytes.
  method SendBytes(conn: Ftdi, bytes: seq<byte>, postread: bool)
    requires conn.Valid() && 0 < |bytes| <= MAX_CHUNK
    modifies conn
    ensures conn.Valid() && conn.delivered == old(conn.delivered)
    ensures conn.Virtual() == BytesSent(conn.world, old(conn.Virtual()), bytes, postread)
  {
    var mybuf := ByteCommand(bytes, postread);
    ByteCommandIs(bytes, postread);
    ByteCommandDoes(conn.world, conn.Virtual(), bytes, postread, mybuf);
    conn.Write(mybuf, if postread then |bytes| else 0);
  }

  // The same, behind the i bytes that went before.
  method SendMoreBytes(conn: Ftdi, buf: seq<byte>, i: nat, n: nat, postread: bool, ghost chip: Chip)
    requires conn.Valid() && i + n <= |buf| && 0 < n <= MAX_CHUNK
    requires conn.Virtual() == BytesSent(conn.world, chip, buf[..i], postread)
    modifies conn
    ensures conn.Valid() && conn.delivered == old(conn.delivered)
    ensures conn.Virtual() == BytesSent(conn.world, chip, buf[..i + n], postread)
  {
    SendBytes(conn, buf[i..i + n], postread);
    BytesSentJoin(conn.world, chip, buf[..i], buf[i..i + n], postread);
    assert buf[..i] + buf[i..i + n] == buf[..i + n];
  }

  // cable_ft2232_write_bytes
  method WriteBytes(conn: Ftdi, buf: seq<byte>, len: nat, postread: bool) returns (recv: nat)
    requires conn.Valid() && len <= |buf|
    modifies conn
    ensures conn.Valid() && conn.delivered == old(conn.delivered)
    ensures conn.Virtual() == BytesSent(conn.world, old(conn.Virtual()), buf[..len], postread)
    ensures recv == if postread then len else 0
  {
    hide Ftdi.Valid, Ftdi.Virtual, BitsOf, BytesSent, BitsSent;
    ghost var chip := conn.Virtual();
    recv := 0;
    var done := 0;
    NothingSent(conn.world, chip, postread, false);
    while done < len
      invariant done <= len && conn.Valid() && conn.delivered == old(conn.delivered)
      invariant conn.Virtual() == BytesSent(conn.world, chip, buf[..done], postread)
      invariant recv == if postread then done else 0
    {
      var n := if len - done < MAX_CHUNK then len - done else MAX_CHUNK;
      SendMoreBytes(conn, buf, done, n, postread, chip);
      done := done + n;
      recv := recv + if postread then n else 0;
    }
  }

  // Sends one command of cable_ft2232_write_bits.
  method SendBits(conn: Ftdi, buf: seq<byte>, i: nat, n: nat, postread: bool, withTms: bool)
    requires conn.Valid() && 0 < n && i + n <= 8 * |buf| && if withTms then n == 1 else n <= 8 && i % 8 == 0
    modifies conn
    ensures conn.Valid() && conn.delivered == old(conn.delivered)
    ensures conn.Virtual() == Sent(conn.world, old(conn.Virtual()), BitsOf(buf)[i..i + n], withTms,
                                   Asked(postread, [BitsReply(conn.world, |old(conn.Virtual()).wire|, n)]))
  {
    var mybuf := BitCommand(buf, i, n, postread, withTms);
    BitCommandIs(buf, i, n, postread, withTms);
    BitCommandDoes(conn.world, conn.Virtual(), buf, i, n, postread, withTms, mybuf);
    conn.Write(mybuf, if postread then 1 else 0);
  }

  // The same, behind the i bits that went before.
  method SendMoreBits(conn: Ftdi, buf: seq<byte>, i: nat, n: nat, postread: bool, withTms: bool, ghost chip: Chip)
    requires conn.Valid() && 0 < n && i + n <= 8 * |buf| && if withTms then n == 1 else n <= 8 && i % 8 == 0
    requires conn.Virtual() == BitsSent(conn.world, chip, BitsOf(buf)[..i], postread, withTms)
    modifies conn
    ensures conn.Valid() && conn.delivered == old(conn.delivered)
    ensures conn.Virtual() == BitsSent(conn.world, chip, BitsOf(buf)[..i + n], postread, withTms)
  {
    SendBits(conn, buf, i, n, postread, withTms);
    ghost var bits := BitsOf(buf);
    BitsSentJoin(conn.world, chip, bits[..i], bits[i..i + n], postread, withTms);
    assert bits[..i] + bits[i..i + n] == bits[..i + n];
  }

  // cable_ft2232_write_bits
  method WriteBits(conn: Ftdi, buf: seq<byte>, len: nat, postread: bool, withTms: bool)
    requires conn.Valid() && len <= 8 * |buf|
    modifies conn
    ensures conn.Valid() && conn.delivered == old(conn.delivered)
    ensures conn.Virtual() == BitsSent(conn.world, old(conn.Virtual()), BitsOf(buf)[..len], postread, withTms)
  {
    hide Ftdi.Valid, Ftdi.Virtual, BitsOf, BytesSent, BitsSent;
    ghost var chip, bits := conn.Virtual(), BitsOf(buf);
    var i := 0;
    NothingSent(conn.world, chip, postread, withTms);
    while i < len
      invariant i <= len && conn.Valid() && conn.delivered == old(conn.delivered)
      invariant i < len ==> withTms || i % 8 == 0
      invariant conn.Virtual() == BitsSent(conn.world, chip, bits[..i], postread, withTms)
    {
      var max := if withTms then 1 else 8;
      var n := if len - i < max then len - i else max;
      SendMoreBits(conn, buf, i, n, postread, withTms, chip);
      if !withTms {
        Rows(i, n);
      }
      i := i + n;
    }
  }

  // ----- Whole streams -----

  // The replies to all but the bit with TMS: to whole bytes, then to up to 7 bits.
  function DataReplies(w: World, base: nat, data: nat): seq<byte> {
    BytesReply(w, base, data / 8) + if data % 8 > 0 then [BitsReply(w, base + data / 8 * 8, data % 8)] else []
  }

  // Those bits go out under whatever level the TMS pin has.
  function DataSent(w: World, chip: Chip, bits: seq<bool>, postread: bool): Chip {
    Sent(w, chip, bits, false, Asked(postread, DataReplies(w, |chip.wire|, |bits|)))
  }

  function Streamed(w: World, chip: Chip, bits: seq<bool>, postread: bool, withTms: bool): Chip
    requires withTms ==> bits != []
  {
    if withTms then
      var data := |bits| - 1;
      Sent(w, DataSent(w, chip, bits[..data], postread), bits[data..], true,
           Asked(postread, [BitsReply(w, |chip.wire| + data, 1)]))
    else
      DataSent(w, chip, bits, postread)
  }

  lemma DataParts(w: World, chip: Chip, bytes: seq<byte>, bits: seq<bool>, all: seq<bool>, postread: bool)
    requires |bits| < 8 && all == BitsOf(bytes) + bits
    ensures BitsSent(w, BytesSent(w, chip, bytes, postread), bits, postread, false) == DataSent(w, chip, all, postread)
  {
    hide BitsOf, BytesReply, ChunkReplies, DataReplies;
    var base, q, r := |chip.wire|, |bytes|, |bits|;
    var first, rest :=
        Asked(postread, BytesReply(w, base, q)), Asked(postread, ChunkReplies(w, base + 8 * q, r, false));
    DataRepliesAre(w, base, q, r, postread);
    SentJoin(w, chip, BitsOf(bytes), bits, false, first, rest);
  }

  lemma DataRepliesAre(w: World, base: nat, q: nat, r: nat, postread: bool)
    requires r < 8
    ensures Asked(postread, BytesReply(w, base, q)) + Asked(postread, ChunkReplies(w, base + 8 * q, r, false))
         == Asked(postread, DataReplies(w, base, 8 * q + r))
  {
    FewBits(w, base + 8 * q, r);
  }

  lemma FewBits(w: World, base: nat, n: nat)
    requires n < 8
    ensures ChunkReplies(w, base, n, false) == if n > 0 then [BitsReply(w, base, n)] else []
  {
    if n > 0 {
      NextChunkReply(w, base, 0, n, false);
    }
  }

  // b >> n, as a byte
  function ShiftedByte(b: byte, n: nat): byte {
    PowersOfTwo();
    Low(Shr(b, n), 8)
  }

  lemma LastBit(w: World, chip: Chip, buf: seq<byte>, k: nat, postread: bool)
    requires k < 8 * |buf|
    ensures BitsSent(w, chip, BitsOf([ShiftedByte(buf[k / 8], k % 8)])[..1], postread, true)
         == Sent(w, chip, BitsOf(buf)[k..k + 1], true, Asked(postread, [BitsReply(w, |chip.wire|, 1)]))
  {
    hide Low, Shr, Bit, Pow2;
    var b := ShiftedByte(buf[k / 8], k % 8);
    NextChunkReply(w, |chip.wire|, 0, 1, true);
    LowBit(Shr(buf[k / 8], k % 8), 8, 0);
    RowBits(buf, k, 1, true);
    RowBits([b], 0, 1, true);
    assert BitsOf([b])[..1] == BitsOf([b])[0..1];
  }

  lemma BitsBehind(a: seq<byte>, b: seq<byte>, n: nat)
    requires n <= 8 * |b|
    ensures BitsOf(a) + BitsOf(b)[..n] == BitsOf(a + b)[..8 * |a| + n]
  {
    BitsOfJoin(a, b);
    FrontOfJoin(BitsOf(a), BitsOf(b), n);
  }

  lemma FrontOfJoin(a: seq<bool>, b: seq<bool>, n: nat)
    requires n <= |b|
    ensures a + b[..n] == (a + b)[..|a| + n]
  {
  }

  lemma BitsOfBuffer(buf: seq<byte>, q: nat, r: nat)
    requires 8 * q + r <= 8 * |buf|
    ensures BitsOf(buf[..q]) + BitsOf(buf[q..])[..r] == BitsOf(buf)[..8 * q + r]
  {
    assert buf[..q] + buf[q..] == buf;
    BitsBehind(buf[..q], buf[q..], r);
  }

  lemma DataOfBuffer(w: World, chip: Chip, buf: seq<byte>, q: nat, r: nat, postread: bool)
    requires r < 8 && 8 * q + r <= 8 * |buf|
    ensures BitsSent(w, BytesSent(w, chip, buf[..q], postread), BitsOf(buf[q..])[..r], postread, false)
         == DataSent(w, chip, BitsOf(buf)[..8 * q + r], postread)
  {
    BitsOfBuffer(buf, q, r);
    DataParts(w, chip, buf[..q], BitsOf(buf[q..])[..r], BitsOf(buf)[..8 * q + r], postread);
  }

  // The part of cable_ft2232_write_stream before the bit with TMS.
  method WriteData(conn: Ftdi, buf: seq<byte>, data: nat, postread: bool)
    requires conn.Valid() && data <= 8 * |buf|
    modifies conn
    ensures conn.Valid() && conn.delivered == old(conn.delivered)
    ensures conn.Virtual() == DataSent(conn.world, old(conn.Virtual()), BitsOf(buf)[..data], postread)
  {
    hide Ftdi.Valid, Ftdi.Virtual, BitsOf, BytesSent, BitsSent, DataSent;
    var lenBytes, lenBits := data / 8, data % 8;
    DataOfBuffer(conn.world, conn.Virtual(), buf, lenBytes, lenBits, postread);
    if lenBytes > 0 {
      var _ := WriteBytes(conn, buf, lenBytes, postread);
    } else {
      NothingSent(conn.world, conn.Virtual(), postread, false);
    }
    if lenBits > 0 {
      WriteBits(conn, buf[lenBytes..], lenBits, postread, false);
    } else {
      NothingSent(conn.world, conn.Virtual(), postread, false);
    }
  }

  // The part with TMS.
  method WriteLastBit(conn: Ftdi, buf: seq<byte>, lenBytes: nat, lenBits: nat, postread: bool)
    requires conn.Valid() && lenBytes < |buf| && lenBits < 8
    modifies conn
    ensures conn.Valid() && conn.delivered == old(conn.delivered)
    ensures conn.Virtual()
         == Sent(conn.world, old(conn.Virtual()), BitsOf(buf)[8 * lenBytes + lenBits..8 * lenBytes + lenBits + 1],
                                   true, Asked(postread, [BitsReply(conn.world, |old(conn.Virtual()).wire|, 1)]))
  {
    ghost var k := 8 * lenBytes + lenBits;
    assert k / 8 == lenBytes && k % 8 == lenBits;
    LastBit(conn.world, conn.Virtual(), buf, k, postread);
    WriteBits(conn, [ShiftedByte(buf[lenBytes], lenBits)], 1, postread, true);
  }

  // cable_ft2232_write_stream. With TMS there has to be a last bit to send it with.
  method WriteStream(conn: Ftdi, buf: seq<byte>, len: nat, postread: bool, withTms: bool)
    requires conn.Valid() && len <= 8 * |buf| && (withTms ==> len > 0)
    modifies conn
    ensures conn.Valid() && conn.delivered == old(conn.delivered)
    ensures conn.Virtual() == Streamed(conn.world, old(conn.Virtual()), BitsOf(buf)[..len], postread, withTms)
  {
    hide Ftdi.Valid, Ftdi.Virtual, BitsOf, BitsReply;
    var lenTmsBits := if withTms then 1 else 0;
    var lenBytes, lenBits := (len - lenTmsBits) / 8, (len - lenTmsBits) % 8;
    ghost var bits := BitsOf(buf)[..len];
    assert bits[..len - lenTmsBits] == BitsOf(buf)[..len - lenTmsBits];
    WriteData(conn, buf, len - lenTmsBits, postread);
    if lenTmsBits > 0 {
      assert bits[len - 1..] == BitsOf(buf)[len - 1..len];
      WriteLastBit(conn, buf, lenBytes, lenBits, postread);
    }
  }

  // ----- The wire -----

  // The bytes of a stream, as they lie in memory.
  function BytesInMemory(stream: seq<word>): seq<byte> {
    StreamBytes(stream, 0, 4 * |stream|)
  }

  // The bits of a stream, with TMS high on the last one on request, when the TMS pin is at tms.
  function PinClocks(stream: seq<word>, len: nat, lastTms: bool, tms: bool): (cs: seq<Clock>)
    requires Holds(stream, len)
    ensures |cs| == len
  {
    seq(len, k requires 0 <= k < len => Clock(tms || (lastTms && k == len - 1), StreamBit(stream, k)))
  }

  lemma MemoryBits(stream: seq<word>, len: nat)
    requires Holds(stream, len)
    ensures BitsOf(BytesInMemory(stream))[..len] == StreamBits(stream, len)
  {
    forall k | 0 <= k < len ensures BitsOf(BytesInMemory(stream))[k] == StreamBit(stream, k) {
      RunBit(stream, 0, 4 * |stream|, k);
    }
  }

  lemma StreamedWire(w: World, chip: Chip, stream: seq<word>, len: nat, postread: bool, lastTms: bool)
    requires Holds(stream, len) && (lastTms ==> len > 0)
    ensures Streamed(w, chip, StreamBits(stream, len), postread, lastTms).wire
         == chip.wire + PinClocks(stream, len, lastTms, chip.tms)
  {
    var bits := StreamBits(stream, len);
    if lastTms {
      assert Under(chip.tms, bits[..len - 1]) + Under(true, bits[len - 1..]) == PinClocks(stream, len, true, chip.tms);
    } else {
      assert Under(chip.tms, bits) == PinClocks(stream, len, false, chip.tms);
    }
  }

  // The commands mean the stream exactly when the TMS pin is low beforehand, or when the only bit
  // sent is one that goes with TMS high.
  lemma PinClocksAreStreamClocks(stream: seq<word>, len: nat, lastTms: bool, tms: bool)
    requires Holds(stream, len) && (lastTms ==> len > 0)
    ensures PinClocks(stream, len, lastTms, tms) == StreamClocks(stream, len, lastTms)
       <==> !tms || len == if lastTms then 1 else 0
  {
    if tms && len > (if lastTms then 1 else 0) {
      assert PinClocks(stream, len, lastTms, tms)[0] != StreamClocks(stream, len, lastTms)[0];
    }
  }

  // cable_ftdi_write_stream
  method FtdiWriteStream(conn: Ftdi, stream: seq<word>, lenBits: nat, setLastBit: bool)
    requires conn.Valid() && Holds(stream, lenBits) && (setLastBit ==> lenBits > 0)
    modifies conn
    ensures conn.Valid() && conn.delivered == old(conn.delivered) && conn.chip == conn.Virtual()
    ensures conn.chip.wire == old(conn.Virtual()).wire + PinClocks(stream, lenBits, setLastBit, old(conn.Virtual()).tms)
    ensures conn.chip.replies == old(conn.Virtual()).replies
    ensures conn.chip.tms == (old(conn.Virtual()).tms || (setLastBit && conn.world.holdsTms))
  {
    MemoryBits(stream, lenBits);
    StreamedWire(conn.world, conn.Virtual(), stream, lenBits, false, setLastBit);
    WriteStream(conn, BytesInMemory(stream), lenBits, false, setLastBit);
    conn.Flush();
  }

  // cable_ftdi_write_bit
  method FtdiWriteBit(conn: Ftdi, packet: Packet)
    requires conn.Valid()
    modifies conn
    ensures conn.Valid() && conn.delivered == old(conn.delivered) && conn.chip == conn.Virtual()
    ensures conn.chip == Chip(old(conn.Virtual()).tms || (packet.tms && conn.world.holdsTms),
                              old(conn.Virtual()).wire + [Clock(packet.tms || old(conn.Virtual()).tms, packet.tdo)],
                              old(conn.Virtual()).replies)
  {
    var buf: byte := if packet.tdo then 1 else 0;
    OneBit(conn.world, conn.Virtual(), buf, packet.tms, false);
    WriteStream(conn, [buf], 1, false, packet.tms);
    conn.Flush();
  }

  lemma BitsOfOne(buf: byte)
    requires buf < 2
    ensures BitsOf([buf])[..1] == [buf == 1]
  {
    RowBits([buf], 0, 1, true);
  }

  lemma OneBitSent(w: World, chip: Chip, b: bool, tms: bool, postread: bool)
    ensures Streamed(w, chip, [b], postread, tms)
         == Chip(chip.tms || (tms && w.holdsTms), chip.wire + [Clock(tms || chip.tms, b)],
                 chip.replies + Asked(postread, [BitsReply(w, |chip.wire|, 1)]))
  {
    hide BitsReply;
    assert Under(tms || chip.tms, [b]) == [Clock(tms || chip.tms, b)];
    assert chip.replies + [] == chip.replies && chip.wire + [] == chip.wire;
    assert [b][..0] == [] && [b][0..] == [b];
  }

  lemma OneBit(w: World, chip: Chip, buf: byte, tms: bool, postread: bool)
    requires buf < 2
    ensures Streamed(w, chip, BitsOf([buf])[..1], postread, tms)
         == Chip(chip.tms || (tms && w.holdsTms), chip.wire + [Clock(tms || chip.tms, buf == 1)],
                 chip.replies + Asked(postread, [BitsReply(w, |chip.wire|, 1)]))
  {
    BitsOfOne(buf);
    OneBitSent(w, chip, buf == 1, tms, postread);
  }
}

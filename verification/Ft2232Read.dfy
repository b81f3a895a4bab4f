// cable_ft2232.cpp: TDO levels out of the chip's replies.
module Ft2232Read {
  import opened Bits
  import opened Clocks
  import opened Mpsse
  import opened Ft2232
  import opened Ft2232Stream

  // ----- Placing bits in a byte buffer -----

  // ~( 1 << i ), as a byte
  function AllBut(i: nat): byte {
    PowersOfTwo();
    FromBits(seq(8, j => j != i))
  }

  // ( dst & ~( 1 << d ) ) | ( ( src & ( 1 << s ) ) << ( d - s ) )
  function Masked(dst: byte, d: nat, src: byte, s: nat): byte
    requires s <= d < 8
  {
    PowersOfTwo();
    AndBound(dst, AllBut(d));
    OrBound(And(dst, AllBut(d)), Low(Shl(And(src, Shl(1, s)), d - s), 8), 8);
    Or(And(dst, AllBut(d)), Low(Shl(And(src, Shl(1, s)), d - s), 8))
  }

  lemma OneBitAt(i: nat, j: nat)
    ensures Bit(Shl(1, i), j) == (j == i)
  {
    ShlBit(1, i, j);
    if j > i {
      ZeroBit(j - i - 1);
    }
  }

  lemma MaskedBit(dst: byte, d: nat, src: byte, s: nat, j: nat)
    requires s <= d < 8 && j < 8
    ensures Bit(Masked(dst, d, src, s), j) == if j == d then Bit(src, s) else Bit(dst, j)
  {
    hide And, Or, Shl, Low, Bit, FromBits, Pow2;
    var one := And(src, Shl(1, s));
    OrBit(And(dst, AllBut(d)), Low(Shl(one, d - s), 8), j);
    AndBit(dst, AllBut(d), j);
    FromBitsBit(seq(8, i => i != d), j);
    LowBit(Shl(one, d - s), 8, j);
    ShlBit(one, d - s, j);
    if j >= d - s {
      AndBit(src, Shl(1, s), j - (d - s));
      OneBitAt(s, j - (d - s));
    }
  }

  // Bit k of a buffer replaced by bit s of a byte. A bit that would have to move down is left to what
  // the host makes of a negative shift.
  function Put(w: World, buf: seq<byte>, k: nat, b: byte, s: nat): (r: seq<byte>)
    requires k < 8 * |buf|
    ensures |r| == |buf|
  {
    buf[k / 8 := if s <= k % 8 then Masked(buf[k / 8], k % 8, b, s) else Misplaced(w, buf[k / 8], k % 8, b, s)]
  }

  // ( dst & ~( 1 << d ) ) | ( ( src & ( 1 << s ) ) >> ( d - s ) )
  function Misplaced(w: World, dst: byte, d: nat, src: byte, s: nat): byte
    requires d < s
  {
    PowersOfTwo();
    AndBound(src, Shl(1, s));
    AndBound(dst, AllBut(d));
    OrBound(And(dst, AllBut(d)), Low(w.shift(And(src, Shl(1, s)), d - s), 8), 8);
    Or(And(dst, AllBut(d)), Low(w.shift(And(src, Shl(1, s)), d - s), 8))
  }

  lemma PutBit(w: World, buf: seq<byte>, k: nat, b: byte, s: nat, j: nat)
    requires k < 8 * |buf| && s <= k % 8 && j < 8 * |buf|
    ensures BufBit(Put(w, buf, k, b, s), j) == if j == k then Bit(b, s) else BufBit(buf, j)
  {
    if j / 8 == k / 8 {
      MaskedBit(buf[k / 8], k % 8, b, s, j % 8);
    }
  }

  lemma InRow(offset: nat, n: nat)
    requires offset % 8 + n < 8
    ensures n <= (offset + n) % 8 && (offset + n) / 8 == offset / 8
  {
  }

  // Bits 0 .. n of b, put into a buffer from bit `offset` on.
  function Placed(w: World, buf: seq<byte>, b: byte, n: nat, offset: nat): (r: seq<byte>)
    requires offset + n <= 8 * |buf|
    ensures |r| == |buf|
  {
    if n == 0 then buf else Put(w, Placed(w, buf, b, n - 1, offset), offset + n - 1, b, n - 1)
  }

  lemma {:induction false} PlacedBit(w: World, buf: seq<byte>, b: byte, n: nat, offset: nat, j: nat)
    requires offset + n <= 8 * |buf| && offset % 8 + n <= 8 && j < 8 * |buf|
    ensures BufBit(Placed(w, buf, b, n, offset), j)
         == if offset <= j < offset + n then Bit(b, j - offset) else BufBit(buf, j)
  {
    hide BufBit, Put, Bit;
    if n > 0 {
      InRow(offset, n - 1);
      PutBit(w, Placed(w, buf, b, n - 1, offset), offset + n - 1, b, n - 1, j);
      assert j != offset + n - 1 ==>
             BufBit(Placed(w, buf, b, n, offset), j) == BufBit(Placed(w, buf, b, n - 1, offset), j);
      PlacedBit(w, buf, b, n - 1, offset, j);
    }
  }

  // The part of cable_ft2232_read_packed_bits that takes a reply apart bit by bit.
  method PlaceBits(w: World, buf: array<byte>, b: byte, n: nat, offset: nat)
    requires offset + n <= 8 * buf.Length
    modifies buf
    ensures buf[..] == Placed(w, old(buf[..]), b, n, offset)
  {
    hide Masked, Misplaced;
    for i := 0 to n
      invariant buf[..] == Placed(w, old(buf[..]), b, i, offset)
    {
      var dstRow, dstCol := (offset + i) / 8, (offset + i) % 8;
      assert buf[..][dstRow] == buf[dstRow];
      buf[dstRow] := if i <= dstCol then Masked(buf[dstRow], dstCol, b, i) else Misplaced(w, buf[dstRow], dstCol, b, i);
    }
  }

  // ----- Several replies -----

  // The n bits of a reply, which are its upper ones.
  function Aligned(reply: byte, n: nat): byte
    requires n <= 8
  {
    PowersOfTwo();
    Low(Shr(reply, 8 - n), 8)
  }

  // Where the bits of reply i go: offset + i * n.
  function Start(offset: nat, n: nat, i: nat): nat {
    if i == 0 then offset else Start(offset, n, i - 1) + n
  }

  lemma {:induction false} StartGrows(offset: nat, n: nat, i: nat, j: nat)
    requires i <= j
    ensures Start(offset, n, i) + (if i < j then n else 0) <= Start(offset, n, j)
    decreases j
  {
    if i < j {
      StartGrows(offset, n, i, j - 1);
    }
  }

  // Replies of n bits each, put one behind the other.
  function AllPlaced(w: World, buf: seq<byte>, replies: seq<byte>, n: nat, offset: nat): (r: seq<byte>)
    requires n <= 8 && Start(offset, n, |replies|) <= 8 * |buf|
    ensures |r| == |buf|
    decreases |replies|
  {
    if replies == [] then buf
    else
      var i := |replies| - 1;
      Placed(w, AllPlaced(w, buf, replies[..i], n, offset), Aligned(replies[i], n), n, Start(offset, n, i))
  }

  // Every bit of the replies is at its place, and all others are as they were.
  ghost predicate InPlace(buf: seq<byte>, replies: seq<byte>, n: nat, offset: nat, after: seq<byte>)
    requires n <= 8 && Start(offset, n, |replies|) <= 8 * |buf|
  {
    && |after| == |buf|
    && (forall i, s :: 0 <= i < |replies| && 0 <= s < n ==>
       HasBit(after, Start(offset, n, i) + s, Bit(Aligned(replies[i], n), s)))
    && (forall j :: 0 <= j < 8 * |buf| && !(offset <= j < Start(offset, n, |replies|)) ==>
       HasBit(after, j, BufBit(buf, j)))
  }

  predicate HasBit(buf: seq<byte>, k: nat, b: bool) {
    k / 8 < |buf| && BufBit(buf, k) == b
  }

  // No reply is spread over two bytes of the buffer.
  predicate StaysInRows(n: nat, offset: nat, count: nat) {
    forall i :: 0 <= i < count ==> Start(offset, n, i) % 8 + n <= 8
  }

  lemma {:induction false} AllInPlace(w: World, buf: seq<byte>, replies: seq<byte>, n: nat, offset: nat)
    requires n <= 8 && Start(offset, n, |replies|) <= 8 * |buf| && StaysInRows(n, offset, |replies|)
    ensures InPlace(buf, replies, n, offset, AllPlaced(w, buf, replies, n, offset))
    decreases |replies|
  {
    hide BufBit, Placed, Aligned, Bit;
    if replies != [] {
      var m := |replies| - 1;
      var mid, b, at := AllPlaced(w, buf, replies[..m], n, offset), Aligned(replies[m], n), Start(offset, n, m);
      var after := Placed(w, mid, b, n, at);
      AllInPlace(w, buf, replies[..m], n, offset);
      forall i, s | 0 <= i < |replies| && 0 <= s < n
        ensures HasBit(after, Start(offset, n, i) + s, Bit(Aligned(replies[i], n), s))
      {
        StartGrows(offset, n, i, m);
        StartGrows(offset, n, i, |replies|);
        PlacedBit(w, mid, b, n, at, Start(offset, n, i) + s);
        if i < m {
          assert HasBit(mid, Start(offset, n, i) + s, Bit(Aligned(replies[..m][i], n), s));
        }
      }
      StartGrows(offset, n, 0, m);
      forall j | 0 <= j < 8 * |buf| && !(offset <= j < Start(offset, n, |replies|))
        ensures HasBit(after, j, BufBit(buf, j))
      {
        PlacedBit(w, mid, b, n, at, j);
        assert HasBit(mid, j, BufBit(buf, j));
      }
    }
  }

  // On a host where negative shifts give zero, a bit that has to move down is lost.
  ghost predicate ShiftsOut(w: World) {
    forall b, k :: w.shift(b, k) == 0
  }

  lemma MisplacedBit(w: World, dst: byte, d: nat, src: byte, s: nat, j: nat)
    requires ShiftsOut(w) && d < s < 8 && j < 8
    ensures Bit(Misplaced(w, dst, d, src, s), j) == (j != d && Bit(dst, j))
  {
    hide And, Or, Shl, Bit, FromBits, Pow2;
    AndBound(src, Shl(1, s));
    assert w.shift(And(src, Shl(1, s)), d - s) == 0;
    assert Low(0, 8) == 0 by {
      hide *;
      PowersOfTwo();
      LowId(0, 8);
    }
    OrBit(And(dst, AllBut(d)), 0, j);
    AndBit(dst, AllBut(d), j);
    FromBitsBit(seq(8, i => i != d), j);
    ZeroBit(j);
  }

  lemma {:induction false} PlacedElsewhere(w: World, buf: seq<byte>, b: byte, n: nat, offset: nat, j: nat)
    requires ShiftsOut(w) && n <= 8 && offset + n <= 8 * |buf| && j < 8 * |buf| && !(offset <= j < offset + n)
    ensures BufBit(Placed(w, buf, b, n, offset), j) == BufBit(buf, j)
  {
    hide Put, BufBit;
    if n > 0 {
      PutElsewhere(w, Placed(w, buf, b, n - 1, offset), offset + n - 1, b, n - 1, j);
      PlacedElsewhere(w, buf, b, n - 1, offset, j);
    }
  }

  lemma PutElsewhere(w: World, buf: seq<byte>, k: nat, b: byte, s: nat, j: nat)
    requires ShiftsOut(w) && s < 8 && k < 8 * |buf| && j < 8 * |buf|
    ensures j != k ==> BufBit(Put(w, buf, k, b, s), j) == BufBit(buf, j)
    ensures j == k && k % 8 < s ==> !BufBit(Put(w, buf, k, b, s), j)
  {
    hide Masked, Misplaced, Bit;
    if j / 8 == k / 8 {
      if s <= k % 8 {
        MaskedBit(buf[k / 8], k % 8, b, s, j % 8);
      } else {
        MisplacedBit(w, buf[k / 8], k % 8, b, s, j % 8);
      }
    }
  }

  lemma {:induction false} PlacedLost(w: World, buf: seq<byte>, b: byte, n: nat, offset: nat, s: nat)
    requires ShiftsOut(w) && n <= 8 && offset + n <= 8 * |buf| && s < n && (offset + s) % 8 < s
    ensures !BufBit(Placed(w, buf, b, n, offset), offset + s)
  {
    hide Put, BufBit;
    PutElsewhere(w, Placed(w, buf, b, n - 1, offset), offset + n - 1, b, n - 1, offset + s);
    if s < n - 1 {
      PlacedLost(w, buf, b, n - 1, offset, s);
    }
  }

  lemma {:induction false} AllPlacedLost(w: World, buf: seq<byte>, replies: seq<byte>, n: nat, offset: nat, i: nat,
                                         s: nat)
    requires ShiftsOut(w) && n <= 8 && Start(offset, n, |replies|) <= 8 * |buf| && i < |replies| && s < n
    requires (Start(offset, n, i) + s) % 8 < s
    ensures HasBit(AllPlaced(w, buf, replies, n, offset), Start(offset, n, i) + s, false)
    decreases |replies|
  {
    hide Placed, BufBit, Aligned;
    var m := |replies| - 1;
    var mid, b, at := AllPlaced(w, buf, replies[..m], n, offset), Aligned(replies[m], n), Start(offset, n, m);
    if i == m {
      PlacedLost(w, mid, b, n, at, s);
    } else {
      AllPlacedLost(w, buf, replies[..m], n, offset, i, s);
      StartGrows(offset, n, i, m);
      PlacedElsewhere(w, mid, b, n, at, Start(offset, n, i) + s);
    }
  }

  // The bits are put where they belong, whatever the host makes of negative shifts, exactly if no reply
  // is spread over two bytes.
  lemma UnpackingIsRight(n: nat, offset: nat, count: nat, size: nat)
    requires n < 8 && Start(offset, n, count) <= 8 * size
    ensures (forall w, buf, replies :: |buf| == size && |replies| == count ==>
               InPlace(buf, replies, n, offset, AllPlaced(w, buf, replies, n, offset)))
       <==> StaysInRows(n, offset, count)
  {
    if StaysInRows(n, offset, count) {
      forall w: World, buf: seq<byte>, replies: seq<byte> | |buf| == size && |replies| == count
        ensures InPlace(buf, replies, n, offset, AllPlaced(w, buf, replies, n, offset))
      {
        AllInPlace(w, buf, replies, n, offset);
      }
    } else {
      var i :| 0 <= i < count && Start(offset, n, i) % 8 + n > 8;
      SpreadIsWrong(n, offset, count, size, i);
    }
  }

  lemma SpreadIsWrong(n: nat, offset: nat, count: nat, size: nat, i: nat)
    requires n < 8 && Start(offset, n, count) <= 8 * size && i < count && Start(offset, n, i) % 8 + n > 8
    ensures exists w, buf, replies :: |buf| == size && |replies| == count &&
              !InPlace(buf, replies, n, offset, AllPlaced(w, buf, replies, n, offset))
  {
    hide AllPlaced, Aligned, InPlace, Start;
    var w := World(_ => false, _ => 0, false, (_, _) => 0);
    var buf, replies := seq<byte>(size, _ => 0), seq<byte>(count, _ => 0xff);
    var s := 8 - Start(offset, n, i) % 8;
    AllPlacedLost(w, buf, replies, n, offset, i, s);
    FullReply(n, s);
    NotInPlace(buf, replies, n, offset, AllPlaced(w, buf, replies, n, offset), i, s);
  }

  lemma NotInPlace(buf: seq<byte>, replies: seq<byte>, n: nat, offset: nat, after: seq<byte>, i: nat, s: nat)
    requires n <= 8 && Start(offset, n, |replies|) <= 8 * |buf| && i < |replies| && s < n
    requires Bit(Aligned(replies[i], n), s) && HasBit(after, Start(offset, n, i) + s, false)
    ensures !InPlace(buf, replies, n, offset, after)
  {
    hide BufBit, Bit;
    assert !HasBit(after, Start(offset, n, i) + s, Bit(Aligned(replies[i], n), s));
  }

  lemma FullReply(n: nat, s: nat)
    requires s < n <= 8
    ensures Bit(Aligned(0xff, n), s)
  {
    PowersOfTwo();
    LowBit(Shr(0xff, 8 - n), 8, s);
    ShrBit(0xff, 8 - n, s);
    AllOnes(8, s + (8 - n));
  }

  lemma {:induction false} AllOnes(n: nat, i: nat)
    requires i < n
    ensures Bit(Pow2(n) - 1, i)
  {
    if i > 0 {
      assert (Pow2(n) - 1) / 2 == Pow2(n - 1) - 1;
      AllOnes(n - 1, i - 1);
    }
  }

  // ----- Reading a stream -----

  // Bits from .. to of a buffer are the levels of TDO from clock event `base` + from on; all
  // other bits are as they were.
  ghost predicate Overwritten(w: World, base: nat, from: nat, to: nat, before: seq<byte>, after: seq<byte>) {
    && |after| == |before|
    && forall k :: 0 <= k < 8 * |before| ==>
         BufBit(after, k) == if from <= k < to then w.tdo(base + k) else BufBit(before, k)
  }

  lemma ReceivedJoin(w: World, base: nat, from: nat, mid: nat, to: nat, a: seq<byte>, b: seq<byte>, c: seq<byte>)
    requires from <= mid <= to && Overwritten(w, base, from, mid, a, b) && Overwritten(w, base, mid, to, b, c)
    ensures Overwritten(w, base, from, to, a, c)
  {
  }

  lemma BytesReceived(w: World, base: nat, n: nat, before: seq<byte>)
    requires n <= |before|
    ensures Overwritten(w, base, 0, 8 * n, before, BytesReply(w, base, n) + before[n..])
  {
    var after := BytesReply(w, base, n) + before[n..];
    forall k | 0 <= k < 8 * |before|
      ensures BufBit(after, k) == if 0 <= k < 8 * n then w.tdo(base + k) else BufBit(before, k)
    {
      if k < 8 * n {
        BytesReplyBit(w, base, n, k);
      }
    }
  }

  lemma BitsReceived(w: World, base: nat, offset: nat, n: nat, before: seq<byte>)
    requires offset + n <= 8 * |before| && offset % 8 + n <= 8
    ensures Overwritten(w, base, offset, offset + n, before,
             Placed(w, before, Aligned(BitsReply(w, base + offset, n), n), n, offset))
  {
    hide BufBit, Placed, BitsReply;
    var reply := BitsReply(w, base + offset, n);
    var b := Aligned(reply, n);
    forall k | 0 <= k < 8 * |before|
      ensures BufBit(Placed(w, before, b, n, offset), k)
           == if offset <= k < offset + n then w.tdo(base + k) else BufBit(before, k)
    {
      PlacedBit(w, before, b, n, offset, k);
      if offset <= k < offset + n {
        LowBit(Shr(reply, 8 - n), 8, k - offset);
        ShrBit(reply, 8 - n, k - offset);
        BitsReplyBit(w, base + offset, n, k - offset);
      }
    }
  }

  // What cable_ft2232_read_packed_bits makes of a buffer.
  function Unpacked(w: World, buf: seq<byte>, replies: seq<byte>, bitsPerPacket: nat, offset: nat): seq<byte>
    requires bitsPerPacket < 8 ==> Start(offset, bitsPerPacket, |replies|) <= 8 * |buf|
    requires bitsPerPacket == 8 ==> offset / 8 + |replies| <= |buf|
  {
    if bitsPerPacket < 8 then AllPlaced(w, buf, replies, bitsPerPacket, offset)
    else if bitsPerPacket == 8 then buf[..offset / 8] + replies + buf[offset / 8 + |replies|..]
    else buf
  }

  // cable_ft2232_read_packed_bits
  method ReadPackedBits(conn: Ftdi, buf: array<byte>, packetLen: nat, bitsPerPacket: nat,
                        offset: nat) returns (ok: bool)
    requires conn.Valid() && conn.delivered + packetLen <= |conn.Virtual().replies|
    requires bitsPerPacket < 8 ==> Start(offset, bitsPerPacket, packetLen) <= 8 * buf.Length
    requires bitsPerPacket == 8 ==> offset / 8 + packetLen <= buf.Length
    modifies conn, buf
    ensures conn.Valid() && conn.Virtual() == old(conn.Virtual())
    ensures conn.delivered == old(conn.delivered) + if bitsPerPacket == 0 then 0 else packetLen
    ensures ok <==> packetLen == 0 || bitsPerPacket <= 8
    ensures bitsPerPacket > 0 ==>
              buf[..] == Unpacked(conn.world, old(buf[..]),
                  conn.Virtual().replies[old(conn.delivered)..conn.delivered], bitsPerPacket, offset)
    ensures bitsPerPacket == 0 ==> buf[..] == old(buf[..])
  {
    if packetLen == 0 || bitsPerPacket == 0 {
      return true;
    }
    var mybuf := conn.Read(packetLen);
    if bitsPerPacket < 8 {
      PlaceReplies(conn.world, buf, mybuf, bitsPerPacket, offset);
    } else if bitsPerPacket == 8 {
      PlaceBytes(buf, mybuf, offset / 8);
    }
    ok := bitsPerPacket <= 8;
  }

  // Its loop over the bits of the replies.
  method PlaceReplies(w: World, buf: array<byte>, replies: seq<byte>, n: nat, offset: nat)
    requires n < 8 && Start(offset, n, |replies|) <= 8 * buf.Length
    modifies buf
    ensures buf[..] == AllPlaced(w, old(buf[..]), replies, n, offset)
  {
    hide Placed;
    var at := offset;
    StartGrows(offset, n, 0, |replies|);
    for i := 0 to |replies|
      invariant at == Start(offset, n, i) <= 8 * buf.Length
      invariant buf[..] == AllPlaced(w, old(buf[..]), replies[..i], n, offset)
    {
      StartGrows(offset, n, i + 1, |replies|);
      assert replies[..i + 1][..i] == replies[..i];
      PlaceBits(w, buf, Aligned(replies[i], n), n, at);
      at := at + n;
    }
    assert replies[..|replies|] == replies;
  }

  // memcpy( &buf[row], bytes, |bytes| )
  method PlaceBytes(buf: array<byte>, bytes: seq<byte>, row: nat)
    requires row + |bytes| <= buf.Length
    modifies buf
    ensures buf[..] == old(buf[..row]) + bytes + old(buf[row + |bytes|..])
  {
    for i := 0 to |bytes|
      invariant buf[..] == old(buf[..row]) + bytes[..i] + old(buf[row + i..])
    {
      buf[row + i] := bytes[i];
    }
  }

  // The replies to a whole stream.
  function StreamReplies(w: World, base: nat, len: nat, withTms: bool): seq<byte>
    requires withTms ==> len > 0
  {
    if withTms then DataReplies(w, base, len - 1) + [BitsReply(w, base + len - 1, 1)]
    else DataReplies(w, base, len)
  }

  // What is waiting to be read.
  ghost function Pending(conn: Ftdi): seq<byte>
    requires conn.Valid()
    reads conn
  {
    if conn.delivered <= |conn.Virtual().replies| then conn.Virtual().replies[conn.delivered..] else []
  }

  // The calls for full bytes ...
  method ReadBytes(conn: Ftdi, buf: array<byte>, lenBytes: nat, ghost base: nat)
    requires conn.Valid() && lenBytes <= buf.Length && BytesReply(conn.world, base, lenBytes) <= Pending(conn)
    modifies conn, buf
    ensures conn.Valid() && conn.Virtual() == old(conn.Virtual())
    ensures Pending(conn) == old(Pending(conn))[lenBytes..]
    ensures Overwritten(conn.world, base, 0, 8 * lenBytes, old(buf[..]), buf[..])
  {
    hide Overwritten, BytesReply;
    ghost var before := buf[..];
    BytesReceived(conn.world, base, lenBytes, before);
    if lenBytes > 0 {
      ghost var pending := Pending(conn);
      var _ := ReadPackedBits(conn, buf, lenBytes, 8, 0);
      assert pending[..lenBytes] == BytesReply(conn.world, base, lenBytes);
      assert before[..0] == [];
      assert buf[..] == BytesReply(conn.world, base, lenBytes) + before[lenBytes..];
    } else {
      assert BytesReply(conn.world, base, 0) + buf[..][0..] == buf[..];
    }
  }

  lemma OneReply(w: World, buf: seq<byte>, reply: byte, n: nat, offset: nat)
    requires n <= 8 && offset + n <= 8 * |buf|
    ensures Start(offset, n, 1) == offset + n
    ensures AllPlaced(w, buf, [reply], n, offset) == Placed(w, buf, Aligned(reply, n), n, offset)
  {
    assert [reply][..0] == [];
    assert Start(offset, n, 1) == offset + n;
    assert AllPlaced(w, buf, [], n, offset) == buf;
  }

  // ... and for the bits of one reply.
  method ReadBits(conn: Ftdi, buf: array<byte>, offset: nat, lenBits: nat, ghost base: nat)
    requires conn.Valid() && offset % 8 + lenBits <= 8 && offset + lenBits <= 8 * buf.Length && 0 < lenBits < 8
    requires [BitsReply(conn.world, base + offset, lenBits)] <= Pending(conn)
    modifies conn, buf
    ensures conn.Valid() && conn.Virtual() == old(conn.Virtual())
    ensures Pending(conn) == old(Pending(conn))[1..]
    ensures Overwritten(conn.world, base, offset, offset + lenBits, old(buf[..]), buf[..])
  {
    ghost var before := buf[..];
    BitsReceived(conn.world, base, offset, lenBits, before);
    ghost var pending := Pending(conn);
    assert Start(offset, lenBits, 1) == offset + lenBits;
    var _ := ReadPackedBits(conn, buf, 1, lenBits, offset);
    OneReply(conn.world, before, pending[0], lenBits, offset);
    assert pending[..1] == [pending[0]];
    assert pending[0] == BitsReply(conn.world, base + offset, lenBits);
  }

  // The part of cable_ft2232_read_stream before the bit with TMS.
  method ReadData(conn: Ftdi, buf: array<byte>, data: nat, ghost base: nat)
    requires conn.Valid() && data <= 8 * buf.Length && DataReplies(conn.world, base, data) <= Pending(conn)
    modifies conn, buf
    ensures conn.Valid() && conn.Virtual() == old(conn.Virtual())
    ensures Pending(conn) == old(Pending(conn))[|DataReplies(conn.world, base, data)|..]
    ensures Overwritten(conn.world, base, 0, data, old(buf[..]), buf[..])
  {
    hide Ftdi.Valid, Ftdi.Virtual, Overwritten, BytesReply, BitsReply;
    var lenBytes, lenBits := data / 8, data % 8;
    assert BytesReply(conn.world, base, lenBytes) <= DataReplies(conn.world, base, data);
    ReadBytes(conn, buf, lenBytes, base);
    if lenBits > 0 {
      ghost var before := buf[..];
      ReadBits(conn, buf, lenBytes * 8, lenBits, base);
      ReceivedJoin(conn.world, base, 0, 8 * lenBytes, data, old(buf[..]), before, buf[..]);
    }
  }

  // cable_ft2232_read_stream
  method ReadStream(conn: Ftdi, buf: array<byte>, len: nat, withTms: bool, ghost base: nat)
    requires conn.Valid() && len <= 8 * buf.Length && (withTms ==> len > 0)
    requires StreamReplies(conn.world, base, len, withTms) <= Pending(conn)
    modifies conn, buf
    ensures conn.Valid() && conn.Virtual() == old(conn.Virtual())
    ensures Pending(conn) == old(Pending(conn))[|StreamReplies(conn.world, base, len, withTms)|..]
    ensures Overwritten(conn.world, base, 0, len, old(buf[..]), buf[..])
  {
    hide Ftdi.Valid, Ftdi.Virtual, Overwritten, DataReplies, BitsReply;
    var lenTmsBits := if withTms then 1 else 0;
    assert DataReplies(conn.world, base, len - lenTmsBits) <= StreamReplies(conn.world, base, len, withTms);
    ReadData(conn, buf, len - lenTmsBits, base);
    if lenTmsBits > 0 {
      ghost var before := buf[..];
      ReadBits(conn, buf, len - 1, 1, base);
      ReceivedJoin(conn.world, base, 0, len - 1, len, old(buf[..]), before, buf[..]);
    }
  }

  lemma StreamedReplies(w: World, chip: Chip, bits: seq<bool>, withTms: bool)
    requires withTms ==> bits != []
    ensures Streamed(w, chip, bits, true, withTms).replies
         == chip.replies + StreamReplies(w, |chip.wire|, |bits|, withTms)
  {
  }

  lemma NothingPending(conn: Ftdi)
    requires conn.Valid() && Pending(conn) == []
    ensures conn.delivered == |conn.Virtual().replies|
  {
    RepliesCounted(conn.world, conn.chip, conn.sendBuf[..conn.sendBuffered]);
  }

  // cable_ftdi_read_stream: `instream` is the receiver's memory, byte by byte. With nothing left to
  // read beforehand, there is nothing left afterwards.
  method FtdiReadStream(conn: Ftdi, outstream: seq<word>, instream: array<byte>, lenBits: nat, setLastBit: bool)
    requires conn.Valid() && Pending(conn) == [] && conn.delivered == |conn.Virtual().replies|
    requires Holds(outstream, lenBits) && lenBits <= 8 * instream.Length && (setLastBit ==> lenBits > 0)
    modifies conn, instream
    ensures conn.Valid() && Pending(conn) == [] && conn.delivered == |conn.Virtual().replies|
    ensures conn.Virtual().tms == (old(conn.Virtual()).tms || (setLastBit && conn.world.holdsTms))
    ensures conn.Virtual().wire
         == old(conn.Virtual()).wire + PinClocks(outstream, lenBits, setLastBit, old(conn.Virtual()).tms)
    ensures Overwritten(conn.world, |old(conn.Virtual()).wire|, 0, lenBits, old(instream[..]), instream[..])
  {
    ghost var chip, bits := conn.Virtual(), StreamBits(outstream, lenBits);
    MemoryBits(outstream, lenBits);
    StreamedWire(conn.world, chip, outstream, lenBits, true, setLastBit);
    StreamedReplies(conn.world, chip, bits, setLastBit);
    WriteStream(conn, BytesInMemory(outstream), lenBits, true, setLastBit);
    assert Pending(conn) == StreamReplies(conn.world, |chip.wire|, lenBits, setLastBit);
    ReadStream(conn, instream, lenBits, setLastBit, |chip.wire|);
    NothingPending(conn);
  }

  // cable_ftdi_read_write_bit: bit 0 of the receiver is the level of TDO, its other bits stay.
  method FtdiReadWriteBit(conn: Ftdi, packet: Packet, bitIn: array<byte>)
    requires conn.Valid() && Pending(conn) == [] && conn.delivered == |conn.Virtual().replies| && bitIn.Length == 1
    modifies conn, bitIn
    ensures conn.Valid() && Pending(conn) == [] && conn.delivered == |conn.Virtual().replies|
    ensures conn.Virtual().tms == (old(conn.Virtual()).tms || (packet.tms && conn.world.holdsTms))
    ensures conn.Virtual().wire == old(conn.Virtual()).wire + [Clock(packet.tms || old(conn.Virtual()).tms, packet.tdo)]
    ensures Overwritten(conn.world, |old(conn.Virtual()).wire|, 0, 1, old(bitIn[..]), bitIn[..])
  {
    var buf: byte := if packet.tdo then 1 else 0;
    ghost var chip := conn.Virtual();
    OneBit(conn.world, chip, buf, packet.tms, true);
    StreamedReplies(conn.world, chip, BitsOf([buf])[..1], packet.tms);
    WriteStream(conn, [buf], 1, true, packet.tms);
    assert Pending(conn) == StreamReplies(conn.world, |chip.wire|, 1, packet.tms);
    ReadStream(conn, bitIn, 1, packet.tms, |chip.wire|);
    NothingPending(conn);
  }
}

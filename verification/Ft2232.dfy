// cable_ft2232.cpp: the buffered USB layer below the MPSSE commands.
module Ft2232 {
  import opened Bits
  import opened Mpsse

  const FTDX_MAXSEND: nat := 4096
  const FTDI_MAXRECV: nat := 256

  // (uint32_t)( a + b )
  function WrapSum(a: nat, b: int): nat {
    (a + b) % WORD_MODULUS
  }

  // memcpy( &buf[at], bytes, |bytes| )
  function CopyInto(buf: seq<byte>, at: nat, bytes: seq<byte>): (r: seq<byte>)
    requires at + |bytes| <= |buf|
    ensures |r| == |buf| && r[..at] == buf[..at] && r[at..at + |bytes|] == bytes
  {
    buf[..at] + bytes + buf[at + |bytes|..]
  }

  // realloc( buf, len )
  function Grown(buf: seq<byte>, len: nat): (r: seq<byte>)
    requires |buf| <= len
    ensures |r| == len && r[..|buf|] == buf
  {
    buf + seq<byte>(len - |buf|, _ => 0)
  }

  // Bytes placed behind the part i..j of a buffer make that part longer by just those bytes.
  lemma PartExtended(part: seq<byte>, buf: seq<byte>, i: nat, j: nat, bytes: seq<byte>)
    requires i <= j <= |part| <= |buf| && j + |bytes| <= |buf| && buf[..|part|] == part
    ensures CopyInto(buf, j, bytes)[i..j + |bytes|] == part[i..j] + bytes
  {
    var r := CopyInto(buf, j, bytes);
    assert r[..j] == buf[..j] == part[..j];
    assert r[i..j] == r[..j][i..] == part[..j][i..] == part[i..j];
    assert r[i..j + |bytes|] == r[i..j] + r[j..j + |bytes|];
  }

  // Taking bytes from the front of what is left of a sequence.
  lemma TakenFront(left: seq<byte>, whole: seq<byte>, from: nat, len: nat)
    requires from + len <= |whole| && left == whole[from..]
    ensures left[..len] == whole[from..from + len] && left[len..] == whole[from + len..]
  {
  }

  lemma PartOfPart(s: seq<byte>, i: nat, j: nat, len: nat)
    requires i + len <= j <= |s|
    ensures s[i..j][..len] == s[i..i + len] && s[i..j][len..] == s[i + len..j]
  {
  }

  // ftdi_param_t, and the chip behind it. The model's buffers are as long as the source's.
  class Ftdi {
    var sendBuffered: nat
    var sendBuf: seq<byte>
    var toRecv: nat
    var recvWriteIdx: nat
    var recvReadIdx: nat
    var recvBuf: seq<byte>

    const world: World
    var chip: Chip
    var fetched: nat          // how many reply bytes the host has read from the device
    ghost var delivered: nat  // how many of them usbconn_ftdi_read has handed out

    ghost predicate Valid()
      reads this
    {
      && sendBuffered <= |sendBuf|
      && recvReadIdx <= recvWriteIdx <= |recvBuf|
      && Complete(sendBuf[..sendBuffered]) && toRecv == ReplyCount(sendBuf[..sendBuffered]) < 0x8000_0000
      && delivered <= fetched == |chip.replies|
      && recvBuf[recvReadIdx..recvWriteIdx] == chip.replies[delivered..]
    }

    // The chip as it will be once everything queued has been sent.
    ghost function Virtual(): Chip
      requires Valid()
      reads this
    {
      RunCommands(world, chip, sendBuf[..sendBuffered])
    }

    constructor (world: World, chip: Chip)
      requires chip.replies == []
      ensures Valid() && Virtual() == chip && delivered == 0 && this.world == world
    {
      this.world, this.chip := world, chip;
      sendBuffered, toRecv, recvWriteIdx, recvReadIdx, fetched, delivered := 0, 0, 0, 0, 0, 0;
      sendBuf := seq<byte>(FTDX_MAXSEND, _ => 0);
      recvBuf := seq<byte>(FTDI_MAXRECV, _ => 0);
      new;
      assert sendBuf[..0] == [];
    }

    // Collects the replies that have been scheduled.
    method Collect()
      requires recvReadIdx <= recvWriteIdx <= |recvBuf|
      requires fetched + toRecv == |chip.replies| && delivered <= fetched
      requires recvBuf[recvReadIdx..recvWriteIdx] == chip.replies[delivered..fetched]
      modifies this`recvBuf, this`recvWriteIdx, this`fetched, this`toRecv
      ensures recvReadIdx <= recvWriteIdx <= |recvBuf| && toRecv == 0 && fetched == |chip.replies|
      ensures recvBuf[recvReadIdx..recvWriteIdx] == chip.replies[delivered..]
    {
      ghost var unread := chip.replies[delivered..fetched];
      assert unread + chip.replies[fetched..] == chip.replies[delivered..];
      if toRecv == 0 {
        assert unread + chip.replies[fetched..] == unread;
        return;
      }
      ghost var was := recvBuf;
      if recvWriteIdx + toRecv > |recvBuf| {
        recvBuf := Grown(recvBuf, recvWriteIdx + toRecv);
      }
      var news := chip.replies[fetched..];
      PartExtended(was, recvBuf, recvReadIdx, recvWriteIdx, news);
      recvBuf := CopyInto(recvBuf, recvWriteIdx, news);
      fetched, recvWriteIdx, toRecv := fetched + toRecv, recvWriteIdx + toRecv, 0;
    }

    // usbconn_ftdi_flush: sends what is queued and collects all replies to it.
    method Flush()
      requires Valid()
      modifies this`sendBuffered, this`toRecv, this`recvWriteIdx, this`recvBuf, this`chip, this`fetched
      ensures Valid() && Virtual() == old(Virtual()) == chip && sendBuffered == toRecv == 0
    {
      assert sendBuf[..0] == [];
      if sendBuffered == 0 {
        return;
      }
      ghost var before := chip.replies;
      RepliesCounted(world, chip, sendBuf[..sendBuffered]);
      chip := RunCommands(world, chip, sendBuf[..sendBuffered]);
      assert before == chip.replies[..fetched];
      assert before[delivered..] == chip.replies[delivered..fetched];
      sendBuffered := 0;
      Collect();
    }

    method MakeRoom(recv: int)
      requires Valid() && recv < 0x8000_0000
      modifies this`sendBuffered, this`toRecv, this`recvWriteIdx, this`recvBuf, this`chip, this`fetched
      ensures Valid() && Virtual() == old(Virtual())
      ensures recv > 0 ==> toRecv + recv < 0x8000_0000
    {
      if WrapSum(toRecv, recv) > FTDI_MAXRECV || (sendBuffered > FTDX_MAXSEND && toRecv == 0) {
        Flush();
      }
    }

    // usbconn_ftdi_write, for one whole command and the number of its replies.
    method Write(command: seq<byte>, recv: int)
      requires Valid() && 0 < CommandSize(command) == |command|
      requires recv < 0x8000_0000 && ReplyCount(command) == if recv > 0 then recv else 0
      modifies this
      ensures Valid() && Virtual() == Execute(world, old(Virtual()), command)
      ensures delivered == old(delivered)
    {
      MakeRoom(recv);
      Queue(command);
      if recv > 0 {
        toRecv := toRecv + recv;
      }
      if recv < 0 {
        Flush();
      }
    }

    method Queue(command: seq<byte>)
      requires Valid() && 0 < CommandSize(command) == |command|
      modifies this`sendBuf, this`sendBuffered
      ensures sendBuffered <= |sendBuf| && Complete(sendBuf[..sendBuffered])
      ensures ReplyCount(sendBuf[..sendBuffered]) == toRecv + ReplyCount(command)
      ensures RunCommands(world, chip, sendBuf[..sendBuffered]) == Execute(world, old(Virtual()), command)
    {
      ghost var was := sendBuf;
      CommandAppended(world, chip, sendBuf[..sendBuffered], command);
      if sendBuffered + |command| > |sendBuf| {
        sendBuf := Grown(sendBuf, sendBuffered + |command|);
      }
      PartExtended(was, sendBuf, 0, sendBuffered, command);
      sendBuf := CopyInto(sendBuf, sendBuffered, command);
      sendBuffered := sendBuffered + |command|;
    }

    // usbconn_ftdi_read. Flushing has fetched all replies there are, so the device never has to be
    // asked for more.
    method Read(len: nat) returns (bytes: seq<byte>)
      requires Valid() && delivered + len <= |Virtual().replies|
      modifies this
      ensures Valid() && Virtual() == old(Virtual())
      ensures delivered == old(delivered) + len && bytes == Virtual().replies[old(delivered)..delivered]
    {
      Flush();
      bytes := [];
      if len == 0 {
        return;
      }
      TakenFront(recvBuf[recvReadIdx..recvWriteIdx], chip.replies, delivered, len);
      PartOfPart(recvBuf, recvReadIdx, recvWriteIdx, len);
      bytes := recvBuf[recvReadIdx..recvReadIdx + len];
      recvReadIdx := recvReadIdx + len;
      delivered := delivered + len;
      if recvReadIdx == recvWriteIdx {
        recvReadIdx, recvWriteIdx := 0, 0;
      }
    }
  }
}

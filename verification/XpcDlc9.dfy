// cable_xpc_dlc9.cpp: JTAG streams as A6 transfers of the cable's CPLD.
module XpcDlc9 {
  import opened Bits
  import opened Clocks
  import opened Samples
  import opened CpldFormat
  import opened Wrappers

  const CPLD_MAX_BYTES: nat := 4096
  const MAX_TRANSFER_BITS: nat := 2 * CPLD_MAX_BYTES - 1

  // The buffer holds these changes, and the rest of its last word is clear.
  ghost predicate Encodes(buf: seq<byte>, changes: seq<Change>) {
    |buf| == CPLD_MAX_BYTES && |changes| <= 2 * CPLD_MAX_BYTES &&
    EncodesUpTo(buf, changes, (|changes| + 3) / 4 * 4)
  }

  function PaddedChange(changes: seq<Change>, k: nat): Change {
    if k < |changes| then changes[k] else NO_CHANGE
  }

  predicate EncodesUpTo(buf: seq<byte>, changes: seq<Change>, n: nat)
    requires n <= 2 * |buf| && |buf| % 2 == 0
  {
    n == 0 || (EncodesUpTo(buf, changes, n - 1) && ChangeAt(buf, n - 1) == PaddedChange(changes, n - 1))
  }

  lemma {:induction false} EncodedAt(buf: seq<byte>, changes: seq<Change>, n: nat, k: nat)
    requires |buf| % 2 == 0 && k < n <= 2 * |buf| && EncodesUpTo(buf, changes, n)
    ensures ChangeAt(buf, k) == PaddedChange(changes, k)
  {
    if k < n - 1 { EncodedAt(buf, changes, n - 1, k); }
  }

  lemma {:induction false} EncodedWhen(buf: seq<byte>, changes: seq<Change>, n: nat)
    requires |buf| % 2 == 0 && n <= 2 * |buf|
    requires forall k :: 0 <= k < n ==> ChangeAt(buf, k) == PaddedChange(changes, k)
    ensures EncodesUpTo(buf, changes, n)
  {
    if n > 0 { EncodedWhen(buf, changes, n - 1); }
  }

  lemma {:induction false} EncodedFront(buf: seq<byte>, changes: seq<Change>, m: nat, n: nat)
    requires |buf| % 2 == 0 && m <= 2 * |buf| && EncodesUpTo(buf, changes, m) && n <= m && n <= |changes|
    ensures ChangesOf(buf, n) == changes[..n]
  {
    hide ChangeAt;
    if n > 0 {
      EncodedFront(buf, changes, m, n - 1);
      EncodedAt(buf, changes, m, n - 1);
    }
  }

  lemma EncodedChanges(buf: seq<byte>, changes: seq<Change>)
    requires Encodes(buf, changes)
    ensures ChangesOf(buf, |changes|) == changes
  {
    EncodedFront(buf, changes, (|changes| + 3) / 4 * 4, |changes|);
    assert changes[..|changes|] == changes;
  }

  function SetIf(x: byte, i: nat, b: bool): byte
    requires i < 8
  {
    PowersOfTwo();
    SetBitBound(x, i, 8);
    if b then SetBit(x, i) else x
  }

  lemma SetIfBit(x: byte, i: nat, b: bool, j: nat)
    requires i < 8
    ensures Bit(SetIf(x, i, b), j) == ((b && j == i) || Bit(x, j))
  {
    if b { SetBitBit(x, i, j); }
  }

  // The two bytes of a word after adding a change at place j.
  function LowWith(low: byte, j: nat, c: Change): byte
    requires j < 4
  {
    SetIf(SetIf(low, j, c.tdi), 4 + j, c.tms)
  }

  function HighWith(high: byte, j: nat, c: Change): byte
    requires j < 4
  {
    SetIf(SetIf(high, j, c.toggle), 4 + j, c.sample)
  }

  lemma ByteWith(x: byte, j: nat, b0: bool, b1: bool, m: nat)
    requires j < 4 && m < 8 && !Bit(x, j) && !Bit(x, 4 + j)
    ensures Bit(SetIf(SetIf(x, j, b0), 4 + j, b1), m) == if m == j then b0 else if m == 4 + j then b1 else Bit(x, m)
  {
    SetIfBit(x, j, b0, m);
    SetIfBit(SetIf(x, j, b0), 4 + j, b1, m);
  }

  lemma WordWithChange(low: byte, high: byte, j: nat, c: Change, m: nat)
    requires j < 4 && m < 4 && ChangeAt([low, high], j) == NO_CHANGE
    ensures ChangeAt([LowWith(low, j, c), HighWith(high, j, c)], m) == if m == j then c else ChangeAt([low, high], m)
  {
    ByteWith(low, j, c.tdi, c.tms, m);
    ByteWith(low, j, c.tdi, c.tms, 4 + m);
    ByteWith(high, j, c.toggle, c.sample, m);
    ByteWith(high, j, c.toggle, c.sample, 4 + m);
  }

  lemma ZeroWord(m: nat)
    requires m < 4
    ensures ChangeAt([0, 0], m) == NO_CHANGE
  {
    ZeroBit(m);
    ZeroBit(4 + m);
  }

  // The buffer after adding change n.
  function WithChange(buf: seq<byte>, n: nat, c: Change): (after: seq<byte>)
    requires n / 4 * 2 + 1 < |buf|
    ensures |after| == |buf|
  {
    var i, j := n / 4 * 2, n % 4;
    var low: byte := if j == 0 then 0 else buf[i];
    var high: byte := if j == 0 then 0 else buf[i + 1];
    buf[..i] + [LowWith(low, j, c), HighWith(high, j, c)] + buf[i + 2..]
  }

  lemma ChangeAfter(buf: seq<byte>, n: nat, c: Change, k: nat)
    requires |buf| % 2 == 0 && n / 4 * 2 < |buf| && k / 4 <= n / 4
    requires n % 4 != 0 ==> ChangeAt(buf, n) == NO_CHANGE
    ensures ChangeAt(WithChange(buf, n, c), k)
            == if k == n then c else if n % 4 == 0 && k / 4 == n / 4 then NO_CHANGE else ChangeAt(buf, k)
  {
    var i, j := n / 4 * 2, n % 4;
    if k / 4 == n / 4 {
      var low: byte := if j == 0 then 0 else buf[i];
      var high: byte := if j == 0 then 0 else buf[i + 1];
      ZeroWord(k % 4);
      ZeroWord(j);
      WordWithChange(low, high, j, c, k % 4);
    }
  }

  lemma AddedChange(buf: seq<byte>, changes: seq<Change>, c: Change)
    requires Encodes(buf, changes) && |changes| < 2 * CPLD_MAX_BYTES
    ensures Encodes(WithChange(buf, |changes|, c), changes + [c])
  {
    hide ChangeAt, WithChange;
    var n := |changes|;
    var filled := (n + 3) / 4 * 4;
    if n % 4 != 0 { EncodedAt(buf, changes, filled, n); }
    forall k | 0 <= k < (n + 4) / 4 * 4
      ensures ChangeAt(WithChange(buf, n, c), k) == PaddedChange(changes + [c], k)
    {
      if k < filled { EncodedAt(buf, changes, filled, k); }
      ChangeAfter(buf, n, c, k);
    }
    EncodedWhen(WithChange(buf, n, c), changes + [c], (n + 4) / 4 * 4);
  }

  lemma GroupBit(samples: seq<bool>, junk: nat -> bool, i: nat, m: nat)
    requires i < |samples| / 32 && m < 32
    ensures Bit(LittleEndian(ReplyBytes(samples, junk)[4 * i..4 * i + 4]), m) == samples[32 * i + m]
  {
    hide LittleEndian, ReplyByte, Bit;
    var group := ReplyBytes(samples, junk)[4 * i..4 * i + 4];
    var q, r := m / 8, m % 8;
    assert 8 * (4 * i + q) + r == 32 * i + m;
    LittleEndianBit(group, m);
    assert group[q] == ReplyByte(samples, junk, 4 * i + q);
    ReplyByteBit(samples, junk, 4 * i + q, r);
  }

  // A whole group of 32 samples, copied as it is.
  lemma GroupStored(words: seq<word>, samples: seq<bool>, junk: nat -> bool, i: nat, w: word)
    requires i < |samples| / 32 && i < |words| && HoldsSamples(words, samples, 32 * i)
    requires w == LittleEndian(ReplyBytes(samples, junk)[4 * i..4 * i + 4])
    ensures HoldsSamples(words[i := w], samples, 32 * (i + 1))
  {
    hide ReplyBytes, LittleEndian, Bit;
    forall k | 0 <= k < 32 * (i + 1)
      ensures StreamBit(words[i := w], k) == samples[k]
    {
      if k / 32 == i {
        GroupBit(samples, junk, i, k % 32);
      } else {
        ReceivedAt(words, samples, 32 * i, k);
      }
    }
    HeldWhen(words[i := w], samples, 32 * (i + 1), 32 * (i + 1));
  }

  // Where a sample behind the last whole group is.
  lemma TailBit(samples: seq<bool>, junk: nat -> bool, i: nat)
    requires |samples| / 32 * 32 <= i < |samples|
    ensures (i + Padding(|samples|)) / 8 < ReplyLength(|samples|)
    ensures Bit(ReplyBytes(samples, junk)[(i + Padding(|samples|)) / 8], (i + Padding(|samples|)) % 8) == samples[i]
  {
    var p := i + Padding(|samples|);
    TailPlace(|samples|, i);
    ReplyByteBit(samples, junk, p / 8, p % 8);
  }

  lemma TailPlace(n: nat, i: nat)
    requires n / 32 * 32 <= i < n
    ensures (i + Padding(n)) / 8 < ReplyLength(n)
    ensures i + Padding(n) >= n / 32 * 32 + Padding(n) && i + Padding(n) < n + Padding(n)
  {
    assert (n + Padding(n)) / 16 == (n + 15) / 16;
  }

  // The changes for clock events that toggle TCK and sample TDO each.
  function Full(cs: seq<Clock>): (changes: seq<Change>)
    ensures |changes| == |cs|
  {
    if cs == [] then []
    else Full(cs[..|cs| - 1]) + [Change(cs[|cs| - 1].tdi, cs[|cs| - 1].tms, true, true)]
  }

  lemma FullFront(cs: seq<Clock>)
    requires cs != []
    ensures Full(cs)[..|cs| - 1] == Full(cs[..|cs| - 1])
    ensures Full(cs)[|cs| - 1] == Change(cs[|cs| - 1].tdi, cs[|cs| - 1].tms, true, true)
  {
  }

  lemma {:induction false} FullClocks(cs: seq<Clock>)
    ensures ClocksOf(Full(cs)) == cs
  {
    if cs != [] {
      var front, last := cs[..|cs| - 1], cs[|cs| - 1];
      FullFront(cs);
      FullClocks(front);
      assert last == Clock(last.tms, last.tdi) && cs == front + [last];
    }
  }

  lemma {:induction false} FullSamples(cs: seq<Clock>, base: nat, tdo: nat -> bool)
    ensures SamplesOf(Full(cs), base, tdo) == Levels(tdo, base, |cs|)
  {
    if cs != [] {
      FullFront(cs);
      FullSamples(cs[..|cs| - 1], base, tdo);
      FullClocks(cs[..|cs| - 1]);
    }
  }

  lemma FullIsFaithful(cs: seq<Clock>, base: nat, tdo: nat -> bool)
    ensures ClocksOf(Full(cs)) == cs
    ensures SamplesOf(Full(cs), base, tdo) == Levels(tdo, base, |cs|)
  {
    FullClocks(cs);
    FullSamples(cs, base, tdo);
  }

  // The dummy change that pads a transfer neither clocks nor samples anything.
  lemma DummyIsSilent(changes: seq<Change>, base: nat, tdo: nat -> bool)
    ensures ClocksOf(changes + [NO_CHANGE]) == ClocksOf(changes)
    ensures SamplesOf(changes + [NO_CHANGE], base, tdo) == SamplesOf(changes, base, tdo)
  {
    assert (changes + [NO_CHANGE])[..|changes|] == changes;
  }

  lemma {:induction false} SampleCount(changes: seq<Change>, base: nat, tdo: nat -> bool)
    ensures |SamplesOf(changes, base, tdo)| <= |changes|
  {
    if changes != [] { SampleCount(changes[..|changes| - 1], base, tdo); }
  }

  // Without a stream to send, zeros are sent.
  function OutClock(outstream: Option<seq<word>>, len: nat, lastTms: bool, k: nat): Clock
    requires k < len && (outstream.Some? ==> Holds(outstream.value, len))
  {
    Clock(k == len - 1 && lastTms, outstream.Some? && StreamBit(outstream.value, k))
  }

  // The first n clock events of the stream.
  function OutClocks(outstream: Option<seq<word>>, len: nat, lastTms: bool, n: nat): (cs: seq<Clock>)
    requires n <= len && (outstream.Some? ==> Holds(outstream.value, len))
    ensures |cs| == n
  {
    if n == 0 then [] else OutClocks(outstream, len, lastTms, n - 1) + [OutClock(outstream, len, lastTms, n - 1)]
  }

  lemma {:induction false} OutClocksAreStream(stream: seq<word>, len: nat, lastTms: bool, n: nat)
    requires n <= len && Holds(stream, len)
    ensures OutClocks(Some(stream), len, lastTms, n) == StreamClocks(stream, len, lastTms)[..n]
  {
    if n > 0 {
      OutClocksAreStream(stream, len, lastTms, n - 1);
    }
  }

  // With a stream to send, they are the reference sequence.
  lemma WholeStream(stream: seq<word>, len: nat, lastTms: bool)
    requires Holds(stream, len)
    ensures OutClocks(Some(stream), len, lastTms, len) == StreamClocks(stream, len, lastTms)
  {
    OutClocksAreStream(stream, len, lastTms, len);
    var cs := StreamClocks(stream, len, lastTms);
    assert cs[..len] == cs;
  }

  // The CPLD does not handle bit counts that are multiples of four.
  predicate GoodTransfers(sizes: seq<nat>) {
    sizes == [] || (GoodTransfers(sizes[..|sizes| - 1]) && GoodSize(sizes[|sizes| - 1]))
  }

  predicate GoodSize(n: nat) {
    n % 4 != 0 && n <= MAX_TRANSFER_BITS
  }

  lemma {:induction false} EveryTransferIsGood(sizes: seq<nat>)
    requires GoodTransfers(sizes)
    ensures forall k :: 0 <= k < |sizes| ==> GoodSize(sizes[k])
  {
    if sizes != [] {
      EveryTransferIsGood(sizes[..|sizes| - 1]);
      assert forall k :: 0 <= k < |sizes| - 1 ==> sizes[k] == sizes[..|sizes| - 1][k];
    }
  }

  // Where the last transfer of a stream starts.
  function LastStart(len: nat): (start: nat)
    ensures len > 0 ==> start < len <= start + MAX_TRANSFER_BITS
  {
    if len <= MAX_TRANSFER_BITS then 0 else MAX_TRANSFER_BITS + LastStart(len - MAX_TRANSFER_BITS)
  }

  lemma {:induction false} NextLastStart(len: nat)
    ensures LastStart(len + 1) == if len < LastStart(len) + MAX_TRANSFER_BITS then LastStart(len) else len
  {
    if len > MAX_TRANSFER_BITS { NextLastStart(len - MAX_TRANSFER_BITS); }
  }

  // Reading a stream back is right, whatever comes in, exactly when one transfer is enough for it:
  // its first result bit is the first bit of the last transfer.
  lemma OneTransferIsNeeded(len: nat)
    requires len > 0
    ensures (forall tdo: nat -> bool, base: nat ::
               Levels(tdo, base + LastStart(len), len - LastStart(len))
                   == Levels(tdo, base, len)[..len - LastStart(len)])
            <==> len <= MAX_TRANSFER_BITS
  {
    if len <= MAX_TRANSFER_BITS {
      forall tdo: nat -> bool, base: nat
        ensures Levels(tdo, base + LastStart(len), len - LastStart(len))
             == Levels(tdo, base, len)[..len - LastStart(len)]
      {
      }
    } else {
      var tdo := n => n == 0;
      LevelAt(tdo, LastStart(len), len - LastStart(len), 0);
      LevelAt(tdo, 0, len, 0);
      assert Levels(tdo, 0 + LastStart(len), len - LastStart(len))[0] != Levels(tdo, 0, len)[0];
    }
  }

  class Cable {
    // xpc_ext_transfer_state_t
    var inBits: nat
    var outBits: nat
    const buf: array<byte>
    ghost var changes: seq<Change>

    // The CPLD: the clock events and the transfer sizes it has seen. `tdo(n)` is the level at the n-th event.
    var wire: seq<Clock>
    var transfers: seq<nat>
    const tdo: nat -> bool
    const junk: nat -> bool

    ghost predicate Valid()
      reads this, buf
    {
      inBits == |changes| && Encodes(buf[..], changes) && outBits == |SamplesOf(changes, |wire|, tdo)| &&
      GoodTransfers(transfers)
    }

    constructor (tdo: nat -> bool, junk: nat -> bool)
      ensures Valid() && changes == [] && wire == [] && transfers == [] && fresh(buf)
      ensures this.tdo == tdo && this.junk == junk
    {
      inBits, outBits, changes, wire, transfers := 0, 0, [], [], [];
      buf := new byte[CPLD_MAX_BYTES](_ => 0);
      this.tdo, this.junk := tdo, junk;
    }

    // xpcusb_add_bit_for_ext_transfer
    method AddBit(c: Change)
      requires Valid() && inBits < MAX_TRANSFER_BITS + 1
      modifies `inBits, `outBits, `changes, buf
      ensures Valid() && changes == old(changes) + [c]
    {
      AddedChange(buf[..], changes, c);
      PutChange(c);
      inBits := inBits + 1;
      if c.sample {
        outBits := outBits + 1;
      }
      changes := changes + [c];
      assert changes[..|changes| - 1] == old(changes);
    }

    // The buffer part of it: four changes to a word, which is cleared for the first one.
    method PutChange(c: Change)
      requires inBits <= MAX_TRANSFER_BITS && buf.Length == CPLD_MAX_BYTES
      modifies buf
      ensures buf[..] == WithChange(old(buf[..]), inBits, c)
    {
      hide SetIf;
      var j := inBits % 4;
      var i := inBits / 4 * 2;
      if j == 0 {
        buf[i], buf[i + 1] := 0, 0;
      }
      SetBits(i, j, c.tdi, c.tms);
      SetBits(i + 1, j, c.toggle, c.sample);
      assert buf[..i] == old(buf[..])[..i] && buf[i + 2..] == old(buf[..])[i + 2..];
      assert buf[..] == buf[..i] + [buf[i], buf[i + 1]] + buf[i + 2..];
    }

    method SetBits(at: nat, j: nat, low: bool, high: bool)
      requires at < buf.Length && j < 4
      modifies buf
      ensures buf[at] == SetIf(SetIf(old(buf[at]), j, low), 4 + j, high)
      ensures forall k :: 0 <= k < buf.Length && k != at ==> buf[k] == old(buf[k])
    {
      hide SetIf;
      buf[at] := SetIf(buf[at], j, low);
      buf[at] := SetIf(buf[at], 4 + j, high);
    }

    // xpcu_shift: the CPLD carries out the changes and sends the samples back into the buffer.
    method Shift(inLen: nat, outLen: nat)
      requires Valid() && inLen == (inBits + 3) / 4 * 2 && outLen == ReplyLength(outBits)
      requires outLen <= CPLD_MAX_BYTES
      modifies `wire, `transfers, buf
      ensures wire == old(wire) + ClocksOf(changes) && transfers == old(transfers) + [inBits]
      ensures buf[..outLen] == ReplyBytes(SamplesOf(changes, |old(wire)|, tdo), junk)
    {
      EncodedChanges(buf[..], changes);
      var received := ChangesOf(buf[..], inBits);
      var reply := ReplyBytes(SamplesOf(received, |wire|, tdo), junk);
      wire := wire + ClocksOf(received);
      transfers := transfers + [inBits];
      for j := 0 to outLen
        invariant buf[..j] == reply[..j]
        invariant wire == old(wire) + ClocksOf(changes) && transfers == old(transfers) + [inBits]
      {
        buf[j] := reply[j];
      }
    }

    // The second half of xpcusb_do_ext_transfer: bit k of the result is the k-th sample.
    method Unpack(n: nat, instream: array<word>, ghost samples: seq<bool>)
      requires n == |samples| && ReplyLength(n) <= buf.Length && n <= 32 * instream.Length
      requires buf[..ReplyLength(n)] == ReplyBytes(samples, junk)
      modifies instream
      ensures HoldsSamples(instream[..], samples, n)
    {
      hide ReplyBytes;
      for i := 0 to n / 32
        invariant HoldsSamples(instream[..], samples, 32 * i)
      {
        CopyGroup(n, i, instream, samples);
      }
      var shift := n % 16;
      if shift != 0 {
        shift := 16 - shift;
      }
      assert shift == Padding(n);
      for i := n / 32 * 32 to n
        invariant HoldsSamples(instream[..], samples, i)
      {
        var bit := TailSample(n, i + shift, i, samples);
        StoreSample(instream, i, bit, samples);
      }
    }

    method CopyGroup(n: nat, i: nat, instream: array<word>, ghost samples: seq<bool>)
      requires n == |samples| && i < n / 32 && ReplyLength(n) <= buf.Length && n <= 32 * instream.Length
      requires buf[..ReplyLength(n)] == ReplyBytes(samples, junk)
      requires HoldsSamples(instream[..], samples, 32 * i)
      modifies instream
      ensures HoldsSamples(instream[..], samples, 32 * (i + 1))
    {
      var group := buf[4 * i..4 * i + 4];
      assert group == buf[..ReplyLength(n)][4 * i..4 * i + 4];
      GroupStored(instream[..], samples, junk, i, LittleEndian(group));
      instream[i] := LittleEndian(group);
    }

    method TailSample(n: nat, bitNum: nat, ghost i: nat, ghost samples: seq<bool>) returns (bit: bool)
      requires n == |samples| && n / 32 * 32 <= i < n && bitNum == i + Padding(n)
      requires ReplyLength(n) <= buf.Length && buf[..ReplyLength(n)] == ReplyBytes(samples, junk)
      ensures bit == samples[i]
    {
      TailBit(samples, junk, i);
      assert buf[bitNum / 8] == buf[..ReplyLength(n)][bitNum / 8];
      bit := Bit(buf[bitNum / 8], bitNum % 8);
    }

    // xpcusb_do_ext_transfer
    method DoExtTransfer(instream: array?<word>)
      requires Valid() && inBits <= MAX_TRANSFER_BITS && inBits % 4 != 0
      requires instream != null ==> outBits <= 32 * instream.Length
      modifies this, buf, if instream == null then {} else {instream}
      ensures Valid() && changes == []
      ensures wire == old(wire) + ClocksOf(old(changes)) && transfers == old(transfers) + [old(inBits)]
      ensures instream != null ==> HoldsSamples(instream[..], SamplesOf(old(changes), |old(wire)|, tdo), old(outBits))
    {
      hide ClocksOf;
      ghost var samples := SamplesOf(changes, |wire|, tdo);
      SampleCount(changes, |wire|, tdo);
      Shift((inBits + 3) / 4 * 2, ReplyLength(outBits));
      if outBits > 0 && instream != null {
        Unpack(outBits, instream, samples);
      }
      inBits, outBits, changes := 0, 0, [];
    }

    // A transfer of changes that stand for the clock events `pending`, with or without a dummy change.
    method TransferPending(instream: array?<word>, ghost pending: seq<Clock>)
      requires Valid() && inBits <= MAX_TRANSFER_BITS && inBits % 4 != 0
      requires changes == Full(pending) || changes == Full(pending) + [NO_CHANGE]
      requires instream != null ==> |pending| <= 32 * instream.Length
      modifies this, buf, if instream == null then {} else {instream}
      ensures Valid() && changes == []
      ensures wire == old(wire) + pending
      ensures transfers == old(transfers) + [old(inBits)]
      ensures instream != null ==> HoldsSamples(instream[..], Levels(tdo, |old(wire)|, |pending|), |pending|)
    {
      FullIsFaithful(pending, |wire|, tdo);
      DummyIsSilent(Full(pending), |wire|, tdo);
      DoExtTransfer(instream);
    }

    // One pass of the stream loop: a full transfer is sent at once.
    method ClockOut(c: Clock, instream: array?<word>, ghost pending: seq<Clock>) returns (ghost next: seq<Clock>)
      requires Valid() && changes == Full(pending) && |pending| < MAX_TRANSFER_BITS
      requires instream != null ==> |pending| + 1 <= 32 * instream.Length
      modifies this, buf, if instream == null then {} else {instream}
      ensures Valid() && changes == Full(next) && |next| < MAX_TRANSFER_BITS
      ensures next == [] || (next == pending + [c] && wire == old(wire))
      ensures next == [] ==> |pending| + 1 == MAX_TRANSFER_BITS && wire == old(wire) + (pending + [c])
      ensures next == [] && instream != null ==>
                HoldsSamples(instream[..], Levels(tdo, |old(wire)|, |pending| + 1), |pending| + 1)
    {
      AddBit(Change(c.tdi, c.tms, true, true));
      FullOneMore(pending, c);
      next := pending + [c];
      if inBits == MAX_TRANSFER_BITS {
        TransferPending(instream, next);
        next := [];
      }
    }

    // What is left after the loop goes into a final transfer.
    method FinishStream(instream: array?<word>, ghost pending: seq<Clock>)
      requires Valid() && changes == Full(pending) && |pending| < MAX_TRANSFER_BITS
      requires instream != null ==> |pending| <= 32 * instream.Length
      modifies this, buf, if instream == null then {} else {instream}
      ensures Valid() && changes == [] && wire == old(wire) + pending
      ensures pending != [] && instream != null ==>
                HoldsSamples(instream[..], Levels(tdo, |old(wire)|, |pending|), |pending|)
      ensures pending == [] && instream != null ==> instream[..] == old(instream[..])
    {
      hide Encodes, GoodTransfers, HoldsSamples;
      if inBits > 0 {
        if inBits % 4 == 0 {
          AddBit(NO_CHANGE);
        }
        TransferPending(instream, pending);
      }
    }

    // The loop over the stream. What it has not sent yet is pending.
    method SendFullTransfers(outstream: Option<seq<word>>, instream: array?<word>, len: nat, lastTms: bool)
      returns (ghost pending: seq<Clock>)
      requires Valid() && changes == []
      requires outstream.Some? ==> Holds(outstream.value, len)
      requires instream != null ==> len <= 32 * instream.Length || MAX_TRANSFER_BITS <= 32 * instream.Length
      modifies this, buf, if instream == null then {} else {instream}
      ensures Valid() && changes == Full(pending)
      ensures Progress(old(wire) + OutClocks(outstream, len, lastTms, len), len, wire, pending)
      ensures instream != null && len > 0 && pending == [] ==> HoldsLast(instream[..], tdo, |old(wire)|, len)
    {
      hide Encodes, GoodTransfers, Full, OutClock, StreamBit, Levels, HoldsSamples, HoldsLast, Cable.Valid;
      pending := [];
      for i := 0 to len
        invariant Valid() && changes == Full(pending)
        invariant Progress(old(wire) + OutClocks(outstream, len, lastTms, i), i, wire, pending)
        invariant instream != null && i > 0 && pending == [] ==> HoldsLast(instream[..], tdo, |old(wire)|, i)
      {
        ghost var before, was := wire, pending;
        var c := OutClock(outstream, len, lastTms, i);
        pending := ClockOut(c, instream, pending);
        ProgressOn(old(wire), OutClocks(outstream, len, lastTms, i), i, before, was, c, wire, pending);
        if instream != null && pending == [] {
          TransferIsLast(instream[..], tdo, |old(wire)|, i + 1, |before|, |was| + 1);
        }
      }
    }

    // cable_xpcusb_readwrite_stream: the clock events are those of the stream, in transfers of
    // acceptable sizes. Every transfer stores its samples at the start of the input stream.
    method ReadWriteStream(outstream: Option<seq<word>>, instream: array?<word>, len: nat, lastTms: bool)
      requires Valid() && changes == []
      requires outstream.Some? ==> Holds(outstream.value, len)
      requires instream != null ==> len <= 32 * instream.Length || MAX_TRANSFER_BITS <= 32 * instream.Length
      modifies this, buf, if instream == null then {} else {instream}
      ensures Valid() && changes == []
      ensures wire == old(wire) + OutClocks(outstream, len, lastTms, len)
      ensures forall k :: 0 <= k < |transfers| ==> transfers[k] % 4 != 0 && transfers[k] <= MAX_TRANSFER_BITS
      ensures instream != null && len > 0 ==> HoldsLast(instream[..], tdo, |old(wire)|, len)
    {
      var pending := SendFullTransfers(outstream, instream, len, lastTms);
      ghost var before := |wire|;
      FinishStream(instream, pending);
      if instream != null && pending != [] {
        TransferIsLast(instream[..], tdo, |old(wire)|, len, before, |pending|);
      }
      EveryTransferIsGood(transfers);
    }

    // cable_xpcusb_write_stream
    method WriteStream(outstream: seq<word>, len: nat, lastTms: bool)
      requires Valid() && changes == [] && Holds(outstream, len)
      modifies this, buf
      ensures Valid() && changes == [] && wire == old(wire) + StreamClocks(outstream, len, lastTms)
    {
      WholeStream(outstream, len, lastTms);
      ReadWriteStream(Some(outstream), null, len, lastTms);
    }

    // cable_xpcusb_cpld_write_bit. There is no TRST pin.
    method WriteBit(packet: Packet)
      requires Valid() && changes == []
      modifies this, buf
      ensures Valid() && changes == [] && wire == old(wire) + [Clock(packet.tms, packet.tdo)]
    {
      OneBitStream(packet);
      WriteStream([if packet.tdo then 1 else 0], 1, packet.tms);
    }

    // cable_xpcusb_cpld_readwrite_bit
    method ReadWriteBit(packet: Packet) returns (bitIn: byte)
      requires Valid() && changes == []
      modifies this, buf
      ensures Valid() && changes == [] && wire == old(wire) + [Clock(packet.tms, packet.tdo)]
      ensures bitIn == if tdo(|old(wire)|) then 1 else 0
    {
      var out: seq<word>, into := [if packet.tdo then 1 else 0], new word[1](_ => 0);
      OneBitStream(packet);
      WholeStream(out, 1, packet.tms);
      ReadWriteStream(Some(out), into, 1, packet.tms);
      LevelAt(tdo, |old(wire)|, 1, 0);
      ReceivedAt(into[..], Levels(tdo, |old(wire)|, 1), 1, 0);
      bitIn := into[0] % 2;
    }
  }

  lemma OneBitStream(packet: Packet)
    ensures StreamClocks([if packet.tdo then 1 else 0], 1, packet.tms) == [Clock(packet.tms, packet.tdo)]
  {
  }

  // The samples of the last transfer of a stream of n bits, which started with clock event `base`.
  ghost predicate HoldsLast(words: seq<word>, tdo: nat -> bool, base: nat, n: nat)
    requires n > 0
  {
    HoldsSamples(words, Levels(tdo, base + LastStart(n), n - LastStart(n)), n - LastStart(n))
  }

  lemma TransferIsLast(words: seq<word>, tdo: nat -> bool, base: nat, n: nat, start: nat, count: nat)
    requires n > 0 && start == base + LastStart(n) && count == n - LastStart(n)
    requires HoldsSamples(words, Levels(tdo, start, count), count)
    ensures HoldsLast(words, tdo, base, n)
  {
  }

  // The first i events make up `all` with what was on the wire before; the last transfer is either
  // still pending or just complete.
  ghost predicate Progress(all: seq<Clock>, i: nat, wire: seq<Clock>, pending: seq<Clock>) {
    && |pending| < MAX_TRANSFER_BITS
    && wire + pending == all
    && (i > 0 ==> i - LastStart(i) == if pending == [] then MAX_TRANSFER_BITS else |pending|)
    && i <= |all| && (i == 0 ==> pending == [])
  }

  lemma ProgressOn(w0: seq<Clock>, cs: seq<Clock>, i: nat, wire: seq<Clock>, pending: seq<Clock>, c: Clock,
                   wire': seq<Clock>, pending': seq<Clock>)
    requires |cs| == i && Progress(w0 + cs, i, wire, pending)
    requires pending' == [] || (pending' == pending + [c] && wire' == wire && |pending'| < MAX_TRANSFER_BITS)
    requires pending' == [] ==> |pending| + 1 == MAX_TRANSFER_BITS && wire' == wire + (pending + [c])
    ensures Progress(w0 + (cs + [c]), i + 1, wire', pending')
    ensures pending' == [] ==> |wire| == |w0| + LastStart(i + 1) && i + 1 - LastStart(i + 1) == |pending| + 1
  {
    OneMore(wire, pending, w0, cs, c);
    NextLastStart(i);
    assert |wire| + |pending| == |w0| + i;
  }

  lemma FullOneMore(cs: seq<Clock>, c: Clock)
    ensures Full(cs + [c]) == Full(cs) + [Change(c.tdi, c.tms, true, true)]
  {
    assert (cs + [c])[..|cs|] == cs;
  }

  lemma OneMore<T>(wire: seq<T>, pending: seq<T>, before: seq<T>, s: seq<T>, x: T)
    requires wire + pending == before + s
    ensures wire + (pending + [x]) == before + (s + [x])
  {
    assert wire + (pending + [x]) == wire + pending + [x];
  }
}

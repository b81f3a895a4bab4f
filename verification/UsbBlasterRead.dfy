// cable_usbblaster.cpp, cable_usbblaster_read_stream: whole bytes come back in USB receptions of any size.
module UsbBlasterRead {
  import opened Bits
  import opened Clocks
  import opened Samples
  import opened UsbBlaster

  const USBBLASTER_MAX_READ: nat := 62

  // ----- The replies -----

  // What a byte-shift packet with the read flag brings back, when its clock events start with number `base`.
  function SampledByte(tdo: nat -> bool, base: nat): byte {
    PowersOfTwo();
    FromBits(Levels(tdo, base, 8))
  }

  function SampledBytes(tdo: nat -> bool, base: nat, n: nat): (bytes: seq<byte>)
    ensures |bytes| == n
  {
    if n == 0 then [] else SampledBytes(tdo, base, n - 1) + [SampledByte(tdo, base + 8 * (n - 1))]
  }

  lemma {:induction false} SampledBit(tdo: nat -> bool, base: nat, n: nat, k: nat)
    requires k < 8 * n
    ensures BufBit(SampledBytes(tdo, base, n), k) == tdo(base + k)
  {
    if k < 8 * (n - 1) {
      SampledBit(tdo, base, n - 1, k);
    } else {
      FromBitsBit(Levels(tdo, base + 8 * (n - 1), 8), k % 8);
      LevelAt(tdo, base + 8 * (n - 1), 8, k % 8);
    }
  }

  lemma {:induction false} SampledJoin(tdo: nat -> bool, base: nat, m: nat, n: nat)
    ensures SampledBytes(tdo, base, m) + SampledBytes(tdo, base + 8 * m, n) == SampledBytes(tdo, base, m + n)
  {
    hide SampledByte;
    if n > 0 {
      SampledJoin(tdo, base, m, n - 1);
    }
  }

  // ----- Putting them together -----

  // words[q / 4] |= b << ( 8 * place )
  function PutByte(words: seq<word>, q: nat, place: nat, b: byte): (after: seq<word>)
    requires q / 4 < |words|
    ensures |after| == |words|
  {
    PowersOfTwo();
    words[q / 4 := OrWord(words[q / 4], Low(Shl(b, 8 * place), 32))]
  }

  lemma PutByteBit(words: seq<word>, q: nat, place: nat, b: byte, k: nat)
    requires q / 4 < |words| && place < 4 && k < 32 * |words|
    ensures StreamBit(PutByte(words, q, place, b), k)
         == (StreamBit(words, k)
            || (k / 32 == q / 4 && 8 * place <= k % 32 < 8 * place + 8 && Bit(b, k % 32 - 8 * place)))
  {
    hide Bit, Shl, Low, Pow2, Or;
    if k / 32 == q / 4 {
      PowersOfTwo();
      OrBit(words[q / 4], Low(Shl(b, 8 * place), 32), k % 32);
      LowBit(Shl(b, 8 * place), 32, k % 32);
      ShlBit(b, 8 * place, k % 32);
      if k % 32 >= 8 * place + 8 {
        HighBit(b, 8, k % 32 - 8 * place);
      }
    }
  }

  // One reception behind `total` bytes. The words are counted from the first byte of all, but the bytes
  // of a word from the first byte of the reception.
  function Gathered(words: seq<word>, total: nat, bytes: seq<byte>): (after: seq<word>)
    requires total + |bytes| <= 4 * |words|
    ensures |after| == |words|
  {
    if bytes == [] then words
    else
      var i := |bytes| - 1;
      PutByte(Gathered(words, total, bytes[..i]), total + i, i % 4, bytes[i])
  }

  function Joined(receptions: seq<seq<byte>>): seq<byte> {
    if receptions == [] then []
    else Joined(receptions[..|receptions| - 1]) + receptions[|receptions| - 1]
  }

  function AllGathered(words: seq<word>, receptions: seq<seq<byte>>): (after: seq<word>)
    requires |Joined(receptions)| <= 4 * |words|
    ensures |after| == |words|
  {
    if receptions == [] then words
    else
      var front := receptions[..|receptions| - 1];
      Gathered(AllGathered(words, front), |Joined(front)|, receptions[|receptions| - 1])
  }

  lemma OneMoreReception(words: seq<word>, receptions: seq<seq<byte>>, bytes: seq<byte>)
    requires |Joined(receptions)| + |bytes| <= 4 * |words|
    ensures Joined(receptions + [bytes]) == Joined(receptions) + bytes
    ensures AllGathered(words, receptions + [bytes])
         == Gathered(AllGathered(words, receptions), |Joined(receptions)|, bytes)
    ensures InStep(receptions + [bytes]) <==> InStep(receptions) && (bytes == [] || |Joined(receptions)| % 4 == 0)
  {
    assert (receptions + [bytes])[..|receptions|] == receptions;
  }

  // Every reception that brings anything starts with the first byte of a word.
  predicate InStep(receptions: seq<seq<byte>>) {
    receptions == [] ||
    (InStep(receptions[..|receptions| - 1]) &&
     (receptions[|receptions| - 1] == [] || |Joined(receptions[..|receptions| - 1])| % 4 == 0))
  }

  // The words with the given bytes, one behind the other, added to what was there.
  ghost predicate InOrder(words: seq<word>, bytes: seq<byte>, after: seq<word>) {
    && |after| == |words|
    && forall k :: 0 <= k < 32 * |words| ==>
       StreamBit(after, k) == (StreamBit(words, k) || (k < 8 * |bytes| && BufBit(bytes, k)))
  }

  lemma {:induction false} GatheredBit(words: seq<word>, total: nat, bytes: seq<byte>, k: nat)
    requires total % 4 == 0 && total + |bytes| <= 4 * |words| && k < 32 * |words|
    ensures StreamBit(Gathered(words, total, bytes), k)
         == (StreamBit(words, k) || (8 * total <= k < 8 * (total + |bytes|) && BufBit(bytes, k - 8 * total)))
  {
    hide PutByte, StreamBit, Bit;
    if bytes != [] {
      var i := |bytes| - 1;
      GatheredBit(words, total, bytes[..i], k);
      PutByteBit(Gathered(words, total, bytes[..i]), total + i, i % 4, bytes[i], k);
      BytePlace(total, i, k);
    }
  }

  lemma BytePlace(total: nat, i: nat, k: nat)
    requires total % 4 == 0
    ensures k / 32 == (total + i) / 4 && 8 * (i % 4) <= k % 32 < 8 * (i % 4) + 8
       <==> 8 * (total + i) <= k < 8 * (total + i) + 8
    ensures 8 * (total + i) <= k < 8 * (total + i) + 8 ==>
              k % 32 - 8 * (i % 4) == k - 8 * (total + i) == (k - 8 * total) % 8 && (k - 8 * total) / 8 == i
  {
  }

  lemma {:induction false} InStepIsInOrder(words: seq<word>, receptions: seq<seq<byte>>)
    requires |Joined(receptions)| <= 4 * |words| && InStep(receptions)
    ensures InOrder(words, Joined(receptions), AllGathered(words, receptions))
  {
    hide StreamBit, BufBit;
    if receptions != [] {
      var front, last := receptions[..|receptions| - 1], receptions[|receptions| - 1];
      InStepIsInOrder(words, front);
      assert last == [] ==> Joined(receptions) == Joined(front);
      if last != [] {
        var total := |Joined(front)|;
        forall k | 0 <= k < 32 * |words|
          ensures StreamBit(AllGathered(words, receptions), k)
               == (StreamBit(words, k) || (k < 8 * |Joined(receptions)| && BufBit(Joined(receptions), k)))
        {
          GatheredBit(AllGathered(words, front), total, last, k);
          JoinedBit(Joined(front), last, k);
        }
      }
    }
  }

  lemma JoinedBit(a: seq<byte>, b: seq<byte>, k: nat)
    ensures k < 8 * |a + b| ==> BufBit(a + b, k) == if k < 8 * |a| then BufBit(a, k) else BufBit(b, k - 8 * |a|)
  {
  }

  // ----- When the order is lost -----

  predicate SameSizes(a: seq<seq<byte>>, b: seq<seq<byte>>) {
    |a| == |b| && forall i :: 0 <= i < |a| ==> |a[i]| == |b[i]|
  }

  lemma {:induction false} SameTotal(a: seq<seq<byte>>, b: seq<seq<byte>>)
    requires SameSizes(a, b)
    ensures |Joined(a)| == |Joined(b)| && (InStep(a) <==> InStep(b))
  {
    if a != [] {
      SameTotal(a[..|a| - 1], b[..|b| - 1]);
    }
  }

  function Zeros(n: nat): (words: seq<word>)
    ensures |words| == n
  {
    seq<word>(n, _ => 0)
  }

  function ZeroBytes(n: nat): (bytes: seq<byte>)
    ensures |bytes| == n
  {
    seq<byte>(n, _ => 0)
  }

  // Receptions of the same sizes that bring nothing but zeros.
  function Blank(receptions: seq<seq<byte>>): (r: seq<seq<byte>>)
    ensures SameSizes(r, receptions)
  {
    if receptions == [] then []
    else Blank(receptions[..|receptions| - 1]) + [ZeroBytes(|receptions[|receptions| - 1]|)]
  }

  lemma {:induction false} ZerosAddNothing(words: seq<word>, total: nat, bytes: seq<byte>, n: nat, k: nat)
    requires n <= |bytes| && total + |bytes| <= 4 * |words| && k < 32 * |words|
    requires forall i :: n <= i < |bytes| ==> bytes[i] == 0
    ensures StreamBit(Gathered(words, total, bytes), k) == StreamBit(Gathered(words, total, bytes[..n]), k)
    decreases |bytes|
  {
    hide PutByte, StreamBit, Bit;
    if n == |bytes| {
      assert bytes[..n] == bytes;
    } else {
      var i := |bytes| - 1;
      ZerosAddNothing(words, total, bytes[..i], n, k);
      assert bytes[..i][..n] == bytes[..n];
      PutByteBit(Gathered(words, total, bytes[..i]), total + i, i % 4, bytes[i], k);
      ZeroBit(k % 32 - if k % 32 >= 8 * (i % 4) then 8 * (i % 4) else 0);
    }
  }

  lemma {:induction false} BlankIsZero(receptions: seq<seq<byte>>, n: nat, k: nat)
    requires |Joined(receptions)| <= 4 * n && k < 32 * n
    ensures |Joined(Blank(receptions))| == |Joined(receptions)|
    ensures !StreamBit(AllGathered(Zeros(n), Blank(receptions)), k)
    ensures k < 8 * |Joined(receptions)| ==> !BufBit(Joined(Blank(receptions)), k)
  {
    var blank := Blank(receptions);
    SameTotal(blank, receptions);
    CleanBit(Zeros(n), k);
    hide Gathered, StreamBit, Bit;
    if receptions != [] {
      var front := receptions[..|receptions| - 1];
      assert blank[..|blank| - 1] == Blank(front);
      SameTotal(Blank(front), front);
      BlankIsZero(front, n, k);
      var zeros := blank[|blank| - 1];
      NothingAdded(AllGathered(Zeros(n), Blank(front)), |Joined(front)|, zeros, k);
      JoinedBit(Joined(Blank(front)), zeros, k);
      ZeroBit(k % 8);
    }
  }

  lemma NothingAdded(words: seq<word>, total: nat, zeros: seq<byte>, k: nat)
    requires total + |zeros| <= 4 * |words| && k < 32 * |words|
    requires forall i :: 0 <= i < |zeros| ==> zeros[i] == 0
    ensures StreamBit(Gathered(words, total, zeros), k) == StreamBit(words, k)
  {
    ZerosAddNothing(words, total, zeros, 0, k);
  }

  // A one at the start of a reception that is not in step comes out too early.
  lemma OneTooEarly(words: seq<word>, total: nat, bytes: seq<byte>, k: nat)
    requires total + |bytes| <= 4 * |words| && bytes != [] && bytes[0] == 1
    requires forall i :: 1 <= i < |bytes| ==> bytes[i] == 0
    requires k / 32 == total / 4 && k % 32 == 0
    ensures StreamBit(Gathered(words, total, bytes), k)
  {
    hide PutByte, StreamBit;
    ZerosAddNothing(words, total, bytes, 1, k);
    assert bytes[..1] == [1] && bytes[..1][..0] == [];
    assert Gathered(words, total, bytes[..1]) == PutByte(words, total, 0, 1);
    PutByteBit(words, total, 0, 1, k);
  }

  lemma {:induction false} OutOfStep(receptions: seq<seq<byte>>, n: nat) returns (other: seq<seq<byte>>, k: nat)
    requires |Joined(receptions)| <= 4 * n && !InStep(receptions)
    ensures SameSizes(other, receptions) && |Joined(other)| == |Joined(receptions)| && k < 8 * |Joined(receptions)|
    ensures StreamBit(AllGathered(Zeros(n), other), k) && !BufBit(Joined(other), k)
  {
    hide Gathered, StreamBit, BufBit;
    var front, last := receptions[..|receptions| - 1], receptions[|receptions| - 1];
    var total := |Joined(front)|;
    var bytes := ZeroBytes(|last|);
    if InStep(front) {
      bytes := bytes[0 := 1];
      other, k := Blank(front), 32 * (total / 4);
      SameTotal(other, front);
      OneTooEarly(AllGathered(Zeros(n), other), total, bytes, k);
      BlankIsZero(front, n, k);
    } else {
      other, k := OutOfStep(front, n);
      NothingAdded(AllGathered(Zeros(n), other), total, bytes, k);
    }
    JoinedBit(Joined(other), bytes, k);
    OneMoreReception(Zeros(n), other, bytes);
    other := other + [bytes];
  }

  // Whatever the bytes are, they end up in order exactly if each reception starts with a word.
  lemma ReceptionsAreRight(receptions: seq<seq<byte>>, n: nat)
    requires |Joined(receptions)| <= 4 * n
    ensures (forall other :: SameSizes(other, receptions) ==>
               |Joined(other)| <= 4 * n
                   && InOrder(Zeros(n), Joined(other), AllGathered(Zeros(n), other))) <==> InStep(receptions)
  {
    if InStep(receptions) {
      forall other | SameSizes(other, receptions)
        ensures |Joined(other)| <= 4 * n && InOrder(Zeros(n), Joined(other), AllGathered(Zeros(n), other))
      {
        SameTotal(other, receptions);
        InStepIsInOrder(Zeros(n), other);
      }
    } else {
      var other, k := OutOfStep(receptions, n);
      ZeroBit(k % 32);
      assert !InOrder(Zeros(n), Joined(other), AllGathered(Zeros(n), other));
    }
  }

  // ----- The driver -----

  const MAX_RETRIES: nat := 15

  method AddByte(instream: array<word>, q: nat, place: nat, b: byte)
    requires q / 4 < instream.Length
    modifies instream
    ensures instream[..] == PutByte(old(instream[..]), q, place, b)
  {
    hide OrWord, Low, Shl;
    assert instream[..][q / 4] == instream[q / 4];
    PowersOfTwo();
    instream[q / 4] := OrWord(instream[q / 4], Low(Shl(b, 8 * place), 32));
  }

  // Adds a reception to the words received.
  method Gather(instream: array<word>, total: nat, bytes: seq<byte>)
    requires total + |bytes| <= 4 * instream.Length
    modifies instream
    ensures instream[..] == Gathered(old(instream[..]), total, bytes)
  {
    hide PutByte;
    assert bytes[..0] == [];
    for i := 0 to |bytes|
      invariant instream[..] == Gathered(old(instream[..]), total, bytes[..i])
    {
      assert bytes[..i + 1][..i] == bytes[..i];
      AddByte(instream, total + i, i % 4, bytes[i]);
    }
    assert bytes[..|bytes|] == bytes;
  }

  // The reply to one packet. The n-th attempt to read brings at most arrivals(n) bytes, and after 15
  // attempts in a row that bring none the rest is given up.
  method ReceiveReply(reply: seq<byte>, instream: array<word>, total: nat, arrivals: nat -> nat, attempts: nat,
                      ghost words: seq<word>, ghost before: seq<seq<byte>>)
    returns (total': nat, attempts': nat, ghost receptions: seq<seq<byte>>, ghost complete: bool)
    requires total + |reply| <= 4 * |words| && total == |Joined(before)| && instream[..] == AllGathered(words, before)
    modifies instream
    ensures total' == |Joined(receptions)| <= total + |reply| && instream[..] == AllGathered(words, receptions)
    ensures complete ==> Joined(receptions) == Joined(before) + reply
    ensures InStep(receptions) ==> InStep(before) && (complete && reply != [] ==> total % 4 == 0)
    ensures arrivals(attempts) >= |reply| && total % 4 == 0 && InStep(before) ==> complete && InStep(receptions)
  {
    hide Joined, InStep, AllGathered, Gathered;
    total', attempts', receptions := total, attempts, before;
    var received, retries := 0, 0;
    assert Joined(before) + reply[..0] == Joined(before);
    while received < |reply| && retries < MAX_RETRIES
      invariant received <= |reply| && total' == |Joined(receptions)| == total + received
      invariant instream[..] == AllGathered(words, receptions)
      invariant Joined(receptions) == Joined(before) + reply[..received]
      invariant InStep(receptions) ==> InStep(before) && (received > 0 ==> total % 4 == 0)
      invariant arrivals(attempts) >= |reply| && total % 4 == 0 && InStep(before) ==>
                  InStep(receptions) && (received == |reply| || (received == retries == 0 && attempts' == attempts))
      decreases |reply| - received, MAX_RETRIES - retries
    {
      var count := if arrivals(attempts') < |reply| - received then arrivals(attempts') else |reply| - received;
      var bytes := reply[received..received + count];
      OneMoreReception(words, receptions, bytes);
      Gather(instream, total', bytes);
      Extends(Joined(before), reply, received, received + count);
      receptions := receptions + [bytes];
      attempts', received, total' := attempts' + 1, received + count, total' + count;
      retries := if count > 0 then 0 else retries + 1;
    }
    complete := received == |reply|;
    assert reply[..|reply|] == reply;
  }

  // Sends bytes of the stream, and receives the reply.
  method ReadPacket(d: Driver, outstream: seq<word>, instream: array<word>, from: nat, to: nat, total: nat,
                    arrivals: nat -> nat, attempts: nat, ghost words: seq<word>, ghost before: seq<seq<byte>>)
    returns (total': nat, attempts': nat, ghost receptions: seq<seq<byte>>, ghost complete: bool)
    requires d.Valid() && !d.clockIsHigh && from <= to <= from + USBBLASTER_MAX_READ && Holds(outstream, 8 * to)
    requires total + (to - from) <= 4 * |words| && total == |Joined(before)|
    requires instream[..] == AllGathered(words, before)
    modifies d`pod, d.scratchpad, instream
    ensures d.Valid() && d.pod.wire == old(d.pod.wire) + ByteClocks(StreamBytes(outstream, from, to), false)
    ensures total' == |Joined(receptions)| <= total + (to - from) && instream[..] == AllGathered(words, receptions)
    ensures complete ==> Joined(receptions) == Joined(before) + SampledBytes(d.tdo, |old(d.pod.wire)|, to - from)
    ensures InStep(receptions) ==> InStep(before) && (complete && from < to ==> total % 4 == 0)
    ensures arrivals(attempts) >= to - from && total % 4 == 0 && InStep(before) ==> complete && InStep(receptions)
  {
    hide StreamBytes, ByteClocks, Joined, AllGathered, InStep, SampledBytes;
    var reply := SampledBytes(d.tdo, |d.pod.wire|, to - from);
    d.SendPacket(outstream, from, to, true);
    total', attempts', receptions, complete := ReceiveReply(reply, instream, total, arrivals, attempts, words, before);
  }

  // The receptions after `sent` bytes have been sent.
  ghost predicate SoFar(tdo: nat -> bool, base: nat, sent: nat, receptions: seq<seq<byte>>, complete: bool) {
    && |Joined(receptions)| <= sent
    && (complete ==> Joined(receptions) == SampledBytes(tdo, base, sent))
    && (complete && InStep(receptions) ==> sent <= USBBLASTER_MAX_READ)
  }

  lemma OneMorePacket(tdo: nat -> bool, base: nat, sent: nat, n: nat, before: seq<seq<byte>>, all: bool,
                      receptions: seq<seq<byte>>, complete: bool)
    requires SoFar(tdo, base, sent, before, all) && (sent == 0 || sent >= USBBLASTER_MAX_READ)
    requires 0 < n <= USBBLASTER_MAX_READ
    requires |Joined(receptions)| <= |Joined(before)| + n
    requires complete ==> Joined(receptions) == Joined(before) + SampledBytes(tdo, base + 8 * sent, n)
    requires InStep(receptions) ==> InStep(before) && (complete ==> |Joined(before)| % 4 == 0)
    ensures SoFar(tdo, base, sent + n, receptions, all && complete)
  {
    SampledJoin(tdo, base, sent, n);
  }

  // The wire and the words when `sent` bytes have been sent, of which `total` have been received.
  ghost predicate Reading(d: Driver, wire: seq<Clock>, cs: seq<Clock>, instream: array<word>, words: seq<word>,
                          sent: nat, total: nat, receptions: seq<seq<byte>>, complete: bool)
    reads d, instream
  {
    && d.Valid() && !d.clockIsHigh && 8 * sent <= |cs| && d.pod.wire == wire + cs[..8 * sent]
    && total == |Joined(receptions)| <= sent <= 4 * |words| && instream[..] == AllGathered(words, receptions)
    && SoFar(d.tdo, |wire|, sent, receptions, complete)
  }

  lemma NothingRead(d: Driver, cs: seq<Clock>, instream: array<word>)
    requires d.Valid() && !d.clockIsHigh
    ensures Reading(d, d.pod.wire, cs, instream, instream[..], 0, 0, [], true) && InStep([])
  {
    assert d.pod.wire + cs[..0] == d.pod.wire;
  }

  lemma ReadTotal(d: Driver, wire: seq<Clock>, cs: seq<Clock>, instream: array<word>, words: seq<word>,
                  sent: nat, total: nat, receptions: seq<seq<byte>>, complete: bool)
    requires Reading(d, wire, cs, instream, words, sent, total, receptions, complete)
    ensures total == |Joined(receptions)|
  {
  }

  // One pass of the packet loop.
  method NextPacket(d: Driver, outstream: seq<word>, instream: array<word>, sent: nat, n: nat, total: nat,
                    arrivals: nat -> nat, attempts: nat, ghost len: nat, ghost lastTms: bool,
                    ghost wire: seq<Clock>, ghost words: seq<word>, ghost before: seq<seq<byte>>, ghost all: bool)
    returns (total': nat, attempts': nat, ghost receptions: seq<seq<byte>>, ghost complete: bool)
    requires Holds(outstream, len) && 8 * (sent + n) <= len && (8 * (sent + n) == len ==> !lastTms)
    requires 0 < n <= USBBLASTER_MAX_READ && sent + n <= 4 * |words| && (sent == 0 || sent >= USBBLASTER_MAX_READ)
    requires Reading(d, wire, StreamClocks(outstream, len, lastTms), instream, words, sent, total, before, all)
    modifies d`pod, d.scratchpad, instream
    ensures Reading(d, wire, StreamClocks(outstream, len, lastTms), instream, words, sent + n, total', receptions,
             complete)
    ensures arrivals(attempts) >= n && total % 4 == 0 && InStep(before) && all ==> complete && InStep(receptions)
  {
    hide InStep, Joined, AllGathered, SampledBytes, StreamBytes, ByteClocks, SoFar, StreamClocks;
    ghost var cs := StreamClocks(outstream, len, lastTms);
    ByteRun(outstream, sent, sent + n, len, lastTms);
    total', attempts', receptions, complete :=
      ReadPacket(d, outstream, instream, sent, sent + n, total, arrivals, attempts, words, before);
    Extends(wire, cs, 8 * sent, 8 * (sent + n));
    OneMorePacket(d.tdo, |wire|, sent, n, before, all, receptions, complete);
    complete := all && complete;
  }

  // All whole bytes of the stream.
  method ReadPackets(d: Driver, outstream: seq<word>, instream: array<word>, count: nat, arrivals: nat -> nat,
                   ghost len: nat, ghost lastTms: bool)
    returns (ghost receptions: seq<seq<byte>>, ghost complete: bool)
    requires d.Valid() && !d.clockIsHigh && Holds(outstream, len) && count <= 4 * instream.Length
    requires 8 * count <= len && (8 * count == len ==> !lastTms)
    modifies d`pod, d.scratchpad, instream
    ensures var cs, words := StreamClocks(outstream, len, lastTms), old(instream[..]);
            Reading(d, old(d.pod.wire), cs, instream, words, count, |Joined(receptions)|, receptions, complete)
    ensures count <= USBBLASTER_MAX_READ && arrivals(0) >= count ==> complete && InStep(receptions)
  {
    hide Reading, SoFar, Joined, InStep, AllGathered, StreamClocks, SampledBytes, StreamBytes, ByteClocks;
    var sent, total, attempts := 0, 0, 0;
    receptions, complete := [], true;
    ghost var cs, words, wire := StreamClocks(outstream, len, lastTms), instream[..], d.pod.wire;
    NothingRead(d, cs, instream);
    while sent < count
      invariant sent <= count && Reading(d, wire, cs, instream, words, sent, total, receptions, complete)
      invariant sent == 0 || sent == count || sent >= USBBLASTER_MAX_READ
      invariant count <= USBBLASTER_MAX_READ && arrivals(0) >= count ==>
                  complete && InStep(receptions) && (sent == 0 ==> attempts == total == 0)
    {
      var n := if count - sent > USBBLASTER_MAX_READ then USBBLASTER_MAX_READ else count - sent;
      total, attempts, receptions, complete :=
        NextPacket(d, outstream, instream, sent, n, total, arrivals, attempts, len, lastTms, wire, words, receptions,
                    complete);
      sent := sent + n;
    }
    ReadTotal(d, wire, cs, instream, words, sent, total, receptions, complete);
  }

  method Clear(instream: array<word>, n: nat)
    requires n <= instream.Length
    modifies instream
    ensures instream[..] == Zeros(n) + old(instream[n..])
  {
    for i := 0 to n
      invariant instream[..] == Zeros(i) + old(instream[i..])
    {
      instream[i] := 0;
    }
  }

  // How many bytes of a stream are sent as such. TMS needs the last bit to be sent alone.
  function WholeBytes(len: nat, lastTms: bool): nat
    requires len > 0
  {
    if len % 8 == 0 && lastTms then len / 8 - 1 else len / 8
  }

  // The words received: whole bytes, and then the leftover bits, if any.
  function Assembled(words: seq<word>, receptions: seq<seq<byte>>, len: nat, count: nat, leftover: byte): seq<word>
    requires |Joined(receptions)| <= 4 * |words| && 8 * count <= len <= 32 * |words|
  {
    if len == 8 * count then AllGathered(words, receptions)
    else PutByte(AllGathered(words, receptions), count, count % 4, leftover)
  }

  ghost predicate LeftoverIs(leftover: byte, tdo: nat -> bool, base: nat, n: nat) {
    forall i :: 0 <= i < 8 ==> Bit(leftover, i) == (i < n && tdo(base + i))
  }

  // The 8-bit index of the loop that clears the words reaches the number of full words exactly for
  // streams of less than 8192 bits.
  ghost predicate ClearingEnds(len: nat) {
    exists turns: nat :: turns % 0x100 >= len / 32
  }

  lemma ClearingEndsIff(len: nat)
    ensures ClearingEnds(len) <==> len < 8192
  {
    if len < 8192 {
      assert (len / 32) % 0x100 >= len / 32;
    }
  }

  // cable_usbblaster_read_stream. With 8192 bits or more and something to clear, it never ends. Otherwise
  // the wire sees the reference sequence whatever comes back, and what is received is right if no bytes
  // have been given up and every reception started with a word. With more than 62 whole bytes, the
  // second packet makes that impossible.
  method ReadStream(d: Driver, outstream: seq<word>, instream: array<word>, len: nat, lastTms: bool,
                    arrivals: nat -> nat)
    returns (hangs: bool, ghost receptions: seq<seq<byte>>, ghost complete: bool, ghost leftover: byte)
    requires d.Valid() && 0 < len && Holds(outstream, len) && len <= 32 * instream.Length
    modifies d`pod, d`clockIsHigh, d.scratchpad, instream
    ensures d.Valid() && hangs == !ClearingEnds(len)
    ensures d.pod.wire == old(d.pod.wire) + if hangs then [] else StreamClocks(outstream, len, lastTms)
    ensures !hangs && complete && InStep(receptions) ==>
              HoldsSamples(instream[..], Levels(d.tdo, |old(d.pod.wire)|, len), len)
    ensures !hangs ==> SoFar(d.tdo, |old(d.pod.wire)|, WholeBytes(len, lastTms), receptions, complete)
    ensures WholeBytes(len, lastTms) <= USBBLASTER_MAX_READ && arrivals(0) >= WholeBytes(len, lastTms) ==>
              complete && InStep(receptions)
    ensures !hangs && WholeBytes(len, lastTms) > 0 ==>
              var count, words := WholeBytes(len, lastTms), Zeros((len + 31) / 32) + old(instream[(len + 31) / 32..]);
              && |Joined(receptions)| <= 4 * |words|
              && instream[..] == Assembled(words, receptions, len, count, leftover)
              && LeftoverIs(leftover, d.tdo, |old(d.pod.wire)| + 8 * count, len - 8 * count)
  {
    hide StreamClocks, AllGathered, SampledBytes, PutByte, Levels, HoldsSamples;
    var bytesToTransfer := WholeBytes(len, lastTms);
    hangs, receptions, complete, leftover := false, [], true, 0;
    assert SoFar(d.tdo, |d.pod.wire|, 0, [], true) && InStep([]);
    hide SoFar, InStep, ClearingEnds;
    ClearingEndsIff(len);
    if bytesToTransfer == 0 {
      BitBangIsStream(outstream, len, lastTms);
      d.BitBangReadStream(outstream, instream, len, lastTms, false);
      return;
    }
    if d.clockIsHigh {
      d.Out(Pins(false, false, false), false);
    }
    if len / 32 > 0xff {
      return true, receptions, complete, leftover;
    }
    Clear(instream, (len + 31) / 32);
    ghost var words, rest := instream[..], old(instream[(len + 31) / 32..]);
    receptions, complete := ReadPackets(d, outstream, instream, bytesToTransfer, arrivals, len, lastTms);
    d.clockIsHigh := false;
    leftover := ReadRest(d, outstream, instream, len, lastTms, bytesToTransfer, old(d.pod.wire), words, rest,
                receptions, complete);
  }

  // The leftover bits, and all there is then.
  method ReadRest(d: Driver, outstream: seq<word>, instream: array<word>, len: nat, lastTms: bool, bytesToTransfer: nat,
                  ghost wire: seq<Clock>, ghost words: seq<word>, ghost rest: seq<word>,
                  ghost receptions: seq<seq<byte>>, ghost complete: bool)
    returns (leftover: byte)
    requires 0 < len <= 32 * instream.Length && Holds(outstream, len) && bytesToTransfer == WholeBytes(len, lastTms)
    requires words == Zeros((len + 31) / 32) + rest
    requires Reading(d, wire, StreamClocks(outstream, len, lastTms), instream, words, bytesToTransfer,
             |Joined(receptions)|,
                     receptions, complete)
    modifies d`pod, d`clockIsHigh, instream
    ensures d.Valid() && d.pod.wire == wire + StreamClocks(outstream, len, lastTms)
    ensures complete && InStep(receptions) ==> HoldsSamples(instream[..], Levels(d.tdo, |wire|, len), len)
    ensures instream[..] == Assembled(words, receptions, len, bytesToTransfer, leftover)
    ensures LeftoverIs(leftover, d.tdo, |wire| + 8 * bytesToTransfer, len - 8 * bytesToTransfer)
  {
    hide StreamClocks, InStep, AllGathered, SampledBytes, PutByte, Levels, HoldsSamples;
    var leftoverBits := len - 8 * bytesToTransfer;
    SplitAtByte(wire, outstream, len, bytesToTransfer, leftoverBits, lastTms);
    leftover := 0;
    if leftoverBits != 0 {
      leftover := ReadLeftover(d, StreamByte(outstream, bytesToTransfer), leftoverBits, lastTms);
      AddByte(instream, bytesToTransfer, bytesToTransfer % 4, leftover);
    } else {
      NoBits();
    }
    if complete && InStep(receptions) {
      Together(words, rest, receptions, d.tdo, |wire|, len, bytesToTransfer, leftoverBits, leftover, instream[..]);
    }
  }

  lemma NoBits()
    ensures forall i: nat :: !Bit(0, i)
  {
    forall i: nat ensures !Bit(0, i) {
      ZeroBit(i);
    }
  }

  // The bits behind the whole bytes, from a word of their own.
  method ReadLeftover(d: Driver, bits: byte, n: nat, lastTms: bool) returns (leftover: byte)
    requires d.Valid() && 0 < n <= 8
    modifies d`pod, d`clockIsHigh
    ensures d.Valid() && d.pod.wire == old(d.pod.wire) + StreamClocks([bits], n, lastTms)
    ensures LeftoverIs(leftover, d.tdo, |old(d.pod.wire)|, n)
  {
    hide StreamClocks, BitBangClocks, Levels, HoldsSamples, Low;
    var leftovers := new word[1](_ => 0);
    ghost var samples := Levels(d.tdo, |d.pod.wire|, n);
    BitBangIsStream([bits], n, lastTms);
    d.BitBangReadStream([bits], leftovers, n, lastTms, false);
    PowersOfTwo();
    leftover := Low(leftovers[0], 8);
    LeftoverBits(leftovers[..], d.tdo, |old(d.pod.wire)|, n, leftover);
  }

  lemma LeftoverBits(leftovers: seq<word>, tdo: nat -> bool, base: nat, n: nat, leftover: byte)
    requires |leftovers| == 1 && leftover == Low(leftovers[0], 8) && 0 < n <= 8
    requires HoldsSamples(leftovers, Levels(tdo, base, n), n)
    ensures LeftoverIs(leftover, tdo, base, n)
  {
    hide Levels, Low, HoldUpTo;
    forall i | 0 <= i < 8 ensures Bit(Low(leftovers[0], 8), i) == (i < n && tdo(base + i)) {
      LowBit(leftovers[0], 8, i);
      HeldAt(leftovers, Levels(tdo, base, n), n, 32, i);
      if i < n {
        LevelAt(tdo, base, n, i);
      }
    }
  }

  // The whole bytes and the leftover bits make up the samples.
  lemma Together(words: seq<word>, rest: seq<word>, receptions: seq<seq<byte>>, tdo: nat -> bool, base: nat, len: nat,
                 count: nat, n: nat,
                 leftover: byte, after: seq<word>)
    requires len == 8 * count + n && n <= 8 && len <= 32 * |words| && InStep(receptions)
    requires words == Zeros((len + 31) / 32) + rest
    requires Joined(receptions) == SampledBytes(tdo, base, count)
    requires LeftoverIs(leftover, tdo, base + 8 * count, n)
    requires after == Assembled(words, receptions, len, count, leftover)
    ensures HoldsSamples(after, Levels(tdo, base, len), len)
  {
    hide StreamBit, BufBit, Bit, PutByte, AllGathered, Joined;
    var samples, all := Levels(tdo, base, len), AllGathered(words, receptions);
    InStepIsInOrder(words, receptions);
    forall k | 0 <= k < (len + 31) / 32 * 32 ensures StreamBit(after, k) == (k < len && samples[k]) {
      CleanBit(words, k);
      if k < 8 * count {
        SampledBit(tdo, base, count, k);
      }
      if k < len {
        LevelAt(tdo, base, len, k);
      }
      if n > 0 {
        PutByteBit(all, count, count % 4, leftover, k);
        BytePlace(0, count, k);
      }
    }
    HeldWhen(after, samples, len, (len + 31) / 32 * 32);
  }

  lemma CleanBit(words: seq<word>, k: nat)
    requires k < 32 * |words| && words[k / 32] == 0
    ensures !StreamBit(words, k)
  {
    ZeroBit(k % 32);
  }
}

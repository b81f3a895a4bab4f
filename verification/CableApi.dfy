// cable_api.cpp: the cable in use, with the target at its other end. Whatever the cable is, the target
// takes the same steps, and the same comes back, as ChainCommands.JtagPort says.
module CableApi {
  import opened Bits
  import opened Clocks
  import opened Samples
  import opened Receivers
  import opened Tap
  import opened Target
  import opened ChainCommands
  import opened Wrappers
  import UsbBlaster
  import UsbBlasterRead
  import XpcDlc9
  import Mpsse
  import Ft2232
  import Ft2232Stream
  import Ft2232Read
  import Ft2232Runs

  datatype CableInUse =
    | Blaster(blaster: UsbBlaster.Driver)
    | Xpc(xpc: XpcDlc9.Cable)
    | Ftdi(ftdi: Ft2232.Ftdi)

  // A chip that holds the level of TMS is left out here: Ft2232Runs says when it is right.
  ghost predicate Valid(c: CableInUse)
    reads Frame(c)
  {
    match c
    case Blaster(d) => d.Valid()
    case Xpc(x) => x.Valid() && x.changes == []
    case Ftdi(f) => Ft2232Runs.Quiet(f) && !f.world.holdsTms && !f.Virtual().tms
  }

  function Frame(c: CableInUse): set<object>
    reads if c.Blaster? then {c.blaster} else {}
  {
    match c
    case Blaster(d) => {d, d.scratchpad}
    case Xpc(x) => {x, x.buf}
    case Ftdi(f) => {f}
  }

  // Only this cable keeps what was there before.
  predicate Clears(c: CableInUse) {
    !c.Ftdi?
  }

  ghost function Wire(c: CableInUse): seq<Clock>
    requires Valid(c)
    reads Frame(c)
  {
    match c
    case Blaster(d) => d.pod.wire
    case Xpc(x) => x.wire
    case Ftdi(f) => f.Virtual().wire
  }

  // The level of TDO at the n-th clock event.
  function Level(c: CableInUse): nat -> bool {
    match c
    case Blaster(d) => d.tdo
    case Xpc(x) => x.tdo
    case Ftdi(f) => f.world.tdo
  }

  // The target by now, when it was t at the beginning.
  ghost function Behind(c: CableInUse, t: Target): Target
    requires Valid(c)
    reads Frame(c)
  {
    Run(t, Wire(c))
  }

  // From clock event `base` on, the levels of TDO are those of the target in its shift states.
  ghost predicate Answers(t: Target, tdo: nat -> bool, base: nat, cs: seq<Clock>) {
    forall k :: 0 <= k < |cs| && InShift(Run(t, cs[..k]).tap) ==> tdo(base + k) == Tdo(Run(t, cs[..k]), cs[k])
  }

  // ----- Runs -----

  lemma {:induction false} RunJoin(t: Target, a: seq<Clock>, b: seq<Clock>)
    ensures Run(t, a + b) == Run(Run(t, a), b)
  {
    if b == [] {
      assert a + b == a;
    } else {
      assert (a + b)[..|a + b| - 1] == a + b[..|b| - 1];
      RunJoin(t, a, b[..|b| - 1]);
    }
  }

  lemma {:induction false} RunKeepsHardware(t: Target, cs: seq<Clock>)
    ensures SameHardware(Run(t, cs), t)
  {
    if cs != [] {
      RunKeepsHardware(t, cs[..|cs| - 1]);
      var c := cs[|cs| - 1];
      SendKeepsHardware(Run(t, cs[..|cs| - 1]), Packet(c.tdi, c.tms, false));
      assert c == Clock(c.tms, c.tdi);
    }
  }

  lemma {:induction false} LevelsAreTdos(t: Target, tdo: nat -> bool, base: nat, cs: seq<Clock>)
    requires Answers(t, tdo, base, cs) && forall k :: 0 <= k < |cs| ==> InShift(Run(t, cs[..k]).tap)
    ensures Levels(tdo, base, |cs|) == Tdos(t, cs)
  {
    hide Step, Tdo, InShift;
    if cs != [] {
      var front := cs[..|cs| - 1];
      assert forall k :: 0 <= k < |front| ==> front[..k] == cs[..k];
      LevelsAreTdos(t, tdo, base, front);
    }
  }

  // All of a stream is clocked in the shift state it starts in.
  lemma StreamLevels(t: Target, tdo: nat -> bool, base: nat, stream: seq<word>, len: nat, lastTms: bool)
    requires Holds(stream, len) && InShift(t.tap) && Answers(t, tdo, base, StreamClocks(stream, len, lastTms))
    ensures Levels(tdo, base, len) == Tdos(t, StreamClocks(stream, len, lastTms))
  {
    hide Step, Tdo, Levels;
    var cs := StreamClocks(stream, len, lastTms);
    forall k | 0 <= k < len ensures InShift(Run(t, cs[..k]).tap) {
      StayInShift(t, cs[..k]);
    }
    LevelsAreTdos(t, tdo, base, cs);
  }

  lemma OneClock(t: Target, c: Clock)
    ensures Run(t, [c]) == Step(t, c) && Tdos(t, [c]) == [Tdo(t, c)]
  {
    assert [c][..0] == [];
  }

  // ----- What is received -----

  lemma SameWords(a: seq<word>, b: seq<word>)
    requires |a| == |b| && forall k :: 0 <= k < 32 * |a| ==> StreamBit(a, k) == StreamBit(b, k)
    ensures a == b
  {
    forall i | 0 <= i < |a| ensures a[i] == b[i] {
      PowersOfTwo();
      forall j | 0 <= j < 32 ensures Bit(a[i], j) == Bit(b[i], j) {
        assert StreamBit(a, 32 * i + j) == StreamBit(b, 32 * i + j);
      }
      BitsDetermine(a[i], b[i], 32);
    }
  }

  // Words with the samples, where nothing else shows through.
  lemma ClearedWords(words: seq<word>, samples: seq<bool>, before: seq<word>)
    requires |words| == |before| == (|samples| + 31) / 32 && HoldsSamples(words, samples, |samples|)
    ensures words == ReceivedWords(true, before, samples)
  {
    hide HoldUpTo, ReceivedWords, StreamBit;
    forall k | 0 <= k < 32 * |words| ensures StreamBit(words, k) == StreamBit(ReceivedWords(true, before, samples), k) {
      HeldAt(words, samples, |samples|, 32 * |words|, k);
      ReceivedWordsBit(true, before, samples, k);
    }
    SameWords(words, ReceivedWords(true, before, samples));
  }

  // The words that bytes in memory are.
  function WordsOf(bytes: seq<byte>): (words: seq<word>)
    ensures |words| == |bytes| / 4
  {
    seq<word>(|bytes| / 4, i requires 0 <= i < |bytes| / 4 => LittleEndian(bytes[4 * i..4 * i + 4]))
  }

  lemma WordsOfBit(bytes: seq<byte>, k: nat)
    requires k / 32 < |bytes| / 4
    ensures StreamBit(WordsOf(bytes), k) == BufBit(bytes, k)
  {
    hide LittleEndian, Bit;
    LittleEndianBit(bytes[4 * (k / 32)..4 * (k / 32) + 4], k % 32);
  }

  // The same when the bits received are put over what was there.
  lemma OverwrittenWords(w: Mpsse.World, base: nat, n: nat, before: seq<word>, after: seq<byte>)
    requires |before| == (n + 31) / 32
    requires Ft2232Read.Overwritten(w, base, 0, n, StreamBytes(before, 0, 4 * |before|), after)
    ensures WordsOf(after) == ReceivedWords(false, before, Levels(w.tdo, base, n))
  {
    hide WordsOf, ReceivedWords, StreamBit, BufBit;
    var samples := Levels(w.tdo, base, n);
    var words := ReceivedWords(false, before, samples);
    forall k | 0 <= k < 32 * |before| ensures StreamBit(WordsOf(after), k) == StreamBit(words, k) {
      WordsOfBit(after, k);
      ReceivedWordsBit(false, before, samples, k);
      assert BufBit(after, k)
          == if k < n then w.tdo(base + k) else BufBit(StreamBytes(before, 0, 4 * |before|), k);
      MemoryBit(before, k);
      if k < n {
        LevelAt(w.tdo, base, n, k);
      }
    }
    SameWords(WordsOf(after), words);
  }

  lemma MemoryBit(words: seq<word>, k: nat)
    requires k < 32 * |words|
    ensures BufBit(StreamBytes(words, 0, 4 * |words|), k) == StreamBit(words, k)
  {
    StreamByteBit(words, k / 8, k % 8);
  }

  lemma OverwrittenByte(w: Mpsse.World, base: nat, before: byte, after: seq<byte>)
    requires Ft2232Read.Overwritten(w, base, 0, 1, [before], after)
    ensures after[0] == ReceivedByte(false, before, w.tdo(base))
  {
    var r := ReceivedByte(false, before, w.tdo(base));
    PowersOfTwo();
    forall j | 0 <= j < 8 ensures Bit(after[0], j) == Bit(r, j) {
      assert BufBit(after, j) == if j < 1 then w.tdo(base + j) else BufBit([before], j);
      assert r / 2 == before / 2;
    }
    BitsDetermine(after[0], r, 8);
  }

  // ----- The operations of the interface -----

  // cable_write_bit. None of these cables has a TRST pin.
  method WriteBit(c: CableInUse, p: Packet, ghost t: Target)
    requires Valid(c) && !t.trstWired
    modifies Frame(c)
    ensures Valid(c) && Behind(c, t) == SendPacket(old(Behind(c, t)), p)
  {
    ghost var wire := Wire(c);
    match c {
      case Blaster(d) => d.WriteBit(p);
      case Xpc(x) => x.WriteBit(p);
      case Ftdi(f) =>
        Ft2232Runs.Perform(f, Ft2232Runs.WriteBit(p));
    }
    SentBit(t, wire, p);
  }

  lemma SentBit(t: Target, wire: seq<Clock>, p: Packet)
    requires !t.trstWired
    ensures Run(t, wire + [Clock(p.tms, p.tdo)]) == SendPacket(Run(t, wire), p)
  {
    RunJoin(t, wire, [Clock(p.tms, p.tdo)]);
    OneClock(Run(t, wire), Clock(p.tms, p.tdo));
    RunKeepsHardware(t, wire);
  }

  // cable_read_write_bit
  method ReadWriteBit(c: CableInUse, p: Packet, before: byte, ghost t: Target) returns (bitIn: byte)
    requires Valid(c) && !t.trstWired && !p.trst && InShift(Behind(c, t).tap)
    requires Answers(Behind(c, t), Level(c), |Wire(c)|, [Clock(p.tms, p.tdo)])
    modifies Frame(c)
    ensures Valid(c) && Behind(c, t) == SendPacket(old(Behind(c, t)), p)
    ensures bitIn == ReceivedByte(Clears(c), before, Tdo(old(Behind(c, t)), Clock(p.tms, p.tdo)))
  {
    hide Step, SendPacket;
    ghost var wire := Wire(c);
    assert [Clock(p.tms, p.tdo)][..0] == [];
    assert Level(c)(|wire| + 0) == Tdo(Behind(c, t), Clock(p.tms, p.tdo));
    SentBit(t, wire, p);
    match c {
      case Blaster(d) => bitIn := d.ReadWriteBit(p);
      case Xpc(x) => bitIn := x.ReadWriteBit(p);
      case Ftdi(f) =>
        var receiver := new byte[1](_ => before);
        Ft2232Read.FtdiReadWriteBit(f, p, receiver);
        OverwrittenByte(f.world, |wire|, before, receiver[..]);
        bitIn := receiver[0];
    }
  }

  // cable_write_stream
  method WriteStream(c: CableInUse, outData: seq<word>, len: nat, lastTms: bool, ghost t: Target)
    requires Valid(c) && 0 < len && Holds(outData, len)
    modifies Frame(c)
    ensures Valid(c) && Behind(c, t) == Run(old(Behind(c, t)), StreamClocks(outData, len, lastTms))
  {
    RunJoin(t, Wire(c), StreamClocks(outData, len, lastTms));
    match c {
      case Blaster(d) => d.WriteStream(outData, len, lastTms);
      case Xpc(x) => x.WriteStream(outData, len, lastTms);
      case Ftdi(f) =>
        Ft2232Stream.PinClocksAreStreamClocks(outData, len, lastTms, false);
        Ft2232Runs.Perform(f, Ft2232Runs.WriteWords(outData, len, lastTms));
    }
  }

  // Whether what a stream brings in is put together right: UsbBlasterRead and XpcDlc9 say what happens
  // otherwise.
  predicate ReadsRight(c: CableInUse, len: nat, lastTms: bool, arrivals: nat -> nat)
    requires len > 0
  {
    match c
    case Blaster(_) =>
      var count := UsbBlasterRead.WholeBytes(len, lastTms);
      count <= UsbBlasterRead.USBBLASTER_MAX_READ && arrivals(0) >= count
    case Xpc(_) => len <= XpcDlc9.MAX_TRANSFER_BITS
    case Ftdi(_) => true
  }

  // cable_read_write_stream
  method ReadWriteStream(c: CableInUse, outData: seq<word>, before: seq<word>, len: nat, lastTms: bool,
                         arrivals: nat -> nat, ghost t: Target)
    returns (hangs: bool, inData: seq<word>)
    requires Valid(c) && 0 < len && Holds(outData, len) && |before| == (len + 31) / 32 && InShift(Behind(c, t).tap)
    requires Answers(Behind(c, t), Level(c), |Wire(c)|, StreamClocks(outData, len, lastTms))
    modifies Frame(c)
    ensures Valid(c) && hangs == (c.Blaster? && !UsbBlasterRead.ClearingEnds(len))
    ensures !hangs ==> Behind(c, t) == Run(old(Behind(c, t)), StreamClocks(outData, len, lastTms))
    ensures !hangs && ReadsRight(c, len, lastTms, arrivals) ==>
              inData == ReceivedWords(Clears(c), before, Tdos(old(Behind(c, t)), StreamClocks(outData, len, lastTms)))
  {
    ghost var wire := Wire(c);
    RunJoin(t, wire, StreamClocks(outData, len, lastTms));
    StreamLevels(Behind(c, t), Level(c), |wire|, outData, len, lastTms);
    hide ReceivedWords, Levels, Tdos, StreamClocks, UsbBlasterRead.ClearingEnds, UsbBlasterRead.WholeBytes;
    hangs := false;
    match c {
      case Blaster(d) => hangs, inData := ReadFromBlaster(d, outData, before, len, lastTms, arrivals);
      case Xpc(x) => inData := ReadFromXpc(x, outData, before, len, lastTms);
      case Ftdi(f) => inData := ReadFromFtdi(f, outData, before, len, lastTms);
    }
  }

  method Receiver(before: seq<word>) returns (receiver: array<word>)
    ensures fresh(receiver) && receiver[..] == before
  {
    receiver := new word[|before|](i requires 0 <= i < |before| => before[i]);
  }

  method ReadFromBlaster(d: UsbBlaster.Driver, outData: seq<word>, before: seq<word>, len: nat, lastTms: bool,
                         arrivals: nat -> nat)
    returns (hangs: bool, inData: seq<word>)
    requires d.Valid() && 0 < len && Holds(outData, len) && |before| == (len + 31) / 32
    modifies d, d.scratchpad
    ensures d.Valid() && d.scratchpad == old(d.scratchpad) && hangs == !UsbBlasterRead.ClearingEnds(len)
    ensures !hangs ==> d.pod.wire == old(d.pod.wire) + StreamClocks(outData, len, lastTms)
    ensures !hangs && ReadsRight(Blaster(d), len, lastTms, arrivals) ==>
              inData == ReceivedWords(true, before, Levels(d.tdo, |old(d.pod.wire)|, len))
  {
    hide ReceivedWords, Levels, HoldsSamples, StreamClocks, UsbBlasterRead.ClearingEnds, UsbBlasterRead.WholeBytes;
    var receiver := Receiver(before);
    ghost var receptions, complete, leftover;
    hangs, receptions, complete, leftover :=
      UsbBlasterRead.ReadStream(d, outData, receiver, len, lastTms, arrivals);
    inData := receiver[..];
    if !hangs && ReadsRight(Blaster(d), len, lastTms, arrivals) {
      ClearedWords(inData, Levels(d.tdo, |old(d.pod.wire)|, len), before);
    }
  }

  method ReadFromXpc(x: XpcDlc9.Cable, outData: seq<word>, before: seq<word>, len: nat, lastTms: bool)
    returns (inData: seq<word>)
    requires x.Valid() && x.changes == [] && 0 < len && Holds(outData, len) && |before| == (len + 31) / 32
    modifies x, x.buf
    ensures x.Valid() && x.changes == [] && x.wire == old(x.wire) + StreamClocks(outData, len, lastTms)
    ensures len <= XpcDlc9.MAX_TRANSFER_BITS ==>
              inData == ReceivedWords(true, before, Levels(x.tdo, |old(x.wire)|, len))
  {
    hide ReceivedWords, Levels, HoldsSamples, StreamClocks;
    var receiver := Receiver(before);
    XpcDlc9.WholeStream(outData, len, lastTms);
    x.ReadWriteStream(Some(outData), receiver, len, lastTms);
    inData := receiver[..];
    if len <= XpcDlc9.MAX_TRANSFER_BITS {
      ClearedWords(inData, Levels(x.tdo, |old(x.wire)|, len), before);
    }
  }

  method ReadFromFtdi(f: Ft2232.Ftdi, outData: seq<word>, before: seq<word>, len: nat, lastTms: bool)
    returns (inData: seq<word>)
    requires Ft2232Runs.Quiet(f) && !f.world.holdsTms && !f.Virtual().tms
    requires 0 < len && Holds(outData, len) && |before| == (len + 31) / 32
    modifies f
    ensures Ft2232Runs.Quiet(f) && !f.Virtual().tms
    ensures f.Virtual().wire == old(f.Virtual().wire) + StreamClocks(outData, len, lastTms)
    ensures inData == ReceivedWords(false, before, Levels(f.world.tdo, |old(f.Virtual().wire)|, len))
  {
    hide ReceivedWords, Levels, StreamClocks, Ft2232Stream.PinClocks, Ft2232.Ftdi.Valid, Ft2232.Ftdi.Virtual,
         Ft2232Read.Overwritten;
    var bytes := StreamBytes(before, 0, 4 * |before|);
    var receiver := new byte[|bytes|](i requires 0 <= i < |bytes| => bytes[i]);
    assert receiver[..] == bytes;
    Ft2232Stream.PinClocksAreStreamClocks(outData, len, lastTms, false);
    Ft2232Read.FtdiReadStream(f, outData, receiver, len, lastTms);
    inData := WordsOf(receiver[..]);
    OverwrittenWords(f.world, |old(f.Virtual().wire)|, len, before, receiver[..]);
  }
}

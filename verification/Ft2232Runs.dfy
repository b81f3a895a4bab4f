// cable_ft2232.cpp over any number of calls: when the wire sees what was asked for.
module Ft2232Runs {
  import opened Bits
  import opened Clocks
  import opened Ft2232
  import opened Ft2232Stream
  import opened Ft2232Read

  // Calls of the driver's interface. A stream with TMS has at least one bit.
  datatype Call =
    | WriteBit(packet: Packet)
    | ReadWriteBit(packet: Packet)
    | WriteWords(stream: seq<word>, len: nat, lastTms: bool)
    | ReadWords(stream: seq<word>, len: nat, lastTms: bool)

  predicate Proper(c: Call) {
    match c
    case WriteBit(_) => true
    case ReadWriteBit(_) => true
    case WriteWords(stream, len, lastTms) => Holds(stream, len) && (lastTms ==> len > 0)
    case ReadWords(stream, len, lastTms) => Holds(stream, len) && (lastTms ==> len > 0)
  }

  predicate SendsTms(c: Call) {
    match c
    case WriteBit(packet) => packet.tms
    case ReadWriteBit(packet) => packet.tms
    case WriteWords(_, _, lastTms) => lastTms
    case ReadWords(_, _, lastTms) => lastTms
  }

  // Whether a call has data bits, which go out under whatever level the TMS pin has.
  predicate SendsData(c: Call) {
    match c
    case WriteBit(packet) => !packet.tms
    case ReadWriteBit(packet) => !packet.tms
    case WriteWords(_, len, lastTms) => len > if lastTms then 1 else 0
    case ReadWords(_, len, lastTms) => len > if lastTms then 1 else 0
  }

  // What a call asks for.
  function Reference(c: Call): seq<Clock>
    requires Proper(c)
  {
    match c
    case WriteBit(packet) => [Clock(packet.tms, packet.tdo)]
    case ReadWriteBit(packet) => [Clock(packet.tms, packet.tdo)]
    case WriteWords(stream, len, lastTms) => StreamClocks(stream, len, lastTms)
    case ReadWords(stream, len, lastTms) => StreamClocks(stream, len, lastTms)
  }

  // What it gets, with the TMS pin at tms.
  function Actual(c: Call, tms: bool): seq<Clock>
    requires Proper(c)
  {
    match c
    case WriteBit(packet) => [Clock(packet.tms || tms, packet.tdo)]
    case ReadWriteBit(packet) => [Clock(packet.tms || tms, packet.tdo)]
    case WriteWords(stream, len, lastTms) => PinClocks(stream, len, lastTms, tms)
    case ReadWords(stream, len, lastTms) => PinClocks(stream, len, lastTms, tms)
  }

  lemma OneCall(c: Call, tms: bool)
    requires Proper(c)
    ensures |Actual(c, tms)| == |Reference(c)|
    ensures Actual(c, tms) == Reference(c) <==> !tms || !SendsData(c)
  {
    match c
    case WriteBit(_) =>
    case ReadWriteBit(_) =>
    case WriteWords(stream, len, lastTms) => PinClocksAreStreamClocks(stream, len, lastTms, tms);
    case ReadWords(stream, len, lastTms) => PinClocksAreStreamClocks(stream, len, lastTms, tms);
  }

  // ----- Runs -----

  predicate AllProper(calls: seq<Call>) {
    forall i :: 0 <= i < |calls| ==> Proper(calls[i])
  }

  // The level of the TMS pin after some calls, from low on.
  function PinAfter(holdsTms: bool, calls: seq<Call>): bool {
    calls != [] && (PinAfter(holdsTms, calls[..|calls| - 1]) || (holdsTms && SendsTms(calls[|calls| - 1])))
  }

  function ReferenceWire(calls: seq<Call>): seq<Clock>
    requires AllProper(calls)
  {
    if calls == [] then [] else ReferenceWire(calls[..|calls| - 1]) + Reference(calls[|calls| - 1])
  }

  function ActualWire(holdsTms: bool, calls: seq<Call>): seq<Clock>
    requires AllProper(calls)
  {
    if calls == [] then []
    else
      var front := calls[..|calls| - 1];
      ActualWire(holdsTms, front) + Actual(calls[|calls| - 1], PinAfter(holdsTms, front))
  }

  predicate TmsSent(calls: seq<Call>) {
    exists i :: 0 <= i < |calls| && SendsTms(calls[i])
  }

  // No call with data bits comes after one with TMS.
  predicate DataComesFirst(calls: seq<Call>) {
    forall i, j :: 0 <= i < j < |calls| && SendsTms(calls[i]) ==> !SendsData(calls[j])
  }

  lemma {:induction false} PinIsHigh(holdsTms: bool, calls: seq<Call>)
    ensures PinAfter(holdsTms, calls) <==> holdsTms && TmsSent(calls)
  {
    if calls != [] {
      var front := calls[..|calls| - 1];
      PinIsHigh(holdsTms, front);
      if i :| 0 <= i < |calls| && SendsTms(calls[i]) && i < |front| {
        assert SendsTms(front[i]);
      }
      if i :| 0 <= i < |front| && SendsTms(front[i]) {
        assert SendsTms(calls[i]);
      }
    }
  }

  lemma {:induction false} SameLength(holdsTms: bool, calls: seq<Call>)
    requires AllProper(calls)
    ensures |ActualWire(holdsTms, calls)| == |ReferenceWire(calls)|
  {
    if calls != [] {
      SameLength(holdsTms, calls[..|calls| - 1]);
      OneCall(calls[|calls| - 1], PinAfter(holdsTms, calls[..|calls| - 1]));
    }
  }

  lemma EqualParts(a: seq<Clock>, b: seq<Clock>, c: seq<Clock>, d: seq<Clock>)
    requires |a| == |c|
    ensures a + b == c + d <==> a == c && b == d
  {
    if a + b == c + d {
      assert a == (a + b)[..|a|] && b == (a + b)[|a|..];
      assert c == (c + d)[..|c|] && d == (c + d)[|c|..];
    }
  }

  // From a low pin on, the wire sees exactly what has been asked for if and only if the pin does not
  // hold its level, or no data bits are sent once a bit with TMS has been.
  lemma {:induction false} RunIsRight(holdsTms: bool, calls: seq<Call>)
    requires AllProper(calls)
    ensures ActualWire(holdsTms, calls) == ReferenceWire(calls) <==> !holdsTms || DataComesFirst(calls)
  {
    if calls != [] {
      var front, last := calls[..|calls| - 1], calls[|calls| - 1];
      var pin := PinAfter(holdsTms, front);
      RunIsRight(holdsTms, front);
      SameLength(holdsTms, front);
      OneCall(last, pin);
      EqualParts(ActualWire(holdsTms, front), Actual(last, pin), ReferenceWire(front), Reference(last));
      PinIsHigh(holdsTms, front);
      MoreDataFirst(calls);
    }
  }

  lemma MoreDataFirst(calls: seq<Call>)
    requires calls != []
    ensures DataComesFirst(calls)
       <==> DataComesFirst(calls[..|calls| - 1])
            && (TmsSent(calls[..|calls| - 1]) ==> !SendsData(calls[|calls| - 1]))
  {
    var front := calls[..|calls| - 1];
    if DataComesFirst(calls) {
      forall i, j | 0 <= i < j < |front| && SendsTms(front[i]) ensures !SendsData(front[j]) {
        assert SendsTms(calls[i]);
      }
      if i :| 0 <= i < |front| && SendsTms(front[i]) {
        assert SendsTms(calls[i]);
      }
    } else {
      var i, j :| 0 <= i < j < |calls| && SendsTms(calls[i]) && SendsData(calls[j]);
      assert SendsTms(front[i]);
      if j < |front| {
        assert SendsData(front[j]);
      }
    }
  }

  // ----- Carrying calls out -----

  // Nothing is left to read, and nothing to be sent but what the chip will be asked for.
  ghost predicate Quiet(conn: Ftdi)
    reads conn
  {
    conn.Valid() && Pending(conn) == [] && conn.delivered == |conn.Virtual().replies|
  }

  method Perform(conn: Ftdi, c: Call)
    requires Quiet(conn) && Proper(c)
    modifies conn
    ensures Quiet(conn) && conn.Virtual().wire == old(conn.Virtual()).wire + Actual(c, old(conn.Virtual()).tms)
    ensures conn.Virtual().tms == (old(conn.Virtual()).tms || (conn.world.holdsTms && SendsTms(c)))
  {
    hide Ftdi.Valid, Ftdi.Virtual, PinClocks;
    match c
    case WriteBit(packet) => FtdiWriteBit(conn, packet);
    case WriteWords(stream, len, lastTms) => FtdiWriteStream(conn, stream, len, lastTms);
    case ReadWriteBit(packet) =>
      var bitIn := new byte[1](_ => 0);
      FtdiReadWriteBit(conn, packet, bitIn);
    case ReadWords(stream, len, lastTms) =>
      var instream := new byte[len / 8 + 1](_ => 0);
      FtdiReadStream(conn, stream, instream, len, lastTms);
  }

  // Any calls, one after the other, from a low pin on.
  method PerformAll(conn: Ftdi, calls: seq<Call>)
    requires Quiet(conn) && AllProper(calls) && !conn.Virtual().tms
    modifies conn
    ensures Quiet(conn) && conn.Virtual().wire == old(conn.Virtual()).wire + ActualWire(conn.world.holdsTms, calls)
    ensures conn.Virtual().wire == old(conn.Virtual()).wire + ReferenceWire(calls)
       <==> !conn.world.holdsTms || DataComesFirst(calls)
  {
    hide Ftdi.Valid, Ftdi.Virtual, DataComesFirst, Pending, Actual, Reference, ReferenceWire;
    ghost var wire := conn.Virtual().wire;
    assert calls[..0] == [];
    for k := 0 to |calls|
      invariant Quiet(conn) && conn.Virtual().wire == wire + ActualWire(conn.world.holdsTms, calls[..k])
      invariant conn.Virtual().tms == PinAfter(conn.world.holdsTms, calls[..k])
    {
      OneMoreCall(conn.world.holdsTms, calls, k, wire);
      Perform(conn, calls[k]);
    }
    assert calls[..|calls|] == calls;
    RunIsRight(conn.world.holdsTms, calls);
    EqualParts(wire, ActualWire(conn.world.holdsTms, calls), wire, ReferenceWire(calls));
  }

  lemma OneMoreCall(holdsTms: bool, calls: seq<Call>, k: nat, wire: seq<Clock>)
    requires k < |calls| && AllProper(calls)
    ensures PinAfter(holdsTms, calls[..k + 1]) == (PinAfter(holdsTms, calls[..k]) || (holdsTms && SendsTms(calls[k])))
    ensures wire + ActualWire(holdsTms, calls[..k + 1])
         == wire + ActualWire(holdsTms, calls[..k]) + Actual(calls[k], PinAfter(holdsTms, calls[..k]))
  {
    hide Actual, Reference;
    assert calls[..k + 1][..k] == calls[..k];
  }
}

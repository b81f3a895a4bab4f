// What a session shows to the outside, as one sequence of events, and which sequences are in order.
module RspLog {
  import opened Bits
  import opened RspPacket

  datatype Event =
    | Attached
    | Detached
    | Acked              // a packet from the client has been acknowledged
    | Resumed            // the CPU has been let go at the client's request
    | Halted             // the CPU is found, or made, to be stalled again
    | Sent(body: seq<byte>)

  // Owing is the short time between a halt and the reply that tells the client.
  datatype Phase = Disconnected | Idle | Running | Owing | Broken

  const STOP_REPLY: seq<byte> := ['S' as byte, '0' as byte, '5' as byte]

  function NextPhase(p: Phase, e: Event): Phase {
    match (p, e)
    case (Disconnected, Attached) => Idle
    case (Idle, Detached) => Disconnected
    case (Running, Detached) => Disconnected
    case (Idle, Acked) => Idle
    case (Running, Acked) => Running
    case (Idle, Sent(_)) => Idle
    case (Idle, Resumed) => Running
    case (Running, Halted) => Owing
    case (Owing, Sent(body)) => if body == STOP_REPLY then Idle else Broken
    case _ => Broken
  }

  function PhaseOf(log: seq<Event>): Phase {
    if log == [] then Disconnected else NextPhase(PhaseOf(log[..|log| - 1]), log[|log| - 1])
  }

  // The bytes that events put on the connection.
  function Output(log: seq<Event>): seq<byte> {
    if log == [] then []
    else
      Output(log[..|log| - 1]) +
      match log[|log| - 1]
      case Acked => [ACK]
      case Sent(body) => Frame(Escape(body))
      case _ => []
  }

  lemma EventAdded(log: seq<Event>, e: Event)
    ensures PhaseOf(log + [e]) == NextPhase(PhaseOf(log), e)
    ensures Output(log + [e])
         == Output(log) + match e case Acked => [ACK] case Sent(body) => Frame(Escape(body)) case _ => []
  {
    assert (log + [e])[..|log|] == log;
  }

  // ----- What order means -----

  lemma OneMoreEvent(log: seq<Event>, i: nat)
    requires i < |log|
    ensures PhaseOf(log[..i + 1]) == NextPhase(PhaseOf(log[..i]), log[i])
  {
    assert log[..i + 1][..i] == log[..i];
  }

  lemma {:induction false} PrefixInOrder(log: seq<Event>, n: nat)
    requires n <= |log| && PhaseOf(log) != Broken
    ensures PhaseOf(log[..n]) != Broken
    decreases |log| - n
  {
    if n == |log| {
      assert log[..n] == log;
    } else {
      PrefixInOrder(log, n + 1);
      assert log[..n + 1][..n] == log[..n];
    }
  }

  function Count(log: seq<Event>, e: Event): nat {
    if log == [] then 0 else Count(log[..|log| - 1], e) + if log[|log| - 1] == e then 1 else 0
  }

  function CutShort(log: seq<Event>): nat {
    if log == [] then 0
    else
      CutShort(log[..|log| - 1]) +
      if log[|log| - 1] == Detached && PhaseOf(log[..|log| - 1]) == Running then 1 else 0
  }

  // Each resume ends at most once: by a halt, or by detaching; the last one may still be under way.
  lemma {:induction false} EachResumeEndsOnce(log: seq<Event>)
    requires PhaseOf(log) != Broken
    ensures Count(log, Resumed) == Count(log, Halted) + CutShort(log) + if PhaseOf(log) == Running then 1 else 0
  {
    if log != [] {
      PrefixInOrder(log, |log| - 1);
      EachResumeEndsOnce(log[..|log| - 1]);
    }
  }

  // A halt comes out of the running state, and what follows it is the stop reply.
  lemma HaltIsReported(log: seq<Event>, i: nat)
    requires PhaseOf(log) != Broken && i < |log| && log[i] == Halted
    ensures PhaseOf(log[..i]) == Running
    ensures if i + 1 < |log| then log[i + 1] == Sent(STOP_REPLY) else PhaseOf(log) == Owing
  {
    PrefixInOrder(log, i + 1);
    OneMoreEvent(log, i);
    if i + 1 < |log| {
      PrefixInOrder(log, i + 2);
      OneMoreEvent(log, i + 1);
    }
    hide PhaseOf;
    assert i + 1 == |log| ==> log[..i + 1] == log;
  }

  // Nothing is sent while the target is running, but acknowledgements.
  lemma SilentWhileRunning(log: seq<Event>, i: nat)
    requires PhaseOf(log) != Broken && i < |log| && PhaseOf(log[..i]) == Running
    ensures log[i] in {Acked, Halted, Detached}
  {
    PrefixInOrder(log, i + 1);
    assert log[..i + 1][..i] == log[..i];
  }
}

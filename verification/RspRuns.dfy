// rsp_server.cpp as a transition system: what each happening makes of a session, and what that means over
// whole runs.
module RspRuns {
  import opened Wrappers
  import opened Bits
  import opened RspPacket
  import opened RspLog
  import opened RspRequests
  import opened Cpu
  import opened DebugRegisters

  // What the bridge has to react to.
  datatype Happening =
    | ClientConnects(input: seq<byte>)
    | ClientIsActive           // poll() on the connection finds something to read
    | Timeout
    | CpuChanges(cpu: Cpu)

  // A session, the CPU and the connection. `running` is what the bridge takes the target for.
  datatype View = View(
    connected: bool,
    first: bool,               // no packet has been received yet
    running: bool,
    input: seq<byte>,
    slots: seq<word>,
    cpu: Cpu,
    log: seq<Event>)

  // The bridge has not noticed a stop yet.
  predicate StopUnnoticed(v: View) {
    v.connected && v.running && v.cpu.stalled
  }

  // What comes of the client's activity; `served` is the CPU before detaching, should that be necessary.
  ghost predicate RequestProcessed(host: Host, v: View, r: Ending, stale: seq<byte>, served: Cpu, w: View) {
    var parsed := Parse(v.input, v.first);
    && r != Threw && w.cpu == (if w.connected then served else LeftRunning(served))
    && match RequestIn(parsed)
       case None => r == Done && !w.connected && served == v.cpu && w.log == v.log + [Detached]
       case Some(body) =>
         && |body| + 1 + |stale| == GDB_BUF_MAX && !w.first
         && Concluded(RequestEffect(v.running, host, body, stale, v.cpu, v.slots), w.connected, r, parsed.rest, w.input,
                      v.log + Acknowledgement(parsed), w.log)
         && CpuTook(v.running, host, body, stale, v.cpu, v.slots, served, w.slots)
         && (w.connected ==>
               w.running == RunsAfter(RequestEffect(v.running, host, body, stale, v.cpu, v.slots), v.running))
  }

  lemma NoRequest(host: Host, v: View, stale: seq<byte>, w: View)
    requires RequestIn(Parse(v.input, v.first)).None?
    requires !w.connected && w.cpu == LeftRunning(v.cpu)
    requires w.log == v.log + Acknowledgement(Parse(v.input, v.first)) + [Detached]
    ensures RequestProcessed(host, v, Done, stale, v.cpu, w)
  {
    assert v.log + [] == v.log;
  }

  // A request that has been carried out and, if it has failed, been followed by the end of the connection.
  lemma RequestServed(host: Host, v: View, body: seq<byte>, stale: seq<byte>, r: Ending, served: View, w: View)
    requires v.connected && RequestIn(Parse(v.input, v.first)) == Some(body) && |body| + 1 + |stale| == GDB_BUF_MAX
    requires var parsed := Parse(v.input, v.first);
             var effect := RequestEffect(v.running, host, body, stale, v.cpu, v.slots);
             && Took(effect, r, parsed.rest, served.input, v.log + Acknowledgement(parsed), served.log)
             && CpuTook(v.running, host, body, stale, v.cpu, v.slots, served.cpu, served.slots)
             && served.running == RunsAfter(effect, v.running)
    requires !served.first && served.connected
    requires if r == Threw then
               && !w.connected && w.cpu == LeftRunning(served.cpu) && w.log == served.log + [Detached]
               && w.input == served.input && w.slots == served.slots && w.first == served.first
             else w == served
    ensures RequestProcessed(host, v, if r == Threw then Done else r, stale, served.cpu, w)
  {
    hide RequestEffect, Took, CpuTook, Parse, LeftRunning, RunsAfter;
    assert w.log != [] ==> r == Threw ==> w.log[..|w.log| - 1] == served.log;
  }

  // What a happening makes of a session; what is left to chance is what variables hold that have never
  // been assigned.
  ghost predicate Turned(host: Host, h: Happening, v: View, r: Ending, w: View) {
    match h
    case ClientConnects(input) =>
      && r == Done
      && if v.connected then w == v
         else
           && w.connected && w.first && !w.running && w.input == input && w.log == v.log + [Attached]
           && w.cpu == TakenOver(v.cpu)
    case ClientIsActive =>
      if v.connected then exists stale, served :: RequestProcessed(host, v, r, stale, served, w)
      else r == Done && w == v
    case Timeout =>
      if StopUnnoticed(v) then
        && r == Finished(Acknowledges(v.input))
        && w == v.(running := false, input := BehindAck(v.input), log := v.log + [Halted] + [Sent(STOP_REPLY)])
      else r == Done && w == v
    case CpuChanges(cpu) =>
      r == Done && w == if CpuMay(v.cpu, cpu) then v.(cpu := cpu) else v
  }

  // ----- Runs -----

  // One view before each happening, and one at the end.
  ghost predicate IsRun(host: Host, hs: seq<Happening>, trace: seq<View>) {
    |trace| == |hs| + 1 && forall k :: 0 <= k < |hs| ==> Turned(host, hs[k], trace[k], Done, trace[k + 1])
  }

  lemma NoTurn(host: Host, hs: seq<Happening>, v: View)
    requires hs == []
    ensures IsRun(host, hs, [v])
  {
  }

  lemma Ignored(host: Host, h: Happening, v: View)
    requires h.CpuChanges? && !CpuMay(v.cpu, h.cpu)
    ensures Turned(host, h, v, Done, v)
  {
  }

  lemma OneMoreTurn(host: Host, hs: seq<Happening>, trace: seq<View>, k: nat, r: Ending, w: View)
    requires k < |hs| && IsRun(host, hs[..k], trace) && Turned(host, hs[k], trace[k], r, w)
    ensures r == Done ==> IsRun(host, hs[..k + 1], trace + [w])
  {
    hide Turned;
  }

  // Nothing the bridge does not notice by itself.
  predicate Quiet(hs: seq<Happening>, from: nat, to: nat)
    requires from <= to <= |hs|
  {
    forall k :: from <= k < to ==> hs[k] != Timeout && hs[k] != ClientIsActive
  }

  lemma {:induction false} StillUnnoticed(host: Host, hs: seq<Happening>, trace: seq<View>, from: nat, to: nat)
    requires IsRun(host, hs, trace) && from <= to <= |hs| && Quiet(hs, from, to) && StopUnnoticed(trace[from])
    ensures trace[to] == trace[from]
  {
    if from < to {
      StillUnnoticed(host, hs, trace, from, to - 1);
      assert Turned(host, hs[to - 1], trace[to - 1], Done, trace[to]);
    }
  }

  // A stop of the CPU is reported to the client at the first time-out after it, unless the client gets active
  // before, and nothing else is sent until then.
  lemma StopIsReported(host: Host, hs: seq<Happening>, trace: seq<View>, from: nat, to: nat)
    requires IsRun(host, hs, trace) && from <= to < |hs| && Quiet(hs, from, to) && hs[to] == Timeout
    requires StopUnnoticed(trace[from])
    ensures trace[to + 1].log == trace[from].log + [Halted] + [Sent(['S' as byte, '0' as byte, '5' as byte])]
    ensures trace[to + 1].connected && !trace[to + 1].running && trace[to + 1].cpu == trace[from].cpu
  {
    StillUnnoticed(host, hs, trace, from, to);
    assert Turned(host, hs[to], trace[to], Done, trace[to + 1]);
  }

  // Without a stop, no time-out is ever noticed by the client.
  lemma NothingToReport(host: Host, hs: seq<Happening>, trace: seq<View>, k: nat)
    requires IsRun(host, hs, trace) && k < |hs| && hs[k] == Timeout && !StopUnnoticed(trace[k])
    ensures trace[k + 1] == trace[k]
  {
    assert Turned(host, hs[k], trace[k], Done, trace[k + 1]);
  }

  // The client's request to go on, acknowledged and carried out: the reason for the last stop is cleared, single
  // stepping is off, and nothing else in the CPU changes but the stall state.
  lemma ContinueResumes(host: Host, v: View, r: Ending, w: View, tail: seq<byte>)
    requires Turned(host, ClientIsActive, v, r, w) && v.connected && !v.running
    requires v.input == ['$' as byte, 'c' as byte, '#' as byte, '6' as byte, '3' as byte] + tail
    ensures r == Done && w.connected && w.running && w.input == tail && w.log == v.log + [Acked] + [Resumed]
    ensures !w.cpu.stalled && OnlyTwoSet(v.cpu, SPR_DRR, 0, false, w.cpu) && w.slots == v.slots
  {
    ParseContinue(tail, v.first);
    WhatIsSet(v.cpu, false);
    hide Parse, OnlyTwoSet, LetRun, LeftRunning;
    var stale, served :| RequestProcessed(host, v, r, stale, served, w);
    assert ['c' as byte][0] as char == 'c';
  }

  // The client goes on, the CPU stops at a breakpoint, and the next time-out tells the client so.
  lemma BreakpointIsReported(host: Host, hs: seq<Happening>, trace: seq<View>, from: nat, to: nat, tail: seq<byte>,
                             stopped: Cpu)
    requires IsRun(host, hs, trace) && from + 2 <= to < |hs| && trace[from].connected && !trace[from].running
    requires hs[from] == ClientIsActive && hs[from + 1] == CpuChanges(stopped) && Quiet(hs, from + 2, to)
    requires trace[from].input == ['$' as byte, 'c' as byte, '#' as byte, '6' as byte, '3' as byte] + tail
    requires CpuMay(trace[from + 1].cpu, stopped) && stopped.stalled && hs[to] == Timeout
    ensures trace[to + 1].connected && !trace[to + 1].running && trace[to + 1].cpu == stopped
    ensures trace[to + 1].log
         == trace[from].log + [Acked] + [Resumed] + [Halted] + [Sent(['S' as byte, '0' as byte, '5' as byte])]
    ensures trace[to + 1].input == BehindAck(tail)
  {
    assert Turned(host, hs[from], trace[from], Done, trace[from + 1]);
    assert Turned(host, hs[from + 1], trace[from + 1], Done, trace[from + 2]);
    assert Turned(host, hs[to], trace[to], Done, trace[to + 1]);
    hide CpuMay, OnlyTwoSet;
    ContinueResumes(host, trace[from], Done, trace[from + 1], tail);
    assert trace[from + 2] == trace[from + 1].(cpu := stopped);
    StillUnnoticed(host, hs, trace, from + 2, to);
  }

  // The client's break character stops a target that is running, and is answered once it has stopped. Without
  // the acknowledgement of the answer the connection ends, and the CPU is let go again.
  lemma BreakStops(host: Host, v: View, r: Ending, w: View, tail: seq<byte>)
    requires Turned(host, ClientIsActive, v, r, w) && v.connected && v.running && v.input == [0x03] + tail
    ensures r == Done && w.connected == Acknowledges(tail) && w.input == BehindAck(tail)
    ensures var halted := v.log + [Halted] + [Sent(['S' as byte, '0' as byte, '5' as byte])];
            if Acknowledges(tail) then
              !w.running && w.cpu == v.cpu.(stalled := true) && w.log == halted && w.slots == v.slots
            else w.cpu == LeftRunning(v.cpu.(stalled := true)) && w.log == halted + [Detached]
  {
    assert Parse(v.input, v.first) == Break(tail);
    hide Parse, LeftRunning;
    var stale, served :| RequestProcessed(host, v, r, stale, served, w);
    assert [GDB_RSP_BREAK_CMD][0] == GDB_RSP_BREAK_CMD;
    assert v.log + [] == v.log;
  }
}

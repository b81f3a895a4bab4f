// rsp_or10.cpp and rsp_server.cpp: a debugging session, from a client's connection to its end.
module RspSession {
  import opened Wrappers
  import opened Bits
  import opened HexDigits
  import opened RspPacket
  import opened RspMemory
  import opened RspLog
  import opened RspRequests
  import opened RspRuns
  import opened Cpu
  import opened DebugRegisters
  import opened Watchpoints
  import opened DebugUnit
  import opened ChainCommands
  import opened DbgApi
  import opened ByteMemory

  const TARGET_SIGNAL_TRAP: nat := 5

  datatype PollSpeed = CpsSlow | CpsMiddle | CpsFast

  // The global variable rsp, with the hardware and the client's connection.
  class Session {
    const port: JtagPort
    const conn: Connection
    const host: Host

    var connected: bool  // client_fd != -1
    var isFirstPacket: bool
    var watchpointCount: nat
    var watchpointAddr: seq<word>
    var isTargetRunning: bool
    var isInSingleStepMode: bool
    var cpuPollSpeed: PollSpeed
    var sigval: nat

    ghost var log: seq<Event>

    // ----- Invariants -----

    function TheCpu(): Cpu
      reads port
    {
      port.target.unit.cpu
    }

    ghost predicate Usable()
      reads this`watchpointCount, this`watchpointAddr, this`log, port, conn
    {
      && port.Clean() && Ready(port.target) && Hardware(TheCpu())
      && watchpointCount <= |watchpointAddr| == MAX_WATCHPOINT_COUNT && conn.output == Output(log)
    }

    // What is cached about the registers agrees with the CPU.
    ghost predicate Cached()
      reads this`watchpointCount, this`watchpointAddr, this`isInSingleStepMode, port
    {
      && watchpointCount == Reg(TheCpu(), OR1200_DU_WATCHPOINT_COUNT)
         && Mirrors(watchpointAddr, watchpointCount, TheCpu())
      && Reg(TheCpu(), SPR_DSR) == SPR_DSR_TE
      && isInSingleStepMode == SingleStepping(TheCpu())
    }

    // So does everything else in a connected session.
    ghost predicate Agrees()
      reads this`watchpointCount, this`watchpointAddr, this`isInSingleStepMode, this`isTargetRunning,
            this`cpuPollSpeed, this`sigval
      reads port
    {
      && Cached()
      && (!isTargetRunning ==> TheCpu().stalled)
      && (isTargetRunning && TheCpu().stalled ==> Reg(TheCpu(), SPR_DRR) == SPR_DRR_TE || isInSingleStepMode)
      && (cpuPollSpeed == CpsSlow <==> !isTargetRunning)
      && sigval == TARGET_SIGNAL_TRAP
    }

    // With nobody connected, after a session, the CPU runs and nothing will stop it.
    ghost predicate LeftAlone()
      reads this, port
    {
      log != [] ==> !TheCpu().stalled && Reg(TheCpu(), SPR_DSR) == 0 && !SingleStepping(TheCpu())
    }

    ghost predicate Valid()
      reads this, port, conn
    {
      && Usable()
      && (if connected then Agrees() else LeftAlone())
      && PhaseOf(log) == if !connected then Disconnected else if isTargetRunning then Running else Idle
    }

    // What is left after an exception: enough to detach.
    ghost predicate Detachable()
      reads this, port, conn
    {
      Usable() && connected && (!isTargetRunning ==> TheCpu().stalled) && PhaseOf(log) in {Idle, Running}
    }

    lemma ConnectedIsDetachable()
      requires Valid() && connected
      ensures Detachable() && watchpointCount <= |watchpointAddr|
    {
    }

    constructor (port: JtagPort, conn: Connection, host: Host)
      requires port.Clean() && Ready(port.target) && Hardware(port.target.unit.cpu) && conn.output == []
      ensures Valid() && !connected && log == [] && this.port == port && this.conn == conn
    {
      this.port, this.conn, this.host := port, conn, host;
      connected, isFirstPacket, isTargetRunning, isInSingleStepMode := false, true, false, false;
      watchpointCount, watchpointAddr := 0, seq(MAX_WATCHPOINT_COUNT, _ => 0);
      cpuPollSpeed, sigval, log := CpsSlow, 0, [];
    }

    // ----- Registers: apart from stalling, only accessed while the CPU is stalled -----

    // dbg_cpu0_write_spr_e
    method WriteSprE(reg: half, value: word)
      requires port.Clean() && Ready(port.target) && reg in TheCpu().spr && TheCpu().stalled
      requires reg !in {SPR_DU_EDIS, SPR_DU_READ_MEM_ADDR, OR1200_DU_WRITE_MEM_ADDR, OR1200_DU_WRITE_MEM_DATA}
      modifies port`target
      ensures Ready(port.target) && TheCpu() == SetReg(old(TheCpu()), reg, value)
    {
      var error := WriteSpr(port, reg, value);
      assert !error;
    }

    // dbg_cpu0_read_spr_e
    method ReadSprE(reg: half) returns (value: word)
      requires port.Clean() && Ready(port.target) && reg in TheCpu().spr && TheCpu().stalled
      modifies port`target
      ensures Ready(port.target) && TheCpu() == old(TheCpu()) && value == Reg(TheCpu(), reg)
    {
      var error;
      error, value := ReadSpr(port, reg);
      assert !error;
    }

    method UnstallCpu()
      requires port.Clean() && Ready(port.target) && !isTargetRunning
      modifies port`target, this`isTargetRunning
      ensures Ready(port.target) && TheCpu() == old(TheCpu()).(stalled := false) && isTargetRunning
    {
      var error := WriteSpr(port, SPR_DU_EDIS, 0);
      assert !error;
      isTargetRunning := true;
    }

    method StallCpu()
      requires port.Clean() && Ready(port.target)
      modifies port`target, this`isTargetRunning
      ensures Ready(port.target) && TheCpu() == old(TheCpu()).(stalled := true) && !isTargetRunning
    {
      var error := WriteSpr(port, SPR_DU_EDIS, 1);
      assert !error;
      isTargetRunning := false;
    }

    method SetSingleStepMode(enable: bool)
      requires port.Clean() && Ready(port.target) && Hardware(TheCpu()) && TheCpu().stalled
      modifies port`target, this`isInSingleStepMode
      ensures Ready(port.target)
      ensures TheCpu() == WithStepMode(old(TheCpu()), enable)
      ensures isInSingleStepMode == enable == SingleStepping(TheCpu())
    {
      var dmr1 := ReadSprE(SPR_DMR1);
      WithStepBit(dmr1, enable, ST_BIT);
      WriteSprE(SPR_DMR1, WithStep(dmr1, enable));
      isInSingleStepMode := enable;
    }

    ghost predicate SameButStepMode(c: Cpu, d: Cpu)
      reads this`watchpointCount, this`watchpointAddr
    {
      && Reg(d, SPR_DSR) == Reg(c, SPR_DSR) && Reg(d, SPR_DRR) == Reg(c, SPR_DRR)
      && Reg(d, OR1200_DU_WATCHPOINT_COUNT) == Reg(c, OR1200_DU_WATCHPOINT_COUNT)
      && (Mirrors(watchpointAddr, watchpointCount, c) ==> Mirrors(watchpointAddr, watchpointCount, d))
      && d.mem == c.mem
    }

    method SwitchStepMode(enable: bool)
      requires port.Clean() && Ready(port.target) && Hardware(TheCpu()) && TheCpu().stalled
      modifies port`target, this`isInSingleStepMode
      ensures Ready(port.target) && Hardware(TheCpu()) && TheCpu().stalled
      ensures isInSingleStepMode == SingleStepping(TheCpu()) == enable
      ensures TheCpu() == WithStepMode(old(TheCpu()), enable) && SameButStepMode(old(TheCpu()), TheCpu())
    {
      SetKeeps(TheCpu(), SPR_DMR1, WithStep(Reg(TheCpu(), SPR_DMR1), enable), watchpointAddr, watchpointCount);
      SetSingleStepMode(enable);
    }

    // The assertion is the source's: a stop without a reason comes from a single step or from the bridge.
    method CollectCpuStopReason(stoppedViaEdis: bool)
      requires port.Clean() && Ready(port.target) && Hardware(TheCpu()) && TheCpu().stalled && !isTargetRunning
      requires watchpointCount == Reg(TheCpu(), OR1200_DU_WATCHPOINT_COUNT) && |watchpointAddr| == MAX_WATCHPOINT_COUNT
      requires Reg(TheCpu(), SPR_DRR) == 0 ==> isInSingleStepMode || stoppedViaEdis
      modifies port`target, this`sigval, this`watchpointAddr
      ensures Ready(port.target) && TheCpu() == old(TheCpu()) && sigval == TARGET_SIGNAL_TRAP
      ensures Mirrors(watchpointAddr, watchpointCount, TheCpu())
    {
      var drrval := ReadSprE(SPR_DRR);
      assert drrval == 0 || drrval == SPR_DRR_TE;
      if drrval == 0 {
        assert isInSingleStepMode || stoppedViaEdis;
      }
      sigval := TARGET_SIGNAL_TRAP;
      for i := 0 to watchpointCount
        invariant Ready(port.target) && TheCpu() == old(TheCpu()) && |watchpointAddr| == MAX_WATCHPOINT_COUNT
        invariant Mirrors(watchpointAddr, i, TheCpu()) && sigval == TARGET_SIGNAL_TRAP
      {
        var addr := ReadSprE(Dvr(i));
        watchpointAddr := watchpointAddr[i := addr];
      }
    }

    // ----- Attaching and detaching -----

    // The end of wait_for_client_connection, with attach_to_cpu: a client that will send `input`.
    method AcceptClient(input: seq<byte>)
      requires Valid() && !connected
      modifies this, port`target, conn`input
      ensures Valid() && connected && !isTargetRunning && log == old(log) + [Attached]
      ensures conn.input == input && isFirstPacket && TheCpu() == TakenOver(old(TheCpu()))
    {
      conn.input := input;
      StartSession();
      assert Usable() && Agrees();
      Record(Attached);
    }

    method StartSession()
      requires Usable() && !connected
      modifies port`target, this`isTargetRunning, this`watchpointCount, this`watchpointAddr, this`isInSingleStepMode,
               this`sigval
      modifies this`connected, this`isFirstPacket, this`cpuPollSpeed
      ensures Usable() && Agrees() && connected && isFirstPacket && !isTargetRunning
      ensures TheCpu() == TakenOver(old(TheCpu()))
    {
      hide Ready, TakenOver;
      connected, isFirstPacket := true, true;
      AttachToCpu();
      cpuPollSpeed := CpsSlow;
    }

    method AttachToCpu()
      requires port.Clean() && Ready(port.target) && Hardware(TheCpu()) && |watchpointAddr| == MAX_WATCHPOINT_COUNT
      modifies port`target, this`isTargetRunning, this`watchpointCount, this`watchpointAddr, this`isInSingleStepMode,
               this`sigval
      ensures Ready(port.target) && Hardware(TheCpu()) && TheCpu().stalled && !isTargetRunning
      ensures watchpointCount == Reg(TheCpu(), OR1200_DU_WATCHPOINT_COUNT)
      ensures Mirrors(watchpointAddr, watchpointCount, TheCpu())
      ensures Reg(TheCpu(), SPR_DSR) == SPR_DSR_TE && !isInSingleStepMode && !SingleStepping(TheCpu())
      ensures sigval == TARGET_SIGNAL_TRAP && TheCpu() == TakenOver(old(TheCpu()))
    {
      hide Ready, WithStep, Bit;
      StallCpu();
      watchpointCount := ReadSprE(OR1200_DU_WATCHPOINT_COUNT);
      var vr := ReadSprE(SPR_VR);
      var upr := ReadSprE(SPR_UPR);
      watchpointAddr := seq(MAX_WATCHPOINT_COUNT, _ => 0);
      Set(SPR_DSR, SPR_DSR_TE);
      SwitchStepMode(false);
      CollectCpuStopReason(true);
    }

    // Writing a register that is not about watchpoints.
    method Set(reg: half, value: word)
      requires port.Clean() && Ready(port.target) && Hardware(TheCpu()) && TheCpu().stalled
      requires reg in {SPR_DSR, SPR_DRR} && (reg == SPR_DRR ==> value == 0)
      modifies port`target
      ensures Ready(port.target) && Hardware(TheCpu()) && TheCpu() == SetReg(old(TheCpu()), reg, value)
      ensures Mirrors(watchpointAddr, watchpointCount, old(TheCpu())) ==>
                Mirrors(watchpointAddr, watchpointCount, TheCpu())
    {
      SetKeeps(TheCpu(), reg, value, watchpointAddr, watchpointCount);
      WriteSprE(reg, value);
    }

    // detach_from_cpu
    method DetachFromCpu()
      requires port.Clean() && Ready(port.target) && Hardware(TheCpu()) && (!isTargetRunning ==> TheCpu().stalled)
      modifies port`target, this`isTargetRunning, this`isInSingleStepMode
      ensures Ready(port.target) && Hardware(TheCpu())
      ensures TheCpu() == LeftRunning(old(TheCpu()))
      ensures !TheCpu().stalled && Reg(TheCpu(), SPR_DSR) == 0 && !SingleStepping(TheCpu())
    {
      hide Ready, WithStep, Bit;
      if isTargetRunning {
        StallCpu();
      }
      Set(SPR_DSR, 0);
      SwitchStepMode(false);
      UnstallCpu();
    }

    // detach_from_cpu and rsp_client_close
    method Disconnect()
      requires Detachable()
      modifies this`connected, this`isTargetRunning, this`isInSingleStepMode, this`log, port`target
      ensures Valid() && !connected && log == old(log) + [Detached] && TheCpu() == LeftRunning(old(TheCpu()))
    {
      DetachFromCpu();
      connected := false;
      EventAdded(log, Detached);
      log := log + [Detached];
    }

    // ----- Replies -----

    // put_str_packet; false is an exception.
    method Reply(body: seq<byte>) returns (ok: bool)
      requires |body| < GDB_BUF_MAX - 1 && conn.output == Output(log)
      modifies this`log, conn
      ensures conn.output == Output(log) && log == old(log) + [Sent(body)]
      ensures PhaseOf(log) == NextPhase(PhaseOf(old(log)), Sent(body))
      ensures ok == Acknowledges(old(conn.input)) && conn.input == BehindAck(old(conn.input))
    {
      var fault := conn.PutStrPacket(body);
      EventAdded(log, Sent(body));
      log := log + [Sent(body)];
      ok := fault == None;
    }

    method SendSignalReplyPacket() returns (ok: bool)
      requires sigval == TARGET_SIGNAL_TRAP && conn.output == Output(log)
      modifies this`log, conn
      ensures conn.output == Output(log) && log == old(log) + [Sent(STOP_REPLY)]
      ensures PhaseOf(log) == NextPhase(PhaseOf(old(log)), Sent(STOP_REPLY))
      ensures ok == Acknowledges(old(conn.input)) && conn.input == BehindAck(old(conn.input))
    {
      ok := Reply(['S' as byte, HexChar(sigval / 16), HexChar(sigval % 16)]);
    }

    method Record(e: Event)
      requires !e.Sent? && !e.Acked? && conn.output == Output(log)
      modifies this`log
      ensures conn.output == Output(log) && log == old(log) + [e] && PhaseOf(log) == NextPhase(PhaseOf(old(log)), e)
    {
      EventAdded(log, e);
      log := log + [e];
    }

    // ----- Running -----

    method EnsureStepMode(enable: bool)
      requires port.Clean() && Ready(port.target) && Hardware(TheCpu()) && TheCpu().stalled
      requires isInSingleStepMode == SingleStepping(TheCpu())
      modifies port`target, this`isInSingleStepMode
      ensures Ready(port.target) && Hardware(TheCpu()) && TheCpu().stalled
      ensures isInSingleStepMode == SingleStepping(TheCpu()) == enable
      ensures TheCpu() == WithStepMode(old(TheCpu()), enable) && SameButStepMode(old(TheCpu()), TheCpu())
    {
      if isInSingleStepMode != enable {
        SwitchStepMode(enable);
      } else {
        SameStep(Reg(TheCpu(), SPR_DMR1), enable);
        assert SetReg(TheCpu(), SPR_DMR1, Reg(TheCpu(), SPR_DMR1)) == TheCpu();
      }
    }

    // What rsp_continue_generic and rsp_step_generic have in common.
    method Resume(step: bool, speed: PollSpeed)
      requires Valid() && connected && !isTargetRunning && speed != CpsSlow
      modifies this`isInSingleStepMode, this`isTargetRunning, this`cpuPollSpeed, this`log, port`target
      ensures Valid() && isTargetRunning && isInSingleStepMode == step && cpuPollSpeed == speed
      ensures log == old(log) + [Resumed] && TheCpu() == LetRun(old(TheCpu()), step)
    {
      hide Hardware, Mirrors, Output, Ready, SingleStepping, LetRun;
      LetGo(step);
      cpuPollSpeed := speed;
      assert Agrees();
      Record(Resumed);
    }

    method LetGo(step: bool)
      requires Usable() && Cached() && TheCpu().stalled && !isTargetRunning
      modifies this`isInSingleStepMode, this`isTargetRunning, port`target
      ensures Usable() && Cached() && isTargetRunning && isInSingleStepMode == step && !TheCpu().stalled
      ensures TheCpu() == LetRun(old(TheCpu()), step)
    {
      hide Output, Ready, WithStep, Bit;
      Set(SPR_DRR, 0);
      EnsureStepMode(step);
      UnstallCpu();
    }

    method ContinueGeneric()
      requires Valid() && connected && !isTargetRunning
      modifies this`isInSingleStepMode, this`isTargetRunning, this`cpuPollSpeed, this`log, port`target
      ensures Valid() && isTargetRunning && !isInSingleStepMode && cpuPollSpeed == CpsMiddle
      ensures log == old(log) + [Resumed]
      ensures var dmr1 := WithStep(Reg(old(TheCpu()), SPR_DMR1), false);
              TheCpu() == SetReg(SetReg(old(TheCpu()), SPR_DRR, 0), SPR_DMR1, dmr1).(stalled := false)
    {
      Resume(false, CpsMiddle);
    }

    method StepGeneric()
      requires Valid() && connected && !isTargetRunning
      modifies this`isInSingleStepMode, this`isTargetRunning, this`cpuPollSpeed, this`log, port`target
      ensures Valid() && isTargetRunning && isInSingleStepMode && cpuPollSpeed == CpsFast
      ensures log == old(log) + [Resumed]
      ensures var dmr1 := WithStep(Reg(old(TheCpu()), SPR_DMR1), true);
              TheCpu() == SetReg(SetReg(old(TheCpu()), SPR_DRR, 0), SPR_DMR1, dmr1).(stalled := false)
    {
      Resume(true, CpsFast);
    }

    method NoteStop(stoppedViaEdis: bool)
      requires Usable() && TheCpu().stalled && !isTargetRunning && isInSingleStepMode == SingleStepping(TheCpu())
      requires watchpointCount == Reg(TheCpu(), OR1200_DU_WATCHPOINT_COUNT) && Reg(TheCpu(), SPR_DSR) == SPR_DSR_TE
      requires Reg(TheCpu(), SPR_DRR) == 0 ==> isInSingleStepMode || stoppedViaEdis
      modifies this`sigval, this`watchpointAddr, this`log, port`target
      ensures Usable() && Cached() && TheCpu() == old(TheCpu()) && sigval == TARGET_SIGNAL_TRAP
      ensures log == old(log) + [Halted] && PhaseOf(log) == NextPhase(PhaseOf(old(log)), Halted)
    {
      Record(Halted);
      CollectCpuStopReason(stoppedViaEdis);
    }

    // The CPU has stalled, or has been stalled: tell the client.
    method ReportStop(stoppedViaEdis: bool) returns (ok: bool)
      requires Usable() && connected && !isTargetRunning && TheCpu().stalled && PhaseOf(log) == Running
      requires watchpointCount == Reg(TheCpu(), OR1200_DU_WATCHPOINT_COUNT) && Reg(TheCpu(), SPR_DSR) == SPR_DSR_TE
      requires isInSingleStepMode == SingleStepping(TheCpu())
      requires Reg(TheCpu(), SPR_DRR) == 0 ==> isInSingleStepMode || stoppedViaEdis
      modifies this`sigval, this`watchpointAddr, this`cpuPollSpeed, this`log, port`target, conn
      ensures if ok then Valid() else Detachable()
      ensures log == old(log) + [Halted] + [Sent(STOP_REPLY)]
      ensures TheCpu() == old(TheCpu()) && Mirrors(watchpointAddr, watchpointCount, TheCpu())
      ensures ok == Acknowledges(old(conn.input)) && conn.input == BehindAck(old(conn.input))
    {
      hide Hardware, Mirrors, Output, Ready, SingleStepping;
      NoteStop(stoppedViaEdis);
      ok := SendSignalReplyPacket();
      assert Usable() && Cached() && TheCpu().stalled;
      if ok {
        SlowDown();
      }
    }

    method SlowDown()
      requires Cached() && TheCpu().stalled && !isTargetRunning && sigval == TARGET_SIGNAL_TRAP
      modifies this`cpuPollSpeed
      ensures Agrees()
    {
      cpuPollSpeed := CpsSlow;
    }

    // poll_cpu
    method PollCpu() returns (ok: bool)
      requires Valid() && connected
      modifies this`isTargetRunning, this`sigval, this`watchpointAddr, this`cpuPollSpeed, this`log, port`target, conn
      ensures connected && if ok then Valid() else Detachable()
      ensures var stopped := old(isTargetRunning) && old(TheCpu()).stalled;
              && log == (if stopped then old(log) + [Halted] + [Sent(STOP_REPLY)] else old(log))
              && isTargetRunning == (old(isTargetRunning) && !stopped)
              && ok == (stopped ==> Acknowledges(old(conn.input)))
              && conn.input == if stopped then BehindAck(old(conn.input)) else old(conn.input)
      ensures TheCpu() == old(TheCpu()) && Slots() == old(Slots())
      ensures ok ==> !(isTargetRunning && TheCpu().stalled)
    {
      var isStalled := IsCpuStalled(port);
      ok := true;
      if isTargetRunning && isStalled {
        isTargetRunning := false;
        ok := ReportStop(false);
        SameMirror(old(watchpointAddr), watchpointAddr, watchpointCount, TheCpu());
      }
    }

    // ----- Requests -----

    // rsp_watchpoint for hardware breakpoints, at an address.
    method Watchpoint(inserting: bool, addr: word) returns (ok: bool)
      requires Valid() && connected && !isTargetRunning
      modifies this`watchpointAddr, this`log, port`target, conn
      ensures Valid()
      ensures match SlotsAfter(old(Slots()), inserting, addr)
              case None => log == old(log) + [Sent(STD_ERROR_CODE)] && watchpointAddr == old(watchpointAddr)
              case Some(after) => log == old(log) + [Sent(OK)] && watchpointAddr[..watchpointCount] == after
      ensures OnlySlotsChanged(old(TheCpu()), watchpointCount, TheCpu())
      ensures Slots() == old(Slots()) ==> TheCpu() == old(TheCpu())
      ensures ok == Acknowledges(old(conn.input)) && conn.input == BehindAck(old(conn.input))
    {
      hide Hardware, Output, Ready, SingleStepping;
      ghost var slots := watchpointAddr[..watchpointCount];
      var i := 0;
      while i < watchpointCount && watchpointAddr[i] != addr
            && !(inserting && watchpointAddr[i] == WATCHPOINT_ADDR_DISABLED)
        invariant i <= watchpointCount && FirstSlot(slots, addr, inserting, 0) == FirstSlot(slots, addr, inserting, i)
      {
        i := i + 1;
      }
      if i == watchpointCount {
        ok := Reply(STD_ERROR_CODE);
        return;
      }
      assert slots[i] == watchpointAddr[i];
      var value := if inserting then addr else WATCHPOINT_ADDR_DISABLED;
      if !(inserting && watchpointAddr[i] == addr) {
        SetSlot(i, value);
      }
      assert watchpointAddr[..watchpointCount] == slots[i := value];
      assert slots[i := value] == slots ==> slots[i] == value;
      ok := Reply(OK);
    }

    method SetSlot(i: nat, value: word)
      requires Usable() && Agrees() && connected && !isTargetRunning && i < watchpointCount
      modifies this`watchpointAddr, port`target
      ensures Usable() && Agrees() && watchpointAddr == old(watchpointAddr)[i := value]
      ensures OnlySlotsChanged(old(TheCpu()), watchpointCount, TheCpu())
      ensures old(watchpointAddr)[i] == value ==> TheCpu() == old(TheCpu())
    {
      assert Reg(TheCpu(), Dvr(i)) == value ==> SetReg(TheCpu(), Dvr(i), value).spr == TheCpu().spr;
      SetDvr(TheCpu(), i, value, watchpointAddr, watchpointCount);
      WriteSprE(Dvr(i), value);
      watchpointAddr := watchpointAddr[i := value];
    }

    // process_client_command while the target is running.
    method ProcessWhileRunning(cmd: byte) returns (ok: bool)
      requires Valid() && connected && isTargetRunning
      modifies this`isTargetRunning, this`sigval, this`watchpointAddr, this`cpuPollSpeed, this`log, port`target, conn
      ensures if ok then Valid() else Detachable()
      ensures log == if cmd == GDB_RSP_BREAK_CMD then old(log) + [Halted] + [Sent(STOP_REPLY)] else old(log)
      ensures var stops := cmd == GDB_RSP_BREAK_CMD;
              && ok == (stops && Acknowledges(old(conn.input)))
              && conn.input == (if stops then BehindAck(old(conn.input)) else old(conn.input))
              && TheCpu() == if stops then old(TheCpu()).(stalled := true) else old(TheCpu())
      ensures Slots() == old(Slots()) && isTargetRunning == (cmd != GDB_RSP_BREAK_CMD)
    {
      if cmd == GDB_RSP_BREAK_CMD {
        StallCpu();
        ok := ReportStop(true);
        SameMirror(old(watchpointAddr), watchpointAddr, watchpointCount, TheCpu());
        return;
      }
      ok := false;
    }

    // ----- Memory requests -----

    // A packet in its buffer, and what the rest of the buffer holds.
    ghost predicate HoldsPacket(buf: RspBuf, body: seq<byte>, stale: seq<byte>)
      reads buf, buf.data
    {
      buf.Valid() && buf.len == |body| < GDB_BUF_MAX && buf.data[..] == InBuffer(body, stale)
    }

    // Enters a reply that has been sent by another module.
    ghost method NoteReply(reply: seq<byte>)
      requires conn.output == Output(log) + Frame(Escape(reply))
      modifies this`log
      ensures conn.output == Output(log) && log == old(log) + [Sent(reply)]
      ensures PhaseOf(log) == NextPhase(PhaseOf(old(log)), Sent(reply))
    {
      EventAdded(log, Sent(reply));
      log := log + [Sent(reply)];
    }

    method ReadMemoryRequest(body: seq<byte>) returns (r: Ending)
      requires Valid() && connected && !isTargetRunning
      modifies this`log, port`target, conn
      ensures Valid() && TheCpu() == old(TheCpu())
      ensures Took(ReadEffect(host.readMem(body), TheCpu().mem), r, old(conn.input), conn.input, old(log), log)
    {
      hide Mirrors, Hardware, SingleStepping, Output, Frame, Escape;
      var request := host.readMem(body);
      if request.None? {
        return Threw;
      }
      var (addr, len) := request.value;
      ghost var mem := TheCpu().mem;
      ghost var data;
      var handled;
      handled, data := ReadMemory(port, conn, addr, len);
      if handled == Refused {
        return Threw;
      }
      if handled == Undefined {
        return OutOfBounds;
      }
      HexNeedsNoEscape(LoadBytes(mem, addr, len));
      NoteReply(HexOf(LoadBytes(mem, addr, len)));
      r := Finished(handled == Replied);
    }

    method WriteMemoryRequest(buf: RspBuf, body: seq<byte>, ghost stale: seq<byte>) returns (r: Ending)
      requires Valid() && connected && !isTargetRunning && HoldsPacket(buf, body, stale)
      modifies this`log, port`target, conn
      ensures Valid() && TheCpu() == old(TheCpu()).(mem := TheCpu().mem, writeAddr := TheCpu().writeAddr)
      ensures Took(WriteEffect(host, body, stale, old(TheCpu())), r, old(conn.input), conn.input, old(log), log)
      ensures Written(host, body, stale, old(TheCpu()), TheCpu())
    {
      hide Mirrors, Hardware, Output, Frame, Escape, PlanWrite, MemoryIs, InBuffer, AllWritable;
      var request := host.writeMem(body);
      if request.None? {
        return Threw;
      }
      ghost var cpu := TheCpu();
      ghost var plan := WritePlanOf(host, request.value, body, stale, cpu);
      var (addr, len) := request.value;
      var handled := WriteMemory(port, conn, buf, addr, len, host.overflow, host.assertions);
      MemoryIsApart(cpu, TheCpu());
      match handled
      case Refused => r := Threw;
      case FailedAssertion => r := Aborted;
      case Undefined => r := OutOfBounds;
      case _ =>
        Literals();
        NoteReply(AnswerTo(plan, cpu, addr));
        r := Finished(handled == Replied);
    }

    lemma MemoryIsApart(c: Cpu, d: Cpu)
      requires d.spr == c.spr
      ensures Hardware(c) ==> Hardware(d)
      ensures Mirrors(watchpointAddr, watchpointCount, c) ==> Mirrors(watchpointAddr, watchpointCount, d)
    {
    }

    // ----- Register requests -----

    // dbg_cpu0_read_spr_e; None is its exception.
    method TryReadSpr(reg: half) returns (value: Option<word>)
      requires port.Clean() && Ready(port.target) && TheCpu().stalled
      modifies port`target
      ensures Ready(port.target) && TheCpu() == old(TheCpu())
      ensures value == if reg in TheCpu().spr then Some(TheCpu().spr[reg]) else None
    {
      var error, v := ReadSpr(port, reg);
      value := if error then None else Some(v);
    }

    // The loop of rsp_read_all_regs.
    method ReadGprs(buf: RspBuf) returns (ok: bool)
      requires port.Clean() && Ready(port.target) && TheCpu().stalled && buf.Valid()
      modifies port`target, buf.data
      ensures Ready(port.target) && TheCpu() == old(TheCpu()) && buf.Valid()
      ensures ok == GprText(TheCpu(), MAX_GPRS).Some?
      ensures ok ==> buf.data[..8 * MAX_GPRS] == GprText(TheCpu(), MAX_GPRS).value
    {
      hide Digits, Ready, Clean;
      for i := 0 to MAX_GPRS
        invariant Ready(port.target) && TheCpu() == old(TheCpu()) && buf.Valid()
        invariant GprText(TheCpu(), i) == Some(buf.data[..8 * i])
      {
        var value := TryReadSpr(SPR_GPR_BASE + i);
        if value.None? {
          NoGprText(TheCpu(), i + 1, MAX_GPRS);
          return false;
        }
        ghost var text := buf.data[..8 * i];
        Reg2Hex(value.value, buf.data, 8 * i);
        assert buf.data[..8 * i] == text;
        assert buf.data[..8 * (i + 1)] == text + buf.data[8 * i..8 * i + 8];
      }
      ok := true;
    }

    lemma {:induction false} NoGprText(cpu: Cpu, m: nat, n: nat)
      requires m <= n <= MAX_GPRS && GprText(cpu, m).None?
      ensures GprText(cpu, n).None?
    {
      if m < n {
        NoGprText(cpu, m, n - 1);
      }
    }

    // rsp_read_all_regs up to the reply.
    method CollectRegisters(buf: RspBuf) returns (ok: bool)
      requires port.Clean() && Ready(port.target) && TheCpu().stalled && buf.Valid()
      modifies port`target, buf, buf.data
      ensures Ready(port.target) && TheCpu() == old(TheCpu()) && buf.Valid()
      ensures ok == RegistersText(TheCpu()).Some?
      ensures ok ==> buf.Contents() == RegistersText(TheCpu()).value
    {
      hide Digits, Ready, GprText;
      ok := ReadGprs(buf);
      if !ok {
        return;
      }
      ghost var gprs := buf.data[..8 * MAX_GPRS];
      var npc := TryReadSpr(SPR_NPC);
      if npc.None? {
        return false;
      }
      var sr := TryReadSpr(SPR_SR);
      if sr.None? {
        return false;
      }
      Reg2Hex(0, buf.data, 8 * PPC_REGNUM);
      ghost var ppc := buf.data[8 * PPC_REGNUM..8 * NPC_REGNUM];
      Reg2Hex(npc.value, buf.data, 8 * NPC_REGNUM);
      assert buf.data[..8 * NPC_REGNUM][..8 * PPC_REGNUM] == gprs
             && buf.data[..8 * NPC_REGNUM][8 * PPC_REGNUM..] == ppc;
      ghost var before := buf.data[..8 * SR_REGNUM];
      Reg2Hex(sr.value, buf.data, 8 * SR_REGNUM);
      buf.len := 8 * SR_REGNUM + 8;
      assert buf.Contents() == before + buf.data[8 * SR_REGNUM..8 * SR_REGNUM + 8];
      assert before == gprs + ppc + before[8 * NPC_REGNUM..];
    }

    // rsp_read_all_regs
    method ReadAllRegs() returns (r: Ending)
      requires Valid() && connected && !isTargetRunning
      modifies this`log, port`target, conn
      ensures Valid() && TheCpu() == old(TheCpu())
      ensures Took(ReplyEffect(host, RegistersText(TheCpu())), r, old(conn.input), conn.input, old(log), log)
    {
      hide Mirrors, Hardware, SingleStepping, Output, Frame, Escape, RegistersText;
      var buf := new RspBuf();
      var ok := CollectRegisters(buf);
      if !ok {
        return Threw;
      }
      RegistersTextLength(TheCpu());
      var fault := conn.PutPacket(buf);
      NoteReply(buf.Contents());
      r := Finished(fault == None);
    }

    lemma RegistersTextLength(cpu: Cpu)
      ensures RegistersText(cpu).Some? ==> |RegistersText(cpu).value| == 280
    {
    }

    // rsp_write_reg
    method WriteReg(body: seq<byte>) returns (r: Ending)
      requires Valid() && connected && !isTargetRunning
      modifies this`log, port`target, conn
      ensures Valid()
      ensures var after := RegisterWritten(host, host.writeReg(body), old(TheCpu()));
              && Took(if after.None? then Refuses else Answers(OK), r, old(conn.input), conn.input, old(log), log)
              && TheCpu() == if after.None? then old(TheCpu()) else after.value
    {
      hide Mirrors, Hardware, Output, Ready, RegisterRead;
      var request := host.writeReg(body);
      if request.None? {
        return Threw;
      }
      var (regnum, valstr) := request.value;
      var number := RegisterNumber(regnum);
      if number.None? {
        return Threw;
      }
      if number.value.Some? {
        var newVal := ParseReg32(valstr, host.unassigned);
        if newVal.None? {
          return Threw;
        }
        var ok := TryWriteSpr(number.value.value, newVal.value);
        if !ok {
          return Threw;
        }
      }
      var ok := Reply(OK);
      r := Finished(ok);
    }

    // dbg_cpu0_write_spr_e for a register that is not the debug unit's; false is its exception.
    method TryWriteSpr(reg: half, value: word) returns (ok: bool)
      requires Usable() && Agrees() && connected && !isTargetRunning && reg < SPRGROUP_D && reg !in {SPR_VR, SPR_UPR}
      modifies port`target
      ensures Usable() && Agrees() && ok == (reg in old(TheCpu()).spr)
      ensures TheCpu() == if ok then old(TheCpu()).(spr := old(TheCpu()).spr[reg := value]) else old(TheCpu())
    {
      ghost var cpu := TheCpu();
      var error := WriteSpr(port, reg, value);
      ok := !error;
      if ok {
        OtherRegister(cpu, reg, value, watchpointAddr, watchpointCount);
      }
    }

    // ----- Names -----

    // Collects a name in s_scratch.
    method ReadName(body: seq<byte>, ends: string) returns (name: seq<byte>)
      requires body != []
      ensures name == Name(body, ends, 1)
    {
      name := [];
      var i := 1;
      while i < |body| && !EndsName(body[i], ends)
        invariant 1 <= i <= |body| && name + Name(body, ends, i) == Name(body, ends, 1)
      {
        name := name + [body[i]];
        i := i + 1;
      }
    }

    // The reply to a request that the bridge does not know.
    method ReplyUnknown() returns (r: Ending)
      requires Valid() && connected && !isTargetRunning
      modifies this`log, conn
      ensures Valid() && Took(UnknownEffect(host), r, old(conn.input), conn.input, old(log), log)
    {
      hide Hardware, Mirrors, Output, Ready, SingleStepping;
      if host.assertions {
        return Aborted;
      }
      var ok := Reply([]);
      r := Finished(ok);
    }

    // rsp_query; "monitor" commands only as far as their replies.
    method Query(body: seq<byte>) returns (r: Ending)
      requires Valid() && connected && !isTargetRunning && body != []
      modifies this`log, conn
      ensures Valid() && Took(QueryEffect(host, body), r, old(conn.input), conn.input, old(log), log)
    {
      hide Hardware, Mirrors, Output, Ready, SingleStepping, UnknownEffect, Bytes;
      var name := ReadName(body, ",:;");
      var ok := true;
      if name == [] {
        ok := false;
      } else if name == Bytes("C") {
        ok := Reply([]);
      } else if name == Bytes("Offsets") {
        ok := Reply(Bytes("Text=0;Data=0;Bss=0"));
      } else if name == Bytes("Rcmd") && 1 + |name| < |body| && body[1 + |name|] == ',' as byte {
        r := Monitor(body[2 + |name|..]);
        return;
      } else if name == Bytes("Supported") {
        ok := Reply(Bytes("PacketSize=4000"));
      } else if name == Bytes("Symbol") {
        ok := Reply(OK);
      } else if name == Bytes("Attached") || name == Bytes("TStatus") {
        ok := Reply([]);
      } else {
        r := ReplyUnknown();
        return;
      }
      r := Finished(ok);
    }

    method Monitor(command: seq<byte>) returns (r: Ending)
      requires Valid() && connected && !isTargetRunning
      modifies this`log, conn
      ensures Valid() && Took(ReplyEffect(host, host.monitor(command)), r, old(conn.input), conn.input, old(log), log)
    {
      hide Hardware, Mirrors, Output, Ready, SingleStepping;
      var reply := host.monitor(command);
      if reply.None? {
        return Threw;
      }
      if |reply.value| >= GDB_BUF_MAX - 1 {
        return if host.assertions then Aborted else Threw;
      }
      var ok := Reply(reply.value);
      r := Finished(ok);
    }

    // rsp_vpkt
    method VPacket(body: seq<byte>) returns (r: Ending)
      requires Valid() && connected && !isTargetRunning && body != []
      modifies this`log, conn
      ensures Valid() && Took(VEffect(body), r, old(conn.input), conn.input, old(log), log)
    {
      hide Hardware, Mirrors, Output, Ready, SingleStepping, Bytes;
      var name := ReadName(body, ";?");
      if name == [] {
        return Threw;
      }
      var ok := Reply(if name == Bytes("Kill") then OK else []);
      r := Finished(ok);
    }

    // ----- All requests -----

    method WatchpointRequest(inserting: bool, body: seq<byte>) returns (r: Ending)
      requires Valid() && connected && !isTargetRunning
      modifies this`watchpointAddr, this`log, port`target, conn
      ensures Valid()
      ensures Took(WatchpointEffect(host, inserting, body, old(Slots())), r, old(conn.input), conn.input, old(log), log)
      ensures SlotsBecame(host, body, inserting, old(Slots()), Slots())
      ensures OnlySlotsChanged(old(TheCpu()), watchpointCount, TheCpu())
      ensures Slots() == old(Slots()) ==> TheCpu() == old(TheCpu())
    {
      hide Hardware, Output, Ready, SingleStepping, Inserted, Removed;
      if |body| < 2 || body[1] != '1' as byte {
        var ok := Reply([]);
        return Finished(ok);
      }
      var request := host.watchpoint(body);
      if request.None? {
        return Threw;
      }
      if request.value.1 != BREAKPOINT_KIND && host.assertions {
        return Aborted;
      }
      var ok := Watchpoint(inserting, request.value.0);
      r := Finished(ok);
    }

    // The requests that lead to a reply and nothing else.
    method AnswerRequest(cmd: byte, body: seq<byte>, ghost stale: seq<byte>) returns (r: Ending)
      requires Valid() && connected && !isTargetRunning
      requires body != [] && cmd == body[0] && cmd as char in {'!', 'H', '?', 'q', 'v', 'D', 'X'}
      modifies this`log, conn
      ensures Valid()
      ensures Took(EffectOf(host, body, stale, TheCpu(), Slots()), r, old(conn.input), conn.input, old(log), log)
    {
      hide Hardware, Output, Ready, SingleStepping, QueryEffect, VEffect;
      var ok: bool;
      match cmd as char
      case '?' =>
        ok := SendSignalReplyPacket();
        r := Finished(ok);
      case 'q' => r := Query(body);
      case 'v' => r := VPacket(body);
      case 'D' =>
        ok := Reply([]);
        r := Finished(ok);
      case 'X' =>
        ok := Reply([]);
        r := Finished(ok);
      case _ =>
        ok := Reply(OK);
        r := Finished(ok);
    }

    method ResumeRequest(cmd: byte, body: seq<byte>) returns (r: Ending)
      requires Valid() && connected && !isTargetRunning && body != [] && cmd == body[0] && cmd as char in {'c', 's'}
      modifies this`isInSingleStepMode, this`isTargetRunning, this`cpuPollSpeed, this`log, port`target
      ensures Valid() && isTargetRunning == (|body| == 1)
      ensures var effect := if |body| == 1 then Resumes(cmd as char == 's') else Refuses;
              && Took(effect, r, conn.input, conn.input, old(log), log)
              && TheCpu() == if |body| == 1 then LetRun(old(TheCpu()), effect.step) else old(TheCpu())
      ensures |body| == 1 ==> isInSingleStepMode == (cmd as char == 's')
    {
      hide Hardware, Mirrors, Output, Ready, SingleStepping;
      if |body| > 1 {
        return Threw;
      }
      if cmd as char == 'c' {
        ContinueGeneric();
      } else {
        StepGeneric();
      }
      r := Done;
    }

    // The slots for hardware breakpoints.
    function Slots(): seq<word>
      reads this`watchpointCount, this`watchpointAddr
    {
      if watchpointCount <= |watchpointAddr| then watchpointAddr[..watchpointCount] else []
    }

    // process_client_command while the target is stopped: the effect that the request should have.
    method ProcessWhileStopped(cmd: byte, buf: RspBuf, body: seq<byte>, ghost stale: seq<byte>) returns (r: Ending)
      requires Valid() && connected && !isTargetRunning
      requires cmd == if body == [] then 0 else body[0]
      requires cmd as char == 'M' ==> HoldsPacket(buf, body, stale)
      modifies this`watchpointAddr, this`isInSingleStepMode, this`isTargetRunning, this`cpuPollSpeed, this`log,
               port`target, conn
      ensures Valid()
      ensures var effect := EffectOf(host, body, stale, old(TheCpu()), old(Slots()));
              && Took(effect, r, old(conn.input), conn.input, old(log), log)
              && isTargetRunning == effect.Resumes? && (effect.Resumes? ==> isInSingleStepMode == effect.step)
      ensures CpuTook(false, host, body, stale, old(TheCpu()), old(Slots()), TheCpu(), Slots())
      ensures isTargetRunning <==> |body| == 1 && cmd as char in {'c', 's'}
      ensures isTargetRunning ==> isInSingleStepMode == (cmd as char == 's')
    {
      hide Hardware, Output, Ready, SingleStepping, QueryEffect, VEffect, RegistersText, RegisterWritten, Written,
           SlotsBecame, OnlySlotsChanged, LetRun;
      hide ReadEffect, WriteEffect, WatchpointEffect, ReplyEffect, UnknownEffect;
      assert cpuPollSpeed == CpsSlow;
      match cmd as char
      case 'c' => r := ResumeRequest(cmd, body);
      case 'g' => r := ReadAllRegs();
      case 'k' => r := Done;
      case 'm' => r := ReadMemoryRequest(body);
      case 'M' => r := WriteMemoryRequest(buf, body, stale);
      case 'P' => r := WriteReg(body);
      case 's' => r := ResumeRequest(cmd, body);
      case 'z' => r := WatchpointRequest(false, body);
      case 'Z' => r := WatchpointRequest(true, body);
      case _ =>
        if cmd == GDB_RSP_BREAK_CMD {
          var ok := SendSignalReplyPacket();
          r := Finished(ok);
        } else if cmd as char in {'!', 'H', '?', 'q', 'v', 'D', 'X'} {
          r := AnswerRequest(cmd, body, stale);
        } else {
          r := ReplyUnknown();
        }
    }

    // A packet with its terminator, or the break character alone.
    ghost predicate IsRequest(buf: RspBuf)
      reads buf, buf.data
    {
      buf.Valid() && buf.len < GDB_BUF_MAX && (buf.Contents() == [GDB_RSP_BREAK_CMD] || buf.data[buf.len] == 0)
    }

    method ReceivePacket(buf: RspBuf) returns (received: Arrival)
      requires Valid() && connected && buf.Valid()
      modifies this`log, this`isFirstPacket, conn, buf, buf.data
      ensures Valid() && buf.Valid()
      ensures var parsed := Parse(old(conn.input), old(isFirstPacket));
              && log == old(log) + Acknowledgement(parsed)
              && (received == ReceivedPacket) == RequestIn(parsed).Some?
              && (RequestIn(parsed).Some? ==>
                    buf.Contents() == RequestIn(parsed).value && conn.input == parsed.rest)
      ensures received == ReceivedPacket ==> IsRequest(buf) && !isFirstPacket
    {
      hide Hardware, Mirrors, Ready, SingleStepping, Parse, Output;
      ghost var parsed := Parse(conn.input, isFirstPacket);
      received := conn.GetPacket(isFirstPacket, buf);
      EventAdded(log, Acked);
      assert log + [] == log;
      log := log + Acknowledgement(parsed);
      if parsed.Break? {
        assert |buf.Contents()| == 1;
      }
      if received == ReceivedPacket {
        isFirstPacket := false;
      }
    }

    // process_client_command
    method ProcessClientCommand(buf: RspBuf) returns (r: Ending)
      requires Valid() && connected && IsRequest(buf)
      modifies this`watchpointAddr, this`isInSingleStepMode, this`isTargetRunning, this`cpuPollSpeed, this`sigval,
               this`log
      modifies port`target, conn
      ensures if r == Threw then Detachable() else Valid()
      ensures var body, stale := buf.Contents(), buf.data[buf.len + 1..];
              var effect := RequestEffect(old(isTargetRunning), host, body, stale, old(TheCpu()), old(Slots()));
              && Took(effect, r, old(conn.input), conn.input, old(log), log)
              && CpuTook(old(isTargetRunning), host, body, stale, old(TheCpu()), old(Slots()), TheCpu(), Slots())
              && isTargetRunning == RunsAfter(effect, old(isTargetRunning))
    {
      hide Hardware, Ready, SingleStepping, Output, EffectOf, CpuBecame, SlotsBecame, OnlySlotsChanged, LetRun;
      var body := buf.Contents();
      ghost var stale := buf.data[buf.len + 1..];
      assert body != [] ==> body[0] == buf.data[0];
      assert body != [GDB_RSP_BREAK_CMD] ==> buf.data[..] == InBuffer(body, stale);
      if isTargetRunning {
        var ok := ProcessWhileRunning(buf.data[0]);
        r := Finished(ok);
      } else {
        r := ProcessWhileStopped(buf.data[0], buf, body, stale);
      }
    }

    // All that the contracts over whole runs speak of.
    ghost function TheView(): View
      reads this, port, conn
    {
      View(connected, isFirstPacket, isTargetRunning, conn.input, Slots(), TheCpu(), log)
    }

    // process_rsp_client_request: any exception ends the connection, after detaching. The buffer is a
    // local variable that nothing is assigned to beforehand; `served` is the CPU before detaching.
    method ProcessRequest() returns (r: Ending, ghost stale: seq<byte>, ghost served: Cpu)
      requires Valid() && connected
      modifies this, port`target, conn
      ensures Valid() && old(log) <= log && r != Threw
      ensures RequestProcessed(host, old(TheView()), r, stale, served, TheView())
    {
      hide Hardware, Ready, SingleStepping, Output, RequestEffect, Took, Parse, Frame, Usable, Agrees, LeftAlone,
           Mirrors, CpuTook, LeftRunning, RequestProcessed, Acknowledgement;
      ConnectedIsDetachable();
      ghost var before := TheView();
      var buf := new RspBuf();
      var received := ReceivePacket(buf);
      stale, served := [], TheCpu();
      if received != ReceivedPacket {
        ConnectedIsDetachable();
        Disconnect();
        NoRequest(host, before, stale, TheView());
        return Done, stale, served;
      }
      stale := buf.data[buf.len + 1..];
      r, served := ServeRequest(buf, before);
    }

    // A request that has been received when the session was as in `before`.
    method ServeRequest(buf: RspBuf, ghost before: View) returns (r: Ending, ghost served: Cpu)
      requires Valid() && connected && IsRequest(buf) && !isFirstPacket && before.connected
      requires RequestIn(Parse(before.input, before.first)) == Some(buf.Contents())
      requires conn.input == Parse(before.input, before.first).rest
      requires log == before.log + Acknowledgement(Parse(before.input, before.first))
      requires isTargetRunning == before.running && TheCpu() == before.cpu && Slots() == before.slots
      modifies this, port`target, conn
      ensures Valid() && old(log) <= log && r != Threw
      ensures RequestProcessed(host, before, r, buf.data[buf.len + 1..], served, TheView())
    {
      hide Hardware, Ready, SingleStepping, Output, RequestEffect, Took, Parse, Frame, Usable, Agrees, LeftAlone,
           Mirrors, CpuTook, LeftRunning, RequestProcessed, Acknowledgement, RunsAfter;
      ghost var body, stale, input, acknowledged := buf.Contents(), buf.data[buf.len + 1..], conn.input, log;
      r := ProcessClientCommand(buf);
      TookMore(RequestEffect(before.running, host, body, stale, before.cpu, before.slots), r, input, conn.input,
               acknowledged, log);
      served := TheCpu();
      ghost var after := TheView();
      if r == Threw {
        Disconnect();
      }
      RequestServed(host, before, body, stale, r, after, TheView());
      r := if r == Threw then Done else r;
    }

    // ----- The server loop -----

    // The CPU goes on by itself.
    method CpuGoesOn(cpu: Cpu)
      requires Valid() && CpuMay(TheCpu(), cpu)
      modifies port`target
      ensures Valid() && TheCpu() == cpu
    {
      CpuKeepsHardware(TheCpu(), cpu);
      if connected && !TheCpu().stalled {
        MirrorsSettings(watchpointAddr, watchpointCount, TheCpu(), cpu);
      }
      port.target := port.target.(unit := port.target.unit.(cpu := cpu));
    }

    // check_connection_with_cpu_is_still_there
    method CheckConnection()
      requires Valid() && !connected
      modifies port`target
      ensures Valid() && TheCpu() == old(TheCpu())
      ensures port.target.unit.log == old(port.target.unit.log) + [StallQuery, Nop]
    {
      var _ := IsCpuStalled(port);
    }

    // One turn; an exception in it ends the program, too.
    method Turn(h: Happening) returns (r: Ending)
      requires Valid() && (h.CpuChanges? ==> CpuMay(TheCpu(), h.cpu))
      modifies this, port`target, conn
      ensures old(log) <= log && PhaseOf(log) != Broken
      ensures r != Threw ==> Valid()
      ensures Turned(host, h, old(TheView()), r, TheView())
      ensures h == Timeout && r == Done ==> !(connected && isTargetRunning && TheCpu().stalled)
    {
      hide Hardware, Mirrors, Ready, SingleStepping, Output, CpuMay, RequestProcessed, Usable, Agrees, LeftAlone,
           PhaseOf, Frame, TakenOver, LeftRunning;
      r := Done;
      match h
      case ClientConnects(input) =>
        if !connected {
          AcceptClient(input);
        }
      case ClientIsActive =>
        if connected {
          ghost var stale, served;
          r, stale, served := ProcessRequest();
        }
      case Timeout =>
        if connected {
          var ok := PollCpu();
          r := Finished(ok);
        } else {
          CheckConnection();
        }
      case CpuChanges(cpu) => CpuGoesOn(cpu);
    }

    // A change that the CPU does not make by itself is left out.
    method TakeTurn(schedule: seq<Happening>, k: nat, ghost trace: seq<View>) returns (r: Ending,
                    ghost longer: seq<View>)
      requires Valid() && k < |schedule| && IsRun(host, schedule[..k], trace)
      requires |trace| == k + 1 && trace[k] == TheView()
      modifies this, port`target, conn
      ensures old(log) <= log && PhaseOf(log) != Broken && (r != Threw ==> Valid())
      ensures longer == trace + [TheView()] && Turned(host, schedule[k], trace[k], r, TheView())
      ensures r == Done ==> IsRun(host, schedule[..k + 1], longer)
      ensures r == Done && schedule[k] == Timeout ==> !(connected && isTargetRunning && TheCpu().stalled)
    {
      hide Turned, IsRun, Usable, Agrees, LeftAlone, PhaseOf, CpuMay;
      var h := schedule[k];
      if h.CpuChanges? && !CpuMay(TheCpu(), h.cpu) {
        Ignored(host, h, TheView());
        r := Done;
      } else {
        r := Turn(h);
      }
      OneMoreTurn(host, schedule, trace, k, r, TheView());
      longer := trace + [TheView()];
    }

    // The loop of handle_rsp; things happen in any order, and the CPU does what it may. All that happens,
    // up to an exception or the end of the program, is a run. A time-out at the end leaves no stop unnoticed.
    method HandleAll(schedule: seq<Happening>) returns (r: Ending, ghost trace: seq<View>)
      requires Valid()
      modifies this, port`target, conn
      ensures old(log) <= log && PhaseOf(log) != Broken
      ensures r != Threw ==> Valid()
      ensures 0 < |trace| <= |schedule| + 1 && trace[0] == old(TheView()) && trace[|trace| - 1] == TheView()
      ensures r == Done ==> IsRun(host, schedule, trace)
      ensures r != Done ==>
                var n := |trace| - 2;
                && n >= 0 && IsRun(host, schedule[..n], trace[..n + 1])
                && Turned(host, schedule[n], trace[n], r, trace[n + 1])
      ensures r == Done && schedule != [] && schedule[|schedule| - 1] == Timeout ==>
                !(connected && isTargetRunning && TheCpu().stalled)
    {
      hide Turned, IsRun, Usable, Agrees, LeftAlone, PhaseOf, CpuMay;
      trace := [TheView()];
      NoTurn(host, schedule[..0], TheView());
      for k := 0 to |schedule|
        invariant Valid() && old(log) <= log && |trace| == k + 1 && trace[0] == old(TheView()) && trace[k] == TheView()
        invariant IsRun(host, schedule[..k], trace)
        invariant k > 0 && schedule[k - 1] == Timeout ==> !(connected && isTargetRunning && TheCpu().stalled)
      {
        ghost var before := trace;
        r, trace := TakeTurn(schedule, k, trace);
        assert trace[..k + 1] == before;
        if r != Done {
          return;
        }
      }
      assert schedule[..|schedule|] == schedule;
      r := Done;
    }

    // handle_rsp, up to an exit request or the end of the program.
    method Serve(schedule: seq<Happening>) returns (r: Ending)
      requires Valid()
      modifies this, port`target, conn
      ensures old(log) <= log && PhaseOf(log) != Broken
      ensures r != Threw ==> Valid()
      ensures r == Done ==> !connected && Count(log, Resumed) == Count(log, Halted) + CutShort(log)
    {
      ghost var trace;
      r, trace := HandleAll(schedule);
      if r != Done {
        return;
      }
      if connected {
        ConnectedIsDetachable();
        Disconnect();
      }
      EachResumeEndsOnce(log);
    }
  }
}

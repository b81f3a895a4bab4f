// The registers behind a debugging session, and what the CPU does with them on its own.
module DebugRegisters {
  import opened Bits
  import opened Cpu

  const MAX_WATCHPOINT_COUNT: nat := 8
  const ST_BIT: nat := 22  // SPR_DMR1_ST is 1 << 22
  const SPR_DSR_TE: word := 0x2000
  const SPR_DRR_TE: word := 0x2000

  // SPR_DVR( i )
  function Dvr(i: nat): half
    requires i < MAX_WATCHPOINT_COUNT
  {
    SPRGROUP_D + i
  }

  function Reg(c: Cpu, reg: half): word {
    if reg in c.spr then c.spr[reg] else 0
  }

  function SetReg(c: Cpu, reg: half, value: word): Cpu {
    c.(spr := c.spr[reg := value])
  }

  // What the bridge relies on: all registers it uses are there, with at most 8 hardware watchpoints,
  // and the only stop reason is the trap exception.
  ghost predicate Hardware(c: Cpu) {
    && SPR_DMR1 in c.spr && SPR_DSR in c.spr && SPR_DRR in c.spr && SPR_VR in c.spr && SPR_UPR in c.spr
    && OR1200_DU_WATCHPOINT_COUNT in c.spr && Reg(c, OR1200_DU_WATCHPOINT_COUNT) <= MAX_WATCHPOINT_COUNT
    && (forall i: nat :: i < MAX_WATCHPOINT_COUNT && i < Reg(c, OR1200_DU_WATCHPOINT_COUNT) ==> Dvr(i) in c.spr)
    && Reg(c, SPR_DRR) in {0, SPR_DRR_TE}
  }

  predicate SingleStepping(c: Cpu) {
    Bit(Reg(c, SPR_DMR1), ST_BIT)
  }

  // The part of the registers that software leaves alone.
  predicate SameSettings(c: Cpu, d: Cpu) {
    && d.spr.Keys == c.spr.Keys && d.rom == c.rom && d.mem.Keys == c.mem.Keys
    && Reg(d, SPR_DMR1) == Reg(c, SPR_DMR1) && Reg(d, SPR_DSR) == Reg(c, SPR_DSR)
    && Reg(d, OR1200_DU_WATCHPOINT_COUNT) == Reg(c, OR1200_DU_WATCHPOINT_COUNT)
    && forall i: nat :: i < MAX_WATCHPOINT_COUNT ==> Reg(d, Dvr(i)) == Reg(c, Dvr(i))
  }

  // What the CPU may do between two accesses of the bridge: nothing while it is stalled. Otherwise
  // it runs on, or it stalls by itself: on a trap, if traps go to the debug unit, or after a single
  // step, which leaves no reason behind.
  predicate CpuMay(c: Cpu, d: Cpu) {
    if c.stalled then d == c
    else
      && SameSettings(c, d)
      && if !d.stalled then Reg(d, SPR_DRR) == Reg(c, SPR_DRR)
         else if Reg(c, SPR_DSR) == SPR_DSR_TE && Reg(d, SPR_DRR) == SPR_DRR_TE then true
         else SingleStepping(c) && Reg(d, SPR_DRR) == Reg(c, SPR_DRR)
  }

  lemma CpuKeepsHardware(c: Cpu, d: Cpu)
    requires Hardware(c) && CpuMay(c, d)
    ensures Hardware(d)
  {
  }

  // dmr1 | SPR_DMR1_ST, or dmr1 & ~SPR_DMR1_ST
  function WithStep(dmr1: word, enable: bool): word {
    PowersOfTwo();
    SetBitBound(dmr1, ST_BIT, 32);
    AndBound(dmr1, FromBits(seq(32, j => j != ST_BIT)));
    if enable then SetBit(dmr1, ST_BIT) else And(dmr1, FromBits(seq(32, j => j != ST_BIT)))
  }

  // Only the one bit changes.
  lemma WithStepBit(dmr1: word, enable: bool, j: nat)
    requires j < 32
    ensures Bit(WithStep(dmr1, enable), j) == if j == ST_BIT then enable else Bit(dmr1, j)
  {
    SetBitBit(dmr1, ST_BIT, j);
    var mask := seq(32, j => j != ST_BIT);
    AndBit(dmr1, FromBits(mask), j);
    FromBitsBit(mask, j);
  }

  // A bit that is right already stays.
  lemma SameStep(dmr1: word, enable: bool)
    requires Bit(dmr1, ST_BIT) == enable
    ensures WithStep(dmr1, enable) == dmr1
  {
    hide Bit, WithStep;
    PowersOfTwo();
    forall j | 0 <= j < 32 ensures Bit(WithStep(dmr1, enable), j) == Bit(dmr1, j) {
      WithStepBit(dmr1, enable, j);
    }
    BitsDetermine(WithStep(dmr1, enable), dmr1, 32);
  }

  // ----- What the bridge makes of the CPU -----

  function WithStepMode(c: Cpu, enable: bool): Cpu {
    SetReg(c, SPR_DMR1, WithStep(Reg(c, SPR_DMR1), enable))
  }

  // A CPU that a client has just been attached to, that has been let go at a client's request, and that is
  // left alone.
  function TakenOver(c: Cpu): Cpu {
    WithStepMode(SetReg(c, SPR_DSR, SPR_DSR_TE), false).(stalled := true)
  }

  function LetRun(c: Cpu, step: bool): Cpu {
    WithStepMode(SetReg(c, SPR_DRR, 0), step).(stalled := false)
  }

  function LeftRunning(c: Cpu): Cpu {
    WithStepMode(SetReg(c, SPR_DSR, 0), false).(stalled := false)
  }

  // Two registers are set, and nothing else differs but the stall state.
  ghost predicate OnlyTwoSet(c: Cpu, reg: half, value: word, step: bool, d: Cpu) {
    && Reg(d, reg) == value
    && (forall j :: 0 <= j < 32 ==> Bit(Reg(d, SPR_DMR1), j) == if j == ST_BIT then step else Bit(Reg(c, SPR_DMR1), j))
    && (forall r: half :: r != reg && r != SPR_DMR1 ==> (r in d.spr <==> r in c.spr) && Reg(d, r) == Reg(c, r))
    && d == c.(spr := d.spr, stalled := d.stalled)
  }

  lemma TwoAreSet(c: Cpu, reg: half, value: word, step: bool, stalled: bool)
    requires reg != SPR_DMR1
    ensures OnlyTwoSet(c, reg, value, step, WithStepMode(SetReg(c, reg, value), step).(stalled := stalled))
  {
    hide Bit, WithStep;
    var before, d := Reg(c, SPR_DMR1), WithStepMode(SetReg(c, reg, value), step).(stalled := stalled);
    assert Reg(d, SPR_DMR1) == WithStep(before, step);
    forall j | 0 <= j < 32 ensures Bit(Reg(d, SPR_DMR1), j) == if j == ST_BIT then step else Bit(before, j) {
      WithStepBit(before, step, j);
    }
  }

  lemma WhatIsSet(c: Cpu, step: bool)
    ensures OnlyTwoSet(c, SPR_DSR, 0x2000, false, TakenOver(c)) && TakenOver(c).stalled
    ensures OnlyTwoSet(c, SPR_DRR, 0, step, LetRun(c, step)) && !LetRun(c, step).stalled
    ensures OnlyTwoSet(c, SPR_DSR, 0, false, LeftRunning(c)) && !LeftRunning(c).stalled
  {
    hide OnlyTwoSet, WithStepMode;
    TwoAreSet(c, SPR_DSR, SPR_DSR_TE, false, true);
    TwoAreSet(c, SPR_DRR, 0, step, false);
    TwoAreSet(c, SPR_DSR, 0, false, false);
  }

  // Only watchpoint registers differ.
  ghost predicate OnlySlotsChanged(c: Cpu, count: nat, d: Cpu) {
    && d == c.(spr := d.spr) && d.spr.Keys == c.spr.Keys
    && forall r: half :: r < SPRGROUP_D || r >= SPRGROUP_D + count ==> Reg(d, r) == Reg(c, r)
  }

  // ----- The bridge's copy of the watchpoint registers -----

  ghost predicate Mirrors(slots: seq<word>, count: nat, c: Cpu) {
    && count <= |slots| == MAX_WATCHPOINT_COUNT
    && forall i: nat :: i < count ==> slots[i] == Reg(c, Dvr(i))
  }

  lemma SameMirror(slots: seq<word>, slots': seq<word>, count: nat, c: Cpu)
    requires Mirrors(slots, count, c) && Mirrors(slots', count, c)
    ensures slots'[..count] == slots[..count]
  {
  }

  lemma MirrorsSettings(slots: seq<word>, count: nat, c: Cpu, d: Cpu)
    requires Mirrors(slots, count, c) && SameSettings(c, d)
    ensures Mirrors(slots, count, d)
  {
  }

  // Registers other than those for watchpoints.
  lemma SetKeeps(c: Cpu, reg: half, value: word, slots: seq<word>, count: nat)
    requires Hardware(c) && reg in {SPR_DMR1, SPR_DSR, SPR_DRR} && (reg == SPR_DRR ==> value == 0)
    ensures Hardware(SetReg(c, reg, value))
    ensures Mirrors(slots, count, c) ==> Mirrors(slots, count, SetReg(c, reg, value))
  {
    var d := SetReg(c, reg, value);
    forall i: nat | i < MAX_WATCHPOINT_COUNT
      ensures Reg(d, Dvr(i)) == Reg(c, Dvr(i)) && (Dvr(i) in c.spr ==> Dvr(i) in d.spr)
    {
      assert Dvr(i) != reg;
    }
  }

  lemma SetDvr(c: Cpu, i: nat, value: word, slots: seq<word>, count: nat)
    requires Hardware(c) && Mirrors(slots, count, c) && i < count
    ensures Hardware(SetReg(c, Dvr(i), value)) && Mirrors(slots[i := value], count, SetReg(c, Dvr(i), value))
    ensures forall r: half :: r in {SPR_DMR1, SPR_DSR, SPR_DRR, OR1200_DU_WATCHPOINT_COUNT} ==>
             Reg(SetReg(c, Dvr(i), value), r) == Reg(c, r)
  {
  }

  // A register that has nothing to do with debugging.
  lemma OtherRegister(c: Cpu, reg: half, value: word, slots: seq<word>, count: nat)
    requires Hardware(c) && reg in c.spr && reg < SPRGROUP_D
    ensures Hardware(SetReg(c, reg, value))
    ensures Mirrors(slots, count, c) ==> Mirrors(slots, count, SetReg(c, reg, value))
    ensures forall r: half :: r >= SPRGROUP_D ==> Reg(SetReg(c, reg, value), r) == Reg(c, r)
  {
    var d := SetReg(c, reg, value);
    forall i: nat | i < MAX_WATCHPOINT_COUNT
      ensures Reg(d, Dvr(i)) == Reg(c, Dvr(i)) && (Dvr(i) in c.spr ==> Dvr(i) in d.spr)
    {
      assert Dvr(i) != reg;
    }
  }
}

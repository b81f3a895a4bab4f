// The OR10 CPU as its debug unit shows it: special purpose registers, and a memory
// that is only accessible in aligned 32-bit words.
module Cpu {
  import opened Bits

  type half = x: nat | x < 0x1_0000  // uint16_t

  const SPRGROUP_D: half := 0x3000
  const SPR_DMR1: half := SPRGROUP_D + 16
  const SPR_DSR: half := SPRGROUP_D + 20
  const SPR_DRR: half := SPRGROUP_D + 21
  const SPR_DU_EDIS: half := SPRGROUP_D + 200
  const SPR_DU_READ_MEM_ADDR: half := SPRGROUP_D + 201
  const OR1200_DU_WRITE_MEM_ADDR: half := SPRGROUP_D + 202
  const OR1200_DU_WRITE_MEM_DATA: half := SPRGROUP_D + 203
  const OR1200_DU_WATCHPOINT_COUNT: half := SPRGROUP_D + 204
  const SPR_VR: half := 0
  const SPR_UPR: half := 1
  const SPR_NPC: half := 16
  const SPR_SR: half := 17
  const SPR_GPR_BASE: half := 1024

  // Memory: aligned addresses of the words that can be read, with their values.
  type Memory = map<nat, word>

  datatype Cpu = Cpu(
    spr: map<nat, word>,   // the implemented registers
    mem: Memory,
    rom: set<nat>,         // aligned addresses that reject writes
    writeAddr: word,       // the last value of OR1200_DU_WRITE_MEM_ADDR
    stalled: bool)

  datatype Outcome = Outcome(cpu: Cpu, error: bool, value: word)

  predicate Readable(cpu: Cpu, addr: nat) {
    addr in cpu.mem
  }

  predicate Writable(cpu: Cpu, addr: nat) {
    addr in cpu.mem && addr !in cpu.rom
  }

  // Writing a register; the value is what the debug unit returns after the write.
  function WriteRegister(cpu: Cpu, reg: half, value: word): Outcome {
    if reg == SPR_DU_READ_MEM_ADDR then
      if Readable(cpu, value) then Outcome(cpu, false, cpu.mem[value]) else Outcome(cpu, true, 0)
    else if reg == OR1200_DU_WRITE_MEM_ADDR then
      Outcome(cpu.(writeAddr := value), false, value)
    else if reg == OR1200_DU_WRITE_MEM_DATA then
      if Writable(cpu, cpu.writeAddr)
      then Outcome(cpu.(mem := cpu.mem[cpu.writeAddr := value]), false, value)
      else Outcome(cpu, true, 0)
    else if reg == SPR_DU_EDIS then
      Outcome(cpu.(stalled := value % 2 == 1), false, value)
    else if reg in cpu.spr then
      Outcome(cpu.(spr := cpu.spr[reg := value]), false, value)
    else
      Outcome(cpu, true, 0)
  }

  function ReadRegister(cpu: Cpu, reg: half): Outcome {
    if reg in cpu.spr then Outcome(cpu, false, cpu.spr[reg]) else Outcome(cpu, true, 0)
  }
}

// The JTAG side of the CPU's debug module: a shift register whose most recent bits are
// decoded as a command on Update-DR, and a reply that is shifted out afterwards.
module DebugUnit {
  import opened Bits
  import opened Cpu

  const DEBUG_CMD_LEN: nat := 3
  const DEBUG_CMD_NOP: nat := 0
  const DEBUG_CMD_IS_CPU_STALLED: nat := 1
  const DEBUG_CMD_WRITE_CPU_SPR: nat := 2
  const DEBUG_CMD_READ_CPU_SPR: nat := 3

  // Long enough for a value, a register number and a command.
  const SHIFT_LENGTH: nat := 51

  type ShiftRegister = s: seq<bool> | |s| == SHIFT_LENGTH witness seq(SHIFT_LENGTH, _ => false)

  datatype Command =
    | Nop
    | StallQuery
    | SprWrite(reg: half, value: word)
    | SprRead(reg: half)
    | Unsupported(code: nat)

  // What follows a command: nothing, a bit, or after some delay a '1', an error bit and a value.
  datatype Reply = Silent | StallBit(stalled: bool) | Ack(delay: nat, error: bool, value: word)

  datatype DebugUnit = DebugUnit(
    cpu: Cpu,
    shift: ShiftRegister,   // oldest bit first
    reply: Reply,
    pos: nat,               // how many bits of the reply have been shifted out
    log: seq<Command>,      // all commands seen on Update-DR
    delay: nat -> nat)      // the acknowledge delay of the n-th command, in bits

  function Decode(shift: ShiftRegister): Command {
    PowersOfTwo();
    var code := FromBits(shift[48..51]);
    var reg: half := FromBits(shift[32..48]);
    var value: word := FromBits(shift[0..32]);
    if code == DEBUG_CMD_NOP then Nop
    else if code == DEBUG_CMD_IS_CPU_STALLED then StallQuery
    else if code == DEBUG_CMD_WRITE_CPU_SPR then SprWrite(reg, value)
    else if code == DEBUG_CMD_READ_CPU_SPR then SprRead(reg)
    else Unsupported(code)
  }

  // The atomic meaning of a command: the new CPU state and what can be read back.
  function Exec(cpu: Cpu, cmd: Command): Outcome {
    match cmd
    case SprWrite(reg, value) => WriteRegister(cpu, reg, value)
    case SprRead(reg) => ReadRegister(cpu, reg)
    case _ => Outcome(cpu, false, 0)
  }

  function ReplyTo(u: DebugUnit, cmd: Command): Reply {
    match cmd
    case SprWrite(_, _) => Ack(u.delay(|u.log|), Exec(u.cpu, cmd).error, Exec(u.cpu, cmd).value)
    case SprRead(_) => Ack(u.delay(|u.log|), Exec(u.cpu, cmd).error, Exec(u.cpu, cmd).value)
    case StallQuery => StallBit(u.cpu.stalled)
    case _ => Silent
  }

  function Update(u: DebugUnit): DebugUnit {
    var cmd := Decode(u.shift);
    u.(cpu := Exec(u.cpu, cmd).cpu, reply := ReplyTo(u, cmd), log := u.log + [cmd])
  }

  // u1 is what executing cmd makes of u0, whatever is left in the shift register.
  predicate Executed(u0: DebugUnit, cmd: Command, u1: DebugUnit) {
    u1.cpu == Exec(u0.cpu, cmd).cpu && u1.reply == ReplyTo(u0, cmd) && u1.log == u0.log + [cmd]
  }

  predicate ReplyBit(r: Reply, n: nat) {
    match r
    case Silent => false
    case StallBit(stalled) => n == 0 && stalled
    case Ack(delay, error, value) =>
      if n == delay then true
      else if n == delay + 1 then error
      else n > delay + 1 && n < delay + 34 && Bit(value, n - delay - 2)
  }

  function ShiftUnit(u: DebugUnit, bits: seq<bool>): DebugUnit {
    u.(shift := (u.shift + bits)[|bits|..], pos := u.pos + |bits|)
  }
}

// The hardware at the other end of the cable: a chain of JTAG devices behind one TAP state,
// moved by one clock event at a time.
module Target {
  import opened Bits
  import opened Clocks
  import opened Tap
  import opened DebugUnit

  // What a device puts into the data path after a reset; clause 12 of IEEE Std 1149.1-2001.
  datatype Device = Bypass | IdCode(code: word)

  // The instructions in force: those selected by a reset, or what Update-IR last loaded.
  datatype Selection = PowerUp | Loaded(instruction: seq<bool>)

  // All scan paths are listed from the TDO end.
  datatype Target = Target(
    tap: TapState,
    trstWired: bool,
    selection: Selection,
    irCapture: seq<bool>,          // what Capture-IR loads into the instruction registers
    ir: seq<bool>,
    devices: seq<Device>,          // what is in the data path after a reset
    under: seq<bool> -> seq<Device>,  // and with other instructions loaded, but those for the debug module
    dr: seq<bool>,                 // the data path while the debug module is not selected
    debugInstruction: seq<bool>,   // the instruction registers that select the debug module
    unit: DebugUnit)

  predicate DebugSelected(t: Target) {
    t.selection == Loaded(t.debugInstruction)
  }

  function Captured(d: Device): seq<bool> {
    match d
    case Bypass => [false]
    case IdCode(code) => ToBits(code, 32)
  }

  function CapturedPath(devices: seq<Device>): seq<bool> {
    if devices == [] then [] else Captured(devices[0]) + CapturedPath(devices[1..])
  }

  function CaptureDrPath(t: Target): seq<bool> {
    CapturedPath(if t.selection == PowerUp then t.devices else t.under(t.selection.instruction))
  }

  // Shifting bits into the path that the TAP state selects.
  function Shifted(t: Target, bits: seq<bool>): Target {
    match t.tap
    case ShiftIr => t.(ir := (t.ir + bits)[|bits|..])
    case ShiftDr =>
      if DebugSelected(t) then t.(unit := ShiftUnit(t.unit, bits))
      else t.(dr := (t.dr + bits)[|bits|..])
    case _ => t
  }

  function ShiftedOut(t: Target, bits: seq<bool>): (s: seq<bool>)
    requires InShift(t.tap)
    ensures |s| == |bits|
  {
    if t.tap == ShiftIr then (t.ir + bits)[..|bits|]
    else if DebugSelected(t) then seq(|bits|, k requires 0 <= k => ReplyBit(t.unit.reply, t.unit.pos + k))
    else (t.dr + bits)[..|bits|]
  }

  function Enter(t: Target, s: TapState): Target {
    var u := t.(tap := s);
    match s
    case TestLogicReset => u.(selection := PowerUp)
    case UpdateIr => u.(selection := Loaded(t.ir))
    case UpdateDr => if DebugSelected(t) then u.(unit := Update(t.unit)) else u
    case _ => u
  }

  // One rising edge of TCK.
  function Step(t: Target, c: Clock): Target {
    var u :=
      match t.tap
      case CaptureIr => t.(ir := t.irCapture)
      case CaptureDr =>
        if DebugSelected(t) then t.(unit := t.unit.(pos := 0)) else t.(dr := CaptureDrPath(t))
      case _ => Shifted(t, [c.tdi]);
    Enter(u, Next(t.tap, c.tms))
  }

  // The level of TDO sampled at that edge; it only means something in the shift states.
  predicate Tdo(t: Target, c: Clock) {
    InShift(t.tap) && ShiftedOut(t, [c.tdi])[0]
  }

  function Run(t: Target, cs: seq<Clock>): Target {
    if cs == [] then t else Step(Run(t, cs[..|cs| - 1]), cs[|cs| - 1])
  }

  function Tdis(cs: seq<Clock>): (s: seq<bool>)
    ensures |s| == |cs| && forall k :: 0 <= k < |cs| ==> s[k] == cs[k].tdi
  {
    seq(|cs|, k requires 0 <= k < |cs| => cs[k].tdi)
  }

  function Tdos(t: Target, cs: seq<Clock>): (s: seq<bool>)
    ensures |s| == |cs|
  {
    if cs == [] then []
    else
      var front := cs[..|cs| - 1];
      Tdos(t, front) + [Tdo(Run(t, front), cs[|cs| - 1])]
  }

  lemma RunOneMore(t: Target, cs: seq<Clock>, k: nat)
    requires k < |cs|
    ensures Run(t, cs[..k + 1]) == Step(Run(t, cs[..k]), cs[k])
    ensures Tdos(t, cs[..k + 1]) == Tdos(t, cs[..k]) + [Tdo(Run(t, cs[..k]), cs[k])]
  {
    assert cs[..k + 1][..k] == cs[..k];
  }

  function Exit1(s: TapState): TapState {
    if s == ShiftIr then Exit1Ir else Exit1Dr
  }

  // Clocks that start in a shift state and keep TMS low up to the last one exchange exactly
  // their data bits with the selected path, and end in Exit1 just when the last TMS is high.
  lemma {:induction false} ShiftRun(t: Target, cs: seq<Clock>)
    requires InShift(t.tap)
    requires forall k :: 0 <= k < |cs| - 1 ==> !cs[k].tms
    ensures Run(t, cs) == Shifted(t, Tdis(cs)).(tap := if cs != [] && cs[|cs| - 1].tms then Exit1(t.tap) else t.tap)
  {
    if cs == [] {
      assert t.ir + [] == t.ir && t.dr + [] == t.dr && t.unit.shift + [] == t.unit.shift;
    } else {
      var n := |cs| - 1;
      ShiftRun(t, cs[..n]);
      assert Shifted(t, Tdis(cs[..n])).(tap := t.tap) == Shifted(t, Tdis(cs[..n]));
      StepInShift(t, Tdis(cs[..n]), cs[n]);
      assert Tdis(cs) == Tdis(cs[..n]) + [cs[n].tdi];
    }
  }

  lemma StepInShift(t: Target, bits: seq<bool>, c: Clock)
    requires InShift(t.tap)
    ensures Step(Shifted(t, bits), c) == Shifted(t, bits + [c.tdi]).(tap := if c.tms then Exit1(t.tap) else t.tap)
  {
    ShiftOneMore(t, bits, c.tdi);
  }

  lemma ShiftOneMore(t: Target, bits: seq<bool>, b: bool)
    requires InShift(t.tap)
    ensures Shifted(Shifted(t, bits), [b]) == Shifted(t, bits + [b])
  {
    SlicedOneMore(t.ir, bits, b);
    SlicedOneMore(t.dr, bits, b);
    SlicedOneMore(t.unit.shift, bits, b);
  }

  lemma SlicedOneMore(s: seq<bool>, bits: seq<bool>, b: bool)
    ensures ((s + bits)[|bits|..] + [b])[1..] == (s + (bits + [b]))[|bits| + 1..]
  {
    assert (s + bits)[|bits|..] + [b] == (s + (bits + [b]))[|bits|..];
  }

  lemma ShiftedOutOneMore(t: Target, bits: seq<bool>, b: bool)
    requires InShift(t.tap)
    ensures ShiftedOut(t, bits + [b]) == ShiftedOut(t, bits) + ShiftedOut(Shifted(t, bits), [b])
  {
    FrontOneMore(t.ir, bits, b);
    FrontOneMore(t.dr, bits, b);
  }

  lemma FrontOneMore(s: seq<bool>, bits: seq<bool>, b: bool)
    ensures (s + (bits + [b]))[..|bits| + 1] == (s + bits)[..|bits|] + ((s + bits)[|bits|..] + [b])[..1]
  {
    assert (s + bits)[|bits|..] + [b] == (s + (bits + [b]))[|bits|..];
    assert (s + bits)[..|bits|] == (s + (bits + [b]))[..|bits|];
  }

  lemma StayInShift(t: Target, cs: seq<Clock>)
    requires InShift(t.tap)
    requires forall k :: 0 <= k < |cs| ==> !cs[k].tms
    ensures Run(t, cs) == Shifted(t, Tdis(cs)) && Run(t, cs).tap == t.tap
  {
    ShiftRun(t, cs);
    assert Shifted(t, Tdis(cs)).tap == t.tap;
  }

  // What comes back on TDO meanwhile.
  lemma {:induction false} ShiftRunOut(t: Target, cs: seq<Clock>)
    requires InShift(t.tap)
    requires forall k :: 0 <= k < |cs| - 1 ==> !cs[k].tms
    ensures Tdos(t, cs) == ShiftedOut(t, Tdis(cs))
  {
    hide ShiftedOut, Tdo, Shifted, Step;
    if cs == [] {
      NothingShiftedOut(t);
    } else {
      var front, b := cs[..|cs| - 1], cs[|cs| - 1].tdi;
      ShiftRunOut(t, front);
      StayInShift(t, front);
      ShiftedOutOneMore(t, Tdis(front), b);
      assert Tdis(cs) == Tdis(front) + [b];
      LastTdo(Run(t, front), cs[|cs| - 1]);
    }
  }

  lemma NothingShiftedOut(t: Target)
    requires InShift(t.tap)
    ensures ShiftedOut(t, []) == []
  {
  }

  lemma LastTdo(t: Target, c: Clock)
    requires InShift(t.tap)
    ensures ShiftedOut(t, [c.tdi]) == [Tdo(t, c)]
  {
  }

  // The same for a stream transfer, in closed form.
  lemma StreamShift(t: Target, stream: seq<word>, len: nat, lastTms: bool)
    requires InShift(t.tap) && 0 < len && Holds(stream, len)
    ensures var cs := StreamClocks(stream, len, lastTms);
            && Run(t, cs) == Shifted(t, StreamBits(stream, len)).(tap := if lastTms then Exit1(t.tap) else t.tap)
            && Tdos(t, cs) == ShiftedOut(t, StreamBits(stream, len))
  {
    var cs := StreamClocks(stream, len, lastTms);
    assert Tdis(cs) == StreamBits(stream, len);
    ShiftRun(t, cs);
    ShiftRunOut(t, cs);
  }

  // What a scan leaves in the instruction registers: the last bits of it, behind what has been captured
  // if it is too short.
  function Scanned(captured: seq<bool>, bits: seq<bool>): (ir: seq<bool>)
    ensures |ir| == |captured|
  {
    (captured + bits)[|bits|..]
  }

  lemma InstructionScan(t: Target, stream: seq<word>, len: nat)
    requires t.tap == ShiftIr && 0 < len && Holds(stream, len)
    ensures Run(t, StreamClocks(stream, len, true)) == t.(tap := Exit1Ir, ir := Scanned(t.ir, StreamBits(stream, len)))
  {
    StreamShift(t, stream, len, true);
  }

  // A scan replaces the contents, whatever they are, exactly if it is as long as all instruction
  // registers together.
  lemma ScanReplaces(n: nat, bits: seq<bool>)
    ensures (forall captured :: |captured| == n ==> Scanned(captured, bits) == bits) <==> n == |bits|
  {
    if n != |bits| {
      var captured := seq<bool>(n, _ => false);
      assert |Scanned(captured, bits)| == n;
    }
  }
}

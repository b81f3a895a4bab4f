// The TAP controller of IEEE Std 1149.1-2001, clause 6.
module Tap {

  datatype TapState =
    | TestLogicReset | RunTestIdle
    | SelectDrScan | CaptureDr | ShiftDr | Exit1Dr | PauseDr | Exit2Dr | UpdateDr
    | SelectIrScan | CaptureIr | ShiftIr | Exit1Ir | PauseIr | Exit2Ir | UpdateIr

  function Next(s: TapState, tms: bool): TapState {
    match s
    case TestLogicReset => if tms then TestLogicReset else RunTestIdle
    case RunTestIdle => if tms then SelectDrScan else RunTestIdle
    case SelectDrScan => if tms then SelectIrScan else CaptureDr
    case CaptureDr => if tms then Exit1Dr else ShiftDr
    case ShiftDr => if tms then Exit1Dr else ShiftDr
    case Exit1Dr => if tms then UpdateDr else PauseDr
    case PauseDr => if tms then Exit2Dr else PauseDr
    case Exit2Dr => if tms then UpdateDr else ShiftDr
    case UpdateDr => if tms then SelectDrScan else RunTestIdle
    case SelectIrScan => if tms then TestLogicReset else CaptureIr
    case CaptureIr => if tms then Exit1Ir else ShiftIr
    case ShiftIr => if tms then Exit1Ir else ShiftIr
    case Exit1Ir => if tms then UpdateIr else PauseIr
    case PauseIr => if tms then Exit2Ir else PauseIr
    case Exit2Ir => if tms then UpdateIr else ShiftIr
    case UpdateIr => if tms then SelectDrScan else RunTestIdle
  }

  // The states in which data bits travel over TDI and TDO.
  predicate InShift(s: TapState) {
    s == ShiftDr || s == ShiftIr
  }

  function AfterOnes(s: TapState, n: nat): TapState {
    if n == 0 then s else Next(AfterOnes(s, n - 1), true)
  }

  // How many clocks with TMS high lead to Test-Logic-Reset.
  function DistanceToReset(s: TapState): nat {
    match s
    case TestLogicReset => 0
    case SelectIrScan => 1
    case SelectDrScan => 2
    case RunTestIdle => 3
    case UpdateDr => 3
    case UpdateIr => 3
    case Exit1Dr => 4
    case Exit2Dr => 4
    case Exit1Ir => 4
    case Exit2Ir => 4
    case CaptureDr => 5
    case ShiftDr => 5
    case PauseDr => 5
    case CaptureIr => 5
    case ShiftIr => 5
    case PauseIr => 5
  }

  // Five clocks with TMS high reset the controller from everywhere; four do not.
  lemma {:induction false} OnesReset(s: TapState, n: nat)
    ensures AfterOnes(s, n) == TestLogicReset <==> n >= DistanceToReset(s)
  {
    if n > 0 {
      OnesReset(s, n - 1);
      OnesApproachReset(s, n - 1);
    }
  }

  lemma {:induction false} OnesApproachReset(s: TapState, n: nat)
    ensures DistanceToReset(AfterOnes(s, n)) == if n <= DistanceToReset(s) then DistanceToReset(s) - n else 0
  {
    if n > 0 { OnesApproachReset(s, n - 1); }
  }
}

/**
 * The TAP controller. The state diagram of clause 6.1 of IEEE Std 1149.1-2013 is stated
 * here by its two identical columns; the driver's own table of states and steps is
 * checked against it.
 */
module Tap {
  datatype Column = DR | IR

  datatype TapState =
    | Reset
    | Idle
    | Select(column: Column)
    | Capture(column: Column)
    | Shift(column: Column)
    | Exit1(column: Column)
    | Pause(column: Column)
    | Exit2(column: Column)
    | Update(column: Column)

  /** One rising edge of TCK with the given TMS. */
  function Next(s: TapState, tms: bool): TapState {
    match s
    case Reset => if tms then Reset else Idle
    case Idle => if tms then Select(DR) else Idle
    case Select(c) => if !tms then Capture(c) else if c.DR? then Select(IR) else Reset
    case Capture(c) => if tms then Exit1(c) else Shift(c)
    case Shift(c) => if tms then Exit1(c) else Shift(c)
    case Exit1(c) => if tms then Update(c) else Pause(c)
    case Pause(c) => if tms then Exit2(c) else Pause(c)
    case Exit2(c) => if tms then Update(c) else Shift(c)
    case Update(c) => if tms then Select(DR) else Idle
  }

  function Clock(s: TapState, tms: seq<bool>): TapState {
    if tms == [] then s else Next(Clock(s, tms[..|tms| - 1]), tms[|tms| - 1])
  }

  lemma {:induction false} ClockConcat(s: TapState, a: seq<bool>, b: seq<bool>)
    ensures Clock(s, a + b) == Clock(Clock(s, a), b)
    decreases |b|
  {
    if b == [] {
      assert a + b == a;
    } else {
      ClockConcat(s, a, b[..|b| - 1]);
      assert (a + b)[..|a + b| - 1] == a + b[..|b| - 1];
    }
  }

  // The driver's numbering of the states.
  const TEST_LOGIC_RESET: nat := 0
  const RUN_TEST_IDLE: nat := 1
  const SELECT_DR: nat := 2
  const CAPTURE_DR: nat := 3
  const SHIFT_DR: nat := 4
  const EXIT1_DR: nat := 5
  const PAUSE_DR: nat := 6
  const EXIT2_DR: nat := 7
  const UPDATE_DR: nat := 8
  const SELECT_IR: nat := 9
  const CAPTURE_IR: nat := 10
  const SHIFT_IR: nat := 11
  const EXIT1_IR: nat := 12
  const PAUSE_IR: nat := 13
  const EXIT2_IR: nat := 14
  const UPDATE_IR: nat := 15
  const UNKNOWN: nat := 16

  /** For each state, the states reached with TMS 0 and TMS 1. */
  const STEPS: seq<(nat, nat)> := [
    (RUN_TEST_IDLE, TEST_LOGIC_RESET),
    (RUN_TEST_IDLE, SELECT_DR),
    (CAPTURE_DR, SELECT_IR),
    (SHIFT_DR, EXIT1_DR),
    (SHIFT_DR, EXIT1_DR),
    (PAUSE_DR, UPDATE_DR),
    (PAUSE_DR, EXIT2_DR),
    (SHIFT_DR, UPDATE_DR),
    (RUN_TEST_IDLE, SELECT_DR),
    (CAPTURE_IR, TEST_LOGIC_RESET),
    (SHIFT_IR, EXIT1_IR),
    (SHIFT_IR, EXIT1_IR),
    (PAUSE_IR, UPDATE_IR),
    (PAUSE_IR, EXIT2_IR),
    (SHIFT_IR, UPDATE_IR),
    (RUN_TEST_IDLE, SELECT_DR)]

  function Meaning(state: nat): TapState
    requires state < UNKNOWN
  {
    if state == TEST_LOGIC_RESET then Reset
    else if state == RUN_TEST_IDLE then Idle
    else
      var c := if state < SELECT_IR then DR else IR;
      var k := if state < SELECT_IR then state - SELECT_DR else state - SELECT_IR;
      if k == 0 then Select(c)
      else if k == 1 then Capture(c)
      else if k == 2 then Shift(c)
      else if k == 3 then Exit1(c)
      else if k == 4 then Pause(c)
      else if k == 5 then Exit2(c)
      else Update(c)
  }

  function StepOf(state: nat, tms: bool): (r: nat)
    requires state < UNKNOWN
    ensures r < UNKNOWN
  {
    if tms then STEPS[state].1 else STEPS[state].0
  }

  /** The driver's table is the standard's diagram, and its numbering names each state once. */
  lemma TableIsStandard(state: nat, tms: bool)
    requires state < UNKNOWN
    ensures Meaning(StepOf(state, tms)) == Next(Meaning(state), tms)
  {
    assert state in {0, 1, 2, 3, 4, 5, 6, 7, 8, 9, 10, 11, 12, 13, 14, 15};
  }

  lemma MeaningInjective(a: nat, b: nat)
    requires a < UNKNOWN && b < UNKNOWN && Meaning(a) == Meaning(b)
    ensures a == b
  {
  }

  /** Five ones reset a TAP from any state. */
  lemma FiveOnesReset(s: TapState)
    ensures Clock(s, [true, true, true, true, true]) == Reset
  {
    var t := [true, true, true, true, true];
    assert t[..4] == [true, true, true, true];
    assert t[..4][..3] == [true, true, true];
    assert t[..4][..3][..2] == [true, true];
    assert t[..4][..3][..2][..1] == [true];
    assert Clock(s, [true]) == Next(s, true);
    assert Clock(s, [true, true]) == Next(Next(s, true), true);
    assert Clock(s, [true, true, true]) == Next(Next(Next(s, true), true), true);
  }
}

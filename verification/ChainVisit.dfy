/**
 * What visiting a chain transaction does, action by action, to the visitor's state and which
 * raw JTAG actions it calls for. The translator emits them; the completer, which runs over
 * the same actions afterwards, expects them to have been completed.
 */
module ChainVisit {
  import opened Common
  import opened Num
  import opened Bits
  import opened JtagWire
  import opened ChainBits
  import opened TapPaths
  import Tap

  const MAX_TMS_BITS: nat := 64
  const MAX_IR_LENGTH: nat := 32
  const MAX_NUM_TAPS: nat := 256

  /** The instruction of a scan that wrote a single TAP. */
  datatype SingleIR = SingleIR(tap: nat, value: nat)

  /** The batch being collected: its first action, the TAP then selected, the last TAP reached, the bits counted. */
  datatype Collecting = Idle | Collecting(op: Op, first: nat, firstTap: nat, last: nat, total: nat)

  datatype View = View(
    state: nat,
    selected: nat,
    lastSingle: Option<SingleIR>,
    tms: seq<bool>,
    batch: Collecting,
    single: Option<SingleIR>)

  datatype Env = Env(table: seq<seq<Entry>>, taps: seq<nat>, acts: seq<ChainAct>)

  datatype Cause =
    | CauseIRLengthTooBig(length: nat)
    | CauseInvalidJtagTapID(id: nat, max: nat)
    | CauseInvalidJtagState(id: nat)
    | CauseUnstableJtagState(id: nat)
    | CauseNestedError

  datatype Effect = Effect(view: View, acts: seq<JtagAct>)

  /** A visit goes on, is refused with a cause, or breaks the assertion that the selected TAP exists. */
  datatype Outcome = Went(effect: Effect) | Refused(cause: Cause) | Asserted

  function Nop(v: View): Effect { Effect(v, []) }

  function FlushTms(v: View): (e: Effect)
    ensures e.view == v.(tms := [])
  {
    if v.tms == [] then Nop(v) else Effect(v.(tms := []), [PutTMS(v.tms)])
  }

  function Path(table: seq<seq<Entry>>, s: nat, t: nat): seq<bool> {
    if s < |table| && t < |table[s]| then BitsOf(table[s][t].bits, table[s][t].numBits) else []
  }

  function MakeRoom(v: View, n: nat): (e: Effect)
    ensures e.view == v.(tms := e.view.tms) && (n <= MAX_TMS_BITS ==> |e.view.tms| + n <= MAX_TMS_BITS)
  {
    if |v.tms| + n > MAX_TMS_BITS then FlushTms(v) else Nop(v)
  }

  function GoToState(table: seq<seq<Entry>>, v: View, t: nat): (e: Effect)
    ensures e.view == v.(state := t, tms := e.view.tms)
  {
    var path := Path(table, v.state, t);
    var room := MakeRoom(v, |path|);
    Effect(room.view.(tms := room.view.tms + path, state := t), room.acts)
  }

  function ScanOf(env: Env, b: Collecting): Scan
    requires b.Collecting?
  {
    Scan(b.op, env.taps, env.acts, b.first, b.firstTap)
  }

  function ScanAct(op: Op, bits: seq<bool>): JtagAct {
    if op.ShiftOp? then PutTDIGetTDO(bits, true) else PutTDI(bits, true)
  }

  /** An instruction scan is left out when it would write the instruction last written. */
  predicate Elided(v: View) {
    v.batch.Collecting? && v.batch.op.IrOp? && v.single == v.lastSingle
  }

  function ShiftState(op: Op): nat { if op.IrOp? then Tap.SHIFT_IR else Tap.SHIFT_DR }

  function ExitState(op: Op): nat { if op.IrOp? then Tap.EXIT1_IR else Tap.EXIT1_DR }

  /** The way to the Shift state, all of its TMS bits sent. */
  function Approach(env: Env, v: View, op: Op): (e: Effect)
    ensures e.view == v.(state := ShiftState(op), tms := [])
  {
    var go := GoToState(env.table, v, ShiftState(op));
    var flush := FlushTms(go.view);
    Effect(flush.view, go.acts + flush.acts)
  }

  function Scanned(v: View): View
    requires v.batch.Collecting?
  {
    v.(state := ExitState(v.batch.op), lastSingle := v.single, batch := Idle)
  }

  /** Sends the batch collected, which ends before action `end`. */
  function FlushTdi(env: Env, v: View, end: nat): (e: Effect)
    requires v.batch.Collecting? ==> v.batch.first <= end <= |env.acts|
    ensures e.view.batch.Idle? && e.view.selected == v.selected
  {
    if v.batch.Idle? then Nop(v)
    else if Elided(v) then Nop(v.(batch := Idle))
    else
      var near := Approach(env, v, v.batch.op);
      var bits := Emitted(ScanOf(env, v.batch), end).bits;
      Effect(Scanned(near.view), near.acts + [ScanAct(v.batch.op, bits)])
  }

  /** The TMS bit that keeps a TAP in the state, if there is one. */
  function WaitingBit(state: nat): Option<bool> {
    if state == Tap.TEST_LOGIC_RESET then Some(true)
    else if state in {Tap.RUN_TEST_IDLE, Tap.SHIFT_DR, Tap.PAUSE_DR, Tap.SHIFT_IR, Tap.PAUSE_IR} then Some(false)
    else None
  }

  function Wait(v: View, b: bool, n: nat): (e: Effect)
    ensures e.view == v.(tms := e.view.tms)
    decreases n
  {
    if n == 0 then Nop(v)
    else
      var room := MakeRoom(v, 1);
      var k := Min(n, MAX_TMS_BITS - |room.view.tms|);
      var rest := Wait(room.view.(tms := room.view.tms + Repeat(b, k)), b, n - k);
      Effect(rest.view, room.acts + rest.acts)
  }

  /** The instruction bits of TAPs below `last` down to `selected`. */
  function CountIr(taps: seq<nat>, last: nat, selected: nat): nat {
    if last <= selected then 0 else IrLength(taps, last - 1) + CountIr(taps, last - 1, selected)
  }

  function Count(taps: seq<nat>, b: Collecting, selected: nat, a: ChainAct): nat
    requires b.Collecting?
  {
    if b.op.IrOp? then CountIr(taps, b.last, selected)
    else (if b.last > selected then b.last - 1 - selected else 0) + |OwnBits(taps, a, selected)|
  }

  function OpOf(a: ChainAct): Op
    requires a.WriteIR? || a.WriteDR? || a.ShiftDR?
  {
    if a.WriteIR? then IrOp else if a.WriteDR? then WriteOp else ShiftOp
  }

  /** The batch must be sent before a write that cannot join it. */
  predicate NeedsFlush(v: View, op: Op) {
    && v.batch.Collecting?
    && (v.batch.op != op || v.selected > v.batch.last || (op.IrOp? && v.selected == v.batch.last))
  }

  /** A write joins the batch, or starts one. */
  function Join(taps: seq<nat>, v: View, a: ChainAct, i: nat): View
    requires a.WriteIR? || a.WriteDR? || a.ShiftDR?
  {
    var op := OpOf(a);
    var b := if v.batch.Idle? then Collecting(op, i, v.selected, |taps|, 0) else v.batch;
    var single := if !op.IrOp? then v.single
                  else if v.batch.Idle? then Some(SingleIR(v.selected, a.value))
                  else None;
    v.(batch := b.(last := v.selected, total := b.total + Count(taps, b, v.selected, a)), single := single)
  }

  function VisitWrite(env: Env, v: View, i: nat): Outcome
    requires i < |env.acts|
    requires env.acts[i].WriteIR? || env.acts[i].WriteDR? || env.acts[i].ShiftDR?
    requires v.batch.Collecting? ==> v.batch.first <= i
  {
    var a := env.acts[i];
    var flush := if NeedsFlush(v, OpOf(a)) then FlushTdi(env, v, i) else Nop(v);
    if flush.view.selected >= |env.taps| then Asserted
    else Went(Effect(Join(env.taps, flush.view, a, i), flush.acts))
  }

  /** The way to a state and the cycles spent there, once the batch has been sent. */
  function VisitGoTo(env: Env, v: View, state: nat, wait: nat): Outcome {
    if state >= Tap.UNKNOWN then Refused(CauseInvalidJtagState(state))
    else
      var go := GoToState(env.table, v, state);
      if wait == 0 then Went(go)
      else if WaitingBit(state).None? then Refused(CauseUnstableJtagState(state))
      else
        var stay := Wait(go.view, WaitingBit(state).value, wait);
        Went(Effect(stay.view, go.acts + stay.acts))
  }

  function After(first: Effect, o: Outcome): Outcome {
    if o.Went? then Went(Effect(o.effect.view, first.acts + o.effect.acts)) else o
  }

  function Visit(env: Env, v: View, i: nat): (o: Outcome)
    requires i < |env.acts|
    requires v.batch.Collecting? ==> v.batch.first <= i
    ensures o.Went? && o.effect.view.batch.Collecting? ==> o.effect.view.batch.first <= i
  {
    match env.acts[i]
    case Forget =>
      var flush := FlushTdi(env, v, i);
      Went(Effect(flush.view.(selected := 0), flush.acts))
    case SetIRLength(tap, length) =>
      if length > MAX_IR_LENGTH then Refused(CauseIRLengthTooBig(length))
      else if tap >= MAX_NUM_TAPS then Refused(CauseInvalidJtagTapID(tap, MAX_NUM_TAPS - 1))
      else Went(FlushTdi(env, v, i))
    case GoTo(state, wait) =>
      var flush := FlushTdi(env, v, i);
      After(flush, VisitGoTo(env, flush.view, state, wait))
    case Select(tap) =>
      if tap >= |env.taps| then Refused(CauseInvalidJtagTapID(tap, |env.taps|))
      else Went(Nop(v.(selected := tap)))
    case _ => VisitWrite(env, v, i)
  }

  /** Whether an action sends the batch under way. */
  predicate Sends(v: View, a: ChainAct) {
    match a
    case Select(_) => false
    case WriteIR(_) => NeedsFlush(v, IrOp)
    case WriteDR(_) => NeedsFlush(v, WriteOp)
    case ShiftDR(_) => NeedsFlush(v, ShiftOp)
    case _ => true
  }

  /** Then the batch goes first. */
  lemma SendsFirst(env: Env, v: View, i: nat)
    requires i < |env.acts| && (v.batch.Collecting? ==> v.batch.first <= i)
    requires Visit(env, v, i).Went? && Sends(v, env.acts[i])
    ensures FlushTdi(env, v, i).acts <= Visit(env, v, i).effect.acts
  {
  }

  /** The chain after an action: only the translator changes it. */
  function TapsAfter(taps: seq<nat>, a: ChainAct): seq<nat> {
    match a
    case Forget => [1]
    case SetIRLength(tap, length) =>
      (if tap <= |taps| then taps[..tap] else taps + seq(tap - |taps|, _ => 1)) + [length]
    case _ => taps
  }

  // ---------------------------------------------------------------- whole transactions

  function Finish(env: Env, v: View): Effect
    requires v.batch.Collecting? ==> v.batch.first <= |env.acts|
  {
    var scan := FlushTdi(env, v, |env.acts|);
    var last := FlushTms(scan.view);
    Effect(last.view, scan.acts + last.acts)
  }

  /** Visiting acts[i..] with the chain unchanged, as the completer does. */
  function Replay(env: Env, v: View, i: nat): Outcome
    requires i <= |env.acts|
    requires v.batch.Collecting? ==> v.batch.first <= i
    decreases |env.acts| - i
  {
    if i == |env.acts| then Went(Finish(env, v))
    else
      var o := Visit(env, v, i);
      if o.Went? then After(o.effect, Replay(env, o.effect.view, i + 1)) else o
  }

  /** Visiting acts[i..] with each action's change to the chain, as the translator does. */
  function Translate(env: Env, v: View, i: nat): Outcome
    requires i <= |env.acts|
    requires v.batch.Collecting? ==> v.batch.first <= i
    decreases |env.acts| - i
  {
    if i == |env.acts| then Went(Finish(env, v))
    else
      var o := Visit(env, v, i);
      var next := env.(taps := TapsAfter(env.taps, env.acts[i]));
      if o.Went? then After(o.effect, Translate(next, o.effect.view, i + 1)) else o
  }

  function FinalTaps(taps: seq<nat>, acts: seq<ChainAct>, i: nat): seq<nat>
    requires i <= |acts|
    decreases |acts| - i
  {
    if i == |acts| then taps else FinalTaps(TapsAfter(taps, acts[i]), acts, i + 1)
  }

  /**
   * The instruction register length of TAP t after the first n actions, read backwards: the last
   * action that mentions the TAP or one below it decides; None means that there is no such TAP.
   */
  function LengthAfter(taps: seq<nat>, acts: seq<ChainAct>, n: nat, t: nat): Option<nat>
    requires n <= |acts|
  {
    if n == 0 then (if t < |taps| then Some(taps[t]) else None)
    else
      var before := LengthAfter(taps, acts, n - 1, t);
      match acts[n - 1]
      case Forget => if t == 0 then Some(1) else None
      case SetIRLength(tap, length) =>
        if t == tap then Some(length)
        else if t > tap then None
        else if before.Some? then before
        else Some(1)
      case _ => before
  }

  /** The chain after the first n actions. */
  function TapsUpTo(taps: seq<nat>, acts: seq<ChainAct>, n: nat): seq<nat>
    requires n <= |acts|
  {
    if n == 0 then taps else TapsAfter(TapsUpTo(taps, acts, n - 1), acts[n - 1])
  }

  lemma {:induction false} FinalIsUpTo(taps: seq<nat>, acts: seq<ChainAct>, i: nat)
    requires i <= |acts|
    ensures FinalTaps(TapsUpTo(taps, acts, i), acts, i) == TapsUpTo(taps, acts, |acts|)
    decreases |acts| - i
  {
    if i < |acts| {
      FinalIsUpTo(taps, acts, i + 1);
    }
  }

  /** Which TAPs the chain has after any actions, and how long each of their instruction registers is. */
  lemma {:induction false} ChainLengths(taps: seq<nat>, acts: seq<ChainAct>, n: nat, t: nat)
    requires n <= |acts|
    ensures var chain := TapsUpTo(taps, acts, n);
            LengthAfter(taps, acts, n, t) == if t < |chain| then Some(chain[t]) else None
  {
    if n > 0 {
      ChainLengths(taps, acts, n - 1, t);
    }
  }

  /** The same of a whole transaction. */
  lemma FinalLengths(taps: seq<nat>, acts: seq<ChainAct>, t: nat)
    ensures var chain := FinalTaps(taps, acts, 0);
            LengthAfter(taps, acts, |acts|, t) == if t < |chain| then Some(chain[t]) else None
  {
    FinalIsUpTo(taps, acts, 0);
    ChainLengths(taps, acts, |acts|, t);
  }

  predicate Structural(a: ChainAct) { a.Forget? || a.SetIRLength? }

  predicate NoStructure(acts: seq<ChainAct>, i: nat)
    requires i <= |acts|
    decreases |acts| - i
  {
    i < |acts| ==> !Structural(acts[i]) && NoStructure(acts, i + 1)
  }

  predicate Writes(a: ChainAct) { a.WriteIR? || a.WriteDR? || a.ShiftDR? }

  /** Nothing is written before the last change to the chain structure. */
  predicate WritesLast(acts: seq<ChainAct>, i: nat)
    requires i <= |acts|
    decreases |acts| - i
  {
    i < |acts| ==> if Writes(acts[i]) then NoStructure(acts, i) else WritesLast(acts, i + 1)
  }

  /** Every selection from action i on names one of the first `bound` TAPs. */
  predicate SelectsFit(acts: seq<ChainAct>, i: nat, bound: nat)
    requires i <= |acts|
    decreases |acts| - i
  {
    i < |acts| ==> (acts[i].Select? ==> acts[i].tap < bound) && SelectsFit(acts, i + 1, bound)
  }

  lemma {:induction false} FixedTaps(env: Env, v: View, i: nat)
    requires i <= |env.acts| && NoStructure(env.acts, i)
    requires v.batch.Collecting? ==> v.batch.first <= i
    ensures FinalTaps(env.taps, env.acts, i) == env.taps
    ensures Translate(env, v, i) == Replay(env, v, i)
    ensures Translate(env, v, i).Went? ==> SelectsFit(env.acts, i, |env.taps|)
    decreases |env.acts| - i
  {
    if i < |env.acts| {
      var o := Visit(env, v, i);
      FixedTaps(env, if o.Went? then o.effect.view else v, i + 1);
    }
  }

  /**
   * One action, seen with the chain as it is and with the final one: the same, unless it selects
   * a TAP that the final chain does not have.
   */
  lemma VisitFinal(env: Env, v: View, i: nat, final: Env)
    requires i < |env.acts| && WritesLast(env.acts, i) && (v.batch.Collecting? ==> v.batch.first <= i && NoStructure(env.acts, i))
    requires final == env.(taps := FinalTaps(env.taps, env.acts, i)) && Visit(env, v, i).Went?
    ensures env.acts[i].Select? && env.acts[i].tap >= |final.taps| ==>
              Visit(final, v, i) == Refused(CauseInvalidJtagTapID(env.acts[i].tap, |final.taps|))
    ensures !(env.acts[i].Select? && env.acts[i].tap >= |final.taps|) ==> Visit(final, v, i) == Visit(env, v, i)
  {
    if NoStructure(env.acts, i) {
      FixedTaps(env, v, i);
    }
  }

  /** What carries over to the next action. */
  lemma WritesLastNext(env: Env, v: View, i: nat)
    requires i < |env.acts| && WritesLast(env.acts, i) && (v.batch.Collecting? ==> v.batch.first <= i && NoStructure(env.acts, i))
    requires Visit(env, v, i).Went?
    ensures WritesLast(env.acts, i + 1)
    ensures Visit(env, v, i).effect.view.batch.Collecting? ==> NoStructure(env.acts, i + 1)
  {
    if NoStructure(env.acts, i) {
      NoStructureWritesLast(env.acts, i + 1);
    }
  }

  lemma {:induction false} NoStructureWritesLast(acts: seq<ChainAct>, i: nat)
    requires i <= |acts| && NoStructure(acts, i)
    ensures WritesLast(acts, i)
    decreases |acts| - i
  {
    if i < |acts| {
      NoStructureWritesLast(acts, i + 1);
    }
  }

  /**
   * The completer sees only the final chain. With nothing written before the last change to it,
   * the completer calls for exactly what the translator emitted and ends in the same state if
   * and only if every selection names a TAP of the final chain; otherwise it refuses one.
   */
  lemma {:induction false} SameRunExactly(env: Env, v: View, i: nat, final: Env)
    requires i <= |env.acts| && WritesLast(env.acts, i)
    requires v.batch.Collecting? ==> v.batch.first <= i && NoStructure(env.acts, i)
    requires final == env.(taps := FinalTaps(env.taps, env.acts, i)) && Translate(env, v, i).Went?
    ensures SelectsFit(env.acts, i, |final.taps|) ==> Replay(final, v, i) == Translate(env, v, i)
    ensures !SelectsFit(env.acts, i, |final.taps|) ==>
              Replay(final, v, i).Refused? && Replay(final, v, i).cause.CauseInvalidJtagTapID?
    decreases |env.acts| - i
  {
    if i == |env.acts| {
    } else {
      VisitFinal(env, v, i, final);
      WritesLastNext(env, v, i);
      var next := env.(taps := TapsAfter(env.taps, env.acts[i]));
      SameRunExactly(next, Visit(env, v, i).effect.view, i + 1, final);
    }
  }

  /** For example: a TAP selected and then forgotten is refused after everything was carried out. */
  lemma ForgottenSelectionRefused(table: seq<seq<Entry>>, v: View)
    requires v.batch.Idle? && v.tms == []
    ensures var env := Env(table, [1, 1], [Select(1), Forget]);
            && Translate(env, v, 0).Went?
            && Replay(env.(taps := FinalTaps(env.taps, env.acts, 0)), v, 0).Refused?
  {
    var env := Env(table, [1, 1], [Select(1), Forget]);
    var one := Visit(env, v, 0).effect.view;
    assert Visit(env, one, 1).Went?;
    assert Translate(env.(taps := [1]), Visit(env, one, 1).effect.view, 2).Went?;
    assert Translate(env, one, 1).Went?;
    assert FinalTaps([1, 1], env.acts, 1) == [1] by {
      assert FinalTaps([1], env.acts, 2) == [1];
    }
    assert FinalTaps(env.taps, env.acts, 0) == [1];
  }
}

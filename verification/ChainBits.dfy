/**
 * The bits of one batched scan. Consecutive writes to different TAPs of a chain share one
 * scan when they go down the chain: the TAP nearest TDO, the one with the highest number,
 * comes first. TAPs in between get ones (BYPASS) in an instruction scan and a single zero,
 * for their bypass bit, in a data scan.
 */
module ChainBits {
  import opened Bits

  datatype ChainAct =
    | Forget
    | SetIRLength(tap: nat, length: nat)
    | GoTo(state: nat, wait: nat)
    | Select(tap: nat)
    | WriteIR(value: nat)
    | WriteDR(bits: seq<bool>)
    | ShiftDR(bits: seq<bool>)

  datatype Op = IrOp | WriteOp | ShiftOp

  /** The instruction register length of TAP t; the chain has |taps| TAPs. */
  function IrLength(taps: seq<nat>, t: nat): nat {
    if t < |taps| then taps[t] else 0
  }

  /** What a TAP that nobody wrote to gets. */
  function Filler(op: Op, taps: seq<nat>, t: nat): seq<bool> {
    if op.IrOp? then Ones(IrLength(taps, t)) else Zeros(1)
  }

  /** The fillers of the TAPs below `high` and above `low`. */
  function Between(op: Op, taps: seq<nat>, high: nat, low: nat): seq<bool> {
    if high <= low + 1 then [] else Filler(op, taps, high - 1) + Between(op, taps, high - 1, low)
  }

  /** The own bits of a write. */
  function OwnBits(taps: seq<nat>, a: ChainAct, tap: nat): seq<bool> {
    match a
    case WriteIR(v) => BitsOf(v, IrLength(taps, tap))
    case WriteDR(b) => b
    case ShiftDR(b) => b
    case _ => []
  }

  /** How far the bits of a batch have got: the TAP selected, the last TAP given bits, the bits. */
  datatype Emission = Emission(selected: nat, last: nat, bits: seq<bool>)

  function Emit(op: Op, taps: seq<nat>, e: Emission, a: ChainAct): Emission {
    if a.Select? then e.(selected := a.tap)
    else Emission(e.selected, e.selected,
                  e.bits + Between(op, taps, e.last, e.selected) + OwnBits(taps, a, e.selected))
  }

  /** A batched scan: its kind, the chain, and where in the transaction it starts with which TAP selected. */
  datatype Scan = Scan(op: Op, taps: seq<nat>, acts: seq<ChainAct>, first: nat, tap: nat)

  /** The bits of the batch acts[first..end]. */
  function Emitted(s: Scan, end: nat): Emission
    requires s.first <= end <= |s.acts|
    decreases end
  {
    if end == s.first then Emission(s.tap, |s.taps|, [])
    else Emit(s.op, s.taps, Emitted(s, end - 1), s.acts[end - 1])
  }

  predicate IsWrite(op: Op, a: ChainAct) {
    match op
    case IrOp => a.WriteIR?
    case WriteOp => a.WriteDR?
    case ShiftOp => a.ShiftDR?
  }

  predicate MayFollow(op: Op, taps: seq<nat>, last: nat, selected: nat) {
    selected < |taps| && (selected < last || (selected == last && !op.IrOp?))
  }

  /**
   * A batch: selections and writes of one kind, the writes going down the chain, strictly
   * for instructions; several data writes to one TAP follow one another.
   */
  predicate IsBatch(s: Scan, end: nat)
    requires s.first <= end <= |s.acts|
    decreases end
  {
    end > s.first ==>
      && IsBatch(s, end - 1)
      && var e := Emitted(s, end - 1);
         s.acts[end - 1].Select? || (IsWrite(s.op, s.acts[end - 1]) && MayFollow(s.op, s.taps, e.last, e.selected))
  }

  // ---------------------------------------------------------------- what the bits mean

  function SelectedAt(s: Scan, end: nat): nat
    requires s.first <= end <= |s.acts|
    decreases end
  {
    if end == s.first then s.tap
    else if s.acts[end - 1].Select? then s.acts[end - 1].tap
    else SelectedAt(s, end - 1)
  }

  /** The bits acts[first..end] write to TAP t, or nothing if they do not write to it. */
  datatype Wanted = Nothing | Wanted(bits: seq<bool>)

  function WantedFor(s: Scan, end: nat, t: nat): Wanted
    requires s.first <= end <= |s.acts|
    decreases end
  {
    if end == s.first then Nothing
    else
      var before := WantedFor(s, end - 1, t);
      if s.acts[end - 1].Select? || SelectedAt(s, end - 1) != t then before
      else
        var own := OwnBits(s.taps, s.acts[end - 1], t);
        Wanted(if before.Nothing? then own else before.bits + own)
  }

  /** What TAP t should hold after the scan. */
  function Target(s: Scan, end: nat, t: nat): seq<bool>
    requires s.first <= end <= |s.acts|
  {
    var w := WantedFor(s, end, t);
    if w.Nothing? then Filler(s.op, s.taps, t) else w.bits
  }

  /** The targets of the TAPs below `high`, down to `low`. */
  function Targets(s: Scan, end: nat, high: nat, low: nat): seq<bool>
    requires s.first <= end <= |s.acts|
    decreases high
  {
    if high <= low then [] else Target(s, end, high - 1) + Targets(s, end, high - 1, low)
  }

  lemma {:induction false} SelectedIsEmitted(s: Scan, end: nat)
    requires s.first <= end <= |s.acts|
    ensures Emitted(s, end).selected == SelectedAt(s, end)
    decreases end
  {
    if s.first < end {
      SelectedIsEmitted(s, end - 1);
    }
  }

  /** A batch has written nothing below the last TAP it reached, and something there. */
  lemma {:induction false} UntouchedBelow(s: Scan, end: nat, t: nat)
    requires s.first <= end <= |s.acts| && IsBatch(s, end)
    requires t <= Emitted(s, end).last
    ensures t < Emitted(s, end).last ==> WantedFor(s, end, t) == Nothing
    ensures Emitted(s, end).last <= |s.taps|
    ensures t == Emitted(s, end).last < |s.taps| ==> WantedFor(s, end, t).Wanted?
    decreases end
  {
    if s.first < end {
      SelectedIsEmitted(s, end - 1);
      UntouchedBelow(s, end - 1, t);
    }
  }

  /** The targets above every TAP that a further action may change stay what they were. */
  lemma {:induction false} TargetsAbove(s: Scan, end: nat, high: nat, low: nat)
    requires s.first < end <= |s.acts|
    requires s.acts[end - 1].Select? || SelectedAt(s, end - 1) < low
    ensures Targets(s, end, high, low) == Targets(s, end - 1, high, low)
    decreases high
  {
    if high > low {
      TargetsAbove(s, end, high - 1, low);
    }
  }

  lemma {:induction false} TargetsSplit(s: Scan, end: nat, high: nat, mid: nat, low: nat)
    requires s.first <= end <= |s.acts| && low <= mid <= high
    ensures Targets(s, end, high, low) == Targets(s, end, high, mid) + Targets(s, end, mid, low)
    decreases high
  {
    if high > mid {
      TargetsSplit(s, end, high - 1, mid, low);
    }
  }

  /** TAPs nobody wrote to: their targets are the fillers. */
  lemma {:induction false} TargetsUntouched(s: Scan, end: nat, high: nat, low: nat)
    requires s.first <= end <= |s.acts| && IsBatch(s, end) && low < high <= Emitted(s, end).last
    ensures Targets(s, end, high, low + 1) == Between(s.op, s.taps, high, low)
    decreases high
  {
    if high > low + 1 {
      UntouchedBelow(s, end, high - 1);
      TargetsUntouched(s, end, high - 1, low);
    }
  }

  lemma LastTarget(s: Scan, end: nat, t: nat)
    requires s.first <= end <= |s.acts|
    ensures Targets(s, end, t + 1, t) == Target(s, end, t)
  {
    assert Targets(s, end, t, t) == [];
  }

  /** One more write, to a TAP further down. */
  lemma WriteBelow(s: Scan, end: nat, e: Emission)
    requires s.first < end <= |s.acts| && IsBatch(s, end - 1) && e == Emitted(s, end - 1)
    requires !s.acts[end - 1].Select? && e.selected < e.last
    requires e.bits == Targets(s, end - 1, |s.taps|, e.last)
    ensures Emitted(s, end).bits == Targets(s, end, |s.taps|, e.selected)
  {
    SelectedIsEmitted(s, end - 1);
    UntouchedBelow(s, end - 1, e.selected);
    var between := Between(s.op, s.taps, e.last, e.selected);
    var own := OwnBits(s.taps, s.acts[end - 1], e.selected);
    TargetsAbove(s, end, |s.taps|, e.last);
    assert Targets(s, end, e.last, e.selected + 1) == between by {
      TargetsAbove(s, end, e.last, e.selected + 1);
      TargetsUntouched(s, end - 1, e.last, e.selected);
    }
    assert Targets(s, end, e.selected + 1, e.selected) == own by {
      LastTarget(s, end, e.selected);
    }
    TargetsSplit(s, end, |s.taps|, e.last, e.selected);
    TargetsSplit(s, end, e.last, e.selected + 1, e.selected);
    Assoc(e.bits, between, own);
  }

  /** The TAP last written gets more: the targets before and after one more write to it. */
  lemma TargetsAgain(s: Scan, end: nat, t: nat, own: seq<bool>) returns (above: seq<bool>, soFar: seq<bool>)
    requires s.first < end <= |s.acts| && !s.acts[end - 1].Select? && SelectedAt(s, end - 1) == t < |s.taps|
    requires WantedFor(s, end - 1, t).Wanted? && own == OwnBits(s.taps, s.acts[end - 1], t)
    ensures Targets(s, end - 1, |s.taps|, t) == above + soFar
    ensures Targets(s, end, |s.taps|, t) == above + (soFar + own)
  {
    above, soFar := Targets(s, end, |s.taps|, t + 1), WantedFor(s, end - 1, t).bits;
    TargetsAbove(s, end, |s.taps|, t + 1);
    TargetsSplit(s, end - 1, |s.taps|, t + 1, t);
    LastTarget(s, end - 1, t);
    TargetsSplit(s, end, |s.taps|, t + 1, t);
    LastTarget(s, end, t);
  }

  lemma EmittedAgain(s: Scan, end: nat, e: Emission)
    requires s.first < end <= |s.acts| && e == Emitted(s, end - 1) && !s.acts[end - 1].Select? && e.selected == e.last
    ensures Emitted(s, end).bits == e.bits + OwnBits(s.taps, s.acts[end - 1], e.last)
  {
    assert Between(s.op, s.taps, e.last, e.selected) == [];
    assert e.bits + [] == e.bits;
  }

  /** One more data write to the TAP last written. */
  lemma WriteAgain(s: Scan, end: nat, e: Emission)
    requires s.first < end <= |s.acts| && IsBatch(s, end - 1) && e == Emitted(s, end - 1)
    requires !s.acts[end - 1].Select? && e.selected == e.last < |s.taps|
    requires e.bits == Targets(s, end - 1, |s.taps|, e.last)
    ensures Emitted(s, end).bits == Targets(s, end, |s.taps|, e.selected)
  {
    SelectedIsEmitted(s, end - 1);
    UntouchedBelow(s, end - 1, e.last);
    var own := OwnBits(s.taps, s.acts[end - 1], e.last);
    var above, soFar := TargetsAgain(s, end, e.last, own);
    EmittedAgain(s, end, e);
    Assoc(above, soFar, own);
  }

  /** The bits sent are the targets of the TAPs from the top down to the last one written. */
  lemma {:induction false} EmittedAreTargets(s: Scan, end: nat)
    requires s.first <= end <= |s.acts| && IsBatch(s, end)
    ensures Emitted(s, end).bits == Targets(s, end, |s.taps|, Emitted(s, end).last)
    decreases end
  {
    if s.first < end {
      EmittedAreTargets(s, end - 1);
      var e := Emitted(s, end - 1);
      if s.acts[end - 1].Select? {
        TargetsAbove(s, end, |s.taps|, e.last);
      } else if e.selected < e.last {
        WriteBelow(s, end, e);
      } else {
        WriteAgain(s, end, e);
      }
    }
  }
}

/**
 * The counting pass. While a batch is collected only its length is counted; its bits are
 * produced when it is sent. The two agree, whatever the transaction.
 */
module ChainCount {
  import opened Common
  import opened Num
  import opened Bits
  import opened JtagWire
  import opened ChainBits
  import opened ChainVisit
  import TapPaths

  /** The batch collected is one, and the count is the number of bits it will send. */
  predicate CountedBatch(env: Env, b: Collecting, selected: nat, i: nat)
    requires b.Collecting?
  {
    && b.first < i <= |env.acts|
    && IsWrite(b.op, env.acts[b.first])
    && var s := ScanOf(env, b);
       && IsBatch(s, i)
       && Emitted(s, i).last == b.last
       && |Emitted(s, i).bits| == b.total
       && Emitted(s, i).selected == selected
  }

  /** Contracts write `== true` to keep this folded. */
  predicate Counted(env: Env, v: View, i: nat) {
    v.batch.Collecting? ==> CountedBatch(env, v.batch, v.selected, i)
  }

  lemma {:induction false} CountsInstructions(taps: seq<nat>, last: nat, selected: nat)
    requires selected < last
    ensures CountIr(taps, last, selected) == |Between(IrOp, taps, last, selected)| + IrLength(taps, selected)
    decreases last
  {
    if selected + 1 < last {
      CountsInstructions(taps, last - 1, selected);
    }
  }

  lemma {:induction false} CountsBypasses(op: Op, taps: seq<nat>, last: nat, selected: nat)
    requires !op.IrOp?
    ensures Between(op, taps, last, selected) == Zeros(if last > selected then last - 1 - selected else 0)
    decreases last
  {
    if selected + 1 < last {
      CountsBypasses(op, taps, last - 1, selected);
    }
  }

  /** What a write adds to the count is what it will add to the bits. */
  lemma CountIsEmitted(taps: seq<nat>, b: Collecting, selected: nat, a: ChainAct)
    requires b.Collecting? && IsWrite(b.op, a) && MayFollow(b.op, taps, b.last, selected)
    ensures Count(taps, b, selected, a) == |Between(b.op, taps, b.last, selected)| + |OwnBits(taps, a, selected)|
  {
    if b.op.IrOp? {
      CountsInstructions(taps, b.last, selected);
    } else {
      CountsBypasses(b.op, taps, b.last, selected);
    }
  }

  lemma EmptyBatch(env: Env, op: Op, tap: nat, i: nat)
    requires i < |env.acts|
    ensures var s := ScanOf(env, Collecting(op, i, tap, |env.taps|, 0));
            IsBatch(s, i) && Emitted(s, i) == Emission(tap, |env.taps|, [])
  {
  }

  lemma JoinedBatch(env: Env, b: Collecting, selected: nat, i: nat)
    requires i < |env.acts| && b.Collecting? && b.first <= i
    requires IsWrite(b.op, env.acts[i]) && MayFollow(b.op, env.taps, b.last, selected)
    requires IsWrite(b.op, env.acts[b.first])
    requires IsBatch(ScanOf(env, b), i) && Emitted(ScanOf(env, b), i).last == b.last
    requires |Emitted(ScanOf(env, b), i).bits| == b.total && Emitted(ScanOf(env, b), i).selected == selected
    ensures CountedBatch(env, b.(last := selected, total := b.total + Count(env.taps, b, selected, env.acts[i])), selected, i + 1)
  {
    CountIsEmitted(env.taps, b, selected, env.acts[i]);
    var joined := b.(last := selected, total := b.total + Count(env.taps, b, selected, env.acts[i]));
    assert ScanOf(env, joined) == ScanOf(env, b);
  }

  lemma JoinCounted(env: Env, v: View, i: nat)
    requires i < |env.acts| && Counted(env, v, i) == true
    requires env.acts[i].WriteIR? || env.acts[i].WriteDR? || env.acts[i].ShiftDR?
    requires !NeedsFlush(v, OpOf(env.acts[i])) && v.selected < |env.taps|
    ensures Counted(env, Join(env.taps, v, env.acts[i], i), i + 1) == true
  {
    if v.batch.Idle? {
      var op := OpOf(env.acts[i]);
      EmptyBatch(env, op, v.selected, i);
      JoinedBatch(env, Collecting(op, i, v.selected, |env.taps|, 0), v.selected, i);
    } else {
      JoinedBatch(env, v.batch, v.selected, i);
    }
  }

  /** Every visit keeps the count right, for the chain as it is after the action. */
  lemma VisitCounted(env: Env, v: View, i: nat)
    requires i < |env.acts| && Counted(env, v, i) == true
    requires v.batch.Collecting? ==> v.batch.first <= i
    requires Visit(env, v, i).Went?
    ensures Counted(env.(taps := TapsAfter(env.taps, env.acts[i])), Visit(env, v, i).effect.view, i + 1) == true
  {
    match env.acts[i]
    case Forget =>
    case SetIRLength(_, _) =>
    case GoTo(_, _) =>
    case Select(tap) =>
    case _ =>
      var flush := if NeedsFlush(v, OpOf(env.acts[i])) then FlushTdi(env, v, i) else Nop(v);
      JoinCounted(env, flush.view, i);
  }

  // ---------------------------------------------------------------- instructions left out

  /**
   * When an instruction scan is left out. A single write is left out exactly when it repeats
   * the last single one; a write that joins a batch makes it be left out exactly when no
   * single instruction is remembered, whatever it writes.
   */
  lemma ElidedExactly(env: Env, v: View, i: nat)
    requires i < |env.acts| && env.acts[i].WriteIR? && !NeedsFlush(v, IrOp)
    ensures Elided(Join(env.taps, v, env.acts[i], i)) <==>
            v.lastSingle == if v.batch.Idle? then Some(SingleIR(v.selected, env.acts[i].value)) else None
  {
    if v.batch.Collecting? {
      assert v.batch.op == IrOp;
    }
  }

  /** From action i on only selections and instructions for TAPs further and further down. */
  predicate JoinsOnly(env: Env, v: View, i: nat)
    requires i <= |env.acts| && v.batch.Collecting?
    decreases |env.acts| - i
  {
    i < |env.acts| ==>
      || (env.acts[i].Select? && env.acts[i].tap < |env.taps| && JoinsOnly(env, v.(selected := env.acts[i].tap), i + 1))
      || (env.acts[i].WriteIR? && v.selected < v.batch.last && v.selected < |env.taps|
          && JoinsOnly(env, Join(env.taps, v, env.acts[i], i), i + 1))
  }

  /** With no single instruction remembered, a batch of several is never sent, however long and whatever it writes. */
  lemma {:induction false} SeveralDropped(env: Env, v: View, i: nat)
    requires i <= |env.acts| && v.batch.Collecting? && v.batch.op.IrOp? && v.batch.first <= i && JoinsOnly(env, v, i)
    requires v.lastSingle == None && v.single == None && v.tms == []
    ensures Translate(env, v, i).Went? && Translate(env, v, i).effect.acts == []
    ensures Translate(env, v, i).effect.view.lastSingle == None
    decreases |env.acts| - i
  {
    if i < |env.acts| {
      assert env.(taps := TapsAfter(env.taps, env.acts[i])) == env;
      if env.acts[i].Select? {
        SeveralDropped(env, v.(selected := env.acts[i].tap), i + 1);
      } else {
        assert Visit(env, v, i) == Went(Effect(Join(env.taps, v, env.acts[i], i), []));
        SeveralDropped(env, Join(env.taps, v, env.acts[i], i), i + 1);
      }
    }
  }

  /** For example two instructions, written from one TAP to the one below it. */
  lemma TwoInstructionsDropped(table: seq<seq<TapPaths.Entry>>, v: View, a: nat, b: nat)
    requires v.batch.Idle? && v.lastSingle == None && v.tms == [] && v.selected == 1
    ensures Translate(Env(table, [4, 4], [WriteIR(a), Select(0), WriteIR(b)]), v, 0).Went?
    ensures Translate(Env(table, [4, 4], [WriteIR(a), Select(0), WriteIR(b)]), v, 0).effect.acts == []
  {
    var env := Env(table, [4, 4], [WriteIR(a), Select(0), WriteIR(b)]);
    var v1 := Join(env.taps, v, env.acts[0], 0);
    assert Visit(env, v, 0) == Went(Effect(v1, []));
    var v2 := v1.(selected := 0);
    assert Visit(env, v1, 1) == Went(Effect(v2, []));
    var v3 := Join(env.taps, v2, env.acts[2], 2);
    assert Visit(env, v2, 2) == Went(Effect(v3, []));
    SeveralDropped(env, v3, 3);
    assert Translate(env, v2, 2).effect.acts == [];
    assert Translate(env, v1, 1).effect.acts == [];
  }

  predicate NoInstructions(acts: seq<ChainAct>, i: nat)
    requires i <= |acts|
    decreases |acts| - i
  {
    i < |acts| ==> !acts[i].WriteIR? && NoInstructions(acts, i + 1)
  }

  /** Whether any of the raw actions is a scan. */
  predicate Scans(acts: seq<JtagAct>) {
    acts != [] && (!acts[0].PutTMS? || Scans(acts[1..]))
  }

  lemma {:induction false} ScansConcat(a: seq<JtagAct>, b: seq<JtagAct>)
    ensures Scans(a + b) <==> Scans(a) || Scans(b)
    decreases |a|
  {
    if a == [] {
      assert a + b == b;
    } else {
      assert (a + b)[0] == a[0] && (a + b)[1..] == a[1..] + b;
      ScansConcat(a[1..], b);
    }
  }

  /** What a flush remembers: a scan that is sent overwrites it with the visitor's own, which data scans leave alone. */
  predicate Remembers(v: View, e: Effect) {
    e.view.single == v.single && e.view.lastSingle == if Scans(e.acts) then v.single else v.lastSingle
  }

  lemma MovesRemember(table: seq<seq<TapPaths.Entry>>, v: View, t: nat)
    ensures !Scans(GoToState(table, v, t).acts) && !Scans(FlushTms(v).acts)
  {
    assert [PutTMS(v.tms)][1..] == [];
  }

  lemma {:induction false} WaitRemembers(v: View, b: bool, n: nat)
    ensures !Scans(Wait(v, b, n).acts)
    decreases n
  {
    if n > 0 {
      var room := MakeRoom(v, 1);
      var k := Min(n, MAX_TMS_BITS - |room.view.tms|);
      var next := room.view.(tms := room.view.tms + Repeat(b, k));
      WaitRemembers(next, b, n - k);
      MovesRemember([], v, 0);
      ScansConcat(room.acts, Wait(next, b, n - k).acts);
    }
  }

  lemma FlushRemembers(env: Env, v: View, end: nat)
    requires v.batch.Collecting? ==> !v.batch.op.IrOp? && v.batch.first <= end <= |env.acts|
    ensures Remembers(v, FlushTdi(env, v, end))
  {
    if v.batch.Collecting? {
      var go := GoToState(env.table, v, ShiftState(v.batch.op));
      var flush := FlushTms(go.view);
      MovesRemember(env.table, v, ShiftState(v.batch.op));
      MovesRemember(env.table, go.view, 0);
      ScansConcat(go.acts, flush.acts);
      var scan := [ScanAct(v.batch.op, Emitted(ScanOf(env, v.batch), end).bits)];
      ScansConcat(go.acts + flush.acts, scan);
    }
  }

  lemma VisitRemembers(env: Env, v: View, i: nat)
    requires i < |env.acts| && !env.acts[i].WriteIR?
    requires v.batch.Collecting? ==> !v.batch.op.IrOp? && v.batch.first <= i
    requires Visit(env, v, i).Went?
    ensures Remembers(v, Visit(env, v, i).effect)
    ensures Visit(env, v, i).effect.view.batch.Collecting? ==> !Visit(env, v, i).effect.view.batch.op.IrOp?
  {
    FlushRemembers(env, v, i);
    var flush := FlushTdi(env, v, i);
    match env.acts[i]
    case GoTo(state, wait) =>
      var go := GoToState(env.table, flush.view, state);
      MovesRemember(env.table, flush.view, state);
      if wait != 0 {
        var stay := Wait(go.view, WaitingBit(state).value, wait);
        WaitRemembers(go.view, WaitingBit(state).value, wait);
        ScansConcat(go.acts, stay.acts);
        ScansConcat(flush.acts, go.acts + stay.acts);
      } else {
        ScansConcat(flush.acts, go.acts);
      }
    case _ =>
  }

  /** A transaction that scans data and writes no instruction forgets the one remembered before it. */
  lemma {:induction false} DataScansForget(env: Env, v: View, i: nat)
    requires i <= |env.acts| && NoInstructions(env.acts, i) && v.single == None
    requires v.batch.Collecting? ==> !v.batch.op.IrOp? && v.batch.first <= i
    requires Translate(env, v, i).Went?
    ensures var all := Translate(env, v, i).effect;
            all.view.lastSingle == if Scans(all.acts) then None else v.lastSingle
    decreases |env.acts| - i
  {
    if i == |env.acts| {
      FlushRemembers(env, v, i);
      var scan := FlushTdi(env, v, i);
      MovesRemember([], scan.view, 0);
      ScansConcat(scan.acts, FlushTms(scan.view).acts);
    } else {
      VisitRemembers(env, v, i);
      var e := Visit(env, v, i).effect;
      var next := env.(taps := TapsAfter(env.taps, env.acts[i]));
      DataScansForget(next, e.view, i + 1);
      ScansConcat(e.acts, Translate(next, e.view, i + 1).effect.acts);
    }
  }
}

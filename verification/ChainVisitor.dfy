/**
 * The visitor itself. One class serves twice: as the translator it appends raw JTAG actions
 * to a builder and changes the chain structure; as the completer it steps through the
 * results of those actions. Both follow `ChainVisit`: `log` is what either of them has
 * called for.
 */
module ChainVisitor {
  import opened Common
  import opened Num
  import opened Bits
  import opened JtagWire
  import opened ChainBits
  import opened ChainVisit
  import opened ChainCount
  import opened ChainScan
  import opened ChainAnswers
  import opened ChainTap
  import opened ChainReport
  import opened TapPaths
  import Tap

  /** The driver's lasting state. */
  class Chain {
    const transitions: seq<seq<Entry>>
    var state: nat
    var selectedTap: nat
    var lastWrittenSingleIr: Option<SingleIR>
    var taps: seq<nat>

    constructor (transitions: seq<seq<Entry>>)
      ensures this.transitions == transitions && state == Tap.UNKNOWN && selectedTap == 0
      ensures lastWrittenSingleIr == None && taps == [1]
    {
      this.transitions := transitions;
      state, selectedTap, lastWrittenSingleIr, taps := Tap.UNKNOWN, 0, None, [1];
    }
  }

  /** A visit goes on, stops with a failed transaction, or stops at a failed assertion. */
  datatype Verdict = Continue | Stop | Abort

  class Visitor {
    const chain: Chain
    const acts: seq<ChainAct>
    const translating: bool
    const status: seq<JtagResult>
    ghost const start: nat
    ghost const lead: seq<JtagAct>

    var builder: seq<JtagAct>
    var jit: nat
    var state: nat
    var selectedTap: nat
    var lastWrittenSingleIr: Option<SingleIR>
    var tms: seq<bool>
    var batch: Collecting
    var maybeSingleIr: Option<SingleIR>
    var done: nat
    var outs: map<nat, seq<bool>>
    var cause: Option<Cause>
    ghost var log: seq<JtagAct>

    ghost function Seen(): View
      reads this
    {
      View(state, selectedTap, lastWrittenSingleIr, tms, batch, maybeSingleIr)
    }

    ghost function Around(): Env
      reads this, chain
    {
      Env(chain.transitions, chain.taps, acts)
    }

    /** What was called for has been built, or has been completed and passed. */
    ghost predicate Valid()
      reads this
    {
      && ShortPaths(chain.transitions)
      && state < Tap.UNKNOWN
      && |tms| <= MAX_TMS_BITS
      && if translating then builder == lead + log else jit == start + |log| <= |status|
    }

    /** Completed raw actions that the completer has not come to yet. */
    ghost function Unused(): nat
      reads this
    {
      if start + |log| <= |status| then |status| - (start + |log|) else 0
    }

    /** Enough has been completed for a log of n actions. */
    ghost predicate Enough(n: nat) {
      translating || start + n <= |status|
    }

    /** The effect has happened, from a log of `before`. */
    ghost predicate Took(e: Effect, before: seq<JtagAct>)
      reads this
    {
      Seen() == e.view && log == before + e.acts && Valid()
    }

    constructor (chain: Chain, acts: seq<ChainAct>, translating: bool, status: seq<JtagResult>, jbegin: nat,
                 builder: seq<JtagAct>, state: nat, selectedTap: nat, lastWrittenSingleIr: Option<SingleIR>)
      requires translating || jbegin <= |status|
      requires ShortPaths(chain.transitions) && state < Tap.UNKNOWN
      ensures this.chain == chain && this.acts == acts && this.translating == translating && this.status == status
      ensures start == jbegin && lead == builder
      ensures Seen() == View(state, selectedTap, lastWrittenSingleIr, [], Idle, None)
      ensures log == [] && Valid() && done == 0 && outs == map[] && cause == None
    {
      this.chain, this.acts, this.translating, this.status := chain, acts, translating, status;
      this.builder, this.jit := builder, jbegin;
      this.start, this.lead, this.log := jbegin, builder, [];
      this.state, this.selectedTap, this.lastWrittenSingleIr := state, selectedTap, lastWrittenSingleIr;
      this.tms, this.batch, this.maybeSingleIr := [], Idle, None;
      this.done, this.outs, this.cause := 0, map[], None;
    }

    method FlushTMS() returns (ok: bool)
      requires Valid()
      modifies this
      ensures ok <==> Enough(|old(log)| + |FlushTms(old(Seen())).acts|)
      ensures ok ==> Took(FlushTms(old(Seen())), old(log)) && cause == old(cause)
      ensures done == old(done) && outs == old(outs)
    {
      if tms == [] {
        ok := true;
        return;
      }
      if translating {
        builder := builder + [PutTMS(tms)];
      } else {
        if jit == |status| {
          Fail();
          return false;
        }
        jit := jit + 1;
      }
      log := log + [PutTMS(tms)];
      tms := [];
      ok := true;
    }

    /** The nested error; a transaction whose every action is done does not fail. */
    method Fail()
      modifies this`cause
      ensures cause == if done == |acts| then old(cause) else Some(CauseNestedError)
    {
      if done != |acts| {
        cause := Some(CauseNestedError);
      }
    }

    method GoTo(t: nat) returns (ok: bool)
      requires Valid() && t < Tap.UNKNOWN
      modifies this
      ensures ok <==> Enough(|old(log)| + |GoToState(chain.transitions, old(Seen()), t).acts|)
      ensures ok ==> Took(GoToState(chain.transitions, old(Seen()), t), old(log)) && cause == old(cause)
      ensures done == old(done) && outs == old(outs)
    {
      var path := Path(chain.transitions, state, t);
      if MAX_TMS_BITS < |tms| + |path| {
        ok := FlushTMS();
        if !ok {
          return;
        }
      }
      assert |tms| + |path| <= MAX_TMS_BITS;
      tms := tms + path;
      state := t;
      ok := true;
    }

    /** As many cycles in the state as the buffer takes, at least one. */
    method WaitSome(b: bool, toWait: nat) returns (ok: bool, k: nat)
      requires Valid() && toWait > 0
      modifies this
      ensures ok <==> Enough(|old(log)| + |MakeRoom(old(Seen()), 1).acts|)
      ensures ok ==>
        var room := MakeRoom(old(Seen()), 1);
        && k == Min(toWait, MAX_TMS_BITS - |room.view.tms|)
        && Seen() == room.view.(tms := room.view.tms + Repeat(b, k))
        && log == old(log) + room.acts && Valid()
      ensures ok ==> cause == old(cause)
      ensures done == old(done) && outs == old(outs)
    {
      k := 0;
      if |tms| == MAX_TMS_BITS {
        ok := FlushTMS();
        if !ok {
          return;
        }
      }
      k := Min(toWait, MAX_TMS_BITS - |tms|);
      tms := tms + Repeat(b, k);
      ok := true;
    }

    method WaitThere(b: bool, cycles: nat) returns (ok: bool)
      requires Valid()
      modifies this
      ensures ok <==> Enough(|old(log)| + |Wait(old(Seen()), b, cycles).acts|)
      ensures ok ==> Took(Wait(old(Seen()), b, cycles), old(log)) && cause == old(cause)
      ensures done == old(done) && outs == old(outs)
    {
      var toWait: nat := cycles;
      ghost var all := Wait(Seen(), b, cycles);
      ghost var rest := all;
      while toWait != 0
        invariant Valid() && cause == old(cause)
        invariant done == old(done) && outs == old(outs)
        invariant rest == Wait(Seen(), b, toWait) && rest.view == all.view
        invariant log + rest.acts == old(log) + all.acts
      {
        ghost var room, before := MakeRoom(Seen(), 1), log;
        var k: nat;
        ok, k := WaitSome(b, toWait);
        assert rest.acts == room.acts + rest.acts[|room.acts|..];
        if !ok {
          return;
        }
        toWait := toWait - k;
        rest := Wait(Seen(), b, toWait);
        InTwo(before, room.acts, rest.acts);
      }
      ok := true;
    }

    /** To the Shift state of the batch, with nothing left in the TMS buffer. */
    method GoShift() returns (ok: bool)
      requires Valid() && batch.Collecting?
      modifies this
      ensures ok <==> Enough(|old(log)| + |Approach(old(Around()), old(Seen()), old(batch).op).acts|)
      ensures ok ==> Took(Approach(old(Around()), old(Seen()), old(batch).op), old(log)) && cause == old(cause)
      ensures done == old(done) && outs == old(outs)
    {
      ghost var go := GoToState(chain.transitions, Seen(), ShiftState(batch.op));
      ok := GoTo(if batch.op.IrOp? then Tap.SHIFT_IR else Tap.SHIFT_DR);
      if ok {
        ok := FlushTMS();
        InTwo(old(log), go.acts, FlushTms(go.view).acts);
      }
    }

    /** Marks each action of an interval done, one after the other. */
    method MarkDone(first: nat, end: nat)
      requires first <= end
      modifies this`done
      ensures done == if first == end then old(done) else end
    {
      var it := first;
      while it != end
        invariant first <= it <= end && done == if it == first then old(done) else it
      {
        it := it + 1;
        done := it;
      }
    }

    /** The scan itself: its bits emitted, or its result read. */
    method PassScan(end: nat) returns (ok: bool)
      requires Valid() && batch.Collecting? && CountedBatch(Around(), batch, selectedTap, end)
      requires !translating && jit < |status| ==>
                 Answers(ScanAct(batch.op, Emitted(ScanOf(Around(), batch), end).bits), status[jit])
      modifies this`builder, this`jit, this`log, this`done, this`outs, this`cause
      ensures ok <==> Enough(|old(log)| + 1)
      ensures ok ==> Valid() && cause == old(cause)
      ensures ok ==> log == old(log) + [ScanAct(batch.op, Emitted(ScanOf(Around(), batch), end).bits)]
      ensures translating ==> done == old(done) && outs == old(outs)
      ensures ok && !translating ==> done == end
      ensures ok && !translating ==> outs == OutsAfter(ScanOf(Around(), batch), end, status[old(jit)], old(outs))
      ensures !ok ==> done == batch.first && outs == old(outs)
    {
      var s := Scan(batch.op, chain.taps, acts, batch.first, batch.firstTap);
      if translating {
        var bits := EmitScan(s, end, batch.total);
        builder := builder + [if batch.op.ShiftOp? then PutTDIGetTDO(bits, true) else PutTDI(bits, true)];
      } else {
        if jit == |status| {
          done := batch.first;
          Fail();
          return false;
        }
        var result := status[jit];
        jit := jit + 1;
        if result.Tdo? {
          outs, done := ReadScan(s, end, result.bits, outs);
        } else {
          MarkDone(batch.first, end);
        }
      }
      log := log + [ScanAct(batch.op, Emitted(s, end).bits)];
      ok := true;
    }

    /** The result that the scan of the batch will be given, if it is there yet. */
    ghost predicate ScanAnswered(end: nat)
      requires batch.Collecting? ==> batch.first <= end <= |acts|
      reads this, chain
    {
      !translating && batch.Collecting? && !Elided(Seen()) ==>
        var e := FlushTdi(Around(), Seen(), end);
        var k := start + |log| + |e.acts| - 1;
        k < |status| ==> Answers(ScanAct(batch.op, Emitted(ScanOf(Around(), batch), end).bits), status[k])
    }

    /** Sends the batch, which ends before action `end`. */
    method SendBatch(end: nat, ghost e: Effect) returns (ok: bool)
      requires Valid() && batch.Collecting? && !Elided(Seen())
      requires CountedBatch(Around(), batch, selectedTap, end)
      requires ScanAnswered(end) && e == FlushTdi(Around(), Seen(), end)
      modifies this
      ensures ok <==> Enough(|old(log)| + |e.acts|)
      ensures ok ==> Took(e, old(log)) && cause == old(cause)
      ensures translating ==> done == old(done) && outs == old(outs)
      ensures ok && !translating ==> done == end
      ensures ok && !translating ==>
        outs == OutsAfter(ScanOf(old(Around()), old(batch)), end, status[jit - 1], old(outs))
      ensures !ok ==> outs == old(outs)
      ensures !ok ==> done == if |status| + 1 == start + |old(log)| + |e.acts| then old(batch).first else old(done)
    {
      ghost var near := Approach(Around(), Seen(), batch.op);
      ghost var scan := ScanAct(batch.op, Emitted(ScanOf(Around(), batch), end).bits);
      assert e.acts == near.acts + [scan];
      ok := GoShift();
      if !ok {
        return;
      }
      ok := PassScan(end);
      if !ok {
        return;
      }
      InTwo(old(log), near.acts, [scan]);
      state := if state == Tap.SHIFT_IR then Tap.EXIT1_IR else Tap.EXIT1_DR;
      lastWrittenSingleIr := maybeSingleIr;
      batch := Idle;
    }

    method FlushTDI(end: nat) returns (ok: bool)
      requires Valid() && end <= |acts| && Counted(Around(), Seen(), end)
      requires ScanAnswered(end)
      modifies this
      ensures ok <==> Enough(|old(log)| + |FlushTdi(old(Around()), old(Seen()), end).acts|)
      ensures ok ==> Took(FlushTdi(old(Around()), old(Seen()), end), old(log)) && cause == old(cause)
      ensures translating ==> done == old(done) && outs == old(outs)
      ensures !translating ==> done == FlushDone(old(Around()), old(Seen()), end, old(done), old(Unused()))
      ensures ok && !translating ==> outs == FlushedOuts(old(Around()), old(Seen()), end, status, start + |old(log)|, old(outs))
      ensures !ok ==> outs == old(outs)
    {
      if batch.Idle? {
        return true;
      }
      if batch.op.IrOp? && maybeSingleIr == lastWrittenSingleIr {
        if !translating {
          MarkDone(batch.first, end);
        }
        batch := Idle;
        return true;
      }
      ok := SendBatch(end, FlushTdi(Around(), Seen(), end));
    }
  
    // ---------------------------------------------------------------- one action

    /** With no batch under way, the completer has marked everything visited as done. */
    ghost predicate Marked(i: nat)
      reads this
    {
      !translating && batch.Idle? ==> done == i
    }

    /** What a visit starts from. Of what the translator accepted, the completer refuses at most a selection. */
    ghost predicate Ready(i: nat)
      reads this, chain
    {
      && Valid() && i < |acts| && Counted(Around(), Seen(), i) && Marked(i)
      && (Sends(Seen(), acts[i]) ==> ScanAnswered(i))
      && (translating || Visit(Around(), Seen(), i).Went? || acts[i].Select?)
    }

    /** The translator goes on unless refused; the completer, moreover, as long as enough was completed. */
    ghost predicate Judged(o: Outcome, n: nat, r: Verdict) {
      if translating then
        (r.Continue? <==> o.Went?) && (r.Stop? <==> o.Refused?)
      else
        !o.Asserted? && r == if o.Went? && Enough(n + |o.effect.acts|) then Continue else Stop
    }

    method VisitForget(i: nat) returns (r: Verdict)
      requires Ready(i) && acts[i].Forget?
      modifies this, chain`taps, chain`selectedTap
      ensures Judged(Visit(old(Around()), old(Seen()), i), |old(log)|, r)
      ensures r.Continue? ==> Took(Visit(old(Around()), old(Seen()), i).effect, old(log)) && Marked(i + 1)
      ensures !translating ==> done == VisitDone(old(Around()), old(Seen()), i, old(done), old(Unused()))
      ensures r.Continue? ==> cause == old(cause)
      ensures r.Continue? && !translating ==> outs == FlushedOuts(old(Around()), old(Seen()), i, status, start + |old(log)|, old(outs))
      ensures chain.taps == if translating then [1] else old(chain.taps)
      ensures chain.selectedTap == if translating then 0 else old(chain.selectedTap)
    {
      var ok := FlushTDI(i);
      if !ok {
        return Stop;
      }
      if translating {
        chain.taps := [1];
        chain.selectedTap := 0;
      }
      selectedTap := 0;
      if !translating {
        done := i + 1;
      }
      r := Continue;
    }

    method VisitSetIRLength(i: nat) returns (r: Verdict)
      requires Ready(i) && acts[i].SetIRLength?
      modifies this, chain`taps
      ensures Judged(Visit(old(Around()), old(Seen()), i), |old(log)|, r)
      ensures r.Continue? ==> Took(Visit(old(Around()), old(Seen()), i).effect, old(log)) && Marked(i + 1)
      ensures !translating ==> done == VisitDone(old(Around()), old(Seen()), i, old(done), old(Unused()))
      ensures r.Continue? ==> cause == old(cause)
      ensures translating && r.Stop? ==> cause == Some(Visit(old(Around()), old(Seen()), i).cause)
      ensures r.Continue? && !translating ==> outs == FlushedOuts(old(Around()), old(Seen()), i, status, start + |old(log)|, old(outs))
      ensures chain.taps == if translating && r.Continue? then TapsAfter(old(chain.taps), acts[i]) else old(chain.taps)
    {
      var tap, length := acts[i].tap, acts[i].length;
      if length > MAX_IR_LENGTH {
        cause := Some(CauseIRLengthTooBig(length));
        return Stop;
      }
      var ok := FlushTDI(i);
      if !ok {
        return Stop;
      }
      if tap >= MAX_NUM_TAPS {
        cause := Some(CauseInvalidJtagTapID(tap, MAX_NUM_TAPS - 1));
        return Stop;
      }
      if translating {
        var taps := chain.taps;
        var k := |taps|;
        while k < tap
          invariant |chain.taps| <= k
          invariant taps == chain.taps + seq(k - |chain.taps|, _ => 1) && |taps| == k
          invariant |chain.taps| <= tap ==> k <= tap
          invariant |chain.taps| > tap ==> taps == chain.taps
        {
          taps := taps + [1];
          k := k + 1;
        }
        chain.taps := taps[..tap] + [length];
      } else {
        done := i + 1;
      }
      r := Continue;
    }

    /** To a state, and to wait there. */
    method Move(target: nat, wait: nat, ghost o: Outcome) returns (r: Verdict)
      requires Valid() && o == VisitGoTo(Around(), Seen(), target, wait) && (translating || o.Went?)
      modifies this
      ensures Judged(o, |old(log)|, r)
      ensures r.Continue? ==> Took(o.effect, old(log)) && cause == old(cause)
      ensures translating && r.Stop? ==> cause == Some(o.cause)
      ensures done == old(done) && outs == old(outs)
    {
      if target >= Tap.UNKNOWN {
        cause := Some(CauseInvalidJtagState(target));
        return Stop;
      }
      ghost var went := GoToState(chain.transitions, Seen(), target);
      var ok := GoTo(target);
      if !ok {
        return Stop;
      }
      if wait == 0 {
        return Continue;
      }
      var bit := WaitingBit(target);
      if bit.None? {
        cause := Some(CauseUnstableJtagState(target));
        return Stop;
      }
      ghost var stay := Wait(Seen(), bit.value, wait);
      assert o == Went(Effect(stay.view, went.acts + stay.acts));
      ok := WaitThere(bit.value, wait);
      InTwo(old(log), went.acts, stay.acts);
      r := if ok then Continue else Stop;
    }

    method VisitGoToState(i: nat) returns (r: Verdict)
      requires Ready(i) && acts[i].GoTo?
      modifies this
      ensures Judged(Visit(old(Around()), old(Seen()), i), |old(log)|, r)
      ensures r.Continue? ==> Took(Visit(old(Around()), old(Seen()), i).effect, old(log)) && Marked(i + 1)
      ensures !translating ==> done == VisitDone(old(Around()), old(Seen()), i, old(done), old(Unused()))
      ensures r.Continue? ==> cause == old(cause)
      ensures translating && r.Stop? ==> cause == Some(Visit(old(Around()), old(Seen()), i).cause)
      ensures r.Continue? && !translating ==> outs == FlushedOuts(old(Around()), old(Seen()), i, status, start + |old(log)|, old(outs))
    {
      ghost var flush := FlushTdi(Around(), Seen(), i);
      ghost var o := VisitGoTo(Around(), flush.view, acts[i].state, acts[i].wait);
      assert Visit(Around(), Seen(), i) == After(flush, o);
      var ok := FlushTDI(i);
      if !ok {
        return Stop;
      }
      assert state < Tap.UNKNOWN;
      r := Move(acts[i].state, acts[i].wait, o);
      if r.Continue? {
        InTwo(old(log), flush.acts, o.effect.acts);
        if !translating {
          done := i + 1;
        }
      }
    }

    method VisitSelect(i: nat) returns (r: Verdict)
      requires Ready(i) && acts[i].Select?
      modifies this
      ensures Judged(Visit(old(Around()), old(Seen()), i), |old(log)|, r)
      ensures r.Continue? ==> Took(Visit(old(Around()), old(Seen()), i).effect, old(log)) && Marked(i + 1)
      ensures !translating ==> done == VisitDone(old(Around()), old(Seen()), i, old(done), old(Unused()))
      ensures r.Continue? ==> cause == old(cause)
      ensures r.Stop? ==> cause == Some(Visit(old(Around()), old(Seen()), i).cause)
      ensures outs == old(outs)
    {
      if acts[i].tap >= |chain.taps| {
        cause := Some(CauseInvalidJtagTapID(acts[i].tap, |chain.taps|));
        return Stop;
      }
      selectedTap := acts[i].tap;
      if !translating {
        done := i + 1;
      }
      r := Continue;
    }
  
    /** Adds the instruction bits of the TAPs from the last one reached down to the selected one. */
    method CountInstructions()
      requires batch.Collecting? && selectedTap < batch.last <= |chain.taps|
      modifies this`batch
      ensures batch == old(batch).(last := selectedTap, total := old(batch).total + CountIr(chain.taps, old(batch).last, selectedTap))
    {
      while batch.last != selectedTap
        invariant batch.Collecting? && selectedTap <= batch.last <= |chain.taps|
        invariant batch == old(batch).(last := batch.last, total := batch.total)
        invariant batch.total + CountIr(chain.taps, batch.last, selectedTap)
               == old(batch).total + CountIr(chain.taps, old(batch).last, selectedTap)
        decreases batch.last
      {
        batch := batch.(last := batch.last - 1, total := batch.total + chain.taps[batch.last - 1]);
      }
    }

    /** The instruction joins the batch under way, or starts one. */
    method JoinIR(i: nat)
      requires i < |acts| && acts[i].WriteIR? && selectedTap < |chain.taps|
      requires !NeedsFlush(Seen(), IrOp) && Counted(Around(), Seen(), i)
      modifies this`batch, this`maybeSingleIr
      ensures Seen() == Join(chain.taps, old(Seen()), acts[i], i)
    {
      if batch.Idle? {
        batch := Collecting(IrOp, i, selectedTap, |chain.taps|, 0);
        maybeSingleIr := Some(SingleIR(selectedTap, acts[i].value));
      } else {
        LastInRange(Around(), Seen(), i);
        maybeSingleIr := None;
      }
      CountInstructions();
    }

    method JoinDR(i: nat)
      requires i < |acts| && (acts[i].WriteDR? || acts[i].ShiftDR?) && selectedTap < |chain.taps|
      requires !NeedsFlush(Seen(), OpOf(acts[i]))
      modifies this`batch
      ensures Seen() == Join(chain.taps, old(Seen()), acts[i], i)
    {
      if batch.Idle? {
        batch := Collecting(OpOf(acts[i]), i, selectedTap, |chain.taps|, 0);
      }
      if batch.last != selectedTap {
        batch := batch.(total := batch.total + (batch.last - 1 - selectedTap), last := selectedTap);
      }
      batch := batch.(total := batch.total + |acts[i].bits|);
    }

    /** Sends the batch under way when the write cannot join it. */
    method FlushFor(i: nat, ghost e: Effect) returns (ok: bool)
      requires Ready(i) && (acts[i].WriteIR? || acts[i].WriteDR? || acts[i].ShiftDR?)
      requires e == if NeedsFlush(Seen(), OpOf(acts[i])) then FlushTdi(Around(), Seen(), i) else Nop(Seen())
      modifies this
      ensures ok <==> Enough(|old(log)| + |e.acts|)
      ensures !translating ==>
        done == if NeedsFlush(old(Seen()), OpOf(acts[i]))
                then FlushDone(old(Around()), old(Seen()), i, old(done), old(Unused())) else old(done)
      ensures ok ==> Took(e, old(log)) && cause == old(cause)
      ensures ok && !translating ==>
        outs == if NeedsFlush(old(Seen()), OpOf(acts[i]))
                then FlushedOuts(old(Around()), old(Seen()), i, status, start + |old(log)|, old(outs)) else old(outs)
    {
      var needToFlush := batch.Collecting? &&
        (batch.op != OpOf(acts[i]) || if acts[i].WriteIR? then selectedTap >= batch.last else selectedTap > batch.last);
      ok := true;
      if needToFlush {
        ok := FlushTDI(i);
      }
    }

    method VisitWriteAct(i: nat) returns (r: Verdict)
      requires Ready(i) && (acts[i].WriteIR? || acts[i].WriteDR? || acts[i].ShiftDR?)
      modifies this
      ensures Judged(Visit(old(Around()), old(Seen()), i), |old(log)|, r)
      ensures r.Continue? ==> Took(Visit(old(Around()), old(Seen()), i).effect, old(log)) && Marked(i + 1)
      ensures !translating ==> done == VisitDone(old(Around()), old(Seen()), i, old(done), old(Unused()))
      ensures r.Continue? ==> cause == old(cause)
      ensures r.Continue? && !translating ==>
        outs == if NeedsFlush(old(Seen()), OpOf(acts[i]))
                then FlushedOuts(old(Around()), old(Seen()), i, status, start + |old(log)|, old(outs)) else old(outs)
    {
      ghost var flush := if NeedsFlush(Seen(), OpOf(acts[i])) then FlushTdi(Around(), Seen(), i) else Nop(Seen());
      var ok := FlushFor(i, flush);
      if !ok {
        return Stop;
      }
      if selectedTap >= |chain.taps| {
        return Abort;
      }
      if acts[i].WriteIR? {
        JoinIR(i);
      } else {
        JoinDR(i);
      }
      r := Continue;
    }

    /** One action. */
    method VisitAct(i: nat) returns (r: Verdict)
      requires Ready(i)
      modifies this, chain`taps, chain`selectedTap
      ensures Judged(Visit(old(Around()), old(Seen()), i), |old(log)|, r)
      ensures r.Continue? ==> Took(Visit(old(Around()), old(Seen()), i).effect, old(log)) && Marked(i + 1)
      ensures !translating ==> DoneIs(old(Around()), old(Seen()), i, old(done), old(Unused()), done)
      ensures r.Continue? ==> cause == old(cause)
      ensures Visit(old(Around()), old(Seen()), i).Refused? ==> cause == Some(Visit(old(Around()), old(Seen()), i).cause)
      ensures r.Continue? && !translating ==>
        outs == if Sends(old(Seen()), acts[i]) then FlushedOuts(old(Around()), old(Seen()), i, status, start + |old(log)|, old(outs)) else old(outs)
      ensures chain.taps == if translating && r.Continue? then TapsAfter(old(chain.taps), acts[i]) else old(chain.taps)
      ensures chain.selectedTap == if translating && acts[i].Forget? then 0 else old(chain.selectedTap)
    {
      match acts[i]
      case Forget => r := VisitForget(i);
      case SetIRLength(_, _) => r := VisitSetIRLength(i);
      case GoTo(_, _) => r := VisitGoToState(i);
      case Select(_) => r := VisitSelect(i);
      case _ => r := VisitWriteAct(i);
    }

    /** The batch and the TMS bits left at the end. */
    method FinishUp() returns (ok: bool)
      requires Valid() && Counted(Around(), Seen(), |acts|) && ScanAnswered(|acts|) && Marked(|acts|)
      modifies this
      ensures ok <==> Enough(|old(log)| + |Finish(old(Around()), old(Seen())).acts|)
      ensures ok ==> Took(Finish(old(Around()), old(Seen())), old(log)) && Marked(|acts|) && cause == old(cause)
      ensures !translating ==> done == FlushDone(old(Around()), old(Seen()), |acts|, old(done), old(Unused()))
      ensures ok && !translating ==> outs == FlushedOuts(old(Around()), old(Seen()), |acts|, status, start + |old(log)|, old(outs))
    {
      ghost var scan := FlushTdi(Around(), Seen(), |acts|);
      ghost var last := FlushTms(scan.view);
      ok := FlushTDI(|acts|);
      if ok {
        ok := FlushTMS();
        InTwo(old(log), scan.acts, last.acts);
      }
    }
  }

  lemma LastInRange(env: Env, v: View, i: nat)
    requires Counted(env, v, i) && v.batch.Collecting?
    ensures v.batch.last <= |env.taps|
  {
    UntouchedBelow(ScanOf(env, v.batch), i, 0);
  }

  lemma InTwo(a: seq<JtagAct>, b: seq<JtagAct>, c: seq<JtagAct>)
    ensures a + b + c == a + (b + c)
  {
  }
}

/**
 * The two loops over a batch: the translator writes its bits into an action of the counted
 * length, and the completer hands the TDO bits back to the shifts of the batch.
 */
module ChainScan {
  import opened Num
  import opened Bits
  import opened ChainBits
  import opened ChainCount
  import opened ScanPath

  /** A write to a stream of `room` bits: what does not fit is dropped. */
  function Put(dest: seq<bool>, room: nat, x: seq<bool>): (r: seq<bool>)
    requires |dest| <= room
    ensures |r| <= room
  {
    dest + x[..Min(|x|, room - |dest|)]
  }

  function Clip(x: seq<bool>, room: nat): (r: seq<bool>)
    ensures |r| <= room
  {
    x[..Min(|x|, room)]
  }

  lemma PutClip(x: seq<bool>, room: nat, y: seq<bool>)
    ensures Put(Clip(x, room), room, y) == Clip(x + y, room)
  {
  }

  lemma {:induction false} BetweenLast(op: Op, taps: seq<nat>, high: nat, low: nat)
    requires 0 < low < high
    ensures Between(op, taps, high, low) + Filler(op, taps, low) == Between(op, taps, high, low - 1)
    decreases high
  {
    if high == low + 1 {
      var filler := Filler(op, taps, low);
      assert filler + Between(op, taps, low, low - 1) == filler;
      assert Between(op, taps, high, low) + filler == filler;
    } else {
      var top, mid, filler := Filler(op, taps, high - 1), Between(op, taps, high - 1, low), Filler(op, taps, low);
      assert Between(op, taps, high, low - 1) == top + (mid + filler) by {
        BetweenLast(op, taps, high - 1, low);
      }
      Assoc(top, mid, filler);
    }
  }

  /** Ones for every TAP below `high` and above `low`. */
  method PutOnes(taps: seq<nat>, written: seq<bool>, room: nat, high: nat, low: nat, ghost lead: seq<bool>)
    returns (dest: seq<bool>)
    requires low < high <= |taps| && written == Clip(lead, room)
    ensures dest == Clip(lead + Between(IrOp, taps, high, low), room)
  {
    dest := written;
    var last := high - 1;
    assert lead + Between(IrOp, taps, high, last) == lead;
    while last != low
      invariant low <= last < high
      invariant dest == Clip(lead + Between(IrOp, taps, high, last), room)
    {
      PutClip(lead + Between(IrOp, taps, high, last), room, Ones(taps[last]));
      Assoc(lead, Between(IrOp, taps, high, last), Ones(taps[last]));
      BetweenLast(IrOp, taps, high, last);
      dest := Put(dest, room, Ones(taps[last]));
      last := last - 1;
    }
  }

  /** Zeros, at most 64 at a time. */
  method PutZeros(written: seq<bool>, room: nat, n: nat, ghost lead: seq<bool>) returns (dest: seq<bool>)
    requires written == Clip(lead, room)
    ensures dest == Clip(lead + Zeros(n), room)
  {
    dest := written;
    var left := n;
    assert lead + Zeros(0) == lead;
    while left > 0
      invariant 0 <= left <= n && dest == Clip(lead + Zeros(n - left), room)
    {
      var k := Min(left, 64);
      PutClip(lead + Zeros(n - left), room, Zeros(k));
      assert Zeros(n - left) + Zeros(k) == Zeros(n - (left - k));
      Assoc(lead, Zeros(n - left), Zeros(k));
      dest := Put(dest, room, Zeros(k));
      left := left - k;
    }
  }

  /** One write of the batch: the TAPs passed over, then its own bits. */
  method PutWrite(s: Scan, written: seq<bool>, room: nat, last: nat, selected: nat, a: ChainAct, ghost e: Emission)
    returns (dest: seq<bool>)
    requires written == Clip(e.bits, room) && last == e.last && selected == e.selected
    requires IsWrite(s.op, a) && MayFollow(s.op, s.taps, last, selected) && last <= |s.taps|
    ensures dest == Clip(Emit(s.op, s.taps, e, a).bits, room)
  {
    if s.op.IrOp? {
      dest := PutOnes(s.taps, written, room, last, selected, e.bits);
    } else {
      CountsBypasses(s.op, s.taps, last, selected);
      dest := PutZeros(written, room, if last != selected then last - 1 - selected else 0, e.bits);
    }
    var own := OwnBits(s.taps, a, selected);
    PutClip(e.bits + Between(s.op, s.taps, last, selected), room, own);
    dest := Put(dest, room, own);
  }

  /**
   * The emit pass. Its last step tries to write the TAPs below the last one reached too, but
   * the action has only room for the bits counted.
   */
  method EmitScan(s: Scan, end: nat, total: nat) returns (dest: seq<bool>)
    requires s.first <= end <= |s.acts| && IsBatch(s, end) && total == |Emitted(s, end).bits|
    ensures dest == Emitted(s, end).bits
  {
    dest := [];
    var it, selected, last := s.first, s.tap, |s.taps|;
    while it != end
      invariant s.first <= it <= end
      invariant dest == Clip(Emitted(s, it).bits, total)
      invariant selected == Emitted(s, it).selected && last == Emitted(s, it).last
    {
      EmittedGrows(s, it, end);
      EmittedGrows(s, it + 1, end);
      if s.acts[it].Select? {
        selected := s.acts[it].tap;
      } else {
        UntouchedBelow(s, it, 0);
        dest := PutWrite(s, dest, total, last, selected, s.acts[it], Emitted(s, it));
        last := selected;
      }
      it := it + 1;
    }
    UntouchedBelow(s, end, 0);
    while last > 0
      invariant last <= |s.taps| && dest == Emitted(s, end).bits
    {
      last := last - 1;
      dest := Put(dest, total, if s.op.IrOp? then Ones(s.taps[last]) else Zeros(1));
    }
  }

  // ---------------------------------------------------------------- handing back TDO

  /** The TDO bits of each shift of the batch: those of the cycles that sent its own bits. */
  function Outs(s: Scan, tdo: seq<bool>, end: nat, outs: map<nat, seq<bool>>): map<nat, seq<bool>>
    requires s.first <= end <= |s.acts|
    decreases end
  {
    if end == s.first then outs
    else
      var before := Outs(s, tdo, end - 1, outs);
      var a := s.acts[end - 1];
      var p := CyclesAt(s, end - 1);
      if a.ShiftDR? && p + |a.bits| <= |tdo| then before[end - 1 := tdo[p..p + |a.bits|]] else before
  }

  lemma {:induction false} OutsAt(s: Scan, tdo: seq<bool>, end: nat, outs: map<nat, seq<bool>>, i: nat)
    requires s.first <= i < end <= |s.acts| && s.acts[i].ShiftDR? && CyclesAt(s, i) + |s.acts[i].bits| <= |tdo|
    ensures i in Outs(s, tdo, end, outs)
    ensures Outs(s, tdo, end, outs)[i] == tdo[CyclesAt(s, i)..CyclesAt(s, i) + |s.acts[i].bits|]
    decreases end
  {
    if i < end - 1 {
      OutsAt(s, tdo, end - 1, outs, i);
    }
  }

  /** The completer's loop over a batch of shifts. */
  method ReadScan(s: Scan, end: nat, tdo: seq<bool>, before: map<nat, seq<bool>>) returns (outs: map<nat, seq<bool>>, done: nat)
    requires s.first < end <= |s.acts| && IsBatch(s, end) && s.op.ShiftOp? && |tdo| == |Emitted(s, end).bits|
    ensures outs == Outs(s, tdo, end, before) && done == end
  {
    outs, done := before, s.first;
    var it, selected, last, pos := s.first, s.tap, |s.taps|, 0;
    while it != end
      invariant s.first <= it <= end && done == it
      invariant outs == Outs(s, tdo, it, before)
      invariant selected == Emitted(s, it).selected && last == Emitted(s, it).last
      invariant pos == |Emitted(s, it).bits|
    {
      EmittedGrows(s, it, end);
      EmittedGrows(s, it + 1, end);
      if s.acts[it].Select? {
        selected := s.acts[it].tap;
      } else {
        CountsBypasses(s.op, s.taps, last, selected);
        pos := pos + if last != selected then last - 1 - selected else 0;
        var n := |s.acts[it].bits|;
        outs := outs[it := tdo[pos..pos + n]];
        pos := pos + n;
        last := selected;
      }
      it := it + 1;
      done := it;
    }
  }
}

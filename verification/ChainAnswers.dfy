/**
 * What the completer hands back: every shift of the transaction gets the TDO bits of exactly
 * the cycles in which its own TDI bits were sent.
 */
module ChainAnswers {
  import opened Common
  import opened Bits
  import opened JtagWire
  import opened ChainBits
  import opened ChainVisit
  import opened ChainCount
  import opened ChainScan
  import opened ScanPath

  /** The result of a completed raw JTAG action. */
  datatype JtagResult = NoTdo | Tdo(bits: seq<bool>)

  predicate Answers(a: JtagAct, r: JtagResult) {
    if a.PutTDIGetTDO? then r.Tdo? && |r.bits| == |a.bits| else r.NoTdo?
  }

  /** Results of the first actions of a plan. */
  predicate Completes(plan: seq<JtagAct>, status: seq<JtagResult>) {
    |status| <= |plan| && forall k | 0 <= k < |status| :: Answers(plan[k], status[k])
  }

  /** `tdi` was sent in the cycles of action k from p on, and `tdo` came out in them. */
  predicate SameCycles(plan: seq<JtagAct>, status: seq<JtagResult>, tdi: seq<bool>, tdo: seq<bool>, k: nat, p: nat) {
    && k < |plan| && k < |status|
    && plan[k].PutTDIGetTDO? && status[k].Tdo?
    && p + |tdi| <= |plan[k].bits| && p + |tdi| <= |status[k].bits|
    && plan[k].bits[p..p + |tdi|] == tdi
    && status[k].bits[p..p + |tdi|] == tdo
  }

  /** Where the bits of a shift are sent: in raw action k, as part of the batch that `scan` ends before `end`. */
  datatype Place = Place(k: nat, scan: Scan, end: nat)

  /** Shift i of the batch at a place has the TDO bits of exactly its own cycles there. */
  predicate OwnAnswer(plan: seq<JtagAct>, status: seq<JtagResult>, at: Place, i: nat, tdi: seq<bool>, tdo: seq<bool>) {
    && at.scan.first <= i < at.end <= |at.scan.acts| && at.k < |plan|
    && plan[at.k] == PutTDIGetTDO(Emitted(at.scan, at.end).bits, true)
    && SameCycles(plan, status, tdi, tdo, at.k, CyclesAt(at.scan, i))
  }

  /** Every shift among the first n actions has the answer of its own place; contracts keep this folded. */
  predicate Settled(plan: seq<JtagAct>, status: seq<JtagResult>, at: nat -> Option<Place>, acts: seq<ChainAct>,
                    outs: map<nat, seq<bool>>, n: nat)
  {
    forall i: nat | i < n && i < |acts| && acts[i].ShiftDR? ::
      i in outs && at(i).Some? && OwnAnswer(plan, status, at(i).value, i, acts[i].bits, outs[i])
  }

  /** The shifts from `first` up to `end` have this place. */
  predicate PlacedAt(at: nat -> Option<Place>, acts: seq<ChainAct>, first: nat, end: nat, place: Place) {
    forall i: nat | first <= i < end && i < |acts| && acts[i].ShiftDR? :: at(i) == Some(place)
  }

  /** The actions before the batch under way. */
  function SettledUpTo(v: View, i: nat): nat {
    if v.batch.Collecting? then v.batch.first else i
  }

  lemma {:induction false} OutsBelow(s: Scan, tdo: seq<bool>, end: nat, outs: map<nat, seq<bool>>, i: nat)
    requires i < s.first <= end <= |s.acts|
    ensures i in outs ==> i in Outs(s, tdo, end, outs) && Outs(s, tdo, end, outs)[i] == outs[i]
    decreases end
  {
    if s.first < end {
      OutsBelow(s, tdo, end - 1, outs, i);
    }
  }

  lemma {:induction false} BatchKinds(s: Scan, end: nat, i: nat)
    requires s.first <= i < end <= |s.acts| && IsBatch(s, end)
    ensures s.acts[i].Select? || IsWrite(s.op, s.acts[i])
    decreases end
  {
    if i < end - 1 {
      BatchKinds(s, end - 1, i);
    }
  }

  /** A shift of a batch just read. */
  lemma ShiftSettled(plan: seq<JtagAct>, status: seq<JtagResult>, s: Scan, end: nat, outs: map<nat, seq<bool>>, k: nat, i: nat)
    requires s.first <= i < end <= |s.acts| && IsBatch(s, end) && s.acts[i].ShiftDR?
    requires k < |plan| && k < |status| && plan[k] == PutTDIGetTDO(Emitted(s, end).bits, true) && Answers(plan[k], status[k])
    ensures var out := Outs(s, status[k].bits, end, outs);
            i in out && OwnAnswer(plan, status, Place(k, s, end), i, s.acts[i].bits, out[i])
  {
    var p := CyclesAt(s, i);
    var tdi := s.acts[i].bits;
    OwnBitsSent(s, i, end, p, tdi);
    OutsAt(s, status[k].bits, end, outs, i);
    assert SameCycles(plan, status, tdi, status[k].bits[p..p + |tdi|], k, p);
  }

  /** Once its batch has been read, everything before `end` is settled. */
  lemma BatchSettled(plan: seq<JtagAct>, status: seq<JtagResult>, at: nat -> Option<Place>, s: Scan, end: nat,
                     outs: map<nat, seq<bool>>, k: nat)
    requires s.first <= end <= |s.acts| && IsBatch(s, end) && Settled(plan, status, at, s.acts, outs, s.first) == true
    requires PlacedAt(at, s.acts, s.first, end, Place(k, s, end)) == true
    requires k < |plan| && k < |status| && plan[k] == ScanAct(s.op, Emitted(s, end).bits) && Answers(plan[k], status[k]) == true
    ensures Settled(plan, status, at, s.acts, if status[k].Tdo? then Outs(s, status[k].bits, end, outs) else outs, end) == true
  {
    var out := if status[k].Tdo? then Outs(s, status[k].bits, end, outs) else outs;
    forall i: nat | i < end && i < |s.acts| && s.acts[i].ShiftDR?
      ensures i in out && at(i).Some? && OwnAnswer(plan, status, at(i).value, i, s.acts[i].bits, out[i])
    {
      if i < s.first {
        if status[k].Tdo? {
          OutsBelow(s, status[k].bits, end, outs, i);
        }
      } else {
        BatchKinds(s, end, i);
        ShiftSettled(plan, status, s, end, outs, k, i);
      }
    }
  }

  /** A batch that is not sent holds no shifts. */
  lemma ElidedSettled(plan: seq<JtagAct>, status: seq<JtagResult>, at: nat -> Option<Place>, s: Scan, end: nat, outs: map<nat, seq<bool>>)
    requires s.first <= end <= |s.acts| && IsBatch(s, end) && s.op.IrOp? && Settled(plan, status, at, s.acts, outs, s.first) == true
    ensures Settled(plan, status, at, s.acts, outs, end) == true
  {
    forall i: nat | s.first <= i < end ensures !s.acts[i].ShiftDR? {
      BatchKinds(s, end, i);
    }
  }

  /** The TDO bits handed back by a completed scan. */
  function OutsAfter(s: Scan, end: nat, r: JtagResult, before: map<nat, seq<bool>>): map<nat, seq<bool>>
    requires s.first <= end <= |s.acts|
  {
    if r.Tdo? then Outs(s, r.bits, end, before) else before
  }

  /** What the shifts of the batch are given when it is sent after n raw actions. */
  function FlushedOuts(env: Env, v: View, end: nat, status: seq<JtagResult>, n: nat, before: map<nat, seq<bool>>): map<nat, seq<bool>>
    requires v.batch.Collecting? ==> v.batch.first <= end <= |env.acts|
  {
    if v.batch.Idle? || Elided(v) then before
    else
      var k := n + |FlushTdi(env, v, end).acts| - 1;
      if k < |status| then OutsAfter(ScanOf(env, v.batch), end, status[k], before) else before
  }

  /** Sending the batch, as the part f of the plan from n on, settles everything before `end`. */
  lemma FlushSettles(plan: seq<JtagAct>, status: seq<JtagResult>, at: nat -> Option<Place>, env: Env, v: View, end: nat, n: nat,
                     outs: map<nat, seq<bool>>, f: seq<JtagAct>)
    requires end <= |env.acts| && Counted(env, v, end) == true && f == FlushTdi(env, v, end).acts
    requires Settled(plan, status, at, env.acts, outs, SettledUpTo(v, end)) == true
    requires v.batch.Collecting? && !Elided(v) ==>
               |f| > 0 && PlacedAt(at, env.acts, v.batch.first, end, Place(n + |f| - 1, ScanOf(env, v.batch), end)) == true
    requires Completes(plan, status) == true && n + |f| <= |status| <= |plan| && plan[n..n + |f|] == f
    ensures Settled(plan, status, at, env.acts, FlushedOuts(env, v, end, status, n, outs), end) == true
  {
    if v.batch.Collecting? {
      var s := ScanOf(env, v.batch);
      BatchOf(env, v, end, s);
      if Elided(v) {
        ElidedSettled(plan, status, at, s, end, outs);
      } else {
        FlushSends(env, v, end, s, f, status, n, outs);
        SentSettles(plan, status, at, s, end, n, outs, f);
      }
    }
  }

  lemma BatchOf(env: Env, v: View, end: nat, s: Scan)
    requires v.batch.Collecting? && Counted(env, v, end) == true && s == ScanOf(env, v.batch)
    ensures s.first == v.batch.first <= end <= |s.acts| && s.acts == env.acts && IsBatch(s, end) == true && s.op == v.batch.op
  {
  }

  /** A batch that is sent ends in its scan, whose result its shifts are given. */
  lemma FlushSends(env: Env, v: View, end: nat, s: Scan, f: seq<JtagAct>, status: seq<JtagResult>, n: nat, outs: map<nat, seq<bool>>)
    requires v.batch.Collecting? && !Elided(v) && s == ScanOf(env, v.batch) && v.batch.first <= end <= |env.acts|
    requires f == FlushTdi(env, v, end).acts && n + |f| <= |status|
    ensures f != [] && f[|f| - 1] == ScanAct(s.op, Emitted(s, end).bits)
    ensures FlushedOuts(env, v, end, status, n, outs) == OutsAfter(s, end, status[n + |f| - 1], outs)
  {
  }

  lemma SentSettles(plan: seq<JtagAct>, status: seq<JtagResult>, at: nat -> Option<Place>, s: Scan, end: nat, n: nat,
                    outs: map<nat, seq<bool>>, f: seq<JtagAct>)
    requires s.first <= end <= |s.acts| && IsBatch(s, end) && f != [] && f[|f| - 1] == ScanAct(s.op, Emitted(s, end).bits)
    requires Settled(plan, status, at, s.acts, outs, s.first) == true
    requires PlacedAt(at, s.acts, s.first, end, Place(n + |f| - 1, s, end)) == true
    requires Completes(plan, status) == true && n + |f| <= |status| <= |plan| && plan[n..n + |f|] == f
    ensures Settled(plan, status, at, s.acts, OutsAfter(s, end, status[n + |f| - 1], outs), end) == true
  {
    LastOfPart(plan, status, n, f);
    BatchSettled(plan, status, at, s, end, outs, n + |f| - 1);
  }

  lemma LastOfPart(plan: seq<JtagAct>, status: seq<JtagResult>, n: nat, f: seq<JtagAct>)
    requires Completes(plan, status) && f != [] && n + |f| <= |status| <= |plan| && plan[n..n + |f|] == f
    ensures plan[n + |f| - 1] == f[|f| - 1] && Answers(plan[n + |f| - 1], status[n + |f| - 1]) == true
  {
    assert plan[n + |f| - 1] == plan[n..n + |f|][|f| - 1];
  }

  /** What the visit of one action does to the answers. */
  function VisitOuts(env: Env, v: View, i: nat, status: seq<JtagResult>, n: nat, before: map<nat, seq<bool>>): map<nat, seq<bool>>
    requires i < |env.acts| && (v.batch.Collecting? ==> v.batch.first <= i)
  {
    if Sends(v, env.acts[i]) then FlushedOuts(env, v, i, status, n, before) else before
  }

  lemma SettledNext(plan: seq<JtagAct>, status: seq<JtagResult>, at: nat -> Option<Place>, env: Env, v: View, i: nat,
                    outs: map<nat, seq<bool>>)
    requires i < |env.acts| && (v.batch.Collecting? ==> v.batch.first <= i) && Visit(env, v, i).Went?
    requires Settled(plan, status, at, env.acts, outs, if Sends(v, env.acts[i]) then i else SettledUpTo(v, i)) == true
    ensures Settled(plan, status, at, env.acts, outs, SettledUpTo(Visit(env, v, i).effect.view, i + 1)) == true
  {
  }

  // ---------------------------------------------------------------- where each shift is sent

  /**
   * Where shift i is sent by a run that has come to action j after n raw actions: with the batch
   * it belongs to, which the first action that cannot join it, or the end, sends.
   */
  function PlaceOf(env: Env, v: View, j: nat, n: nat, i: nat): Option<Place>
    decreases |env.acts| - j
  {
    if j > |env.acts| || (v.batch.Collecting? && v.batch.first > j) then None
    else if (j == |env.acts| || Sends(v, env.acts[j])) && v.batch.Collecting? && !Elided(v) && v.batch.first <= i < j
    then Some(Place(n + |FlushTdi(env, v, j).acts| - 1, ScanOf(env, v.batch), j))
    else if j == |env.acts| || !Visit(env, v, j).Went? then None
    else PlaceOf(env, Visit(env, v, j).effect.view, j + 1, n + |Visit(env, v, j).effect.acts|, i)
  }

  /** The places of the shifts not yet settled are those of the rest of the run. */
  ghost predicate Follows(at: nat -> Option<Place>, env: Env, v: View, j: nat, n: nat) {
    forall i: nat | SettledUpTo(v, j) <= i < |env.acts| :: at(i) == PlaceOf(env, v, j, n, i)
  }

  lemma FollowsFlush(at: nat -> Option<Place>, env: Env, v: View, j: nat, n: nat, f: seq<JtagAct>)
    requires j <= |env.acts| && v.batch.Collecting? && v.batch.first <= j && !Elided(v) && f == FlushTdi(env, v, j).acts
    requires Follows(at, env, v, j, n) && (j == |env.acts| || Sends(v, env.acts[j]))
    ensures |f| > 0 && PlacedAt(at, env.acts, v.batch.first, j, Place(n + |f| - 1, ScanOf(env, v.batch), j)) == true
  {
  }

  lemma FollowsNext(at: nat -> Option<Place>, env: Env, v: View, j: nat, n: nat, e: Effect)
    requires j < |env.acts| && (v.batch.Collecting? ==> v.batch.first <= j) && Visit(env, v, j) == Went(e)
    requires Follows(at, env, v, j, n)
    ensures Follows(at, env, e.view, j + 1, n + |e.acts|)
  {
    var next := n + |e.acts|;
    forall i: nat | SettledUpTo(e.view, j + 1) <= i < |env.acts| ensures at(i) == PlaceOf(env, e.view, j + 1, next, i) {
      assert at(i) == PlaceOf(env, v, j, n, i);
    }
  }
}

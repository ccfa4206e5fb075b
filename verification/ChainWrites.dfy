/**
 * What an accepted transaction puts on the wire: each write's own value, in the cycles that are
 * its own, while the TAPs are in the Shift state of its kind.
 */
module ChainWrites {
  import opened Common
  import opened Num
  import opened Bits
  import opened JtagWire
  import opened ChainBits
  import opened ChainVisit
  import opened ChainCount
  import opened ChainAnswers
  import opened ChainTap
  import opened ScanPath
  import opened TapPaths
  import Tap

  /**
   * Where the translator, come to action j after n raw actions, sends the bits of action i: with
   * the batch it belongs to, which the first action that cannot join it, or the end, sends.
   */
  function SentAt(env: Env, v: View, j: nat, n: nat, i: nat): Option<Place>
    decreases |env.acts| - j
  {
    if j > |env.acts| || (v.batch.Collecting? && v.batch.first > j) then None
    else if Flushes(env, v, j) && v.batch.first <= i < j
    then Some(Place(n + |FlushTdi(env, v, j).acts| - 1, ScanOf(env, v.batch), j))
    else if j == |env.acts| || !Visit(env, v, j).Went? then None
    else
      var e := Visit(env, v, j).effect;
      SentAt(env.(taps := TapsAfter(env.taps, env.acts[j])), e.view, j + 1, n + |e.acts|, i)
  }

  /** A batch is sent before action j, or at the end. */
  predicate Flushes(env: Env, v: View, j: nat)
    requires j <= |env.acts|
  {
    v.batch.Collecting? && !Elided(v) && (j == |env.acts| || Sends(v, env.acts[j]))
  }

  /** Action i belongs to the batch that raw action k of the plan sends; an instruction may be left out. */
  predicate InPlan(plan: seq<JtagAct>, acts: seq<ChainAct>, at: Option<Place>, i: nat)
    requires i < |acts| && Writes(acts[i])
  {
    match at
    case None => acts[i].WriteIR?
    case Some(place) =>
      && place.scan.acts == acts && place.scan.first <= i < place.end <= |acts| && place.k < |plan|
      && place.scan.op == OpOf(acts[i]) && IsBatch(place.scan, place.end)
      && plan[place.k] == ScanAct(place.scan.op, Emitted(place.scan, place.end).bits)
  }

  /** A key of its own for where an action is sent. */
  predicate IsPlaceKey(k: nat) { k >= 0 }

  ghost predicate SentThere(env: Env, v: View, j: nat, n: nat, i: nat, at: Option<Place>) {
    forall key: nat | IsPlaceKey(key) :: SentAt(env, v, j, n, i) == at
  }

  /** A visit that does not send the batch of action i leaves it to the rest. */
  lemma SentLater(env: Env, v: View, j: nat, n: nat, i: nat, at: Option<Place>, e: Effect, next: Env, m: nat)
    requires j < |env.acts| && (v.batch.Collecting? ==> v.batch.first <= j) && Visit(env, v, j) == Went(e)
    requires next == env.(taps := TapsAfter(env.taps, env.acts[j])) && m == n + |e.acts|
    requires !(Flushes(env, v, j) && v.batch.first <= i < j)
    ensures SentThere(env, v, j, n, i, at) == SentThere(next, e.view, j + 1, m, i, at)
  {
    assert IsPlaceKey(0);
    assert SentAt(env, v, j, n, i) == SentAt(next, e.view, j + 1, m, i);
  }

  /** What a visit settles. */
  lemma SettlesMore(env: Env, v: View, j: nat, e: Effect)
    requires j < |env.acts| && (v.batch.Collecting? ==> v.batch.first <= j) && Visit(env, v, j) == Went(e)
    ensures SettledUpTo(v, j) <= SettledUpTo(e.view, j + 1) && (e.view.batch.Collecting? ==> e.view.batch.first <= j + 1)
    ensures !(v.batch.Collecting? && Sends(v, env.acts[j])) ==>
              SettledUpTo(e.view, j + 1) <= SettledUpTo(v, j) || (SettledUpTo(e.view, j + 1) <= j + 1 && !Writes(env.acts[j]))
    ensures SettledUpTo(e.view, j + 1) <= if Writes(env.acts[j]) then j else j + 1
  {
  }

  lemma SentNowhere(env: Env, v: View, j: nat, n: nat, i: nat)
    requires j <= |env.acts| && (v.batch.Collecting? ==> v.batch.first <= j) && i < SettledUpTo(v, j)
    requires j == |env.acts| || !Visit(env, v, j).Went?
    ensures SentThere(env, v, j, n, i, None) == true
  {
  }

  /** Nothing of what has been settled is sent again. */
  lemma {:induction false} SentNoMore(env: Env, v: View, j: nat, n: nat, i: nat)
    requires j <= |env.acts| && (v.batch.Collecting? ==> v.batch.first <= j) && i < SettledUpTo(v, j)
    ensures SentThere(env, v, j, n, i, None) == true
    decreases |env.acts| - j
  {
    if j == |env.acts| || !Visit(env, v, j).Went? {
      SentNowhere(env, v, j, n, i);
    } else {
      var e, next := Visit(env, v, j).effect, env.(taps := TapsAfter(env.taps, env.acts[j]));
      SettlesMore(env, v, j, e);
      SentLater(env, v, j, n, i, None, e, next, n + |e.acts|);
      SentNoMore(next, e.view, j + 1, n + |e.acts|, i);
    }
  }

  lemma SentOnce(env: Env, v: View, j: nat, n: nat, i: nat, a: Option<Place>, b: Option<Place>)
    requires SentThere(env, v, j, n, i, a) == true && SentThere(env, v, j, n, i, b) == true
    ensures a == b
  {
    assert IsPlaceKey(0);
  }

  /** The actions up to j that have not been settled are those of the batch. */
  lemma UnsettledKind(env: Env, v: View, j: nat, i: nat)
    requires v.batch.Collecting? && Counted(env, v, j) == true && v.batch.first <= i < j
    ensures j <= |env.acts| && (env.acts[i].Select? || IsWrite(v.batch.op, env.acts[i]))
  {
    BatchKinds(ScanOf(env, v.batch), j, i);
  }

  /** A batch that is sent: its way to the Shift state, then its scan. */
  lemma FlushEnds(env: Env, v: View, j: nat, s: Scan) returns (near: seq<JtagAct>, scan: JtagAct)
    requires v.batch.Collecting? && !Elided(v) && s == ScanOf(env, v.batch) && v.batch.first <= j <= |env.acts|
    ensures near == Approach(env, v, s.op).acts && scan == ScanAct(s.op, Emitted(s, j).bits)
    ensures FlushTdi(env, v, j).acts == near + [scan]
  {
    near, scan := Approach(env, v, s.op).acts, ScanAct(s.op, Emitted(s, j).bits);
  }

  lemma FoundAt(log: seq<JtagAct>, near: seq<JtagAct>, scan: JtagAct, rest: seq<JtagAct>, plan: seq<JtagAct>)
    requires plan == log + rest && near + [scan] <= rest
    ensures |log| + |near| < |plan| && plan[|log| + |near|] == scan && plan[..|log| + |near|] == log + near
  {
  }

  /** It comes first in what is left of the plan. */
  lemma FlushFirst(env: Env, v: View, j: nat, all: Effect)
    requires j <= |env.acts| && (v.batch.Collecting? ==> v.batch.first <= j) && Flushes(env, v, j)
    requires Translate(env, v, j) == Went(all)
    ensures FlushTdi(env, v, j).acts <= all.acts
  {
    if j < |env.acts| {
      var e, _, rest := TranslateStep(env, v, j);
      SendsFirst(env, v, j);
    }
  }

  /** The translator has come to action j with `log` built of the plan, and sends action i there. */
  ghost predicate Heading(env: Env, v: View, j: nat, log: seq<JtagAct>, plan: seq<JtagAct>, i: nat, at: Option<Place>) {
    && j <= |env.acts| && (v.batch.Collecting? ==> v.batch.first <= j) && SettledUpTo(v, j) <= i < |env.acts|
    && forall key: nat | IsKey(key) ::
         && Counted(env, v, j) && SentThere(env, v, j, |log|, i, at) == true
         && Translate(env, v, j).Went? && plan == log + Translate(env, v, j).effect.acts
  }

  /** Action i is sent now: after `log` and the way to the Shift state. */
  ghost predicate Here(env: Env, v: View, log: seq<JtagAct>, plan: seq<JtagAct>, i: nat, at: Option<Place>)
    requires i < |env.acts| && Writes(env.acts[i])
  {
    at.Some? ==>
      && at.value.k < |plan| && plan[..at.value.k] == log + Approach(env, v, OpOf(env.acts[i])).acts
  }

  /** An action of a batch that is sent. */
  lemma FlushCarries(env: Env, v: View, j: nat, log: seq<JtagAct>, plan: seq<JtagAct>, i: nat, at: Option<Place>)
    requires Heading(env, v, j, log, plan, i, at) == true && Flushes(env, v, j) && i < j && Writes(env.acts[i])
    ensures InPlan(plan, env.acts, at, i) == true && Here(env, v, log, plan, i, at) == true
  {
    assert IsKey(0) && IsPlaceKey(0);
    var s := ScanOf(env, v.batch);
    UnsettledKind(env, v, j, i);
    BatchOf(env, v, j, s);
    var near, scan := FlushEnds(env, v, j, s);
    FlushFirst(env, v, j, Translate(env, v, j).effect);
    FoundAt(log, near, scan, Translate(env, v, j).effect.acts, plan);
  }

  /** An action of a batch that is left out. */
  lemma ElidedKind(env: Env, v: View, j: nat, i: nat)
    requires v.batch.Collecting? && Elided(v) && Counted(env, v, j) == true && v.batch.first <= i < j <= |env.acts|
    requires Writes(env.acts[i])
    ensures env.acts[i].WriteIR?
  {
    UnsettledKind(env, v, j, i);
  }

  lemma EndCarries(env: Env, v: View, j: nat, log: seq<JtagAct>, plan: seq<JtagAct>, i: nat, at: Option<Place>)
    requires Heading(env, v, j, log, plan, i, at) == true && !Flushes(env, v, j) && j == |env.acts| && Writes(env.acts[i])
    ensures at == None && env.acts[i].WriteIR?
  {
    assert IsKey(0) && IsPlaceKey(0);
    ElidedKind(env, v, j, i);
  }

  lemma HeadingOpen(env: Env, v: View, j: nat, log: seq<JtagAct>, plan: seq<JtagAct>, i: nat, at: Option<Place>)
    returns (e: Effect, next: Env, rest: Effect)
    requires Heading(env, v, j, log, plan, i, at) == true && j < |env.acts|
    ensures Counted(env, v, j) == true && SentThere(env, v, j, |log|, i, at) == true
    ensures Visit(env, v, j) == Went(e) && next == env.(taps := TapsAfter(env.taps, env.acts[j]))
    ensures e.view.batch.Collecting? ==> e.view.batch.first <= j + 1
    ensures Translate(next, e.view, j + 1) == Went(rest) && plan == (log + e.acts) + rest.acts
  {
    assert IsKey(0);
    e, next, rest := TranslateStep(env, v, j);
    MovedOn(log, e.acts, rest.acts);
  }

  lemma HeadingClose(env: Env, v: View, j: nat, log: seq<JtagAct>, plan: seq<JtagAct>, i: nat, at: Option<Place>,
                     n: nat, rest: Effect)
    requires j <= |env.acts| && (v.batch.Collecting? ==> v.batch.first <= j) && SettledUpTo(v, j) <= i < |env.acts|
    requires Counted(env, v, j) == true && SentThere(env, v, j, n, i, at) == true && n == |log|
    requires Translate(env, v, j) == Went(rest) && plan == log + rest.acts
    ensures Heading(env, v, j, log, plan, i, at) == true
  {
  }

  lemma HeadingStep(env: Env, v: View, j: nat, log: seq<JtagAct>, plan: seq<JtagAct>, i: nat, at: Option<Place>)
    returns (e: Effect, next: Env)
    requires Heading(env, v, j, log, plan, i, at) == true && !(Flushes(env, v, j) && i < j) && j < |env.acts| && Writes(env.acts[i])
    ensures Visit(env, v, j) == Went(e) && next == env.(taps := TapsAfter(env.taps, env.acts[j])) && Counted(env, v, j) == true
    ensures SettledUpTo(e.view, j + 1) <= i ==> Heading(next, e.view, j + 1, log + e.acts, plan, i, at) == true
    ensures SettledUpTo(e.view, j + 1) > i ==> at == None && env.acts[i].WriteIR?
  {
    var rest;
    e, next, rest := HeadingOpen(env, v, j, log, plan, i, at);
    HeadingOn(env, v, j, |log|, i, at, e, next);
    if SettledUpTo(e.view, j + 1) <= i {
      HeadingClose(next, e.view, j + 1, log + e.acts, plan, i, at, |log| + |e.acts|, rest);
    } else {
      LeftOut(env, v, j, i, e);
    }
  }

  lemma HeadingOn(env: Env, v: View, j: nat, n: nat, i: nat, at: Option<Place>, e: Effect, next: Env)
    requires j < |env.acts| && (v.batch.Collecting? ==> v.batch.first <= j) && Visit(env, v, j) == Went(e) && Counted(env, v, j) == true
    requires next == env.(taps := TapsAfter(env.taps, env.acts[j])) && (e.view.batch.Collecting? ==> e.view.batch.first <= j + 1)
    requires !(Flushes(env, v, j) && v.batch.first <= i < j) && SentThere(env, v, j, n, i, at) == true
    ensures Counted(next, e.view, j + 1) == true && SentThere(next, e.view, j + 1, n + |e.acts|, i, at) == true
    ensures i < SettledUpTo(e.view, j + 1) ==> at == None
  {
    SentLater(env, v, j, n, i, at, e, next, n + |e.acts|);
    VisitCounted(env, v, j);
    if i < SettledUpTo(e.view, j + 1) {
      SentNoMore(next, e.view, j + 1, n + |e.acts|, i);
      SentOnce(next, e.view, j + 1, n + |e.acts|, i, at, None);
    }
  }

  /** What a visit settles without sending it is left out. */
  lemma LeftOut(env: Env, v: View, j: nat, i: nat, e: Effect)
    requires j < |env.acts| && (v.batch.Collecting? ==> v.batch.first <= j) && Visit(env, v, j) == Went(e) && Counted(env, v, j) == true
    requires !(Flushes(env, v, j) && i < j) && SettledUpTo(v, j) <= i < SettledUpTo(e.view, j + 1) && Writes(env.acts[i])
    ensures env.acts[i].WriteIR?
  {
    SettlesMore(env, v, j, e);
    ElidedKind(env, v, j, i);
  }

  lemma MovedOn(log: seq<JtagAct>, a: seq<JtagAct>, b: seq<JtagAct>)
    ensures log + (a + b) == (log + a) + b
  {
  }

  /** Every write is carried by the plan in one of its scans, or is an instruction left out. */
  lemma {:induction false} TranslateCarries(env: Env, v: View, j: nat, log: seq<JtagAct>, plan: seq<JtagAct>, i: nat, at: Option<Place>)
    requires Heading(env, v, j, log, plan, i, at) == true && Writes(env.acts[i])
    ensures InPlan(plan, env.acts, at, i) == true
    decreases |env.acts| - j
  {
    if i < j && Flushes(env, v, j) {
      FlushCarries(env, v, j, log, plan, i, at);
    } else if j == |env.acts| {
      EndCarries(env, v, j, log, plan, i, at);
    } else {
      var e, next := HeadingStep(env, v, j, log, plan, i, at);
      if SettledUpTo(e.view, j + 1) <= i {
        TranslateCarries(next, e.view, j + 1, log + e.acts, plan, i, at);
      }
    }
  }

  // ---------------------------------------------------------------- the bits themselves

  /** The value of a write stands in raw action k from cycle c on; `length` is that of the instruction register. */
  predicate Stands(plan: seq<JtagAct>, a: ChainAct, k: nat, c: nat, length: nat) {
    && k < |plan|
    && match a
       case WriteIR(v) =>
         && plan[k].PutTDI? && c + length <= |plan[k].bits|
         && ValueOf(plan[k].bits[c..c + length]) + Scale(Above(v, length), length) == v
         && (v < Pow2(length) ==> ValueOf(plan[k].bits[c..c + length]) == v)
       case WriteDR(b) => plan[k].PutTDI? && c + |b| <= |plan[k].bits| && plan[k].bits[c..c + |b|] == b
       case ShiftDR(b) => plan[k].PutTDIGetTDO? && c + |b| <= |plan[k].bits| && plan[k].bits[c..c + |b|] == b
       case _ => false
  }

  /**
   * A write is on the wire at the place of the register of the TAP then selected, past what the
   * same scan writes to that TAP before it.
   */
  predicate OnWire(plan: seq<JtagAct>, acts: seq<ChainAct>, at: Option<Place>, i: nat)
    requires i < |acts|
  {
    match at
    case None => acts[i].WriteIR?
    case Some(place) =>
      && place.scan.acts == acts && place.scan.first <= i < place.end <= |acts|
      && var t := SelectedAt(place.scan, i);
         && t < |place.scan.taps|
         && Stands(plan, acts[i], place.k, RegisterAt(place.scan, place.end, t) + WrittenBefore(place.scan, i, t),
                   place.scan.taps[t])
  }

  /** The own bits of a write, at the place of its TAP's register. */
  lemma OwnAtRegister(s: Scan, i: nat, end: nat, t: nat, own: seq<bool>) returns (c: nat)
    requires s.first <= i < end <= |s.acts| && IsBatch(s, end) == true && !s.acts[i].Select?
    requires t == SelectedAt(s, i) && own == OwnBits(s.taps, s.acts[i], t)
    ensures t < |s.taps| && c == RegisterAt(s, end, t) + WrittenBefore(s, i, t)
    ensures c + |own| <= |Emitted(s, end).bits| && Emitted(s, end).bits[c..c + |own|] == own
  {
    c := CyclesAt(s, i);
    OwnBitsSent(s, i, end, c, own);
    OwnPlace(s, i, end, t);
    EmittedGrows(s, i + 1, end);
    SentByCycles(s, i, t);
  }

  lemma OwnStands(plan: seq<JtagAct>, taps: seq<nat>, a: ChainAct, t: nat, bits: seq<bool>, k: nat, c: nat, own: seq<bool>)
    requires k < |plan| && Writes(a) && plan[k] == ScanAct(OpOf(a), bits) && t < |taps| && own == OwnBits(taps, a, t)
    requires c + |own| <= |bits| && bits[c..c + |own|] == own
    ensures Stands(plan, a, k, c, taps[t])
  {
    if a.WriteIR? {
      BitsDenote(a.value, taps[t]);
    }
  }

  lemma CarriedOnWire(plan: seq<JtagAct>, acts: seq<ChainAct>, at: Option<Place>, i: nat)
    requires i < |acts| && Writes(acts[i]) && InPlan(plan, acts, at, i) == true
    ensures OnWire(plan, acts, at, i) == true
  {
    if at.Some? {
      var s, end, t := at.value.scan, at.value.end, SelectedAt(at.value.scan, i);
      var own := OwnBits(s.taps, acts[i], t);
      var c := OwnAtRegister(s, i, end, t, own);
      OwnStands(plan, s.taps, acts[i], t, Emitted(s, end).bits, at.value.k, c, own);
    }
  }

  // ---------------------------------------------------------------- the state they are sent in

  predicate InShift(p: Tap.TapState, plan: seq<JtagAct>, a: ChainAct, at: Option<Place>) {
    at.Some? && at.value.k <= |plan| ==>
      Tap.Clock(p, TmsStream(plan[..at.value.k])) == Tap.Shift(if a.WriteIR? then Tap.IR else Tap.DR)
  }

  lemma HereInShift(p: Tap.TapState, env: Env, v: View, log: seq<JtagAct>, plan: seq<JtagAct>, i: nat, at: Option<Place>)
    requires LeadsEverywhere(env.table) == true && Agrees(p, log, v) == true
    requires i < |env.acts| && Writes(env.acts[i]) && Here(env, v, log, plan, i, at) == true
    ensures InShift(p, plan, env.acts[i], at) == true
  {
    var op := OpOf(env.acts[i]);
    ApproachAgrees(p, log, env, v, op);
    NothingBuffered(TmsStream(log + Approach(env, v, op).acts));
  }

  /** With no empty shifts, every write is sent while the TAPs are in the Shift state of its kind. */
  lemma {:induction false} TranslateShifts(p: Tap.TapState, env: Env, v: View, j: nat, log: seq<JtagAct>,
                                           plan: seq<JtagAct>, i: nat, at: Option<Place>)
    requires LeadsEverywhere(env.table) == true && NonEmpty(env) == true && Agrees(p, log, v) == true
    requires Heading(env, v, j, log, plan, i, at) == true && Writes(env.acts[i])
    ensures InShift(p, plan, env.acts[i], at) == true
    decreases |env.acts| - j
  {
    if i < j && Flushes(env, v, j) {
      FlushCarries(env, v, j, log, plan, i, at);
      HereInShift(p, env, v, log, plan, i, at);
    } else if j == |env.acts| {
      EndCarries(env, v, j, log, plan, i, at);
    } else {
      var e, next := HeadingStep(env, v, j, log, plan, i, at);
      StepAgrees(p, log, env, v, j, e, next);
      if SettledUpTo(e.view, j + 1) <= i {
        TranslateShifts(p, next, e.view, j + 1, log + e.acts, plan, i, at);
      }
    }
  }
}

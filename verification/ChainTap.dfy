/**
 * The TAP state the visitor records is the one a physical TAP reaches by clocking every TMS
 * bit sent, followed by those still buffered.
 */
module ChainTap {
  import opened Common
  import opened Num
  import opened Bits
  import opened JtagWire
  import opened ChainBits
  import opened ChainVisit
  import opened ChainCount
  import opened ScanPath
  import opened TapPaths
  import Tap

  predicate Agrees(p: Tap.TapState, log: seq<JtagAct>, v: View) {
    && v.state < Tap.UNKNOWN
    && |v.tms| <= MAX_TMS_BITS
    && Tap.Clock(p, TmsStream(log) + v.tms) == Tap.Meaning(v.state)
  }

  /** Agreement after an effect; contracts write `== true` to keep these two folded. */
  predicate AgreesAfter(p: Tap.TapState, log: seq<JtagAct>, e: Effect) {
    Agrees(p, log + e.acts, e.view)
  }

  lemma NopAgrees(p: Tap.TapState, log: seq<JtagAct>, v: View)
    requires Agrees(p, log, v) == true
    ensures AgreesAfter(p, log, Nop(v)) == true
  {
    assert log + [] == log;
  }

  lemma InTurn(p: Tap.TapState, log: seq<JtagAct>, first: seq<JtagAct>, e: Effect)
    requires AgreesAfter(p, log + first, e) == true
    ensures AgreesAfter(p, log, Effect(e.view, first + e.acts)) == true
  {
    assert log + first + e.acts == log + (first + e.acts);
  }

  lemma FlushTmsAgrees(p: Tap.TapState, log: seq<JtagAct>, v: View)
    requires Agrees(p, log, v) == true
    ensures AgreesAfter(p, log, FlushTms(v)) == true
    ensures FlushTms(v).view == v.(tms := [])
  {
    if v.tms == [] {
      NopAgrees(p, log, v);
    } else {
      TmsStreamConcat(log, [PutTMS(v.tms)]);
      TmsStreamOne(PutTMS(v.tms));
      var s := TmsStream(log) + v.tms;
      assert s + [] == s;
    }
  }

  lemma MakeRoomAgrees(p: Tap.TapState, log: seq<JtagAct>, v: View, n: nat)
    requires Agrees(p, log, v) == true && n <= MAX_TMS_BITS
    ensures AgreesAfter(p, log, MakeRoom(v, n)) == true
    ensures |MakeRoom(v, n).view.tms| + n <= MAX_TMS_BITS
    ensures MakeRoom(v, n).view == v.(tms := MakeRoom(v, n).view.tms)
  {
    FlushTmsAgrees(p, log, v);
    NopAgrees(p, log, v);
  }

  /** Buffered bits that lead from the recorded state to `t`. */
  lemma Buffered(p: Tap.TapState, log: seq<JtagAct>, v: View, more: seq<bool>, t: nat)
    requires Agrees(p, log, v) == true && |v.tms| + |more| <= MAX_TMS_BITS && t < Tap.UNKNOWN
    requires v.state < Tap.UNKNOWN && Tap.Clock(Tap.Meaning(v.state), more) == Tap.Meaning(t)
    ensures Agrees(p, log, v.(tms := v.tms + more, state := t)) == true
  {
    Tap.ClockConcat(p, TmsStream(log) + v.tms, more);
    Assoc(TmsStream(log), v.tms, more);
  }

  lemma PathClocks(table: seq<seq<Entry>>, s: nat, t: nat)
    requires LeadsEverywhere(table) && s < Tap.UNKNOWN && t < Tap.UNKNOWN
    ensures |Path(table, s, t)| <= 12 && Tap.Clock(Tap.Meaning(s), Path(table, s, t)) == Tap.Meaning(t)
  {
    assert Clocks(s, t, table[s][t]);
  }

  /** No path is longer than the TMS buffer. */
  predicate ShortPaths(table: seq<seq<Entry>>) {
    forall s: nat, t: nat | s < Tap.UNKNOWN && t < Tap.UNKNOWN :: |Path(table, s, t)| <= MAX_TMS_BITS
  }

  lemma PathsAreShort(table: seq<seq<Entry>>)
    requires LeadsEverywhere(table)
    ensures ShortPaths(table)
  {
    forall s: nat, t: nat | s < Tap.UNKNOWN && t < Tap.UNKNOWN
      ensures |Path(table, s, t)| <= MAX_TMS_BITS
    {
      PathClocks(table, s, t);
    }
  }

  /** Going to a state keeps agreement, and its bits always fit the buffer. */
  lemma GoToStateAgrees(p: Tap.TapState, log: seq<JtagAct>, table: seq<seq<Entry>>, v: View, t: nat)
    requires LeadsEverywhere(table) == true && Agrees(p, log, v) == true && t < Tap.UNKNOWN
    ensures AgreesAfter(p, log, GoToState(table, v, t)) == true
    ensures GoToState(table, v, t).view == v.(state := t, tms := GoToState(table, v, t).view.tms)
  {
    var path := Path(table, v.state, t);
    PathClocks(table, v.state, t);
    MakeRoomAgrees(p, log, v, |path|);
    var room := MakeRoom(v, |path|);
    Buffered(p, log + room.acts, room.view, path, t);
  }

  lemma {:induction false} Stays(state: nat, n: nat)
    requires state < Tap.UNKNOWN && WaitingBit(state).Some?
    ensures Tap.Clock(Tap.Meaning(state), Repeat(WaitingBit(state).value, n)) == Tap.Meaning(state)
  {
    if n > 0 {
      var b := WaitingBit(state).value;
      Stays(state, n - 1);
      assert Repeat(b, n)[..n - 1] == Repeat(b, n - 1);
    }
  }

  /** As many cycles as the buffer takes, then the others. */
  lemma WaitStep(v: View, b: bool, n: nat) returns (room: Effect, k: nat, next: View)
    requires |v.tms| <= MAX_TMS_BITS && n > 0
    ensures room == MakeRoom(v, 1) && 0 < k <= n && k <= MAX_TMS_BITS - |room.view.tms|
    ensures next == room.view.(tms := room.view.tms + Repeat(b, k))
    ensures Wait(v, b, n) == Effect(Wait(next, b, n - k).view, room.acts + Wait(next, b, n - k).acts)
  {
    room := MakeRoom(v, 1);
    k := Min(n, MAX_TMS_BITS - |room.view.tms|);
    next := room.view.(tms := room.view.tms + Repeat(b, k));
  }

  lemma {:induction false} WaitAgrees(p: Tap.TapState, log: seq<JtagAct>, v: View, n: nat)
    requires Agrees(p, log, v) == true && v.state < Tap.UNKNOWN && WaitingBit(v.state).Some?
    ensures AgreesAfter(p, log, Wait(v, WaitingBit(v.state).value, n)) == true
    decreases n
  {
    if n == 0 {
      NopAgrees(p, log, v);
    } else {
      var b := WaitingBit(v.state).value;
      var room, k, next := WaitStep(v, b, n);
      WaitSomeAgrees(p, log, v, b, k, room, next);
      WaitAgrees(p, log + room.acts, next, n - k);
      InTurn(p, log, room.acts, Wait(next, b, n - k));
    }
  }

  lemma WaitSomeAgrees(p: Tap.TapState, log: seq<JtagAct>, v: View, b: bool, k: nat, room: Effect, next: View)
    requires Agrees(p, log, v) == true && v.state < Tap.UNKNOWN && WaitingBit(v.state) == Some(b)
    requires room == MakeRoom(v, 1) && k <= MAX_TMS_BITS - |room.view.tms|
    requires next == room.view.(tms := room.view.tms + Repeat(b, k))
    ensures Agrees(p, log + room.acts, next) == true && next.state == v.state
  {
    MakeRoomAgrees(p, log, v, 1);
    Stays(v.state, k);
    Buffered(p, log + room.acts, room.view, Repeat(b, k), v.state);
  }

  /** The TMS bits an effect makes of those buffered before: sent, then still buffered. */
  function Out(e: Effect): seq<bool> { TmsStream(e.acts) + e.view.tms }

  lemma FlushTmsOut(v: View)
    ensures Out(FlushTms(v)) == v.tms
  {
    if v.tms != [] {
      TmsStreamOne(PutTMS(v.tms));
    }
  }

  lemma MakeRoomOut(v: View, n: nat)
    ensures Out(MakeRoom(v, n)) == v.tms
  {
    FlushTmsOut(v);
  }

  /** First one effect, then bits buffered after it. */
  lemma OutThen(e: Effect, more: seq<bool>, f: Effect)
    requires Out(f) == e.view.tms + more
    ensures Out(Effect(f.view, e.acts + f.acts)) == Out(e) + more
  {
    TmsStreamConcat(e.acts, f.acts);
    Assoc(TmsStream(e.acts), TmsStream(f.acts), f.view.tms);
    Assoc(TmsStream(e.acts), e.view.tms, more);
  }

  lemma RepeatTwice(b: bool, m: nat, n: nat)
    ensures Repeat(b, m) + Repeat(b, n) == Repeat(b, m + n)
  {
  }

  lemma WaitOutStep(v: View, b: bool, n: nat, room: Effect, k: nat, next: View, rest: Effect)
    requires k <= n && Out(room) == v.tms && next.tms == room.view.tms + Repeat(b, k) && Out(rest) == next.tms + Repeat(b, n - k)
    ensures Out(Effect(rest.view, room.acts + rest.acts)) == v.tms + Repeat(b, n)
  {
    Assoc(room.view.tms, Repeat(b, k), Repeat(b, n - k));
    RepeatTwice(b, k, n - k);
    OutThen(room, Repeat(b, n), rest);
  }

  lemma NopOut(v: View, b: bool)
    ensures Out(Nop(v)) == v.tms + Repeat(b, 0)
  {
  }

  lemma {:induction false} WaitOut(v: View, b: bool, n: nat, e: Effect)
    requires |v.tms| <= MAX_TMS_BITS && e == Wait(v, b, n)
    ensures Out(e) == v.tms + Repeat(b, n)
    decreases n
  {
    if n == 0 {
      NopOut(v, b);
    } else {
      var room, k, next := WaitStep(v, b, n);
      var rest := Wait(next, b, n - k);
      MakeRoomOut(v, 1);
      WaitOut(next, b, n - k, rest);
      WaitOutStep(v, b, n, room, k, next, rest);
    }
  }

  lemma GoToOut(table: seq<seq<Entry>>, v: View, t: nat)
    ensures Out(GoToState(table, v, t)) == v.tms + Path(table, v.state, t)
  {
    var path := Path(table, v.state, t);
    var room := MakeRoom(v, |path|);
    MakeRoomOut(v, |path|);
    Assoc(TmsStream(room.acts), room.view.tms, path);
  }

  /** What going to a state and waiting there adds: the way, then the waiting bit so many times. */
  lemma VisitGoToOut(env: Env, v: View, state: nat, wait: nat, b: bool)
    requires |v.tms| <= MAX_TMS_BITS && |Path(env.table, v.state, state)| <= MAX_TMS_BITS && VisitGoTo(env, v, state, wait).Went?
    requires wait > 0 ==> WaitingBit(state) == Some(b)
    ensures Out(VisitGoTo(env, v, state, wait).effect) == v.tms + Path(env.table, v.state, state) + Repeat(b, wait)
  {
    var go := GoToState(env.table, v, state);
    GoToOut(env.table, v, state);
    if wait == 0 {
      assert Out(go) + Repeat(b, 0) == Out(go);
    } else {
      WaitOut(go.view, b, wait, Wait(go.view, b, wait));
      OutThen(go, Repeat(b, wait), Wait(go.view, b, wait));
    }
  }

  lemma LogOut(log: seq<JtagAct>, e: Effect, a: seq<bool>, b: seq<bool>, c: seq<bool>)
    requires Out(e) == a + b + c
    ensures TmsStream(log + e.acts) + e.view.tms == ((TmsStream(log) + a) + b) + c
  {
    TmsStreamConcat(log, e.acts);
    Assoc(TmsStream(log), TmsStream(e.acts), e.view.tms);
    Assoc(TmsStream(log), a + b, c);
    Assoc(TmsStream(log), a, b);
  }

  lemma StaysThere(p: Tap.TapState, arrived: seq<bool>, state: nat, wait: nat, b: bool, k: nat)
    requires state < Tap.UNKNOWN && Tap.Clock(p, arrived) == Tap.Meaning(state) && k <= wait
    requires wait > 0 ==> WaitingBit(state) == Some(b)
    ensures Tap.Clock(p, (arrived + Repeat(b, wait))[..|arrived| + k]) == Tap.Meaning(state)
  {
    assert (arrived + Repeat(b, wait))[..|arrived| + k] == arrived + Repeat(b, k);
    Tap.ClockConcat(p, arrived, Repeat(b, k));
    if wait > 0 {
      Stays(state, k);
    }
  }

  /** The way leads to the state. */
  lemma Arrives(p: Tap.TapState, log: seq<JtagAct>, env: Env, v: View, state: nat) returns (before: seq<bool>, path: seq<bool>)
    requires LeadsEverywhere(env.table) == true && Agrees(p, log, v) == true && state < Tap.UNKNOWN
    ensures before == TmsStream(log) + v.tms && path == Path(env.table, v.state, state) && |path| <= 12
    ensures Tap.Clock(p, before + path) == Tap.Meaning(state)
  {
    before, path := TmsStream(log) + v.tms, Path(env.table, v.state, state);
    PathClocks(env.table, v.state, state);
    Tap.ClockConcat(p, before, path);
  }

  /**
   * Going to a state and waiting there: past what was sent and buffered before and at most 12 bits
   * of the way, exactly `wait` more TMS bits, and the TAP is in that state before, during and after
   * them.
   */
  lemma GoToSpends(p: Tap.TapState, log: seq<JtagAct>, env: Env, v: View, state: nat, wait: nat, e: Effect, k: nat)
    returns (arrived: seq<bool>, b: bool)
    requires LeadsEverywhere(env.table) == true && Agrees(p, log, v) == true && VisitGoTo(env, v, state, wait) == Went(e) && k <= wait
    ensures TmsStream(log + e.acts) + e.view.tms == arrived + Repeat(b, wait)
    ensures |TmsStream(log) + v.tms| <= |arrived| <= |TmsStream(log) + v.tms| + 12 && TmsStream(log) + v.tms <= arrived
    ensures Tap.Clock(p, (arrived + Repeat(b, wait))[..|arrived| + k]) == Tap.Meaning(state)
  {
    b := if WaitingBit(state).Some? then WaitingBit(state).value else false;
    var before, path := Arrives(p, log, env, v, state);
    arrived := before + path;
    VisitGoToOut(env, v, state, wait, b);
    LogOut(log, e, v.tms, path, Repeat(b, wait));
    StaysThere(p, arrived, state, wait, b, k);
  }

  // ---------------------------------------------------------------- scans

  lemma ApproachAgrees(p: Tap.TapState, log: seq<JtagAct>, env: Env, v: View, op: Op)
    requires LeadsEverywhere(env.table) == true && Agrees(p, log, v) == true
    ensures AgreesAfter(p, log, Approach(env, v, op)) == true
    ensures Approach(env, v, op).view == v.(state := ShiftState(op), tms := [])
  {
    GoToStateAgrees(p, log, env.table, v, ShiftState(op));
    var go := GoToState(env.table, v, ShiftState(op));
    FlushTmsAgrees(p, log + go.acts, go.view);
    InTurn(p, log, go.acts, FlushTms(go.view));
  }

  /** A scan of n bits leaves the Shift state on its last bit; a scan of no bits stays. */
  lemma ScanClocks(op: Op, bits: seq<bool>)
    ensures Tap.Clock(Tap.Meaning(ShiftState(op)), TmsOf(ScanAct(op, bits)))
         == Tap.Meaning(if bits == [] then ShiftState(op) else ExitState(op))
  {
    if bits != [] {
      var n := |bits| - 1;
      var shift := ShiftMeans(op, n);
      ExitClocks(shift, n);
      assert TmsOf(ScanAct(op, bits)) == Zeros(n) + [true];
    }
  }

  /** A Shift state: zeros keep it, a one leaves it. */
  lemma ShiftMeans(op: Op, n: nat) returns (s: Tap.TapState)
    ensures s == Tap.Meaning(ShiftState(op)) && Tap.Clock(s, Zeros(n)) == s && Tap.Next(s, true) == Tap.Meaning(ExitState(op))
  {
    s := Tap.Meaning(ShiftState(op));
    Stays(ShiftState(op), n);
  }

  /** n zeros that keep the TAP where it is, then a one. */
  lemma ExitClocks(s: Tap.TapState, n: nat)
    requires Tap.Clock(s, Zeros(n)) == s
    ensures Tap.Clock(s, Zeros(n) + [true]) == Tap.Next(s, true)
  {
    assert (Zeros(n) + [true])[..|Zeros(n) + [true]| - 1] == Zeros(n);
  }

  /** Sending a scan from its Shift state keeps agreement if and only if it has a bit. */
  lemma ScanAgrees(p: Tap.TapState, log: seq<JtagAct>, v: View, bits: seq<bool>)
    requires Agrees(p, log, v) == true && v.batch.Collecting?
    requires v.state == ShiftState(v.batch.op) && v.tms == []
    ensures AgreesAfter(p, log, Effect(Scanned(v), [ScanAct(v.batch.op, bits)])) <==> bits != []
  {
    var a := ScanAct(v.batch.op, bits);
    ClockOneMore(p, log, a);
    NothingBuffered(TmsStream(log));
    NothingBuffered(TmsStream(log + [a]));
    ScanClocks(v.batch.op, bits);
  }

  lemma NothingBuffered(s: seq<bool>)
    ensures s + [] == s
  {
  }

  lemma ClockOneMore(p: Tap.TapState, log: seq<JtagAct>, a: JtagAct)
    ensures Tap.Clock(p, TmsStream(log + [a])) == Tap.Clock(Tap.Clock(p, TmsStream(log)), TmsOf(a))
  {
    TmsStreamConcat(log, [a]);
    TmsStreamOne(a);
    Tap.ClockConcat(p, TmsStream(log), TmsOf(a));
  }

  lemma InTurnExactly(p: Tap.TapState, log: seq<JtagAct>, first: seq<JtagAct>, e: Effect)
    ensures AgreesAfter(p, log + first, e) == AgreesAfter(p, log, Effect(e.view, first + e.acts))
  {
    assert log + first + e.acts == log + (first + e.acts);
  }

  lemma SentAgrees(p: Tap.TapState, log: seq<JtagAct>, env: Env, v: View, bits: seq<bool>)
    requires LeadsEverywhere(env.table) == true && Agrees(p, log, v) == true && v.batch.Collecting?
    ensures var near := Approach(env, v, v.batch.op);
            && near.view.batch == v.batch
            && (AgreesAfter(p, log, Effect(Scanned(near.view), near.acts + [ScanAct(v.batch.op, bits)])) == true <==> bits != [])
  {
    ApproachAgrees(p, log, env, v, v.batch.op);
    var near := Approach(env, v, v.batch.op);
    ScanAgrees(p, log + near.acts, near.view, bits);
    InTurnExactly(p, log, near.acts, Effect(Scanned(near.view), [ScanAct(v.batch.op, bits)]));
  }

  /** The batch, if it is sent at all, sends at least one bit. */
  predicate SendsBits(env: Env, v: View, end: nat)
    requires v.batch.Collecting? ==> v.batch.first <= end <= |env.acts|
  {
    v.batch.Collecting? && !Elided(v) ==> Emitted(ScanOf(env, v.batch), end).bits != []
  }

  /** Sending a batch keeps agreement if and only if it sends a bit, or nothing at all. */
  lemma FlushTdiAgrees(p: Tap.TapState, log: seq<JtagAct>, env: Env, v: View, end: nat)
    requires LeadsEverywhere(env.table) == true && Agrees(p, log, v) == true
    requires v.batch.Collecting? ==> v.batch.first <= end <= |env.acts|
    ensures AgreesAfter(p, log, FlushTdi(env, v, end)) == true <==> SendsBits(env, v, end)
  {
    if v.batch.Idle? {
      NopAgrees(p, log, v);
    } else if Elided(v) {
      NopAgrees(p, log, v.(batch := Idle));
    } else {
      SentAgrees(p, log, env, v, Emitted(ScanOf(env, v.batch), end).bits);
    }
  }

  // ---------------------------------------------------------------- whole transactions

  predicate NonEmptyTaps(taps: seq<nat>) {
    forall t | 0 <= t < |taps| :: taps[t] > 0
  }

  /** An action that shifts, shifts something, and no instruction register is empty. */
  predicate NonEmptyAct(a: ChainAct) {
    match a
    case SetIRLength(_, length) => length > 0
    case WriteDR(bits) => bits != []
    case ShiftDR(bits) => bits != []
    case _ => true
  }

  predicate NonEmpty(env: Env) {
    NonEmptyTaps(env.taps) && forall i | 0 <= i < |env.acts| :: NonEmptyAct(env.acts[i])
  }

  lemma NonEmptyAfter(env: Env, i: nat)
    requires NonEmpty(env) == true && i < |env.acts|
    ensures NonEmpty(env.(taps := TapsAfter(env.taps, env.acts[i]))) == true
  {
    assert NonEmptyAct(env.acts[i]);
  }

  lemma FirstWriteSends(s: Scan, end: nat)
    requires s.first < end <= |s.acts| && IsBatch(s, end) && IsWrite(s.op, s.acts[s.first])
    requires NonEmptyTaps(s.taps) && NonEmptyAct(s.acts[s.first])
    ensures Emitted(s, end).bits != []
  {
    EmittedGrows(s, s.first + 1, end);
    assert OwnBits(s.taps, s.acts[s.first], s.tap) != [];
  }

  lemma NonEmptySends(env: Env, v: View, i: nat)
    requires NonEmpty(env) == true && Counted(env, v, i) == true
    requires v.batch.Collecting? ==> v.batch.first <= i <= |env.acts|
    ensures SendsBits(env, v, i) == true
  {
    if v.batch.Collecting? {
      FirstWriteSends(ScanOf(env, v.batch), i);
    }
  }

  lemma VisitGoToAgrees(p: Tap.TapState, log: seq<JtagAct>, env: Env, v: View, state: nat, wait: nat)
    requires LeadsEverywhere(env.table) == true && Agrees(p, log, v) == true
    requires VisitGoTo(env, v, state, wait).Went?
    ensures AgreesAfter(p, log, VisitGoTo(env, v, state, wait).effect) == true
  {
    GoToStateAgrees(p, log, env.table, v, state);
    if wait != 0 {
      var go := GoToState(env.table, v, state);
      WaitAgrees(p, log + go.acts, go.view, wait);
      InTurn(p, log, go.acts, Wait(go.view, WaitingBit(state).value, wait));
    }
  }

  /** Selection and batching have no part in agreement. */
  lemma Reselected(p: Tap.TapState, log: seq<JtagAct>, e: Effect, v: View)
    requires AgreesAfter(p, log, e) == true && v.state == e.view.state && v.tms == e.view.tms
    ensures AgreesAfter(p, log, Effect(v, e.acts)) == true
  {
  }

  lemma VisitAgrees(p: Tap.TapState, log: seq<JtagAct>, env: Env, v: View, i: nat)
    requires LeadsEverywhere(env.table) == true && Agrees(p, log, v) == true && i < |env.acts|
    requires v.batch.Collecting? ==> v.batch.first <= i
    requires SendsBits(env, v, i) == true && Visit(env, v, i).Went?
    ensures AgreesAfter(p, log, Visit(env, v, i).effect) == true
  {
    var flush := FlushTdi(env, v, i);
    FlushTdiAgrees(p, log, env, v, i);
    NopAgrees(p, log, v);
    match env.acts[i]
    case Forget => Reselected(p, log, flush, flush.view.(selected := 0));
    case SetIRLength(_, _) =>
    case GoTo(state, wait) =>
      VisitGoToAgrees(p, log + flush.acts, env, flush.view, state, wait);
      InTurn(p, log, flush.acts, VisitGoTo(env, flush.view, state, wait).effect);
    case Select(tap) => Reselected(p, log, Nop(v), v.(selected := tap));
    case _ => WriteAgrees(p, log, env, v, i);
  }

  lemma WriteAgrees(p: Tap.TapState, log: seq<JtagAct>, env: Env, v: View, i: nat)
    requires i < |env.acts| && (env.acts[i].WriteIR? || env.acts[i].WriteDR? || env.acts[i].ShiftDR?)
    requires v.batch.Collecting? ==> v.batch.first <= i
    requires AgreesAfter(p, log, FlushTdi(env, v, i)) == true && AgreesAfter(p, log, Nop(v)) == true
    requires VisitWrite(env, v, i).Went?
    ensures AgreesAfter(p, log, VisitWrite(env, v, i).effect) == true
  {
    var flush := if NeedsFlush(v, OpOf(env.acts[i])) then FlushTdi(env, v, i) else Nop(v);
    Reselected(p, log, flush, Join(env.taps, flush.view, env.acts[i], i));
  }

  lemma FinishAgrees(p: Tap.TapState, log: seq<JtagAct>, env: Env, v: View)
    requires LeadsEverywhere(env.table) == true && Agrees(p, log, v) == true
    requires v.batch.Collecting? ==> v.batch.first <= |env.acts|
    requires SendsBits(env, v, |env.acts|) == true
    ensures AgreesAfter(p, log, Finish(env, v)) == true && Finish(env, v).view.tms == []
  {
    FlushTdiAgrees(p, log, env, v, |env.acts|);
    var scan := FlushTdi(env, v, |env.acts|);
    FlushTmsAgrees(p, log + scan.acts, scan.view);
    InTurn(p, log, scan.acts, FlushTms(scan.view));
  }

  lemma TranslateStep(env: Env, v: View, i: nat) returns (e: Effect, next: Env, rest: Effect)
    requires i < |env.acts| && (v.batch.Collecting? ==> v.batch.first <= i) && Translate(env, v, i).Went?
    ensures Visit(env, v, i) == Went(e) && (e.view.batch.Collecting? ==> e.view.batch.first <= i + 1)
    ensures next == env.(taps := TapsAfter(env.taps, env.acts[i]))
    ensures Translate(next, e.view, i + 1) == Went(rest)
    ensures Translate(env, v, i) == Went(Effect(rest.view, e.acts + rest.acts))
  {
    e := Visit(env, v, i).effect;
    next := env.(taps := TapsAfter(env.taps, env.acts[i]));
    rest := Translate(next, e.view, i + 1).effect;
  }

  /** One action: agreement, the count and non-empty shifts carry over to the next. */
  lemma StepAgrees(p: Tap.TapState, log: seq<JtagAct>, env: Env, v: View, i: nat, e: Effect, next: Env)
    requires LeadsEverywhere(env.table) == true && NonEmpty(env) == true && i < |env.acts|
    requires Agrees(p, log, v) == true && Counted(env, v, i) == true
    requires v.batch.Collecting? ==> v.batch.first <= i
    requires Visit(env, v, i) == Went(e) && next == env.(taps := TapsAfter(env.taps, env.acts[i]))
    ensures LeadsEverywhere(next.table) == true && NonEmpty(next) == true
    ensures Agrees(p, log + e.acts, e.view) == true && Counted(next, e.view, i + 1) == true
  {
    NonEmptySends(env, v, i);
    VisitAgrees(p, log, env, v, i);
    VisitCounted(env, v, i);
    NonEmptyAfter(env, i);
  }

  /**
   * A transaction whose shifts are not empty: after all of it, the recorded state is the
   * physical one.
   */
  lemma {:induction false} TranslateAgrees(p: Tap.TapState, log: seq<JtagAct>, env: Env, v: View, i: nat, all: Effect)
    requires LeadsEverywhere(env.table) == true && NonEmpty(env) == true && i <= |env.acts|
    requires Agrees(p, log, v) == true && Counted(env, v, i) == true
    requires v.batch.Collecting? ==> v.batch.first <= i
    requires Translate(env, v, i) == Went(all)
    ensures AgreesAfter(p, log, all) == true && all.view.tms == []
    decreases |env.acts| - i
  {
    if i == |env.acts| {
      NonEmptySends(env, v, i);
      FinishAgrees(p, log, env, v);
    } else {
      var e, next, rest := TranslateStep(env, v, i);
      StepAgrees(p, log, env, v, i, e, next);
      TranslateAgrees(p, log + e.acts, next, e.view, i + 1, rest);
      InTurn(p, log, e.acts, rest);
    }
  }
}

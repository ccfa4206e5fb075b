/**
 * How many actions a transaction reports as done, when the port completed only some of the raw
 * actions it was given.
 */
module ChainReport {
  import opened Common
  import opened JtagWire
  import opened ChainBits
  import opened ChainVisit
  import opened TapPaths
  import Tap

  /** Once the batch was to be sent before `end`, with k raw actions completed and not yet used. */
  function FlushDone(env: Env, v: View, end: nat, done: nat, k: nat): nat
    requires v.batch.Collecting? ==> v.batch.first <= end <= |env.acts|
  {
    var f := |FlushTdi(env, v, end).acts|;
    if v.batch.Idle? then done
    else if k >= f then end
    else if k + 1 == f then v.batch.first
    else done
  }

  /** Once action i was visited. A selection counts at once, a write only with its batch. */
  function VisitDone(env: Env, v: View, i: nat, done: nat, k: nat): nat
    requires i < |env.acts| && (v.batch.Collecting? ==> v.batch.first <= i)
  {
    var a := env.acts[i];
    var flushed := if Sends(v, a) then FlushDone(env, v, i, done, k) else done;
    var o := Visit(env, v, i);
    if a.Select? then (if o.Went? then i + 1 else done)
    else if a.WriteIR? || a.WriteDR? || a.ShiftDR? then flushed
    else if o.Went? && k >= |o.effect.acts| then i + 1
    else flushed
  }

  /** At the end of the completer's pass. */
  function Reported(env: Env, v: View, i: nat, done: nat, k: nat): nat
    requires i <= |env.acts| && (v.batch.Collecting? ==> v.batch.first <= i)
    decreases |env.acts| - i
  {
    if i == |env.acts| then FlushDone(env, v, i, done, k)
    else
      var o := Visit(env, v, i);
      var d := VisitDone(env, v, i, done, k);
      if !o.Went? || k < |o.effect.acts| then d
      else Reported(env, o.effect.view, i + 1, d, k - |o.effect.acts|)
  }

  // ---------------------------------------------------------------- what it reports

  /** The visitor once all actions have been visited, and how many raw actions that took. */
  function AtEnd(env: Env, v: View, i: nat): (r: (View, nat))
    requires i <= |env.acts| && (v.batch.Collecting? ==> v.batch.first <= i)
    ensures r.0.batch.Collecting? ==> r.0.batch.first <= |env.acts|
    decreases |env.acts| - i
  {
    if i == |env.acts| || !Visit(env, v, i).Went? then (v, 0)
    else
      var e := Visit(env, v, i).effect;
      var rest := AtEnd(env, e.view, i + 1);
      (rest.0, |e.acts| + rest.1)
  }

  /** What is marked while actions are visited: all of them, or, within a batch, those up to its last selection. */
  predicate Marks(env: Env, v: View, i: nat, done: nat) {
    && i <= |env.acts| && done <= i
    && (v.batch.Idle? ==> done == i)
    && (v.batch.Collecting? ==> v.batch.first < i && (done == i <==> env.acts[i - 1].Select?))
  }

  lemma MarksNext(env: Env, v: View, i: nat, done: nat, k: nat, e: Effect)
    requires Marks(env, v, i, done) && i < |env.acts| && Visit(env, v, i) == Went(e)
    ensures k >= |e.acts| ==> Marks(env, e.view, i + 1, VisitDone(env, v, i, done, k))
    ensures k < |e.acts| ==> VisitDone(env, v, i, done, k) <= i
  {
    if Sends(v, env.acts[i]) {
      SendsFirst(env, v, i);
    }
  }

  /**
   * With w the visitor once all actions have been visited, which took m raw actions: the port
   * completed everything but, perhaps, the TMS bits left at the very end; or the transaction
   * ends in a selection inside a batch, and the port stopped on the batch's way to the Shift
   * state.
   */
  predicate SeemsComplete(env: Env, w: View, m: nat, k: nat)
    requires w.batch.Collecting? ==> w.batch.first <= |env.acts|
  {
    var f := |FlushTdi(env, w, |env.acts|).acts|;
    || k >= m + f
    || (|env.acts| > 0 && env.acts[|env.acts| - 1].Select? && w.batch.Collecting? && m <= k && k + 1 < m + f)
  }

  lemma AtEndStep(env: Env, v: View, i: nat, e: Effect) returns (w: View, m: nat)
    requires i < |env.acts| && (v.batch.Collecting? ==> v.batch.first <= i) && Visit(env, v, i) == Went(e)
    ensures AtEnd(env, e.view, i + 1) == (w, m) && AtEnd(env, v, i) == (w, |e.acts| + m)
  {
    w, m := AtEnd(env, e.view, i + 1).0, AtEnd(env, e.view, i + 1).1;
  }

  lemma ReportedStep(env: Env, v: View, i: nat, done: nat, k: nat, e: Effect, d: nat)
    requires i < |env.acts| && (v.batch.Collecting? ==> v.batch.first <= i) && Visit(env, v, i) == Went(e)
    requires d == VisitDone(env, v, i, done, k)
    ensures k < |e.acts| ==> Reported(env, v, i, done, k) == d
    ensures k >= |e.acts| ==> Reported(env, v, i, done, k) == Reported(env, e.view, i + 1, d, k - |e.acts|)
  {
  }

  /** With `done` actions marked and k completed raw actions left, the transaction will report `reported`. */
  ghost predicate OnTrack(env: Env, v: View, i: nat, done: nat, k: nat, reported: nat) {
    && i <= |env.acts| && (v.batch.Collecting? ==> v.batch.first <= i)
    && forall key: nat | IsKey(key) :: Reported(env, v, i, done, k) == reported
  }

  lemma TrackNext(env: Env, v: View, i: nat, done: nat, k: nat, reported: nat, e: Effect)
    requires OnTrack(env, v, i, done, k, reported) && i < |env.acts| && Visit(env, v, i) == Went(e)
    ensures k < |e.acts| ==> VisitDone(env, v, i, done, k) == reported
    ensures k >= |e.acts| ==> OnTrack(env, e.view, i + 1, VisitDone(env, v, i, done, k), k - |e.acts|, reported)
  {
    assert IsKey(0);
    ReportedStep(env, v, i, done, k, e, VisitDone(env, v, i, done, k));
  }

  /** d actions are marked after the visit of action i. */
  ghost predicate DoneIs(env: Env, v: View, i: nat, done: nat, k: nat, d: nat)
    requires i < |env.acts| && (v.batch.Collecting? ==> v.batch.first <= i)
  {
    forall key: nat | IsKey(key) :: d == VisitDone(env, v, i, done, k)
  }

  lemma TrackVisit(env: Env, v: View, i: nat, done: nat, k: nat, reported: nat, o: Outcome, d: nat)
    requires OnTrack(env, v, i, done, k, reported) && i < |env.acts| && Visit(env, v, i) == o
    requires DoneIs(env, v, i, done, k, d)
    ensures o.Went? && k >= |o.effect.acts| ==> OnTrack(env, o.effect.view, i + 1, d, k - |o.effect.acts|, reported)
    ensures !(o.Went? && k >= |o.effect.acts|) ==> d == reported
  {
    assert IsKey(0);
    if o.Went? {
      TrackNext(env, v, i, done, k, reported, o.effect);
    }
  }

  lemma TrackEnd(env: Env, v: View, done: nat, k: nat, reported: nat)
    requires OnTrack(env, v, |env.acts|, done, k, reported)
    ensures FlushDone(env, v, |env.acts|, done, k) == reported
  {
    assert IsKey(0);
  }

  /** What is marked once action i was visited, and what is reported if the port got no further. */
  lemma DoneNext(env: Env, v: View, i: nat, done: nat, k: nat, reported: nat, e: Effect) returns (d: nat)
    requires Marks(env, v, i, done) == true && i < |env.acts| && Visit(env, v, i) == Went(e)
    requires OnTrack(env, v, i, done, k, reported)
    ensures k < |e.acts| ==> reported <= i
    ensures k >= |e.acts| ==> Marks(env, e.view, i + 1, d) == true
    ensures k >= |e.acts| ==> OnTrack(env, e.view, i + 1, d, k - |e.acts|, reported)
  {
    d := VisitDone(env, v, i, done, k);
    MarksNext(env, v, i, done, k, e);
    TrackNext(env, v, i, done, k, reported, e);
  }

  lemma ReplayStep(env: Env, v: View, i: nat) returns (e: Effect)
    requires i < |env.acts| && (v.batch.Collecting? ==> v.batch.first <= i) && Replay(env, v, i).Went?
    ensures Visit(env, v, i) == Went(e) && (e.view.batch.Collecting? ==> e.view.batch.first <= i + 1)
    ensures Replay(env, e.view, i + 1).Went?
  {
    e := Visit(env, v, i).effect;
  }

  /** x raw actions more on both sides. */
  lemma SeemsLater(env: Env, w: View, m: nat, k: nat, x: nat)
    requires w.batch.Collecting? ==> w.batch.first <= |env.acts|
    ensures k < x ==> !SeemsComplete(env, w, x + m, k)
    ensures k >= x ==> SeemsComplete(env, w, x + m, k) == SeemsComplete(env, w, m, k - x)
  {
  }

  lemma ReportsAtEnd(env: Env, v: View, done: nat, k: nat)
    requires Marks(env, v, |env.acts|, done)
    ensures Reported(env, v, |env.acts|, done, k) == |env.acts| <==> SeemsComplete(env, v, 0, k)
  {
  }

  /** Visiting has come to action i with `done` actions marked, and will end with w after m more raw actions. */
  ghost predicate Underway(env: Env, v: View, i: nat, done: nat, w: View, m: nat) {
    && i <= |env.acts| && (v.batch.Collecting? ==> v.batch.first <= i) && (w.batch.Collecting? ==> w.batch.first <= |env.acts|)
    && forall k: nat | IsKey(k) :: Marks(env, v, i, done) && Replay(env, v, i).Went? && AtEnd(env, v, i) == (w, m)
  }

  /** The effect of action i, and how many raw actions are left after it. */
  lemma UnderwayStep(env: Env, v: View, i: nat, done: nat, w: View, m: nat) returns (e: Effect, n: nat)
    requires Underway(env, v, i, done, w, m) && i < |env.acts|
    ensures Visit(env, v, i) == Went(e) && Marks(env, v, i, done) == true && m == |e.acts| + n
  {
    assert IsKey(0);
    e := ReplayStep(env, v, i);
    var _, rest := AtEndStep(env, v, i, e);
    n := rest;
  }

  lemma UnderwayNext(env: Env, v: View, i: nat, done: nat, w: View, m: nat, e: Effect, n: nat, d: nat)
    requires Underway(env, v, i, done, w, m) && i < |env.acts| && Visit(env, v, i) == Went(e) && m == |e.acts| + n
    requires Marks(env, e.view, i + 1, d) == true
    ensures Underway(env, e.view, i + 1, d, w, n)
  {
    assert IsKey(0);
    var _, rest := AtEndStep(env, v, i, e);
  }

  /** One action: after x raw actions, the visitor `next` has d actions marked and n raw actions to go. */
  lemma OneAction(env: Env, v: View, i: nat, done: nat, k: nat, reported: nat, w: View, m: nat)
    returns (next: View, x: nat, d: nat, n: nat)
    requires Underway(env, v, i, done, w, m) && OnTrack(env, v, i, done, k, reported) && i < |env.acts|
    ensures m == x + n && (k < x ==> reported <= i)
    ensures k >= x ==> Underway(env, next, i + 1, d, w, n) && OnTrack(env, next, i + 1, d, k - x, reported)
  {
    var e, rest := UnderwayStep(env, v, i, done, w, m);
    d := DoneNext(env, v, i, done, k, reported, e);
    if k >= |e.acts| {
      UnderwayNext(env, v, i, done, w, m, e, rest, d);
    }
    next, x, n := e.view, |e.acts|, rest;
  }

  lemma ReportsEnd(env: Env, v: View, done: nat, k: nat, reported: nat, w: View, m: nat)
    requires Underway(env, v, |env.acts|, done, w, m) == true && OnTrack(env, v, |env.acts|, done, k, reported) == true
    ensures w.batch.Collecting? ==> w.batch.first <= |env.acts|
    ensures reported == |env.acts| <==> SeemsComplete(env, w, m, k) == true
  {
    assert IsKey(0);
    ReportsAtEnd(env, v, done, k);
  }

  lemma {:induction false} ReportsAllFrom(env: Env, v: View, i: nat, done: nat, k: nat, reported: nat, w: View, m: nat)
    requires Underway(env, v, i, done, w, m) && OnTrack(env, v, i, done, k, reported)
    ensures reported == |env.acts| <==> SeemsComplete(env, w, m, k) == true
    decreases |env.acts| - i
  {
    if i == |env.acts| {
      ReportsEnd(env, v, done, k, reported, w, m);
    } else {
      var next, x, d, n := OneAction(env, v, i, done, k, reported, w, m);
      SeemsLater(env, w, n, k, x);
      if k >= x {
        ReportsAllFrom(env, next, i + 1, d, k - x, reported, w, n);
      }
    }
  }

  /** A transaction reports every action done exactly when it seems complete. */
  lemma ReportsAllExactly(env: Env, v: View, k: nat)
    requires v.batch.Idle? && Replay(env, v, 0).Went?
    ensures Reported(env, v, 0, 0, k) == |env.acts| <==> SeemsComplete(env, AtEnd(env, v, 0).0, AtEnd(env, v, 0).1, k)
  {
    ReportsAllFrom(env, v, 0, 0, k, Reported(env, v, 0, 0, k), AtEnd(env, v, 0).0, AtEnd(env, v, 0).1);
  }

  /** The plan, counted: what visiting takes, the batch left, the TMS bits left. */
  lemma {:induction false} PlanLength(env: Env, v: View, i: nat)
    requires i <= |env.acts| && (v.batch.Collecting? ==> v.batch.first <= i) && Replay(env, v, i).Went?
    ensures var (w, m) := AtEnd(env, v, i);
            var scan := FlushTdi(env, w, |env.acts|);
            |Replay(env, v, i).effect.acts| == m + |scan.acts| + |FlushTms(scan.view).acts|
    decreases |env.acts| - i
  {
    if i < |env.acts| {
      PlanLength(env, Visit(env, v, i).effect.view, i + 1);
    }
  }

  /** A port that completed the whole plan makes the transaction report everything. */
  lemma CompleteReportsAll(env: Env, v: View, k: nat)
    requires v.batch.Idle? && Replay(env, v, 0).Went? && k >= |Replay(env, v, 0).effect.acts|
    ensures Reported(env, v, 0, 0, k) == |env.acts|
  {
    PlanLength(env, v, 0);
    ReportsAllExactly(env, v, k);
  }

  /** But so does one that completed nothing of a transaction that only goes to a state. */
  lemma NothingDoneReported(table: seq<seq<Entry>>, v: View, state: nat)
    requires state < Tap.UNKNOWN && v.batch.Idle? && v.tms == []
    requires Path(table, v.state, state) != [] && |Path(table, v.state, state)| <= MAX_TMS_BITS
    ensures var env := Env(table, [1], [GoTo(state, 0)]);
            && Replay(env, v, 0).Went? && |Replay(env, v, 0).effect.acts| == 1
            && Reported(env, v, 0, 0, 0) == 1
  {
    var env := Env(table, [1], [GoTo(state, 0)]);
    var e := Visit(env, v, 0).effect;
    assert e.acts == [] && e.view.tms == [] + Path(table, v.state, state);
    assert Replay(env, e.view, 1) == Went(Finish(env, e.view));
    assert Reported(env, e.view, 1, 1, 0) == 1;
  }
}

/** The chain driver's Execute: translate, hand over to the JTAG port, complete. */
module JtagChain {
  import opened Common
  import opened Bits
  import opened JtagWire
  import opened ChainBits
  import opened ChainVisit
  import opened ChainCount
  import opened ChainAnswers
  import opened ChainWrites
  import opened ChainVisitor
  import opened ChainReport
  import opened ChainSession
  import opened ChainTap
  import opened TapPaths
  import Tap

  /** Prepends what has been called for already. */
  function Prepend(log: seq<JtagAct>, o: Outcome): Outcome {
    if o.Went? then Went(Effect(o.effect.view, log + o.effect.acts)) else o
  }

  lemma PrependVisit(log: seq<JtagAct>, e: Effect, rest: Outcome)
    ensures Prepend(log, After(e, rest)) == Prepend(log + e.acts, rest)
  {
    if rest.Went? {
      InTwo(log, e.acts, rest.effect.acts);
    }
  }

  /** The translator's pass, before action i: what it has built and what the rest calls for make the whole. */
  ghost predicate Built(env: Env, v: View, i: nat, log: seq<JtagAct>, selected: nat, all: Outcome, left: (seq<nat>, nat)) {
    && i <= |env.acts| && (v.batch.Collecting? ==> v.batch.first <= i)
    && forall k: nat | IsKey(k) :: BuiltSoFar(env, v, i, log, selected, all, left)
  }

  predicate BuiltSoFar(env: Env, v: View, i: nat, log: seq<JtagAct>, selected: nat, all: Outcome, left: (seq<nat>, nat))
    requires i <= |env.acts| && (v.batch.Collecting? ==> v.batch.first <= i)
  {
    && Counted(env, v, i)
    && all == Prepend(log, Translate(env, v, i))
    && left == StructureLeft(env, v, i, selected)
  }

  lemma BuiltNext(env: Env, v: View, i: nat, log: seq<JtagAct>, selected: nat, all: Outcome, left: (seq<nat>, nat), o: Outcome)
    requires Built(env, v, i, log, selected, all, left) && i < |env.acts| && o == Visit(env, v, i)
    ensures Counted(env, v, i) == true
    ensures o.Went? ==>
      Built(env.(taps := TapsAfter(env.taps, env.acts[i])), o.effect.view, i + 1, log + o.effect.acts,
            if env.acts[i].Forget? then 0 else selected, all, left)
    ensures !o.Went? ==> all == o && left == (env.taps, selected)
  {
    assert IsKey(0);
    if o.Went? {
      VisitCounted(env, v, i);
      PrependVisit(log, o.effect, Translate(env.(taps := TapsAfter(env.taps, env.acts[i])), o.effect.view, i + 1));
    }
  }

  lemma BuiltEnd(env: Env, v: View, log: seq<JtagAct>, selected: nat, all: Outcome, left: (seq<nat>, nat))
    requires Built(env, v, |env.acts|, log, selected, all, left)
    ensures Counted(env, v, |env.acts|) == true && left == (env.taps, selected)
    ensures all == Went(Effect(Finish(env, v).view, log + Finish(env, v).acts))
  {
    assert IsKey(0);
  }

  method TranslateOne(t: Visitor, i: nat, ghost all: Outcome, ghost left: (seq<nat>, nat)) returns (r: Verdict)
    requires t.translating && t.Valid() && i < |t.acts|
    requires Built(t.Around(), t.Seen(), i, t.log, t.chain.selectedTap, all, left)
    modifies t, t.chain`taps, t.chain`selectedTap
    ensures r.Continue? ==> t.Valid() && Built(t.Around(), t.Seen(), i + 1, t.log, t.chain.selectedTap, all, left)
    ensures r.Stop? ==> all.Refused? && t.cause == Some(all.cause)
    ensures r.Abort? ==> all.Asserted?
    ensures !r.Continue? ==> left == (t.chain.taps, t.chain.selectedTap)
  {
    BuiltNext(t.Around(), t.Seen(), i, t.log, t.chain.selectedTap, all, left, Visit(t.Around(), t.Seen(), i));
    r := t.VisitAct(i);
  }

  lemma BuiltStart(env: Env, v: View, selected: nat, all: Outcome)
    requires v.batch.Idle? && all == Translate(env, v, 0)
    ensures Built(env, v, 0, [], selected, all, StructureLeft(env, v, 0, selected))
  {
    PrependVisit([], Nop(v), all);
    if all.Went? {
      assert [] + all.effect.acts == all.effect.acts;
    }
  }

  /** The translator's pass over all actions. */
  method TranslateActs(t: Visitor, ghost all: Outcome, ghost left: (seq<nat>, nat)) returns (r: Verdict)
    requires t.translating && t.Valid() && Built(t.Around(), t.Seen(), 0, t.log, t.chain.selectedTap, all, left)
    modifies t, t.chain`taps, t.chain`selectedTap
    ensures r.Continue? ==> t.Valid() && Built(t.Around(), t.Seen(), |t.acts|, t.log, t.chain.selectedTap, all, left)
    ensures r.Stop? ==> all.Refused? && t.cause == Some(all.cause)
    ensures r.Abort? ==> all.Asserted?
    ensures !r.Continue? ==> left == (t.chain.taps, t.chain.selectedTap)
  {
    r := Continue;
    var i := 0;
    while i < |t.acts|
      invariant r.Continue? && i <= |t.acts| && t.Valid()
      invariant Built(t.Around(), t.Seen(), i, t.log, t.chain.selectedTap, all, left)
    {
      r := TranslateOne(t, i, all, left);
      if !r.Continue? {
        return;
      }
      i := i + 1;
    }
  }

  /** And the batch and the TMS bits left. */
  method TranslateAll(t: Visitor, ghost all: Outcome) returns (r: Verdict)
    requires t.translating && t.Valid() && t.log == [] && t.batch == Idle
    requires all == Translate(t.Around(), t.Seen(), 0)
    modifies t, t.chain`taps, t.chain`selectedTap
    ensures (r.Continue? <==> all.Went?) && (r.Stop? <==> all.Refused?)
    ensures r.Continue? ==> t.state < Tap.UNKNOWN
    ensures r.Continue? ==> t.Seen() == all.effect.view && t.builder == t.lead + all.effect.acts
    ensures r.Stop? ==> t.cause == Some(all.cause)
    ensures (t.chain.taps, t.chain.selectedTap) == StructureLeft(old(t.Around()), old(t.Seen()), 0, old(t.chain.selectedTap))
  {
    ghost var left := StructureLeft(t.Around(), t.Seen(), 0, t.chain.selectedTap);
    BuiltStart(t.Around(), t.Seen(), t.chain.selectedTap, all);
    r := TranslateActs(t, all, left);
    if r.Continue? {
      BuiltEnd(t.Around(), t.Seen(), t.log, t.chain.selectedTap, all, left);
      var ok := t.FinishUp();
    }
  }

  /** What is left of the plan: the effect e, then the rest. Contracts keep this folded. */
  predicate Ahead(plan: seq<JtagAct>, n: nat, e: seq<JtagAct>, rest: seq<JtagAct>) {
    n <= |plan| && plan[n..] == e + rest
  }

  lemma AheadPart(plan: seq<JtagAct>, n: nat, f: seq<JtagAct>, e: seq<JtagAct>, rest: seq<JtagAct>)
    requires Ahead(plan, n, e, rest) == true && f <= e
    ensures n + |f| <= |plan| && plan[n..n + |f|] == f
    ensures Ahead(plan, n + |e|, [], rest) == true
    ensures |plan| == n + |e| + |rest|
  {
    assert plan[n..n + |f|] == plan[n..][..|f|];
    assert plan[n + |e|..] == plan[n..][|e|..];
  }

  lemma AheadVisit(plan: seq<JtagAct>, n: nat, e: seq<JtagAct>, rest: seq<JtagAct>)
    requires Ahead(plan, n, [], e + rest) == true
    ensures Ahead(plan, n, e, rest) == true
  {
  }

  /** Where the plan holds a batch, its scan has a result of its kind. */
  lemma ScanInPlan(plan: seq<JtagAct>, status: seq<JtagResult>, n: nat, f: seq<JtagAct>)
    requires Completes(plan, status) == true && f != [] && n + |f| <= |plan| && plan[n..n + |f|] == f
    ensures n + |f| - 1 < |status| ==> Answers(f[|f| - 1], status[n + |f| - 1])
  {
    assert plan[n + |f| - 1] == plan[n..n + |f|][|f| - 1];
  }

  /**
   * What a completer runs over: the raw actions handed over and the results of the first of them,
   * the place of each shift among them, and the view it should end with.
   */
  datatype Pass = Pass(env: Env, plan: seq<JtagAct>, status: seq<JtagResult>, at: nat -> Option<Place>, final: View)

  /**
   * Before action i, with n raw actions passed: the rest of the plan is what the translator built
   * for the rest, with the chain `taps` it then had.
   */
  ghost predicate OnPlan(p: Pass, taps: seq<nat>, v: View, i: nat, n: nat, outs: map<nat, seq<bool>>)
  {
    && i <= |p.env.acts| && (v.batch.Collecting? ==> v.batch.first <= i)
    && forall k: nat | IsKey(k) :: PlanAhead(p, taps, v, i, n) && PlanBehind(p, v, i, n, outs)
  }

  predicate PlanAhead(p: Pass, taps: seq<nat>, v: View, i: nat, n: nat)
    requires i <= |p.env.acts| && (v.batch.Collecting? ==> v.batch.first <= i)
  {
    && p.env.taps == FinalTaps(taps, p.env.acts, i) && WritesLast(p.env.acts, i)
    && (v.batch.Collecting? ==> NoStructure(p.env.acts, i))
    && var rest := Translate(p.env.(taps := taps), v, i);
       rest.Went? && rest.effect.view == p.final && Ahead(p.plan, n, [], rest.effect.acts) == true
  }

  ghost predicate PlanBehind(p: Pass, v: View, i: nat, n: nat, outs: map<nat, seq<bool>>) {
    && Counted(p.env, v, i)
    && Settled(p.plan, p.status, p.at, p.env.acts, outs, SettledUpTo(v, i)) == true
    && Follows(p.at, p.env, v, i, n) == true
    && Completes(p.plan, p.status) == true
  }

  /** The result that the scan of the batch will be given, if it is there yet. */
  predicate Answerable(env: Env, v: View, end: nat, status: seq<JtagResult>, n: nat)
    requires v.batch.Collecting? ==> v.batch.first <= end <= |env.acts|
  {
    v.batch.Collecting? && !Elided(v) ==>
      var f := FlushTdi(env, v, end).acts;
      n + |f| - 1 < |status| ==> Answers(f[|f| - 1], status[n + |f| - 1])
  }

  lemma PlanFlush(plan: seq<JtagAct>, status: seq<JtagResult>, env: Env, v: View, end: nat, n: nat, f: seq<JtagAct>)
    requires (v.batch.Collecting? ==> v.batch.first <= end <= |env.acts|) && f == FlushTdi(env, v, end).acts
    requires Completes(plan, status) == true && n + |f| <= |plan| && plan[n..n + |f|] == f
    ensures Answerable(env, v, end, status, n) == true
  {
    if v.batch.Collecting? && !Elided(v) {
      ScanInPlan(plan, status, n, f);
    }
  }

  /** Action i selects a TAP that the chain does not have. */
  predicate Missing(env: Env, i: nat)
    requires i < |env.acts|
  {
    env.acts[i].Select? && env.acts[i].tap >= |env.taps|
  }

  /** What the translator did at action i, and, unless it selects a TAP since lost, the completer sees. */
  lemma PlanStep(p: Pass, taps: seq<nat>, v: View, i: nat, n: nat) returns (e: Effect)
    requires i < |p.env.acts| && (v.batch.Collecting? ==> v.batch.first <= i) && PlanAhead(p, taps, v, i, n) == true
    ensures if Missing(p.env, i) then Visit(p.env, v, i) == Refused(CauseInvalidJtagTapID(p.env.acts[i].tap, |p.env.taps|))
            else Visit(p.env, v, i) == Went(e)
    ensures e.view.batch.Collecting? ==> e.view.batch.first <= i + 1
    ensures n + |e.acts| <= |p.plan| && p.plan[n..n + |e.acts|] == e.acts
    ensures PlanAhead(p, TapsAfter(taps, p.env.acts[i]), e.view, i + 1, n + |e.acts|) == true
  {
    var env := p.env.(taps := taps);
    var next, rest;
    e, next, rest := TranslateStep(env, v, i);
    VisitFinal(env, v, i, p.env);
    WritesLastNext(env, v, i);
    AheadVisit(p.plan, n, e.acts, rest.acts);
    AheadPart(p.plan, n, e.acts, e.acts, rest.acts);
  }

  /** A batch that action i sends is the next part of the plan. */
  lemma SentNext(p: Pass, v: View, i: nat, n: nat, e: Effect)
    requires i < |p.env.acts| && (v.batch.Collecting? ==> v.batch.first <= i) && Visit(p.env, v, i) == Went(e)
    requires Sends(v, p.env.acts[i]) && n + |e.acts| <= |p.plan| && p.plan[n..n + |e.acts|] == e.acts
    ensures var f := FlushTdi(p.env, v, i).acts;
            |f| <= |e.acts| && p.plan[n..n + |f|] == f
  {
    var f := FlushTdi(p.env, v, i).acts;
    SendsFirst(p.env, v, i);
    assert p.plan[n..n + |f|] == p.plan[n..n + |e.acts|][..|f|];
  }

  /** What is needed before action i. */
  lemma BeforeVisit(p: Pass, taps: seq<nat>, v: View, i: nat, n: nat, outs: map<nat, seq<bool>>) returns (e: Effect)
    requires OnPlan(p, taps, v, i, n, outs) == true && i < |p.env.acts|
    ensures if Missing(p.env, i) then Visit(p.env, v, i) == Refused(CauseInvalidJtagTapID(p.env.acts[i].tap, |p.env.taps|))
            else Visit(p.env, v, i) == Went(e)
    ensures n + |e.acts| <= |p.plan| && Counted(p.env, v, i) == true
    ensures Sends(v, p.env.acts[i]) ==> Answerable(p.env, v, i, p.status, n) == true
  {
    assert IsKey(0);
    e := PlanStep(p, taps, v, i, n);
    if Sends(v, p.env.acts[i]) {
      SentNext(p, v, i, n, e);
      PlanFlush(p.plan, p.status, p.env, v, i, n, FlushTdi(p.env, v, i).acts);
    }
  }

  lemma BehindNext(p: Pass, v: View, i: nat, n: nat, outs: map<nat, seq<bool>>, e: Effect)
    requires PlanBehind(p, v, i, n, outs) == true && i < |p.env.acts| && (v.batch.Collecting? ==> v.batch.first <= i)
    requires Visit(p.env, v, i) == Went(e) && n + |e.acts| <= |p.status| <= |p.plan| && p.plan[n..n + |e.acts|] == e.acts
    ensures PlanBehind(p, e.view, i + 1, n + |e.acts|, VisitOuts(p.env, v, i, p.status, n, outs)) == true
  {
    CountedNext(p.env, v, i);
    if Sends(v, p.env.acts[i]) {
      SentNext(p, v, i, n, e);
      BatchNext(p, v, i, n, outs, FlushTdi(p.env, v, i).acts);
    }
    SettledNext(p.plan, p.status, p.at, p.env, v, i, VisitOuts(p.env, v, i, p.status, n, outs));
    FollowsNext(p.at, p.env, v, i, n, e);
  }

  /** The batch sent before action `end`, or at the end, settles everything up to there. */
  lemma BatchNext(p: Pass, v: View, end: nat, n: nat, outs: map<nat, seq<bool>>, f: seq<JtagAct>)
    requires PlanBehind(p, v, end, n, outs) == true && end <= |p.env.acts| && (v.batch.Collecting? ==> v.batch.first <= end)
    requires (end == |p.env.acts| || Sends(v, p.env.acts[end])) && f == FlushTdi(p.env, v, end).acts
    requires n + |f| <= |p.status| <= |p.plan| && p.plan[n..n + |f|] == f
    ensures Settled(p.plan, p.status, p.at, p.env.acts, FlushedOuts(p.env, v, end, p.status, n, outs), end) == true
  {
    if v.batch.Collecting? && !Elided(v) {
      FollowsFlush(p.at, p.env, v, end, n, f);
    }
    FlushSettles(p.plan, p.status, p.at, p.env, v, end, n, outs, f);
  }

  /** As the completer leaves the chain alone, and only meets what does not change it while collecting. */
  lemma CountedNext(env: Env, v: View, i: nat)
    requires i < |env.acts| && Counted(env, v, i)
    requires v.batch.Collecting? ==> v.batch.first <= i
    requires Visit(env, v, i).Went?
    ensures Counted(env, Visit(env, v, i).effect.view, i + 1)
  {
    VisitCounted(env, v, i);
  }

  /** How far a completer has come: to action i, with n raw actions passed and `taps` what the translator then had. */
  datatype Point = Point(taps: seq<nat>, v: View, i: nat, n: nat, outs: map<nat, seq<bool>>, done: nat, unused: nat)

  ghost predicate Completing(c: Visitor, p: Pass, x: Point, reported: nat)
    reads c, c.chain
  {
    && !c.translating && c.Valid() && c.Marked(x.i) && p.env == c.Around() && p.status == c.status
    && c.Seen() == x.v && c.start + |c.log| == x.n && c.outs == x.outs && c.done == x.done && c.Unused() == x.unused
    && OnPlan(p, x.taps, x.v, x.i, x.n, x.outs) == true
    && OnTrack(p.env, x.v, x.i, x.done, x.unused, reported) == true
  }

  /** The completer is ready for the next action, whose effect, unless refused, is the next part of the plan. */
  lemma ReadyNext(c: Visitor, p: Pass, x: Point, i: nat, reported: nat) returns (e: Effect)
    requires Completing(c, p, x, reported) == true && i == x.i < |c.acts|
    ensures c.Ready(i) && c.start + |c.log| + |e.acts| <= |p.plan|
    ensures if Missing(p.env, i) then Visit(p.env, c.Seen(), i) == Refused(CauseInvalidJtagTapID(c.acts[i].tap, |p.env.taps|))
            else Visit(p.env, c.Seen(), i) == Went(e)
  {
    e := BeforeVisit(p, x.taps, x.v, i, x.n, x.outs);
  }

  /** e is the effect of action i, and `after` what it makes of the answers. */
  ghost predicate StepIs(env: Env, v: View, i: nat, e: Effect, status: seq<JtagResult>, n: nat,
                         before: map<nat, seq<bool>>, after: map<nat, seq<bool>>)
    requires i < |env.acts| && (v.batch.Collecting? ==> v.batch.first <= i)
  {
    forall k: nat | IsKey(k) :: Visit(env, v, i) == Went(e) && after == VisitOuts(env, v, i, status, n, before)
  }

  /** One visit of the completer, which keeps it on track. */
  method VisitOnTrack(c: Visitor, i: nat, ghost o: Outcome, ghost reported: nat) returns (ok: bool)
    requires !c.translating && c.Ready(i) && o == Visit(c.Around(), c.Seen(), i)
    requires OnTrack(c.Around(), c.Seen(), i, c.done, c.Unused(), reported)
    modifies c, c.chain`taps, c.chain`selectedTap
    ensures ok <==> o.Went? && c.start + old(|c.log|) + |o.effect.acts| <= |c.status|
    ensures ok ==> c.Took(o.effect, old(c.log)) && c.Marked(i + 1) && c.cause == old(c.cause)
    ensures ok ==> OnTrack(c.Around(), c.Seen(), i + 1, c.done, c.Unused(), reported)
    ensures ok ==> c.outs == VisitOuts(old(c.Around()), old(c.Seen()), i, c.status, c.start + old(|c.log|), old(c.outs))
    ensures !ok ==> c.done == reported
    ensures o.Refused? ==> c.cause == Some(o.cause)
    ensures c.chain.taps == old(c.chain.taps) && c.chain.selectedTap == old(c.chain.selectedTap)
  {
    ghost var env, v, done, k := c.Around(), c.Seen(), c.done, c.Unused();
    var r := c.VisitAct(i);
    TrackVisit(env, v, i, done, k, reported, o, c.done);
    ok := r.Continue?;
  }

  /** The next visit, of which the caller need only know its effect. */
  method VisitNext(c: Visitor, i: nat, ghost p: Pass, ghost x: Point, ghost reported: nat) returns (ok: bool, ghost e: Effect)
    requires Completing(c, p, x, reported) == true && i == x.i < |c.acts|
    modifies c, c.chain`taps, c.chain`selectedTap
    ensures x.n + |e.acts| <= |p.plan| && p.status == c.status
    ensures ok <==> !Missing(p.env, i) && x.n + |e.acts| <= |c.status|
    ensures OnPlan(p, x.taps, x.v, i, x.n, x.outs) == true
    ensures ok ==> StepIs(p.env, x.v, i, e, c.status, x.n, x.outs, c.outs) == true
    ensures ok ==> c.Seen() == e.view && c.start + |c.log| == x.n + |e.acts| && c.Valid() == true
    ensures ok ==> c.Marked(i + 1) == true && c.cause == old(c.cause)
    ensures ok ==> OnTrack(p.env, e.view, i + 1, c.done, c.Unused(), reported) == true
    ensures !ok ==> c.done == reported
    ensures Missing(p.env, i) ==> c.cause == Some(CauseInvalidJtagTapID(c.acts[i].tap, |p.env.taps|))
    ensures c.Around() == p.env
    ensures c.chain.taps == old(c.chain.taps) && c.chain.selectedTap == old(c.chain.selectedTap)
  {
    e := ReadyNext(c, p, x, i, reported);
    ok := VisitOnTrack(c, i, Visit(p.env, c.Seen(), i), reported);
  }

  lemma AfterStep(p: Pass, taps: seq<nat>, v: View, i: nat, n: nat, outs: map<nat, seq<bool>>, e: Effect, after: map<nat, seq<bool>>,
                  y: Point)
    requires OnPlan(p, taps, v, i, n, outs) == true && i < |p.env.acts| && StepIs(p.env, v, i, e, p.status, n, outs, after) == true
    requires n + |e.acts| <= |p.status|
    requires y == Point(TapsAfter(taps, p.env.acts[i]), e.view, i + 1, n + |e.acts|, after, y.done, y.unused)
    ensures OnPlan(p, y.taps, y.v, y.i, y.n, y.outs) == true
  {
    assert IsKey(0);
    var step := PlanStep(p, taps, v, i, n);
    BehindNext(p, v, i, n, outs, e);
  }

  lemma FitsStep(env: Env, i: nat)
    requires i < |env.acts|
    ensures SelectsFit(env.acts, i, |env.taps|) == (!Missing(env, i) && SelectsFit(env.acts, i + 1, |env.taps|))
  {
  }

  /** One action of the completer. */
  method CompleteOne(c: Visitor, i: nat, ghost p: Pass, ghost x: Point, ghost reported: nat) returns (ok: bool, ghost y: Point)
    requires Completing(c, p, x, reported) == true && i == x.i < |c.acts|
    modifies c, c.chain`taps, c.chain`selectedTap
    ensures ok ==> Completing(c, p, y, reported) == true && y.i == i + 1 && c.cause == old(c.cause)
    ensures ok ==> SelectsFit(c.acts, i, |c.chain.taps|) == SelectsFit(c.acts, i + 1, |c.chain.taps|)
    ensures !ok ==> !(|c.status| == |p.plan| && SelectsFit(c.acts, i, |c.chain.taps|)) && c.done == reported
    ensures !ok && |c.status| == |p.plan| ==> c.cause.Some? && c.cause.value.CauseInvalidJtagTapID?
    ensures c.chain.taps == old(c.chain.taps) && c.chain.selectedTap == old(c.chain.selectedTap)
  {
    FitsStep(p.env, i);
    ghost var e;
    ok, e := VisitNext(c, i, p, x, reported);
    y := Point(TapsAfter(x.taps, c.acts[i]), e.view, i + 1, x.n + |e.acts|, c.outs, c.done, c.Unused());
    if ok {
      AfterStep(p, x.taps, x.v, i, x.n, x.outs, e, c.outs, y);
    }
  }

  /** What the plan holds once every action has been visited: the batch, then the TMS bits left. */
  lemma BeforeFinish(p: Pass, taps: seq<nat>, v: View, n: nat, outs: map<nat, seq<bool>>, f: seq<JtagAct>)
    requires OnPlan(p, taps, v, |p.env.acts|, n, outs) && f == FlushTdi(p.env, v, |p.env.acts|).acts
    ensures Counted(p.env, v, |p.env.acts|) == true && Answerable(p.env, v, |p.env.acts|, p.status, n) == true
    ensures Finish(p.env, v).view == p.final && |p.plan| == n + |Finish(p.env, v).acts| && |p.status| <= |p.plan|
    ensures |f| <= |Finish(p.env, v).acts|
    ensures n + |f| <= |p.status| ==>
      Settled(p.plan, p.status, p.at, p.env.acts, FlushedOuts(p.env, v, |p.env.acts|, p.status, n, outs), |p.env.acts|) == true
  {
    assert IsKey(0);
    assert taps == p.env.taps && p.env.(taps := taps) == p.env;
    var last := FlushTms(FlushTdi(p.env, v, |p.env.acts|).view).acts;
    AheadVisit(p.plan, n, f, last);
    AheadPart(p.plan, n, f, f, last);
    PlanFlush(p.plan, p.status, p.env, v, |p.env.acts|, n, f);
    if n + |f| <= |p.status| {
      BatchNext(p, v, |p.env.acts|, n, outs, f);
    }
  }

  /** The batch and the bits left, once every action has been visited. */
  method CompleteRest(c: Visitor, ghost p: Pass, ghost x: Point, ghost reported: nat) returns (ok: bool)
    requires Completing(c, p, x, reported) == true && x.i == |c.acts|
    modifies c
    ensures ok <==> |c.status| == |p.plan|
    ensures c.done == reported
    ensures ok ==> c.Seen() == p.final && c.done == |c.acts| && c.cause == old(c.cause)
    ensures ok ==> Settled(p.plan, c.status, p.at, c.acts, c.outs, |c.acts|) == true
  {
    BeforeFinish(p, x.taps, x.v, x.n, x.outs, FlushTdi(p.env, x.v, |c.acts|).acts);
    TrackEnd(p.env, x.v, x.done, x.unused, reported);
    ok := c.FinishUp();
  }

  /**
   * The completer's pass: it succeeds if and only if the whole plan was completed and every
   * selection names a TAP that the chain has by now.
   */
  method CompleteAll(c: Visitor, ghost p: Pass, ghost start: Point, ghost reported: nat) returns (ok: bool)
    requires Completing(c, p, start, reported) == true && start.i == 0 && c.cause == None
    modifies c, c.chain`taps, c.chain`selectedTap
    ensures ok <==> |c.status| == |p.plan| && SelectsFit(c.acts, 0, |c.chain.taps|)
    ensures c.done == reported
    ensures ok ==> c.Seen() == p.final && c.done == |c.acts| && c.cause == None
    ensures ok ==> Settled(p.plan, c.status, p.at, c.acts, c.outs, |c.acts|) == true
    ensures !ok && |c.status| == |p.plan| ==> c.cause.Some? && c.cause.value.CauseInvalidJtagTapID?
    ensures c.chain.taps == old(c.chain.taps) && c.chain.selectedTap == old(c.chain.selectedTap)
  {
    var i := 0;
    ghost var x := start;
    while i < |c.acts|
      invariant x.i == i <= |c.acts| && Completing(c, p, x, reported) == true && c.cause == None
      invariant c.chain.taps == old(c.chain.taps) && c.chain.selectedTap == old(c.chain.selectedTap)
      invariant SelectsFit(c.acts, 0, |c.chain.taps|) == SelectsFit(c.acts, i, |c.chain.taps|)
    {
      ok, x := CompleteOne(c, i, p, x, reported);
      if !ok {
        return;
      }
      i := i + 1;
    }
    ok := CompleteRest(c, p, x, reported);
  }

  // ---------------------------------------------------------------- Execute

  /** What the driver keeps between transactions. */
  ghost function Now(chain: Chain): Lasting
    reads chain
  {
    Lasting(chain.state, chain.selectedTap, chain.lastWrittenSingleIr, chain.taps)
  }

  /** What the completer of a transaction runs over. */
  function PassOf(table: seq<seq<Entry>>, l: Lasting, acts: seq<ChainAct>, status: seq<JtagResult>): Pass {
    var env, run := Env(table, FinalTaps(l.taps, acts, 0), acts), RunOf(table, l, acts);
    var final := if run.Went? then run.effect.view else StartOf(l);
    Pass(env, PlanOf(table, l, acts), status, PlacesOf(table, l, acts), final)
  }

  /** The start of a completer agrees with the plan the translator built. */
  lemma PlanStarts(table: seq<seq<Entry>>, l: Lasting, acts: seq<ChainAct>, status: seq<JtagResult>)
    requires WritesLast(acts, 0) && RunOf(table, l, acts).Went? && Completes(PlanOf(table, l, acts), status)
    ensures OnPlan(PassOf(table, l, acts, status), l.taps, StartOf(l), 0, |Lead(l.state)|, map[]) == true
  {
    var plan := PlanOf(table, l, acts);
    assert plan[|Lead(l.state)|..] == [] + RunOf(table, l, acts).effect.acts;
  }

  method CompletePlan(chain: Chain, acts: seq<ChainAct>, status: seq<JtagResult>, jbegin: nat,
                      state: nat, selectedTap: nat, lastIr: Option<SingleIR>, ghost p: Pass, ghost taps: seq<nat>)
    returns (ok: bool, done: nat, outs: map<nat, seq<bool>>, cause: Option<Cause>)
    requires ShortPaths(chain.transitions) && state < Tap.UNKNOWN && jbegin <= |status|
    requires p.env == Env(chain.transitions, chain.taps, acts) && p.status == status
    requires OnPlan(p, taps, View(state, selectedTap, lastIr, [], Idle, None), 0, jbegin, map[]) == true
    modifies chain`taps, chain`selectedTap
    ensures chain.taps == old(chain.taps) && chain.selectedTap == old(chain.selectedTap)
    ensures ok <==> |status| == |p.plan| && SelectsFit(acts, 0, |chain.taps|)
    ensures ok ==> done == |acts| && cause == None && Settled(p.plan, status, p.at, acts, outs, |acts|) == true
    ensures !ok && |status| == |p.plan| ==> cause.Some? && cause.value.CauseInvalidJtagTapID?
    ensures done == Reported(p.env, View(state, selectedTap, lastIr, [], Idle, None), 0, 0, |status| - jbegin)
  {
    ghost var v := View(state, selectedTap, lastIr, [], Idle, None);
    ghost var reported := Reported(p.env, v, 0, 0, |status| - jbegin);
    var completer := new Visitor(chain, acts, false, status, jbegin, [], state, selectedTap, lastIr);
    ok := CompleteAll(completer, p, Point(taps, v, 0, jbegin, map[], 0, |status| - jbegin), reported);
    done, outs, cause := completer.done, completer.outs, completer.cause;
  }

  /** Up to the hand-over: the plan, and the state the chain will be in if all of it is carried out. */
  method Begin(chain: Chain, acts: seq<ChainAct>, ghost all: Outcome)
    returns (verdict: Verdict, plan: seq<JtagAct>, cause: Option<Cause>)
    requires ShortPaths(chain.transitions) && chain.state <= Tap.UNKNOWN && all == RunOf(chain.transitions, Now(chain), acts)
    modifies chain
    ensures (verdict.Continue? <==> all.Went?) && (verdict.Stop? <==> all.Refused?)
    ensures all.Refused? ==> cause == Some(all.cause)
    ensures !all.Went? ==>
      var left := StructureLeft(Env(chain.transitions, old(chain.taps), acts), StartOf(old(Now(chain))), 0, old(chain.selectedTap));
      Now(chain) == old(Now(chain)).(taps := left.0, selected := left.1)
    ensures all.Went? ==>
      && plan == PlanOf(chain.transitions, old(Now(chain)), acts) && all.effect.view.state < Tap.UNKNOWN
      && Now(chain) == Lasting(all.effect.view.state, all.effect.view.selected, all.effect.view.lastSingle,
                               FinalTaps(old(chain.taps), acts, 0))
  {
    ghost var l := Now(chain);
    var lead := if chain.state == Tap.UNKNOWN then [PutTMS(Ones(5))] else [];
    var known := if chain.state == Tap.UNKNOWN then Tap.TEST_LOGIC_RESET else chain.state;
    var translator := new Visitor(chain, acts, true, [], 0, lead, known, chain.selectedTap, chain.lastWrittenSingleIr);
    verdict := TranslateAll(translator, all);
    plan, cause := translator.builder, translator.cause;
    if verdict.Continue? {
      StructureWent(Env(chain.transitions, l.taps, acts), StartOf(l), 0, l.selected);
      chain.state, chain.selectedTap, chain.lastWrittenSingleIr :=
        translator.state, translator.selectedTap, translator.lastWrittenSingleIr;
    }
  }

  /** From the results on: unless the transaction goes through, the state is left unknown. */
  method End(chain: Chain, acts: seq<ChainAct>, status: seq<JtagResult>,
             state: nat, selectedTap: nat, lastIr: Option<SingleIR>, ghost p: Pass, ghost taps: seq<nat>)
    returns (ok: bool, done: nat, outs: map<nat, seq<bool>>, cause: Option<Cause>)
    requires ShortPaths(chain.transitions) && state <= Tap.UNKNOWN && |Lead(state)| <= |p.plan|
    requires p.env == Env(chain.transitions, chain.taps, acts) && p.status == status
    requires OnPlan(p, taps, View(Known(state), selectedTap, lastIr, [], Idle, None), 0, |Lead(state)|, map[]) == true
    modifies chain
    ensures Now(chain) == old(Now(chain)).(state := if ok then old(chain.state) else Tap.UNKNOWN)
    ensures ok <==> |status| == |p.plan| && SelectsFit(acts, 0, |chain.taps|)
    ensures ok ==> done == |acts| && cause == None && Settled(p.plan, status, p.at, acts, outs, |acts|) == true
    ensures !ok && |status| == |p.plan| ==> cause.Some? && cause.value.CauseInvalidJtagTapID?
    ensures done == Report(p.env, View(Known(state), selectedTap, lastIr, [], Idle, None), |Lead(state)|, |status|)
  {
    ok, done, outs, cause := false, 0, map[], None;
    var jbegin, known := 0, state;
    if state == Tap.UNKNOWN {
      if |status| == 0 {
        if |acts| != 0 {
          cause := Some(CauseNestedError);
        }
        chain.state := Tap.UNKNOWN;
        return;
      }
      jbegin, known := 1, Tap.TEST_LOGIC_RESET;
    }
    ok, done, outs, cause := CompletePlan(chain, acts, status, jbegin, known, selectedTap, lastIr, p, taps);
    if !ok {
      chain.state := Tap.UNKNOWN;
    }
  }

  /** One transaction over a port that may stop anywhere. */
  method Execute(chain: Chain, tx: Tx)
    returns (verdict: Verdict, done: nat, outs: map<nat, seq<bool>>, cause: Option<Cause>)
    requires IsPathTable(chain.transitions) == true && chain.state <= Tap.UNKNOWN
    requires IsPort(tx.port) && WritesLast(tx.acts, 0)
    modifies chain
    ensures Now(chain) == LastingAfter(chain.transitions, old(Now(chain)), tx) && chain.state <= Tap.UNKNOWN
    ensures done == DoneOf(chain.transitions, old(Now(chain)), tx)
    ensures verdict.Abort? <==> RunOf(chain.transitions, old(Now(chain)), tx.acts).Asserted?
    ensures RunOf(chain.transitions, old(Now(chain)), tx.acts).Refused? ==>
      verdict.Stop? && cause == Some(RunOf(chain.transitions, old(Now(chain)), tx.acts).cause)
    // What is handed over holds every write's own value at its own TAP's place.
    ensures RunOf(chain.transitions, old(Now(chain)), tx.acts).Went? ==>
      AllOnWire(PlanOf(chain.transitions, old(Now(chain)), tx.acts), tx.acts,
                WritePlaces(chain.transitions, old(Now(chain)), tx.acts)) == true
    // It goes through exactly when the port completed the whole plan and every TAP selected is
    // still there; then everything is done and each shift has the answer of its own cycles.
    ensures verdict.Continue? <==> Through(chain.transitions, old(Now(chain)), tx)
    ensures verdict.Continue? ==>
      var plan := PlanOf(chain.transitions, old(Now(chain)), tx.acts);
      var at := PlacesOf(chain.transitions, old(Now(chain)), tx.acts);
      done == |tx.acts| && cause == None && Settled(plan, tx.port(plan), at, tx.acts, outs, |tx.acts|) == true
    ensures Carried(chain.transitions, old(Now(chain)), tx) && !verdict.Continue? ==>
      cause.Some? && cause.value.CauseInvalidJtagTapID?
  {
    ghost var l := Now(chain);
    TableLeads(chain.transitions);
    PathsAreShort(chain.transitions);
    done, outs := 0, map[];
    var state, selectedTap, lastIr := chain.state, chain.selectedTap, chain.lastWrittenSingleIr;
    var plan: seq<JtagAct>;
    verdict, plan, cause := Begin(chain, tx.acts, RunOf(chain.transitions, l, tx.acts));
    if !verdict.Continue? {
      return;
    }
    PlanOnWire(chain.transitions, l, tx.acts);
    var status := tx.port(plan);
    assert Completes(plan, status) == true;
    PlanStarts(chain.transitions, l, tx.acts, status);
    var ok: bool;
    ok, done, outs, cause :=
      End(chain, tx.acts, status, state, selectedTap, lastIr, PassOf(chain.transitions, l, tx.acts, status), l.taps);
    verdict := if ok then Continue else Stop;
  }

  // ---------------------------------------------------------------- whole sessions

  ghost predicate IsTx(tx: Tx) {
    IsPort(tx.port) && WritesLast(tx.acts, 0) && NonEmptyActs(tx.acts)
  }

  /**
   * Any run of transactions with non-empty shifts, from any TAP state `tap`: the driver's lasting
   * state and what was reported are those of the session, and the recorded state is Unknown or
   * that of the TAP.
   */
  method Session(chain: Chain, txs: seq<Tx>, ghost tap: Tap.TapState) returns (dones: seq<nat>)
    requires IsPathTable(chain.transitions) == true && InStep(chain.state, tap) && NonEmptyTaps(chain.taps)
    requires forall k | 0 <= k < |txs| :: IsTx(txs[k])
    modifies chain
    ensures var w := AfterAll(chain.transitions, World(old(Now(chain)), tap, []), txs);
            Now(chain) == w.chain && dones == w.dones && InStep(chain.state, w.tap)
  {
    ghost var w := World(Now(chain), tap, []);
    ghost var all := AfterAll(chain.transitions, w, txs);
    TableLeads(chain.transitions);
    EverySession(chain.transitions, w, txs);
    dones := [];
    var k := 0;
    while k < |txs|
      invariant k <= |txs| && Now(chain) == w.chain && dones == w.dones && chain.state <= Tap.UNKNOWN
      invariant all == AfterAll(chain.transitions, w, txs[k..])
    {
      var tx := txs[k];
      assert IsTx(tx) && txs[k..][0] == tx && txs[k..][1..] == txs[k + 1..];
      var verdict, done, outs, cause := Execute(chain, tx);
      w := AfterTx(chain.transitions, w, tx);
      dones := dones + [done];
      if verdict.Abort? {
        return;
      }
      k := k + 1;
    }
  }
}

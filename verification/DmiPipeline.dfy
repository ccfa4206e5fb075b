/**
 * What one attempt of the DMI driver sends and how it reads the answers. Accesses are
 * pipelined: scan i of a JTAG transaction carries access i in and the answer to access
 * i - 1 out, and a closing empty scan fetches the last answer. Where a conclusion is
 * compared with true, it is kept folded for the verifier; the comparison says no more.
 */
module DmiPipeline {
  import opened Common
  import opened Num
  import opened Latency
  import opened DmiTarget

  datatype Act = Dmi(access: Access) | SkipCycles(cycles: nat)

  // ---- The order of a transaction's actions, and the chain actions issued for it ----

  function One(act: Act): seq<Access> {
    if act.Dmi? then [act.access] else []
  }

  /** The accesses among the first n actions. */
  function Accesses(acts: seq<Act>, n: nat): seq<Access>
    requires n <= |acts|
  {
    if n == 0 then [] else Accesses(acts, n - 1) + One(acts[n - 1])
  }

  predicate SkipsLead(acts: seq<Act>) {
    forall i, j :: 0 <= i < j < |acts| && acts[i].Dmi? ==> acts[j].Dmi?
  }

  predicate OnlyAccesses(acts: seq<Act>, i: nat)
    requires i <= |acts|
    decreases |acts| - i
  {
    i == |acts| || (acts[i].Dmi? && OnlyAccesses(acts, i + 1))
  }

  lemma {:induction false} OnlyAccessesFollow(acts: seq<Act>, i: nat, j: nat)
    requires SkipsLead(acts) && i < j <= |acts| && acts[i].Dmi?
    ensures OnlyAccesses(acts, j)
    decreases |acts| - j
  {
    if j < |acts| {
      OnlyAccessesFollow(acts, i, j + 1);
    }
  }

  function Header(tap: nat, error: bool): seq<ChainOp> {
    if error then [SelectTAP(tap), WriteIR(DTMCS_IR), WriteDR(Word(DMIRESET), 32), WriteIR(DMI_IR)]
    else [SelectTAP(tap), WriteIR(DMI_IR)]
  }

  function Closing(size: nat): seq<ChainOp> {
    [ShiftDR(NO_REQUEST, size), GoToUpdate]
  }

  lemma OpsAssoc(a: seq<ChainOp>, b: seq<ChainOp>, c: seq<ChainOp>)
    ensures a + b + c == a + (b + c)
  {
  }

  function Scan(a: Access, latency: nat, size: nat): seq<ChainOp> {
    [ShiftDR(Request(a), size), GoToIdle(latency)]
  }

  /**
   * The chain actions of the actions from i on, up to the closing scan; with waiting,
   * the first access among them is under way already.
   */
  function Issue(acts: seq<Act>, i: nat, waiting: bool, latency: nat, size: nat): seq<ChainOp>
    requires i <= |acts|
    decreases |acts| - i
  {
    if i == |acts| then Closing(size)
    else
      match acts[i]
      case SkipCycles(n) => [GoToIdle(n)] + Issue(acts, i + 1, waiting, latency, size)
      case Dmi(a) =>
        if waiting then Issue(acts, i + 1, false, latency, size)
        else Scan(a, latency, size) + Issue(acts, i + 1, false, latency, size)
  }

  /** Every address to be issued fits the target's address width. */
  predicate AddressesFit(acts: seq<Act>, i: nat, waiting: bool, abits: nat)
    requires i <= |acts|
    decreases |acts| - i
  {
    i == |acts|
    || (match acts[i]
        case SkipCycles(_) => AddressesFit(acts, i + 1, waiting, abits)
        case Dmi(a) => (waiting || a.address < Pow2(abits)) && AddressesFit(acts, i + 1, false, abits))
  }

  lemma {:induction false} FitWaiting(acts: seq<Act>, i: nat, abits: nat)
    requires i <= |acts| && AddressesFit(acts, i, false, abits)
    ensures AddressesFit(acts, i, true, abits)
    decreases |acts| - i
  {
    if i < |acts| && acts[i].SkipCycles? {
      FitWaiting(acts, i + 1, abits);
    }
  }

  lemma {:induction false} FitLater(acts: seq<Act>, i: nat, j: nat, waiting: bool, abits: nat)
    requires i <= j <= |acts| && AddressesFit(acts, i, waiting, abits)
    ensures AddressesFit(acts, j, true, abits)
    decreases j - i
  {
    if i == j {
      if !waiting {
        FitWaiting(acts, i, abits);
      }
    } else {
      FitLater(acts, i + 1, j, waiting && acts[i].SkipCycles?, abits);
    }
  }

  lemma {:induction false} IssueIsTraffic(acts: seq<Act>, i: nat, waiting: bool, latency: nat, size: nat)
    requires i <= |acts|
    ensures forall k :: 0 <= k < |Issue(acts, i, waiting, latency, size)| ==>
              IsDmiTraffic(Issue(acts, i, waiting, latency, size)[k])
    decreases |acts| - i
  {
    if i < |acts| {
      IssueIsTraffic(acts, i + 1, waiting && acts[i].SkipCycles?, latency, size);
    }
  }

  // ---- What the target does with the issued actions ----

  /** The last access of the history is under way or done, and not yet answered. */
  predicate Answering(s: Dev, history: seq<Access>) {
    s.performed == history && s.sticky.Clear? && !s.progress.Reported? && s.latched.None? && s.ir == DMI_IR && s.selected
  }

  /** It has just been started and given its time. */
  predicate Started(s: Dev, history: seq<Access>, latency: nat) {
    Answering(s, history) && s.progress.Running? && s.idled == latency && s.asked == 0
  }

  /** Nothing is under way and the next scan of dmi may carry an access. */
  predicate Idle(s: Dev, history: seq<Access>) {
    s.performed == history && s.sticky.Clear? && s.progress.Reported? && s.latched.None? && s.ir == DMI_IR && s.selected
  }

  /** An error blocks further accesses. */
  predicate Blocked(s: Dev, history: seq<Access>) {
    s.performed == history && !s.sticky.Clear? && s.ir == DMI_IR
  }

  /** The access under way has been asked for. */
  predicate Asked(s: Dev) {
    s.progress.Completed? || s.asked > 0
  }

  predicate Quiet(s: Dev) {
    s.latched.None? || s.latched == Some(NO_REQUEST) || s.latched == Some(Word(0))
  }

  /** A driver that believes the target operates, or knows that it reports an error. */
  predicate HeaderReady(s: Dev, error: bool) {
    if error then !s.sticky.Clear? && s.ir == DMI_IR
    else s.sticky.Clear? && Quiet(s) && (s.ir == DMI_IR || s.ir == DTMCS_IR)
  }

  /** However much of the header completes, it performs nothing. */
  lemma HeaderPerformsNothing(t: Target, s: Dev, tap: nat, error: bool, m: nat)
    requires HeaderReady(s, error) && tap == t.tap
    ensures RunOps(t, s, Header(tap, error), m).0.performed == s.performed
  {
    if m > 0 {
      HeaderSteps(t, s, tap, error, m);
    }
  }

  /** What the header makes of a target: its dmi selected and without error, all else as it was. */
  predicate Entered(s: Dev, e: Dev) {
    && e.sticky.Clear? && e.latched.None? && e.ir == DMI_IR && e.selected
    && e.progress == s.progress && e.performed == s.performed && e.idled == s.idled && e.asked == s.asked
  }

  /** The header, action by action. */
  lemma HeaderSteps(t: Target, s: Dev, tap: nat, error: bool, m: nat)
    requires HeaderReady(s, error) && tap == t.tap && m > 0
    ensures var e := RunOps(t, s, Header(tap, error), m).0;
            && e.performed == s.performed
            && (m >= |Header(tap, error)| ==> Entered(s, e))
  {
    var s1 := s.(selected := true);
    assert StepOp(t, s, SelectTAP(tap)).0 == s1;
    if error {
      var s2 := s1.(ir := DTMCS_IR, latched := None);
      var s3 := s2.(latched := Some(Word(DMIRESET)));
      var s4 := s2.(sticky := Clear, ir := DMI_IR);
      RunStep(t, s, SelectTAP(tap), [WriteIR(DTMCS_IR), WriteDR(Word(DMIRESET), 32), WriteIR(DMI_IR)], m);
      if m > 1 {
        RunStep(t, s1, WriteIR(DTMCS_IR), [WriteDR(Word(DMIRESET), 32), WriteIR(DMI_IR)], m - 1);
        assert StepOp(t, s1, WriteIR(DTMCS_IR)).0 == s2;
        if m > 2 {
          RunStep(t, s2, WriteDR(Word(DMIRESET), 32), [WriteIR(DMI_IR)], m - 2);
          assert StepOp(t, s2, WriteDR(Word(DMIRESET), 32)).0 == s3;
          if m > 3 {
            RunStep(t, s3, WriteIR(DMI_IR), [], m - 3);
            assert StepOp(t, s3, WriteIR(DMI_IR)).0 == s4;
          }
        }
      }
    } else {
      RunStep(t, s, SelectTAP(tap), [WriteIR(DMI_IR)], m);
      if m > 1 {
        RunStep(t, s1, WriteIR(DMI_IR), [], m - 1);
        assert StepOp(t, s1, WriteIR(DMI_IR)).0 == s1.(ir := DMI_IR, latched := None);
      }
    }
  }

  /** A scan from an idle target starts the access it carries. */
  lemma ScanStarts(t: Target, s: Dev, history: seq<Access>, a: Access, latency: nat, size: nat)
    requires Idle(s, history) && a.address < Pow2(t.Abits()) && size == t.DmiSize()
    ensures var (s1, _) := StepOp(t, s, ShiftDR(Request(a), size));
            && s1.performed == history
            && Started(StepOp(t, s1, GoToIdle(latency)).0, history + [a], latency)
  {
  }

  /** One answer: ok with the access's own value, or an error that blocks everything after it. */
  lemma AnswerRead(t: Target, s: Dev, history: seq<Access>, v: Reg, size: nat)
    requires Answering(s, history) && size == t.DmiSize()
    ensures var (e, out) := StepOp(t, s, ShiftDR(v, size));
            && out.Some?
            && (StatusOf(out.value) == DMI_OK ==>
                  && DataOf(out.value) == t.result(history)
                  && Idle(e.(latched := None), history) && e.latched == Some(v))
            && (StatusOf(out.value) != DMI_OK ==> Blocked(e, history))
            && (StatusOf(out.value) == DMI_BUSY ==> !e.progress.Reported? && Asked(e))
            && (StatusOf(out.value) != DMI_OK && StatusOf(out.value) != DMI_BUSY ==> e.progress.Reported?)
  {
    assert Update(t, s) == s;
  }

  /** After an ok answer, clocking the same scan through Update-DR starts what it carried. */
  lemma UpdateStarts(t: Target, s: Dev, history: seq<Access>, a: Access, latency: nat)
    requires Idle(s.(latched := None), history) && s.latched == Some(Request(a)) && a.address < Pow2(t.Abits())
    ensures Started(StepOp(t, s, GoToIdle(latency)).0, history + [a], latency)
  {
  }

  // ---- The result pass ----

  datatype DTMState = Initial | Operating | Error | Invalid

  /** Crash stands for the null dereference of an output that is not a scan's. */
  datatype AttemptStatus = Success | MyFailure | PrevFailure | MyBusy | PrevBusy | Crash

  /** Where a result pass ends: the first incomplete action, the read values, and its outcome. */
  datatype Verdict = Verdict(done: nat, values: seq<Option<word>>, status: AttemptStatus, state: DTMState)

  function Drop<T>(s: seq<T>, n: nat): seq<T> {
    if n <= |s| then s[n..] else []
  }

  /** The read values once access i has returned dmi. */
  function Stored(acts: seq<Act>, i: nat, values: seq<Option<word>>, dmi: Reg): seq<Option<word>>
    requires i < |acts| == |values| && acts[i].Dmi?
  {
    if acts[i].access.Read? then values[i := Some(DataOf(dmi))] else values
  }

  /**
   * The result pass from action i on, over what is left of the completed chain actions,
   * for a driver whose error counter nobody else has moved. With ownScan, the first access
   * to come was issued by this attempt, and its own two actions come before its answer.
   */
  function Results(acts: seq<Act>, i: nat, outs: seq<Option<Reg>>, ownScan: bool,
                   values: seq<Option<word>>, state: DTMState): (v: Verdict)
    requires i <= |acts| == |values|
    ensures i <= v.done <= |acts| == |v.values|
    ensures !v.status.PrevBusy? && !v.status.PrevFailure? && (v.status.MyBusy? ==> v.state.Error?)
    decreases |acts| - i
  {
    if i == |acts| then Verdict(i, values, Success, state)
    else if acts[i].SkipCycles? then
      if outs == [] then Verdict(i, values, MyFailure, Invalid)
      else Results(acts, i + 1, outs[1..], ownScan, values, state)
    else
      var rest := if ownScan then Drop(outs, 2) else outs;
      if rest == [] then Verdict(i, values, MyFailure, Invalid)
      else if rest[0].None? then Verdict(i, values, Crash, state)
      else
        var dmi := rest[0].value;
        if StatusOf(dmi) == DMI_OK then
          Results(acts, i + 1, Drop(rest, 2), false, Stored(acts, i, values, dmi),
                  if |rest| == 1 then Invalid else state)
        else if StatusOf(dmi) == DMI_BUSY then Verdict(i, values, MyBusy, Error)
        else Verdict(i, values, MyFailure, Error)
  }

  /** The result pass of a whole attempt, header included. */
  function AttemptResults(tap: nat, error: bool, acts: seq<Act>, i: nat, outs: seq<Option<Reg>>, waiting: bool,
                          values: seq<Option<word>>): (v: Verdict)
    requires i <= |acts| == |values|
    ensures i <= v.done <= |acts| == |v.values|
  {
    if error && |outs| < 3 then Verdict(i, values, MyFailure, Invalid)
    else
      var n := |Header(tap, error)|;
      Results(acts, i, Drop(outs, n), !waiting, values, if |outs| < n then Invalid else Operating)
  }

  // ---- What the outcome of an attempt says ----

  /** Reads below n hold the values their own accesses returned. */
  predicate ReadsHold(t: Target, base: seq<Access>, acts: seq<Act>, values: seq<Option<word>>, n: nat)
    requires |values| == |acts| && n <= |acts|
  {
    n == 0
    || (&& ReadsHold(t, base, acts, values, n - 1)
        && (acts[n - 1].Dmi? && acts[n - 1].access.Read? ==>
              values[n - 1] == Some(t.result(base + Accesses(acts, n)))))
  }

  lemma {:induction false} ReadHolds(t: Target, base: seq<Access>, acts: seq<Act>, values: seq<Option<word>>, n: nat, j: nat)
    requires |values| == |acts| && j < n <= |acts| && ReadsHold(t, base, acts, values, n)
    requires acts[j].Dmi? && acts[j].access.Read?
    ensures values[j] == Some(t.result(base + Accesses(acts, j + 1)))
    decreases n
  {
    if j + 1 < n {
      ReadHolds(t, base, acts, values, n - 1, j);
    }
  }

  /** The target has performed the accesses below n, and at most the one at n besides. */
  predicate PerformedUpTo(s: Dev, base: seq<Access>, acts: seq<Act>, n: nat)
    requires n <= |acts|
  {
    || s.performed == base + Accesses(acts, n)
    || (n < |acts| && s.performed == base + Accesses(acts, n + 1))
  }

  /** What the outcome of an attempt says about the target it leaves. */
  predicate Justified(s: Dev, t: Target, base: seq<Access>, acts: seq<Act>, v: Verdict)
    requires v.done <= |acts| == |v.values|
  {
    && ReadsHold(t, base, acts, v.values, v.done)
    && PerformedUpTo(s, base, acts, v.done)
    && (match v.status
        case Success =>
          && v.done == |acts| && (v.state.Operating? || v.state.Invalid?)
          && (v.state.Operating? ==> HeaderReady(s, false) && s.progress.Reported?)
        case MyBusy =>
          && v.done < |acts| && acts[v.done].Dmi? && v.state.Error?
          && Blocked(s, base + Accesses(acts, v.done + 1)) && !s.progress.Reported? && Asked(s)
        case MyFailure =>
          v.state.Invalid? || (v.state.Error? && HeaderReady(s, true) && s.progress.Reported?)
        case _ => false)
  }

  lemma RunTwo(t: Target, s: Dev, a: ChainOp, b: ChainOp, rest: seq<ChainOp>, ops: seq<ChainOp>, m: nat)
    requires ops == [a, b] + rest && m > 0
    ensures var (s1, o1) := StepOp(t, s, a);
            var (s2, o2) := StepOp(t, s1, b);
            && (m == 1 ==> RunOps(t, s, ops, m) == (s1, [o1]))
            && (m >= 2 ==>
                  var (e, outs) := RunOps(t, s2, rest, m - 2);
                  RunOps(t, s, ops, m) == (e, [o1, o2] + outs))
  {
    assert ops == [a] + ([b] + rest);
    var (s1, o1) := StepOp(t, s, a);
    RunStep(t, s, a, [b] + rest, m);
    assert [o1] + [] == [o1];
    if m > 1 {
      var (s2, o2) := StepOp(t, s1, b);
      RunStep(t, s1, b, rest, m - 1);
      var outs := RunOps(t, s2, rest, m - 2).1;
      assert [o1] + ([o2] + outs) == [o1, o2] + outs;
    }
  }

  /** The scan of an access a answers the access before it and, on ok, starts a. */
  lemma AnswerStep(t: Target, s: Dev, history: seq<Access>, a: Access, latency: nat, size: nat,
                   rest: seq<ChainOp>, ops: seq<ChainOp>, m: nat)
    returns (s1: Dev, s2: Dev, out: Reg)
    requires Answering(s, history) && a.address < Pow2(t.Abits()) && size == t.DmiSize()
    requires ops == Scan(a, latency, size) + rest && m > 0
    ensures StepOp(t, s, ops[0]).1 == Some(out)
    ensures StatusOf(out) == DMI_OK ==>
              DataOf(out) == t.result(history) && s1.performed == history && Started(s2, history + [a], latency)
    ensures m == 1 ==> RunOps(t, s, ops, m) == (s1, [Some(out)])
    ensures m >= 2 ==>
              var (e, outs) := RunOps(t, s2, rest, m - 2);
              RunOps(t, s, ops, m) == (e, [Some(out), None] + outs)
  {
    AnswerRead(t, s, history, Request(a), size);
    RunTwo(t, s, ShiftDR(Request(a), size), GoToIdle(latency), rest, ops, m);
    s1 := StepOp(t, s, ops[0]).0;
    s2 := StepOp(t, s1, GoToIdle(latency)).0;
    out := StepOp(t, s, ops[0]).1.value;
    if StatusOf(out) == DMI_OK {
      UpdateStarts(t, s1, history, a, latency);
    }
  }

  /** An error answer blocks the rest of the attempt. */
  lemma ErrorBlocks(t: Target, s: Dev, history: seq<Access>, ops: seq<ChainOp>, m: nat)
    requires Answering(s, history) && ops != [] && ops[0].ShiftDR? && ops[0].size == t.DmiSize() && m > 0
    requires forall k :: 0 <= k < |ops| ==> IsDmiTraffic(ops[k])
    ensures var out := StepOp(t, s, ops[0]).1;
            var (e, outs) := RunOps(t, s, ops, m);
            && outs != [] && outs[0] == out && out.Some?
            && (StatusOf(out.value) != DMI_OK ==>
                  && Blocked(e, history)
                  && (StatusOf(out.value) == DMI_BUSY <==> !e.progress.Reported?)
                  && (StatusOf(out.value) == DMI_BUSY ==> Asked(e)))
  {
    AnswerRead(t, s, history, ops[0].value, ops[0].size);
    var (s1, out) := StepOp(t, s, ops[0]);
    if StatusOf(out.value) != DMI_OK {
      assert forall k :: 0 <= k < |ops[1..]| ==> ops[1..][k] == ops[k + 1];
      StickyIgnoresScans(t, s1, ops[1..], m - 1);
    }
  }

  /** After an ok answer the outcome is that of the rest of the pass. */
  lemma AfterOk(acts: seq<Act>, i: nat, out: Reg, outs: seq<Option<Reg>>, rest: seq<Option<Reg>>,
                values: seq<Option<word>>, state: DTMState)
    requires i < |acts| == |values| && acts[i].Dmi? && StatusOf(out) == DMI_OK
    requires outs != [] && outs[0] == Some(out) && rest == Drop(outs, 2)
    ensures Results(acts, i, outs, false, values, state)
         == Results(acts, i + 1, rest, false, Stored(acts, i, values, out),
                    if |outs| == 1 then Invalid else state)
  {
  }

  lemma {:induction false} LaterStoreHolds(t: Target, base: seq<Access>, acts: seq<Act>, n: nat, i: nat,
                                           values: seq<Option<word>>, v: Option<word>)
    requires n <= i < |acts| == |values| && ReadsHold(t, base, acts, values, n)
    ensures ReadsHold(t, base, acts, values[i := v], n)
    decreases n
  {
    if n > 0 {
      LaterStoreHolds(t, base, acts, n - 1, i, values, v);
    }
  }

  lemma StoredHolds(t: Target, base: seq<Access>, acts: seq<Act>, i: nat, values: seq<Option<word>>, out: Reg)
    requires i < |acts| == |values| && acts[i].Dmi? && ReadsHold(t, base, acts, values, i)
    requires DataOf(out) == t.result(base + Accesses(acts, i + 1))
    ensures ReadsHold(t, base, acts, Stored(acts, i, values, out), i + 1)
  {
    LaterStoreHolds(t, base, acts, i, i, values, Some(DataOf(out)));
  }

  /** The chain breaks off right after an ok answer. */
  lemma CutAfterOk(e: Dev, t: Target, base: seq<Access>, acts: seq<Act>, i: nat, values: seq<Option<word>>)
    requires i < |acts| == |values| && OnlyAccesses(acts, i)
    requires e.performed == base + Accesses(acts, i + 1) && ReadsHold(t, base, acts, values, i + 1)
    ensures RunJustified(t, base, acts, i + 1, (e, []), false, values, Invalid) == true
  {
    var v := Results(acts, i + 1, [], false, values, Invalid);
    if i + 1 == |acts| {
      assert v == Verdict(i + 1, values, Success, Invalid);
    } else {
      assert v == Verdict(i + 1, values, MyFailure, Invalid);
    }
  }

  /** The outcome of the result pass over a run of the issued actions is justified. */
  predicate RunJustified(t: Target, base: seq<Access>, acts: seq<Act>, i: nat, run: (Dev, seq<Option<Reg>>),
                         ownScan: bool, values: seq<Option<word>>, state: DTMState)
    requires i <= |acts| == |values|
  {
    Justified(run.0, t, base, acts, Results(acts, i, run.1, ownScan, values, state))
  }

  /** The last access is answered ok. */
  lemma LastJustified(t: Target, s: Dev, base: seq<Access>, acts: seq<Act>, i: nat, size: nat, m: nat,
                      values: seq<Option<word>>, state: DTMState)
    requires i + 1 == |acts| == |values| && acts[i].Dmi? && m > 0 && size == t.DmiSize()
    requires Answering(s, base + Accesses(acts, i + 1)) && ReadsHold(t, base, acts, values, i)
    requires state.Operating? || state.Invalid?
    requires StatusOf(StepOp(t, s, ShiftDR(NO_REQUEST, size)).1.value) == DMI_OK
    ensures RunJustified(t, base, acts, i, RunOps(t, s, Closing(size), m), false, values, state)
  {
    var history := base + Accesses(acts, i + 1);
    AnswerRead(t, s, history, NO_REQUEST, size);
    var (s1, out) := StepOp(t, s, ShiftDR(NO_REQUEST, size));
    assert Closing(size) == Closing(size) + [];
    RunTwo(t, s, ShiftDR(NO_REQUEST, size), GoToUpdate, [], Closing(size), m);
    var (e, outs) := RunOps(t, s, Closing(size), m);
    StoredHolds(t, base, acts, i, values, out.value);
    AfterOk(acts, i, out.value, outs, [], values, state);
  }

  /** From the answer to access i on, the outcome of the result pass is justified. */
  lemma {:induction false} AnswersJustified(
      t: Target, s: Dev, base: seq<Access>, acts: seq<Act>, i: nat, latency: nat, size: nat, m: nat,
      values: seq<Option<word>>, state: DTMState)
    requires i < |acts| == |values| && OnlyAccesses(acts, i) && size == t.DmiSize()
    requires AddressesFit(acts, i + 1, false, t.Abits())
    requires Answering(s, base + Accesses(acts, i + 1)) && ReadsHold(t, base, acts, values, i)
    requires state.Operating? || state.Invalid?
    ensures RunJustified(t, base, acts, i, RunOps(t, s, Issue(acts, i + 1, false, latency, size), m),
                         false, values, state) == true
    decreases |acts| - i, 1
  {
    var ops := Issue(acts, i + 1, false, latency, size);
    if m == 0 {
      assert Results(acts, i, [], false, values, state) == Verdict(i, values, MyFailure, Invalid);
    } else {
      IssueIsTraffic(acts, i + 1, false, latency, size);
      ErrorBlocks(t, s, base + Accesses(acts, i + 1), ops, m);
      var out := StepOp(t, s, ops[0]).1;
      var (e, outs) := RunOps(t, s, ops, m);
      if StatusOf(out.value) != DMI_OK {
        ErrorJustified(e, t, base, acts, i, out.value, outs, values, state);
      } else if i + 1 == |acts| {
        LastJustified(t, s, base, acts, i, size, m, values, state);
      } else {
        NextJustified(t, s, base, acts, i, latency, size, m, out.value, values, state);
      }
    }
  }

  /** The scan that answers access i ok, and what is left of the run after it. */
  lemma NextStep(t: Target, s: Dev, base: seq<Access>, acts: seq<Act>, i: nat, latency: nat, size: nat, m: nat, out: Reg)
    returns (s2: Dev, later: (Dev, seq<Option<Reg>>), run: (Dev, seq<Option<Reg>>))
    requires i + 1 < |acts| && OnlyAccesses(acts, i) && m > 0 && size == t.DmiSize()
    requires AddressesFit(acts, i + 1, false, t.Abits()) && Answering(s, base + Accesses(acts, i + 1))
    requires StepOp(t, s, Issue(acts, i + 1, false, latency, size)[0]).1 == Some(out) && StatusOf(out) == DMI_OK
    ensures run == RunOps(t, s, Issue(acts, i + 1, false, latency, size), m)
    ensures run.1 != [] && run.1[0] == Some(out) && later == (run.0, Drop(run.1, 2)) && DataOf(out) == t.result(base + Accesses(acts, i + 1))
    ensures |run.1| == 1 <==> m == 1
    ensures m == 1 ==> run.0.performed == base + Accesses(acts, i + 1)
    ensures m >= 2 ==>
              && Answering(s2, base + Accesses(acts, i + 2))
              && later == RunOps(t, s2, Issue(acts, i + 2, false, latency, size), m - 2)
  {
    var rest, a := Issue(acts, i + 2, false, latency, size), acts[i + 1].access;
    var s1, next, _ := AnswerStep(t, s, base + Accesses(acts, i + 1), a, latency, size, rest,
                                  Issue(acts, i + 1, false, latency, size), m);
    assert base + Accesses(acts, i + 2) == base + Accesses(acts, i + 1) + [a];
    s2, run := next, RunOps(t, s, Issue(acts, i + 1, false, latency, size), m);
    later := (run.0, Drop(run.1, 2));
  }

  /** Access i is answered ok by the scan that carries, and then starts, access i + 1. */
  lemma {:induction false} NextJustified(
      t: Target, s: Dev, base: seq<Access>, acts: seq<Act>, i: nat, latency: nat, size: nat, m: nat, out: Reg,
      values: seq<Option<word>>, state: DTMState)
    requires i + 1 < |acts| == |values| && OnlyAccesses(acts, i) && m > 0 && size == t.DmiSize()
    requires AddressesFit(acts, i + 1, false, t.Abits()) && ReadsHold(t, base, acts, values, i)
    requires Answering(s, base + Accesses(acts, i + 1)) && (state.Operating? || state.Invalid?)
    requires StepOp(t, s, Issue(acts, i + 1, false, latency, size)[0]).1 == Some(out) && StatusOf(out) == DMI_OK
    ensures RunJustified(t, base, acts, i, RunOps(t, s, Issue(acts, i + 1, false, latency, size), m),
                         false, values, state) == true
    decreases |acts| - i, 0
  {
    var s2, later, run := NextStep(t, s, base, acts, i, latency, size, m, out);
    StoredHolds(t, base, acts, i, values, out);
    var values' := Stored(acts, i, values, out);
    if m == 1 {
      CutAfterOk(run.0, t, base, acts, i, values');
    } else {
      AnswersJustified(t, s2, base, acts, i + 1, latency, size, m - 2, values', state);
    }
    OkJustified(t, base, acts, i, out, later, run, values, state);
  }

  /** An ok answer leaves the outcome to the rest of the run. */
  lemma OkJustified(t: Target, base: seq<Access>, acts: seq<Act>, i: nat, out: Reg,
                    later: (Dev, seq<Option<Reg>>), run: (Dev, seq<Option<Reg>>),
                    values: seq<Option<word>>, state: DTMState)
    requires i < |acts| == |values| && acts[i].Dmi? && StatusOf(out) == DMI_OK
    requires run.1 != [] && run.1[0] == Some(out) && later == (run.0, Drop(run.1, 2))
    requires RunJustified(t, base, acts, i + 1, later, false, Stored(acts, i, values, out),
                          if |run.1| == 1 then Invalid else state) == true
    ensures RunJustified(t, base, acts, i, run, false, values, state) == true
  {
    AfterOk(acts, i, out, run.1, later.1, values, state);
  }

  /** An error answer: the accesses after it were not performed. */
  lemma ErrorJustified(e: Dev, t: Target, base: seq<Access>, acts: seq<Act>, i: nat, out: Reg,
                       rest: seq<Option<Reg>>, values: seq<Option<word>>, state: DTMState)
    requires i < |acts| == |values| && acts[i].Dmi? && ReadsHold(t, base, acts, values, i)
    requires rest != [] && rest[0] == Some(out) && StatusOf(out) != DMI_OK
    requires Blocked(e, base + Accesses(acts, i + 1))
    requires (StatusOf(out) == DMI_BUSY <==> !e.progress.Reported?) && (StatusOf(out) == DMI_BUSY ==> Asked(e))
    ensures Justified(e, t, base, acts, Results(acts, i, rest, false, values, state))
  {
    assert Results(acts, i, rest, false, values, state)
        == Verdict(i, values, if StatusOf(out) == DMI_BUSY then MyBusy else MyFailure, Error);
  }

  /** A leading skip leaves an idle target idle. */
  lemma SkipStep(t: Target, s: Dev, history: seq<Access>, acts: seq<Act>, i: nat, latency: nat, size: nat, m: nat)
    returns (s1: Dev)
    requires Idle(s, history) && i < |acts| && acts[i].SkipCycles? && m > 0
    ensures Idle(s1, history)
    ensures var (e, outs) := RunOps(t, s1, Issue(acts, i + 1, false, latency, size), m - 1);
            var run := RunOps(t, s, Issue(acts, i, false, latency, size), m);
            run.0 == e && run.1 != [] && run.1[1..] == outs
  {
    RunStep(t, s, GoToIdle(acts[i].cycles), Issue(acts, i + 1, false, latency, size), m);
    s1 := StepOp(t, s, GoToIdle(acts[i].cycles)).0;
  }

  /** From action i on, nothing of this attempt being under way, the outcome is justified. */
  lemma {:induction false} PassJustified(
      t: Target, s: Dev, base: seq<Access>, acts: seq<Act>, i: nat, latency: nat, size: nat, m: nat,
      values: seq<Option<word>>, state: DTMState)
    requires SkipsLead(acts) && i <= |acts| == |values| && AddressesFit(acts, i, false, t.Abits()) && size == t.DmiSize()
    requires Idle(s, base + Accesses(acts, i)) && ReadsHold(t, base, acts, values, i)
    requires state.Operating? || state.Invalid?
    requires forall j :: 0 <= j < i ==> !acts[j].Dmi?
    ensures RunJustified(t, base, acts, i, RunOps(t, s, Issue(acts, i, false, latency, size), m),
                         true, values, state) == true
    decreases |acts| - i
  {
    var ops := Issue(acts, i, false, latency, size);
    var (e, outs) := RunOps(t, s, ops, m);
    if i == |acts| {
      ClosingFromIdle(t, s, base + Accesses(acts, i), size, m);
      assert Results(acts, i, outs, true, values, state) == Verdict(i, values, Success, state);
    } else if acts[i].SkipCycles? {
      if m == 0 {
        assert Results(acts, i, outs, true, values, state) == Verdict(i, values, MyFailure, Invalid);
      } else {
        var s1 := SkipStep(t, s, base + Accesses(acts, i), acts, i, latency, size, m);
        PassJustified(t, s1, base, acts, i + 1, latency, size, m - 1, values, state);
      }
    } else {
      FirstJustified(t, s, base, acts, i, latency, size, m, values, state);
    }
  }

  /** The closing scan of an attempt without accesses. */
  lemma ClosingFromIdle(t: Target, s: Dev, history: seq<Access>, size: nat, m: nat)
    requires Idle(s, history) && size == t.DmiSize()
    ensures var e := RunOps(t, s, Closing(size), m).0;
            e.performed == history && HeaderReady(e, false) && e.progress.Reported?
  {
    if m > 0 {
      assert Closing(size) == Closing(size) + [];
      RunTwo(t, s, ShiftDR(NO_REQUEST, size), GoToUpdate, [], Closing(size), m);
    }
  }

  /** The first access of a fresh attempt: its own scan and wait come before its answer. */
  lemma FirstJustified(
      t: Target, s: Dev, base: seq<Access>, acts: seq<Act>, i: nat, latency: nat, size: nat, m: nat,
      values: seq<Option<word>>, state: DTMState)
    requires SkipsLead(acts) && i < |acts| == |values| && acts[i].Dmi? && AddressesFit(acts, i, false, t.Abits())
    requires size == t.DmiSize()
    requires Idle(s, base + Accesses(acts, i)) && ReadsHold(t, base, acts, values, i)
    requires state.Operating? || state.Invalid?
    ensures RunJustified(t, base, acts, i, RunOps(t, s, Issue(acts, i, false, latency, size), m),
                         true, values, state) == true
  {
    var a := acts[i].access;
    var rest := Issue(acts, i + 1, false, latency, size);
    var ops := Issue(acts, i, false, latency, size);
    var history := base + Accesses(acts, i);
    if m == 0 {
      CutFirst(t, base, acts, i, RunOps(t, s, ops, m), values, state);
    } else {
      var s1, s2 := FirstStep(t, s, history, a, latency, size, rest, ops, m);
      if m == 1 {
        CutFirst(t, base, acts, i, RunOps(t, s, ops, m), values, state);
      } else {
        assert base + Accesses(acts, i + 1) == history + [a];
        OnlyAccessesFollow(acts, i, i + 1);
        AnswersJustified(t, s2, base, acts, i, latency, size, m - 2, values, state);
        OwnScan(t, base, acts, i, RunOps(t, s, ops, m), RunOps(t, s2, rest, m - 2), values, state);
      }
    }
  }

  lemma CutFirst(t: Target, base: seq<Access>, acts: seq<Act>, i: nat, run: (Dev, seq<Option<Reg>>),
                 values: seq<Option<word>>, state: DTMState)
    requires i < |acts| == |values| && acts[i].Dmi? && |run.1| < 2
    requires run.0.performed == base + Accesses(acts, i) && ReadsHold(t, base, acts, values, i)
    ensures RunJustified(t, base, acts, i, run, true, values, state)
  {
    assert Results(acts, i, run.1, true, values, state) == Verdict(i, values, MyFailure, Invalid);
  }

  lemma OwnScan(t: Target, base: seq<Access>, acts: seq<Act>, i: nat, run: (Dev, seq<Option<Reg>>),
                later: (Dev, seq<Option<Reg>>), values: seq<Option<word>>, state: DTMState)
    requires i < |acts| == |values| && acts[i].Dmi? && later == (run.0, Drop(run.1, 2))
    requires RunJustified(t, base, acts, i, later, false, values, state) == true
    ensures RunJustified(t, base, acts, i, run, true, values, state) == true
  {
    assert Results(acts, i, run.1, true, values, state) == Results(acts, i, later.1, false, values, state);
  }

  lemma FirstStep(t: Target, s: Dev, history: seq<Access>, a: Access, latency: nat, size: nat,
                  rest: seq<ChainOp>, ops: seq<ChainOp>, m: nat)
    returns (s1: Dev, s2: Dev)
    requires Idle(s, history) && a.address < Pow2(t.Abits()) && size == t.DmiSize()
    requires ops == Scan(a, latency, size) + rest && m > 0
    ensures s1.performed == history && Started(s2, history + [a], latency)
    ensures m == 1 ==> RunOps(t, s, ops, m).0 == s1 && |RunOps(t, s, ops, m).1| == 1
    ensures m >= 2 ==>
              var (e, outs) := RunOps(t, s2, rest, m - 2);
              RunOps(t, s, ops, m).0 == e && |RunOps(t, s, ops, m).1| >= 2 && RunOps(t, s, ops, m).1[2..] == outs
  {
    ScanStarts(t, s, history, a, latency, size);
    RunTwo(t, s, ShiftDR(Request(a), size), GoToIdle(latency), rest, ops, m);
    s1 := StepOp(t, s, ops[0]).0;
    s2 := StepOp(t, s1, GoToIdle(latency)).0;
  }

  /** The chain transaction of one attempt. */
  function AttemptOps(tap: nat, error: bool, acts: seq<Act>, i: nat, waiting: bool, latency: nat, size: nat): seq<ChainOp>
    requires i <= |acts|
  {
    Header(tap, error) + Issue(acts, i, waiting, latency, size)
  }

  /**
   * What the target is in when an attempt starts at action i: idle at the transaction's
   * start, or still busy with the first incomplete access.
   */
  predicate AttemptReady(t: Target, s: Dev, error: bool, base: seq<Access>, acts: seq<Act>, i: nat, waiting: bool,
                         values: seq<Option<word>>)
    requires i <= |acts| == |values|
  {
    && SkipsLead(acts) && HeaderReady(s, error) && ReadsHold(t, base, acts, values, i)
    && (if waiting
        then i < |acts| && acts[i].Dmi? && !s.progress.Reported? && Asked(s) && s.performed == base + Accesses(acts, i + 1)
        else i == 0 && s.progress.Reported? && s.performed == base)
  }

  /** However the target behaves and wherever the chain breaks off, the outcome of an attempt is justified. */
  lemma AttemptJustified(t: Target, s: Dev, tap: nat, error: bool, base: seq<Access>, acts: seq<Act>, i: nat,
                         waiting: bool, latency: nat, size: nat, m: nat, values: seq<Option<word>>)
    requires i <= |acts| == |values| && AddressesFit(acts, i, waiting, t.Abits())
    requires AttemptReady(t, s, error, base, acts, i, waiting, values) && tap == t.tap && size == t.DmiSize()
    ensures var (e, outs) := RunOps(t, s, AttemptOps(tap, error, acts, i, waiting, latency, size), m);
            Justified(e, t, base, acts, AttemptResults(tap, error, acts, i, outs, waiting, values)) == true
  {
    var rest := Issue(acts, i, waiting, latency, size);
    var run := RunOps(t, s, Header(tap, error) + rest, m);
    if m < |Header(tap, error)| {
      CutInHeader(t, s, tap, error, rest, m);
      if !waiting {
        assert base + Accesses(acts, 0) == base;
      }
      HeaderCut(run.0, t, tap, error, base, acts, i, run.1, waiting, values);
    } else {
      var ready, later := PastHeader(t, s, tap, error, rest, m);
      ReadyJustified(t, ready, base, acts, i, waiting, latency, size, m - |Header(tap, error)|, values);
      AfterHeader(t, tap, error, base, acts, i, run, later, waiting, values);
    }
  }

  lemma CutInHeader(t: Target, s: Dev, tap: nat, error: bool, rest: seq<ChainOp>, m: nat)
    requires HeaderReady(s, error) && tap == t.tap && m < |Header(tap, error)|
    ensures var (e, outs) := RunOps(t, s, Header(tap, error) + rest, m);
            e.performed == s.performed && |outs| == m
  {
    RunPrefix(t, s, Header(tap, error), rest, m);
    RunLength(t, s, Header(tap, error), m);
    HeaderPerformsNothing(t, s, tap, error, m);
  }

  lemma PastHeader(t: Target, s: Dev, tap: nat, error: bool, rest: seq<ChainOp>, m: nat)
    returns (ready: Dev, later: (Dev, seq<Option<Reg>>))
    requires HeaderReady(s, error) && tap == t.tap && m >= |Header(tap, error)|
    ensures Entered(s, ready)
    ensures later == RunOps(t, ready, rest, m - |Header(tap, error)|)
    ensures var run := RunOps(t, s, Header(tap, error) + rest, m);
            |run.1| >= |Header(tap, error)| && later == (run.0, Drop(run.1, |Header(tap, error)|))
  {
    var h := Header(tap, error);
    RunConcat(t, s, h, rest, m);
    HeaderSteps(t, s, tap, error, |h|);
    RunLength(t, s, h, |h|);
    ready := RunOps(t, s, h, |h|).0;
    later := RunOps(t, ready, rest, m - |h|);
  }

  lemma ReadyJustified(t: Target, s: Dev, base: seq<Access>, acts: seq<Act>, i: nat, waiting: bool,
                       latency: nat, size: nat, m: nat, values: seq<Option<word>>)
    requires i <= |acts| == |values| && AddressesFit(acts, i, waiting, t.Abits())
    requires s.sticky.Clear? && s.latched.None? && s.ir == DMI_IR && s.selected && size == t.DmiSize()
    requires SkipsLead(acts) && ReadsHold(t, base, acts, values, i)
    requires if waiting
             then i < |acts| && acts[i].Dmi? && !s.progress.Reported? && s.performed == base + Accesses(acts, i + 1)
             else i == 0 && s.progress.Reported? && s.performed == base
    ensures RunJustified(t, base, acts, i, RunOps(t, s, Issue(acts, i, waiting, latency, size), m), !waiting,
                         values, Operating) == true
  {
    if waiting {
      OnlyAccessesFollow(acts, i, i + 1);
      AnswersJustified(t, s, base, acts, i, latency, size, m, values, Operating);
    } else {
      assert base + Accesses(acts, 0) == base;
      PassJustified(t, s, base, acts, 0, latency, size, m, values, Operating);
    }
  }

  lemma AfterHeader(t: Target, tap: nat, error: bool, base: seq<Access>, acts: seq<Act>, i: nat,
                    run: (Dev, seq<Option<Reg>>), later: (Dev, seq<Option<Reg>>), waiting: bool,
                    values: seq<Option<word>>)
    requires i <= |acts| == |values| && |run.1| >= |Header(tap, error)|
    requires later == (run.0, Drop(run.1, |Header(tap, error)|))
    requires RunJustified(t, base, acts, i, later, !waiting, values, Operating) == true
    ensures Justified(run.0, t, base, acts, AttemptResults(tap, error, acts, i, run.1, waiting, values)) == true
  {
  }

  /** A chain that breaks off inside the header has performed nothing. */
  lemma HeaderCut(e: Dev, t: Target, tap: nat, error: bool, base: seq<Access>, acts: seq<Act>, i: nat,
                  outs: seq<Option<Reg>>, waiting: bool, values: seq<Option<word>>)
    requires i <= |acts| == |values| && |outs| < |Header(tap, error)|
    requires ReadsHold(t, base, acts, values, i)
    requires if waiting then i < |acts| && e.performed == base + Accesses(acts, i + 1)
             else e.performed == base + Accesses(acts, i)
    ensures Justified(e, t, base, acts, AttemptResults(tap, error, acts, i, outs, waiting, values))
  {
    var v := AttemptResults(tap, error, acts, i, outs, waiting, values);
    assert v.status.Success? ==> i == |acts|;
    assert v == Verdict(i, values, if v.status.Success? then Success else MyFailure, Invalid);
  }

  /** Discovery performs nothing; complete, it leaves nothing under way and no error sticky. */
  lemma DiscoveryEffect(t: Target, s: Dev, tap: nat, m: nat)
    requires Quiet(s) && tap == t.tap
    ensures var (e, outs) := RunOps(t, s, DiscoveryOps(tap), m);
            && e.performed == s.performed && e.spent == s.spent && |outs| == Min(m, 5)
            && (m >= 5 ==>
                  outs[4] == Some(Word(t.dtmcs)) && HeaderReady(e, false) && e.progress.Reported?)
  {
    var ops := DiscoveryOps(tap);
    RunLength(t, s, ops, m);
    if m > 0 {
      RunStep(t, s, ops[0], ops[1..], m);
      var s1 := s.(selected := true);
      assert StepOp(t, s, ops[0]).0 == s1;
      var s2 := s1.(ir := DTMCS_IR, latched := None);
      if m > 1 {
        RunStep(t, s1, ops[1], ops[2..], m - 1);
        assert StepOp(t, s1, ops[1]).0 == s2;
        DiscoveryScans(t, s2, tap, m - 2);
      }
    }
  }

  function DiscoveryOps(tap: nat): seq<ChainOp> {
    [SelectTAP(tap), WriteIR(DTMCS_IR), ShiftDR(Word(DTMHARDRESET + DMIRESET), 32), GoToIdle(0), ShiftDR(Word(0), 32)]
  }

  lemma DiscoveryScans(t: Target, s: Dev, tap: nat, m: nat)
    requires s.ir == DTMCS_IR && s.latched.None? && s.selected
    ensures var (e, outs) := RunOps(t, s, DiscoveryOps(tap)[2..], m);
            && e.performed == s.performed && e.spent == s.spent
            && (m >= 3 ==>
                  |outs| == 3 && outs[2] == Some(Word(t.dtmcs)) && HeaderReady(e, false) && e.progress.Reported?)
  {
    var ops := DiscoveryOps(tap)[2..];
    var reset := Word(DTMHARDRESET + DMIRESET);
    if m > 0 {
      RunStep(t, s, ops[0], ops[1..], m);
      var s3 := s.(latched := Some(reset));
      assert StepOp(t, s, ops[0]).0 == s3;
      if m > 1 {
        RunStep(t, s3, ops[1], ops[2..], m - 1);
        var s4 := s.(sticky := Clear, progress := Reported);
        assert StepOp(t, s3, ops[1]).0 == s4;
        if m > 2 {
          RunStep(t, s4, ops[2], [], m - 2);
          assert ops[2..] == [ops[2]] + [];
        }
      }
    }
  }

  lemma {:induction false} AllReadsHold(t: Target, base: seq<Access>, acts: seq<Act>, values: seq<Option<word>>, n: nat)
    requires |values| == |acts| && n <= |acts| && ReadsHold(t, base, acts, values, n)
    ensures forall j :: 0 <= j < n && acts[j].Dmi? && acts[j].access.Read? ==>
              values[j] == Some(t.result(base + Accesses(acts, j + 1)))
  {
    forall j | 0 <= j < n && acts[j].Dmi? && acts[j].access.Read?
      ensures values[j] == Some(t.result(base + Accesses(acts, j + 1)))
    {
      ReadHolds(t, base, acts, values, n, j);
    }
  }

  /** Each busy answer below the maximum doubles the latency or reaches the maximum. */
  lemma RaiseOnce(c: Cal, raised: nat)
    requires c.Ordered() && c.cur < c.max && Pow2(raised) <= c.cur + 1
    ensures raised < 32 && TooLowOf(c).Ordered() && TooLowOf(c).max == c.max && TooLowOf(c).cur > c.cur
    ensures TooLowOf(c).cur == c.max || Pow2(raised + 1) <= TooLowOf(c).cur + 1
  {
    TooLowExact(c);
    Pow2Of32();
    if raised >= 32 {
      Pow2Monotone(32, raised);
    }
  }

  /** What discovery makes of the calibrator: it will wait at least as long as the target asks for. */
  function Informed(c: Cal, dtmcs: word): (n: Cal)
    ensures IdleOf(dtmcs) <= n.min + 1 && c.min <= n.min
  {
    BumpMinOf(c, if IdleOf(dtmcs) == 0 then 0 else IdleOf(dtmcs) - 1)
  }

  // ---- Progress ----

  ghost predicate Faultless(t: Target) {
    forall h: seq<Access> :: !t.fails(h)
  }

  /** Every access completes within so many cycles in Run-Test/Idle. */
  ghost predicate Within(t: Target, cycles: nat) {
    forall h: seq<Access>, c: nat, k: nat | c >= cycles :: t.finishes(h, c, k)
  }

  /** An access that was answered busy has completed when it is asked for again. */
  ghost predicate Patient(t: Target) {
    forall h: seq<Access>, c: nat, k: nat | k > 0 :: t.finishes(h, c, k)
  }

  /** A target that answers every access at once and without fault. */
  ghost predicate Prompt(t: Target) {
    Within(t, 0) && Faultless(t)
  }

  /** An attempt gives the target the time it needs. */
  ghost predicate TimeEnough(t: Target, latency: nat, waiting: bool) {
    Within(t, latency) && (waiting ==> Patient(t))
  }

  /** A verdict that is a success or, unless the target had the time it needs, a busy answer. */
  ghost predicate Proceeds(t: Target, acts: seq<Act>, v: Verdict, state: DTMState, latency: nat, waiting: bool) {
    || (v.status.Success? && v.done == |acts| && v.state == state)
    || (v.status.MyBusy? && !TimeEnough(t, latency, waiting))
  }

  /** The access under way has been given the latency of this attempt, or it was asked for before. */
  predicate Waited(s: Dev, latency: nat, waiting: bool) {
    s.progress.Completed? || s.idled >= latency || (waiting && s.asked > 0)
  }

  /** A faultless target answers ok or, for lack of time, busy. */
  lemma AnswerIsOkOrBusy(t: Target, s: Dev, history: seq<Access>, v: Reg, latency: nat, size: nat, waiting: bool)
    requires Faultless(t) && Answering(s, history) && size == t.DmiSize() && Waited(s, latency, waiting)
    ensures var out := StepOp(t, s, ShiftDR(v, size)).1;
            && out.Some?
            && (StatusOf(out.value) == DMI_OK || (StatusOf(out.value) == DMI_BUSY && !TimeEnough(t, latency, waiting)))
  {
    assert Update(t, s) == s;
  }

  lemma {:induction false} AnswersProceed(
      t: Target, s: Dev, history: seq<Access>, acts: seq<Act>, i: nat, latency: nat, size: nat, m: nat,
      values: seq<Option<word>>, state: DTMState, waiting: bool)
    requires Faultless(t) && i < |acts| == |values| && OnlyAccesses(acts, i) && size == t.DmiSize()
    requires AddressesFit(acts, i + 1, false, t.Abits()) && Answering(s, history) && Waited(s, latency, waiting)
    requires m >= |Issue(acts, i + 1, false, latency, size)|
    ensures Proceeds(t, acts, Results(acts, i, RunOps(t, s, Issue(acts, i + 1, false, latency, size), m).1, false, values, state),
                     state, latency, waiting)
    decreases |acts| - i
  {
    var ops := Issue(acts, i + 1, false, latency, size);
    var outs := RunOps(t, s, ops, m).1;
    AnswerIsOkOrBusy(t, s, history, ops[0].value, latency, size, waiting);
    if i + 1 == |acts| {
      RunTwo(t, s, ops[0], ops[1], [], ops, m);
    } else {
      var a, rest := acts[i + 1].access, Issue(acts, i + 2, false, latency, size);
      var _, s2, out := AnswerStep(t, s, history, a, latency, size, rest, ops, m);
      if StatusOf(out) == DMI_OK {
        AnswersProceed(t, s2, history + [a], acts, i + 1, latency, size, m - 2, Stored(acts, i, values, out), state, waiting);
        AfterOk(acts, i, out, outs, RunOps(t, s2, rest, m - 2).1, values, state);
      }
    }
  }

  lemma {:induction false} PassProceeds(
      t: Target, s: Dev, history: seq<Access>, acts: seq<Act>, i: nat, latency: nat, size: nat, m: nat,
      values: seq<Option<word>>, state: DTMState)
    requires Faultless(t) && SkipsLead(acts) && i <= |acts| == |values| && size == t.DmiSize()
    requires AddressesFit(acts, i, false, t.Abits()) && Idle(s, history)
    requires m >= |Issue(acts, i, false, latency, size)|
    ensures Proceeds(t, acts, Results(acts, i, RunOps(t, s, Issue(acts, i, false, latency, size), m).1, true, values, state),
                     state, latency, false)
    decreases |acts| - i
  {
    var ops := Issue(acts, i, false, latency, size);
    if i == |acts| {
    } else if acts[i].SkipCycles? {
      var s1 := SkipStep(t, s, history, acts, i, latency, size, m);
      PassProceeds(t, s1, history, acts, i + 1, latency, size, m - 1, values, state);
    } else {
      var a, rest := acts[i].access, Issue(acts, i + 1, false, latency, size);
      var _, s2 := FirstStep(t, s, history, a, latency, size, rest, ops, m);
      OnlyAccessesFollow(acts, i, i + 1);
      AnswersProceed(t, s2, history + [a], acts, i, latency, size, m - 2, values, state, false);
      assert Drop(RunOps(t, s, ops, m).1, 2) == RunOps(t, s2, rest, m - 2).1;
    }
  }

  /**
   * Over a faultless target and an unbroken chain an attempt succeeds if the target completes
   * every access within the latency and, when one is under way already, by the time it is asked
   * for again; otherwise it may be answered busy.
   */
  lemma AttemptProceeds(t: Target, s: Dev, tap: nat, error: bool, base: seq<Access>, acts: seq<Act>, i: nat,
                        waiting: bool, latency: nat, size: nat, m: nat, values: seq<Option<word>>)
    requires Faultless(t) && i <= |acts| == |values| && AddressesFit(acts, i, waiting, t.Abits())
    requires AttemptReady(t, s, error, base, acts, i, waiting, values) && tap == t.tap && size == t.DmiSize()
    requires m >= |AttemptOps(tap, error, acts, i, waiting, latency, size)|
    ensures Proceeds(t, acts, AttemptResults(tap, error, acts, i,
                       RunOps(t, s, AttemptOps(tap, error, acts, i, waiting, latency, size), m).1, waiting, values),
                     Operating, latency, waiting)
  {
    var rest := Issue(acts, i, waiting, latency, size);
    var ready, later := PastHeader(t, s, tap, error, rest, m);
    var n := m - |Header(tap, error)|;
    if waiting {
      OnlyAccessesFollow(acts, i, i + 1);
      AnswersProceed(t, ready, ready.performed, acts, i, latency, size, n, values, Operating, true);
    } else {
      PassProceeds(t, ready, ready.performed, acts, i, latency, size, n, values, Operating);
    }
  }

  // ---- Raising in vain ----

  /** All accesses complete at once but the last of a history, which takes so many cycles in Run-Test/Idle. */
  ghost predicate SlowLast(t: Target, history: seq<Access>, cycles: nat) {
    && (forall h: seq<Access>, c: nat, k: nat | h != history :: t.finishes(h, c, k))
    && (forall c: nat, k: nat :: t.finishes(history, c, k) <==> c >= cycles)
  }

  /** There is such a target, and it completes every access within those cycles. */
  lemma SlowLastExists(t: Target, history: seq<Access>, cycles: nat) returns (slow: Target)
    ensures slow == t.(finishes := slow.finishes) && SlowLast(slow, history, cycles) && Within(slow, cycles)
  {
    slow := t.(finishes := (h: seq<Access>, c: nat, k: nat) => h != history || c >= cycles);
  }

  /** The last access has been performed and has not had enough cycles. */
  predicate Stuck(s: Dev, cycles: nat) {
    s.progress.Running? && s.idled < cycles
  }

  /** An attempt that ends busy at the last action, with the target stuck. */
  predicate Sticks(e: Dev, acts: seq<Act>, v: Verdict, cycles: nat) {
    v.status.MyBusy? && v.done + 1 == |acts| && Stuck(e, cycles)
  }

  lemma AnswerSticks(t: Target, s: Dev, history: seq<Access>, size: nat, m: nat, cycles: nat)
    requires Answering(s, history) && Stuck(s, cycles) && SlowLast(t, history, cycles) && size == t.DmiSize() && m >= 2
    ensures var (e, outs) := RunOps(t, s, Closing(size), m);
            Stuck(e, cycles) && outs != [] && outs[0] == Some(DmiReg(DMI_BUSY, 0, 0))
  {
    assert Update(t, s) == s;
    assert Closing(size) == Closing(size) + [];
    RunTwo(t, s, ShiftDR(NO_REQUEST, size), GoToUpdate, [], Closing(size), m);
  }

  lemma NextOf(history: seq<Access>, full: seq<Access>, a: Access, rest: seq<Access>)
    requires history <= full && full[|history|..] == [a] + rest
    ensures history != full && history + [a] <= full && full[|history| + 1..] == rest
  {
    assert full == history + ([a] + rest);
    assert full == (history + [a]) + rest;
  }

  lemma {:induction false} AnswersStick(
      t: Target, s: Dev, history: seq<Access>, full: seq<Access>, acts: seq<Act>, i: nat, latency: nat, size: nat, m: nat,
      values: seq<Option<word>>, state: DTMState, cycles: nat)
    requires Faultless(t) && i < |acts| == |values| && OnlyAccesses(acts, i) && size == t.DmiSize()
    requires AddressesFit(acts, i + 1, false, t.Abits()) && Answering(s, history)
    requires m >= |Issue(acts, i + 1, false, latency, size)| && SlowLast(t, full, cycles)
    requires history <= full && |full| == |history| + (|acts| - (i + 1)) && full[|history|..] == AccessesFrom(acts, i + 1)
    requires if i + 1 == |acts| then Stuck(s, cycles) else latency < cycles
    ensures var (e, outs) := RunOps(t, s, Issue(acts, i + 1, false, latency, size), m);
            Sticks(e, acts, Results(acts, i, outs, false, values, state), cycles)
    decreases |acts| - i
  {
    var ops := Issue(acts, i + 1, false, latency, size);
    var outs := RunOps(t, s, ops, m).1;
    if i + 1 == |acts| {
      assert history == full;
      AnswerSticks(t, s, history, size, m, cycles);
    } else {
      var a, rest := acts[i + 1].access, Issue(acts, i + 2, false, latency, size);
      NextOf(history, full, a, AccessesFrom(acts, i + 2));
      assert Update(t, s) == s;
      var _, s2, out := AnswerStep(t, s, history, a, latency, size, rest, ops, m);
      AnswersStick(t, s2, history + [a], full, acts, i + 1, latency, size, m - 2, Stored(acts, i, values, out), state, cycles);
      AfterOk(acts, i, out, outs, RunOps(t, s2, rest, m - 2).1, values, state);
    }
  }

  /** The accesses from action i on. */
  function AccessesFrom(acts: seq<Act>, i: nat): seq<Access>
    requires i <= |acts|
    decreases |acts| - i
  {
    if i == |acts| then [] else One(acts[i]) + AccessesFrom(acts, i + 1)
  }

  lemma {:induction false} AccessesSplit(acts: seq<Act>, i: nat)
    requires i <= |acts|
    ensures Accesses(acts, i) + AccessesFrom(acts, i) == Accesses(acts, |acts|)
    decreases |acts| - i
  {
    if i < |acts| {
      AccessesSplit(acts, i + 1);
    }
  }

  lemma {:induction false} OnlyAccessesCount(acts: seq<Act>, i: nat)
    requires i <= |acts| && OnlyAccesses(acts, i)
    ensures |AccessesFrom(acts, i)| == |acts| - i
    decreases |acts| - i
  {
    if i < |acts| {
      OnlyAccessesCount(acts, i + 1);
    }
  }

  lemma {:induction false} PassSticks(
      t: Target, s: Dev, base: seq<Access>, acts: seq<Act>, i: nat, latency: nat, size: nat, m: nat,
      values: seq<Option<word>>, state: DTMState, cycles: nat)
    requires Faultless(t) && SkipsLead(acts) && i < |acts| == |values| && acts[|acts| - 1].Dmi? && size == t.DmiSize()
    requires AddressesFit(acts, i, false, t.Abits()) && Idle(s, base + Accesses(acts, i)) && latency < cycles
    requires m >= |Issue(acts, i, false, latency, size)| && SlowLast(t, base + Accesses(acts, |acts|), cycles)
    ensures var (e, outs) := RunOps(t, s, Issue(acts, i, false, latency, size), m);
            Sticks(e, acts, Results(acts, i, outs, true, values, state), cycles)
    decreases |acts| - i
  {
    if acts[i].SkipCycles? {
      var s1 := SkipStep(t, s, base + Accesses(acts, i), acts, i, latency, size, m);
      PassSticks(t, s1, base, acts, i + 1, latency, size, m - 1, values, state, cycles);
    } else {
      FirstSticks(t, s, base, acts, i, latency, size, m, values, state, cycles);
    }
  }

  lemma FirstSticks(
      t: Target, s: Dev, base: seq<Access>, acts: seq<Act>, i: nat, latency: nat, size: nat, m: nat,
      values: seq<Option<word>>, state: DTMState, cycles: nat)
    requires Faultless(t) && SkipsLead(acts) && i < |acts| == |values| && acts[i].Dmi? && size == t.DmiSize()
    requires AddressesFit(acts, i, false, t.Abits()) && Idle(s, base + Accesses(acts, i)) && latency < cycles
    requires m >= |Issue(acts, i, false, latency, size)| && SlowLast(t, base + Accesses(acts, |acts|), cycles)
    ensures var (e, outs) := RunOps(t, s, Issue(acts, i, false, latency, size), m);
            Sticks(e, acts, Results(acts, i, outs, true, values, state), cycles)
  {
    var ops, rest := Issue(acts, i, false, latency, size), Issue(acts, i + 1, false, latency, size);
    var a, history, full := acts[i].access, base + Accesses(acts, i), base + Accesses(acts, |acts|);
    var _, s2 := FirstStep(t, s, history, a, latency, size, rest, ops, m);
    OnlyAccessesFollow(acts, i, i + 1);
    AccessesSplit(acts, i + 1);
    OnlyAccessesCount(acts, i + 1);
    assert history + [a] == base + Accesses(acts, i + 1);
    assert full == history + [a] + AccessesFrom(acts, i + 1);
    AnswersStick(t, s2, history + [a], full, acts, i, latency, size, m - 2, values, state, cycles);
    assert Drop(RunOps(t, s, ops, m).1, 2) == RunOps(t, s2, rest, m - 2).1;
  }

  /**
   * A retry gives the access under way no time of its own. So once the last access has been
   * answered busy for lack of cycles, every retry is, whatever its latency.
   */
  lemma AttemptSticks(t: Target, s: Dev, tap: nat, error: bool, base: seq<Access>, acts: seq<Act>, i: nat,
                      waiting: bool, latency: nat, size: nat, m: nat, values: seq<Option<word>>, cycles: nat)
    requires Faultless(t) && i <= |acts| == |values| && AddressesFit(acts, i, waiting, t.Abits())
    requires AttemptReady(t, s, error, base, acts, i, waiting, values) && tap == t.tap && size == t.DmiSize()
    requires m >= |AttemptOps(tap, error, acts, i, waiting, latency, size)|
    requires acts != [] && acts[|acts| - 1].Dmi? && SlowLast(t, base + Accesses(acts, |acts|), cycles)
    requires if waiting then i + 1 == |acts| && Stuck(s, cycles) else latency < cycles
    ensures var (e, outs) := RunOps(t, s, AttemptOps(tap, error, acts, i, waiting, latency, size), m);
            Sticks(e, acts, AttemptResults(tap, error, acts, i, outs, waiting, values), cycles)
  {
    var rest := Issue(acts, i, waiting, latency, size);
    var ready, later := PastHeader(t, s, tap, error, rest, m);
    var n := m - |Header(tap, error)|;
    if waiting {
      AnswersStick(t, ready, ready.performed, ready.performed, acts, i, latency, size, n, values, Operating, cycles);
    } else {
      assert base + Accesses(acts, 0) == base;
      PassSticks(t, ready, base, acts, 0, latency, size, n, values, Operating, cycles);
    }
  }

  // ---- Cycles spent ----

  /** The cycles that the first n actions skip. */
  function Skipped(acts: seq<Act>, n: nat): nat
    requires n <= |acts|
  {
    if n == 0 then 0 else Skipped(acts, n - 1) + if acts[n - 1].SkipCycles? then acts[n - 1].cycles else 0
  }

  /** What a transaction waits when nothing goes wrong: its skips, and the latency after each access. */
  function IdleCycles(acts: seq<Act>, latency: nat): nat {
    Skipped(acts, |acts|) + Times(|Accesses(acts, |acts|)|, latency)
  }

  lemma RestsOne(op: ChainOp, rest: seq<ChainOp>, m: nat)
    requires m > 0
    ensures Rests([op] + rest, m) == Rest(op) + Rests(rest, m - 1)
  {
    assert ([op] + rest)[1..] == rest;
  }

  lemma RestsTwo(a: ChainOp, b: ChainOp, rest: seq<ChainOp>, m: nat)
    requires m >= 2
    ensures Rests([a, b] + rest, m) == Rest(a) + Rest(b) + Rests(rest, m - 2)
  {
    assert [a, b] + rest == [a] + ([b] + rest);
    RestsOne(a, [b] + rest, m);
    RestsOne(b, rest, m - 1);
  }

  /** n times the latency. */
  function Times(n: nat, latency: nat): nat {
    if n == 0 then 0 else Times(n - 1, latency) + latency
  }

  /** A fresh attempt that is issued as a whole waits the skips' own cycles and the latency after each access. */
  lemma {:induction false} IssueRests(acts: seq<Act>, i: nat, latency: nat, size: nat, m: nat)
    requires i <= |acts| && m >= |Issue(acts, i, false, latency, size)|
    ensures Rests(Issue(acts, i, false, latency, size), m) + Skipped(acts, i)
         == Skipped(acts, |acts|) + Times(|AccessesFrom(acts, i)|, latency)
    decreases |acts| - i
  {
    if i == |acts| {
      RestsTwo(ShiftDR(NO_REQUEST, size), GoToUpdate, [], m);
      assert Closing(size) == Closing(size) + [];
    } else if acts[i].SkipCycles? {
      RestsOne(GoToIdle(acts[i].cycles), Issue(acts, i + 1, false, latency, size), m);
      IssueRests(acts, i + 1, latency, size, m - 1);
    } else {
      RestsTwo(ShiftDR(Request(acts[i].access), size), GoToIdle(latency), Issue(acts, i + 1, false, latency, size), m);
      IssueRests(acts, i + 1, latency, size, m - 2);
    }
  }

  lemma HeaderRests(tap: nat, error: bool, rest: seq<ChainOp>, m: nat)
    requires m >= |Header(tap, error)|
    ensures Rests(Header(tap, error) + rest, m) == Rests(rest, m - |Header(tap, error)|)
  {
    if error {
      var last := [WriteDR(Word(DMIRESET), 32), WriteIR(DMI_IR)] + rest;
      assert Header(tap, error) + rest == [SelectTAP(tap), WriteIR(DTMCS_IR)] + last;
      RestsTwo(SelectTAP(tap), WriteIR(DTMCS_IR), last, m);
      RestsTwo(WriteDR(Word(DMIRESET), 32), WriteIR(DMI_IR), rest, m - 2);
    } else {
      RestsTwo(SelectTAP(tap), WriteIR(DMI_IR), rest, m);
    }
  }

  /** The cycles that a whole fresh attempt spends in Run-Test/Idle. */
  lemma AttemptRests(t: Target, s: Dev, tap: nat, error: bool, acts: seq<Act>, latency: nat, size: nat, m: nat)
    requires m >= |AttemptOps(tap, error, acts, 0, false, latency, size)|
    ensures RunOps(t, s, AttemptOps(tap, error, acts, 0, false, latency, size), m).0.spent
         == s.spent + IdleCycles(acts, latency)
  {
    RestsSpent(t, s, AttemptOps(tap, error, acts, 0, false, latency, size), m);
    HeaderRests(tap, error, Issue(acts, 0, false, latency, size), m);
    IssueRests(acts, 0, latency, size, m - |Header(tap, error)|);
    AccessesSplit(acts, 0);
    assert [] + AccessesFrom(acts, 0) == AccessesFrom(acts, 0);
  }

  lemma {:induction false} NoMoreSkips(acts: seq<Act>, i: nat, n: nat)
    requires i <= n <= |acts| && OnlyAccesses(acts, i)
    ensures Skipped(acts, n) == Skipped(acts, i)
    decreases |acts| - i
  {
    if i < n {
      NoMoreSkips(acts, i + 1, n);
    }
  }

  lemma RestsSkip(acts: seq<Act>, i: nat, waiting: bool, latency: nat, size: nat, m: nat)
    requires i < |acts| && acts[i].SkipCycles? && m > 0
    ensures Rests(Issue(acts, i, waiting, latency, size), m)
         == acts[i].cycles + Rests(Issue(acts, i + 1, waiting, latency, size), m - 1)
  {
    RestsOne(GoToIdle(acts[i].cycles), Issue(acts, i + 1, waiting, latency, size), m);
  }

  lemma ResultsSkip(acts: seq<Act>, i: nat, outs: seq<Option<Reg>>, ownScan: bool, values: seq<Option<word>>, state: DTMState)
    requires i < |acts| == |values| && acts[i].SkipCycles? && outs != []
    ensures Results(acts, i, outs, ownScan, values, state) == Results(acts, i + 1, outs[1..], ownScan, values, state)
  {
  }

  /** However far an attempt gets, it has spent the cycles of every skip it reports done. */
  lemma {:induction false} ResultsSpend(acts: seq<Act>, i: nat, outs: seq<Option<Reg>>, waiting: bool, ownScan: bool,
                                        latency: nat, size: nat, m: nat, values: seq<Option<word>>, state: DTMState, done: nat)
    requires SkipsLead(acts) == true && i <= |acts| == |values| && |outs| <= m
    requires done == Results(acts, i, outs, ownScan, values, state).done <= |acts|
    ensures Skipped(acts, done) <= Skipped(acts, i) + Rests(Issue(acts, i, waiting, latency, size), m)
    decreases |acts| - i
  {
    if i < |acts| && acts[i].Dmi? {
      SkipsOver(acts, i, done);
    } else if i < |acts| && outs != [] {
      RestsSkip(acts, i, waiting, latency, size, m);
      ResultsSkip(acts, i, outs, ownScan, values, state);
      ResultsSpend(acts, i + 1, outs[1..], waiting, ownScan, latency, size, m - 1, values, state, done);
    }
  }

  lemma SkipsOver(acts: seq<Act>, i: nat, n: nat)
    requires SkipsLead(acts) && i < |acts| && acts[i].Dmi? && i <= n <= |acts|
    ensures Skipped(acts, n) == Skipped(acts, i)
  {
    OnlyAccessesFollow(acts, i, i + 1);
    NoMoreSkips(acts, i, n);
  }

  lemma AttemptSpends(t: Target, s: Dev, tap: nat, error: bool, acts: seq<Act>, i: nat, waiting: bool,
                      latency: nat, size: nat, m: nat, values: seq<Option<word>>)
    requires SkipsLead(acts) && i <= |acts| == |values|
    ensures var (e, outs) := RunOps(t, s, AttemptOps(tap, error, acts, i, waiting, latency, size), m);
            Skipped(acts, AttemptResults(tap, error, acts, i, outs, waiting, values).done) + s.spent <= Skipped(acts, i) + e.spent
  {
    var ops, issue := AttemptOps(tap, error, acts, i, waiting, latency, size), Issue(acts, i, waiting, latency, size);
    var outs, n := RunOps(t, s, ops, m).1, |Header(tap, error)|;
    RestsSpent(t, s, ops, m);
    RunLength(t, s, ops, m);
    var state := if |outs| < n then Invalid else Operating;
    if m >= n {
      HeaderRests(tap, error, issue, m);
      ResultsSpend(acts, i, Drop(outs, n), waiting, !waiting, latency, size, m - n, values, state,
                   Results(acts, i, Drop(outs, n), !waiting, values, state).done);
    } else {
      ResultsSpend(acts, i, [], waiting, !waiting, latency, size, 0, values, state,
                   Results(acts, i, [], !waiting, values, state).done);
    }
  }

  // ---- Both at once ----

  /** No attempt is longer than this. */
  function LongestAttempt(acts: seq<Act>): nat { 2 * |acts| + 6 }

  lemma {:induction false} IssueLength(acts: seq<Act>, i: nat, waiting: bool, latency: nat, size: nat)
    requires i <= |acts|
    ensures |Issue(acts, i, waiting, latency, size)| <= 2 * (|acts| - i) + 2
    decreases |acts| - i
  {
    if i < |acts| {
      IssueLength(acts, i + 1, waiting && acts[i].SkipCycles?, latency, size);
    }
  }

  /** What an attempt starts from, and how far its chain actions get. */
  datatype Trial = Trial(t: Target, s: Dev, tap: nat, error: bool, acts: seq<Act>, i: nat, waiting: bool,
                         latency: nat, size: nat, m: nat, values: seq<Option<word>>)
  {
    predicate Valid() {
      && i <= |acts| == |values| && AddressesFit(acts, i, waiting, t.Abits())
      && tap == t.tap && size == t.DmiSize()
    }

    function Run(): (Dev, seq<Option<Reg>>)
      requires Valid()
    {
      RunOps(t, s, AttemptOps(tap, error, acts, i, waiting, latency, size), m)
    }

    function Outcome(): (v: Verdict)
      requires Valid()
      ensures i <= v.done <= |acts| == |v.values|
    {
      AttemptResults(tap, error, acts, i, Run().1, waiting, values)
    }
  }

  /** Nothing but delay stands in the way of an attempt. */
  ghost predicate Unhindered(x: Trial) {
    Faultless(x.t) && x.m >= LongestAttempt(x.acts)
  }

  predicate EndsInAccess(acts: seq<Act>) {
    acts != [] && acts[|acts| - 1].Dmi?
  }

  /** The last access will not get the cycles it needs: it has been issued with too few, or is about to be. */
  ghost predicate TooFew(x: Trial, base: seq<Access>, cycles: nat) {
    && EndsInAccess(x.acts) && SlowLast(x.t, base + Accesses(x.acts, |x.acts|), cycles)
    && if x.waiting then x.i + 1 == |x.acts| && Stuck(x.s, cycles) else x.latency < cycles
  }

  /** The outcome is justified and, where nothing but delay stands in the way, exact about time. */
  lemma AttemptOutcome(x: Trial, base: seq<Access>, cycles: nat)
    requires x.Valid() && AttemptReady(x.t, x.s, x.error, base, x.acts, x.i, x.waiting, x.values)
    ensures Justified(x.Run().0, x.t, base, x.acts, x.Outcome()) == true
    ensures Skipped(x.acts, x.Outcome().done) + x.s.spent <= Skipped(x.acts, x.i) + x.Run().0.spent
    ensures Unhindered(x) ==> Proceeds(x.t, x.acts, x.Outcome(), Operating, x.latency, x.waiting) == true
    ensures Unhindered(x) && !x.waiting ==>
              x.Run().0.spent == x.s.spent + IdleCycles(x.acts, x.latency)
    ensures Unhindered(x) && TooFew(x, base, cycles) ==> Sticks(x.Run().0, x.acts, x.Outcome(), cycles)
  {
    AttemptJustified(x.t, x.s, x.tap, x.error, base, x.acts, x.i, x.waiting, x.latency, x.size, x.m, x.values);
    AttemptSpends(x.t, x.s, x.tap, x.error, x.acts, x.i, x.waiting, x.latency, x.size, x.m, x.values);
    if Unhindered(x) {
      UnhinderedOutcome(x, base, cycles);
    }
  }

  lemma UnhinderedOutcome(x: Trial, base: seq<Access>, cycles: nat)
    requires x.Valid() && AttemptReady(x.t, x.s, x.error, base, x.acts, x.i, x.waiting, x.values) == true && Unhindered(x)
    ensures Proceeds(x.t, x.acts, x.Outcome(), Operating, x.latency, x.waiting) == true
    ensures !x.waiting ==>
              x.Run().0.spent == x.s.spent + IdleCycles(x.acts, x.latency)
    ensures TooFew(x, base, cycles) ==> Sticks(x.Run().0, x.acts, x.Outcome(), cycles)
  {
    IssueLength(x.acts, x.i, x.waiting, x.latency, x.size);
    AttemptProceeds(x.t, x.s, x.tap, x.error, base, x.acts, x.i, x.waiting, x.latency, x.size, x.m, x.values);
    if !x.waiting {
      AttemptRests(x.t, x.s, x.tap, x.error, x.acts, x.latency, x.size, x.m);
    }
    if TooFew(x, base, cycles) {
      AttemptSticks(x.t, x.s, x.tap, x.error, base, x.acts, x.i, x.waiting, x.latency, x.size, x.m, x.values, cycles);
    }
  }

  /** No JTAG transaction breaks off within n actions. */
  ghost predicate Unbroken(t: Target, n: nat) {
    forall k: nat :: t.completes(k) >= n
  }

  // ---- Skips after an access ----

  lemma {:induction false} AnswersCrash(
      t: Target, s: Dev, history: seq<Access>, acts: seq<Act>, i: nat, latency: nat, size: nat, m: nat,
      values: seq<Option<word>>, state: DTMState)
    requires Prompt(t) && i < |acts| == |values| && acts[i].Dmi? && !OnlyAccesses(acts, i + 1) && size == t.DmiSize()
    requires AddressesFit(acts, i + 1, false, t.Abits()) && Answering(s, history)
    requires m >= |Issue(acts, i + 1, false, latency, size)|
    ensures Results(acts, i, RunOps(t, s, Issue(acts, i + 1, false, latency, size), m).1, false, values, state).status.Crash?
    decreases |acts| - i
  {
    var ops := Issue(acts, i + 1, false, latency, size);
    var rest := Issue(acts, i + 2, false, latency, size);
    if acts[i + 1].SkipCycles? {
      RunStep(t, s, GoToIdle(acts[i + 1].cycles), rest, m);
    } else {
      var a := acts[i + 1].access;
      var _, s2, out := AnswerStep(t, s, history, a, latency, size, rest, ops, m);
      AnswersCrash(t, s2, history + [a], acts, i + 1, latency, size, m - 2, Stored(acts, i, values, out), state);
      AfterOk(acts, i, out, RunOps(t, s, ops, m).1, RunOps(t, s2, rest, m - 2).1, values, state);
    }
  }

  lemma {:induction false} PassCrashes(
      t: Target, s: Dev, history: seq<Access>, acts: seq<Act>, i: nat, latency: nat, size: nat, m: nat,
      values: seq<Option<word>>, state: DTMState)
    requires Prompt(t) && i <= |acts| == |values| && !SkipsLead(acts) && size == t.DmiSize()
    requires forall j :: 0 <= j < i ==> !acts[j].Dmi?
    requires AddressesFit(acts, i, false, t.Abits()) && Idle(s, history)
    requires m >= |Issue(acts, i, false, latency, size)|
    ensures Results(acts, i, RunOps(t, s, Issue(acts, i, false, latency, size), m).1, true, values, state).status.Crash?
    decreases |acts| - i
  {
    var ops := Issue(acts, i, false, latency, size);
    var rest := Issue(acts, i + 1, false, latency, size);
    if acts[i].SkipCycles? {
      var s1 := SkipStep(t, s, history, acts, i, latency, size, m);
      PassCrashes(t, s1, history, acts, i + 1, latency, size, m - 1, values, state);
    } else {
      if OnlyAccesses(acts, i + 1) {
        OnlyAccessesLead(acts, i);
      }
      var a := acts[i].access;
      var _, s2 := FirstStep(t, s, history, a, latency, size, rest, ops, m);
      AnswersCrash(t, s2, history + [a], acts, i, latency, size, m - 2, values, state);
      assert Drop(RunOps(t, s, ops, m).1, 2) == RunOps(t, s2, rest, m - 2).1;
    }
  }

  lemma OnlyAccessesLead(acts: seq<Act>, i: nat)
    requires i < |acts| && OnlyAccesses(acts, i + 1)
    requires forall j :: 0 <= j < i ==> !acts[j].Dmi?
    ensures SkipsLead(acts)
  {
    forall k, j | 0 <= k < j < |acts| && acts[k].Dmi?
      ensures acts[j].Dmi?
    {
      OnlyAccessesAt(acts, i + 1, j);
    }
  }

  lemma {:induction false} OnlyAccessesAt(acts: seq<Act>, i: nat, j: nat)
    requires i <= j < |acts| && OnlyAccesses(acts, i)
    ensures acts[j].Dmi?
    decreases j - i
  {
    if i < j {
      OnlyAccessesAt(acts, i + 1, j);
    }
  }

  /**
   * Over a prompt target and an unbroken chain, an attempt dereferences the missing
   * output of a state change exactly when some skip follows an access.
   */
  lemma CrashesIffSkipFollows(t: Target, s: Dev, tap: nat, acts: seq<Act>, latency: nat, size: nat, m: nat,
                              values: seq<Option<word>>)
    requires Prompt(t) && |acts| == |values| && AddressesFit(acts, 0, false, t.Abits())
    requires HeaderReady(s, false) && s.progress.Reported? && tap == t.tap && size == t.DmiSize()
    requires m >= |AttemptOps(tap, false, acts, 0, false, latency, size)|
    ensures AttemptResults(tap, false, acts, 0,
                           RunOps(t, s, AttemptOps(tap, false, acts, 0, false, latency, size), m).1,
                           false, values).status.Crash?
       <==> !SkipsLead(acts)
  {
    var run := RunOps(t, s, AttemptOps(tap, false, acts, 0, false, latency, size), m);
    if SkipsLead(acts) {
      AttemptJustified(t, s, tap, false, s.performed, acts, 0, false, latency, size, m, values);
    } else {
      var ready, later := PastHeader(t, s, tap, false, Issue(acts, 0, false, latency, size), m);
      PassCrashes(t, ready, s.performed, acts, 0, latency, size, m - 2, values, Operating);
    }
  }
}

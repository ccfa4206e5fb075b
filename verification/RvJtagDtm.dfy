/**
 * The RISC-V DMI driver over JTAG, as its only client sees it. A busy answer makes the
 * driver raise its latency and try again from the first incomplete access, which is
 * already under way and must not be issued twice.
 */
module RvJtagDtm {
  import opened Common
  import opened Num
  import opened Latency
  import opened DmiTarget
  import opened DmiPipeline

  datatype Cause =
    | Terminated
    | NestedError
    | InvalidVersion
    | FailedToClearErrorFlag
    | ValueOutOfRange
    | MaxLatencyReached
    | TargetError

  /** A transaction in progress: actions below done are complete. */
  class Transaction {
    const acts: seq<Act>
    var done: nat
    var outs: seq<Option<word>>
    var error: Option<Cause>

    ghost predicate Valid()
      reads this
    {
      done <= |acts| && |outs| == |acts|
    }

    constructor (acts: seq<Act>)
      ensures Valid() && this.acts == acts && done == 0 && error.None?
    {
      this.acts := acts;
      done := 0;
      outs := seq(|acts|, _ => None);
      error := None;
    }

    /** Records a failure unless every action is already complete. */
    method Fail(cause: Cause)
      requires Valid()
      modifies this`error
      ensures error == if done < |acts| then Some(cause) else old(error)
    {
      if done != |acts| {
        error := Some(cause);
      }
    }
  }

  class RVJtagDTM {
    const tap: nat
    const latency: LatencyCalibrator
    var dtmState: DTMState
    var numErrors: nat
    var dmiSize: nat

    // the other side: the target, and how many JTAG transactions it has been sent
    const target: Target
    var dev: Dev
    var sent: nat

    constructor (tap: nat, target: Target, dev: Dev, minLatency: nat, maxLatency: nat)
      requires minLatency < WORD && maxLatency < WORD && Quiet(dev) && target.tap == tap
      ensures Inv() && dtmState.Initial? && this.dev == dev && this.target == target
      ensures fresh(latency)
    {
      this.tap := tap;
      this.target := target;
      this.dev := dev;
      latency := new LatencyCalibrator(minLatency, maxLatency);
      dtmState := Initial;
      numErrors := 0;
      dmiSize := 0;
      sent := 0;
    }

    /** What holds between transactions. */
    ghost predicate Inv()
      reads this, latency
    {
      && latency.View().Ordered() && target.tap == tap
      && (dtmState.Initial? ==> Quiet(dev))
      && (dtmState.Operating? || dtmState.Error? ==>
            Discovered() && HeaderReady(dev, dtmState.Error?) && dev.progress.Reported?)
    }

    /** The length of dmi is known, and no latency below what the target asks for will be used. */
    ghost predicate Discovered()
      reads this, latency
    {
      && target.tap == tap && target.Abits() <= 30 && dmiSize == 34 + target.Abits()
      && IdleOf(target.dtmcs) <= latency.View().min + 1
    }

    /** Schedules a chain transaction: some prefix of it completes. */
    method Schedule(ops: seq<ChainOp>) returns (outs: seq<Option<Reg>>, ghost m: nat)
      modifies this`dev, this`sent
      ensures (dev, outs) == RunOps(target, old(dev), ops, m) && m == target.completes(old(sent))
    {
      var n := target.completes(sent);
      sent := sent + 1;
      m := n;
      var (d, o) := RunOps(target, dev, ops, n);
      dev, outs := d, o;
    }

    /** The issue pass, up to the first address that does not fit. */
    method IssuePass(tx: Transaction, waiting: bool) returns (fits: bool, ops: seq<ChainOp>)
      requires tx.Valid() && Discovered()
      ensures fits <==> AddressesFit(tx.acts, tx.done, waiting, target.Abits())
      ensures fits ==>
                ops + Closing(dmiSize) == Issue(tx.acts, tx.done, waiting, latency.View().cur, dmiSize)
    {
      ops := [];
      var abits := dmiSize - 34;
      var maxAddress := Pow2(abits) - 1;
      var firstIncomplete := true;
      var lat := latency.Get();
      var i := tx.done;
      while i < |tx.acts|
        invariant tx.done <= i <= |tx.acts|
        invariant ops + Issue(tx.acts, i, waiting && firstIncomplete, lat, dmiSize)
               == Issue(tx.acts, tx.done, waiting, lat, dmiSize)
        invariant AddressesFit(tx.acts, tx.done, waiting, abits)
             <==> AddressesFit(tx.acts, i, waiting && firstIncomplete, abits)
      {
        ghost var before := ops;
        ghost var rest := Issue(tx.acts, i + 1, waiting && firstIncomplete && tx.acts[i].SkipCycles?, lat, dmiSize);
        match tx.acts[i] {
          case SkipCycles(n) =>
            ops := ops + [GoToIdle(n)];
            OpsAssoc(before, [GoToIdle(n)], rest);
          case Dmi(a) =>
            if firstIncomplete && waiting {
              firstIncomplete := false;
            } else {
              if a.address > maxAddress {
                return false, ops;
              }
              ops := ops + [ShiftDR(Request(a), dmiSize), GoToIdle(lat)];
              OpsAssoc(before, Scan(a, lat, dmiSize), rest);
            }
        }
        i := i + 1;
      }
      fits := true;
    }

    /** Steps the iterator over the completed chain actions, or fails the transaction at their end. */
    method CheckFailInc(tx: Transaction, jit: nat, jend: nat) returns (failed: bool, next: nat)
      requires tx.Valid() && jit <= jend
      modifies this`dtmState, tx`error
      ensures failed <==> jit == jend
      ensures next == if failed then jit else jit + 1
      ensures dtmState == if failed then Invalid else old(dtmState)
      ensures failed && tx.done < |tx.acts| ==> tx.error.Some?
    {
      if jit == jend {
        dtmState := Invalid;
        tx.Fail(NestedError);
        return true, jit;
      }
      return false, jit + 1;
    }

    method ResultHeader(tx: Transaction, jend: nat, errorBefore: bool) returns (failed: bool, jit: nat)
      requires tx.Valid() && dtmState.Operating?
      modifies this`dtmState, tx`error
      ensures jit == Min(|Header(tap, errorBefore)|, jend)
      ensures dtmState == if jend < |Header(tap, errorBefore)| then Invalid else Operating
      ensures failed <==> errorBefore && jend < 3
      ensures failed && tx.done < |tx.acts| ==> tx.error.Some?
    {
      failed, jit := CheckFailInc(tx, 0, jend);
      if errorBefore {
        failed, jit := CheckFailInc(tx, jit, jend);
        if failed {
          return;
        }
        failed, jit := CheckFailInc(tx, jit, jend);
        if failed {
          return;
        }
      }
      failed, jit := CheckFailInc(tx, jit, jend);
      failed := false;
    }

    /** Reads one answer: moves past an ok one, classifies any other. */
    method ResultAnswer(tx: Transaction, outs: seq<Option<Reg>>, at: nat, errorsBefore: nat)
      returns (stop: bool, status: AttemptStatus, jit: nat)
      requires tx.Valid() && at < |outs| && numErrors == errorsBefore
      requires tx.done < |tx.acts| && tx.acts[tx.done].Dmi?
      modifies this`dtmState, this`numErrors, tx`done, tx`outs, tx`error
      ensures tx.Valid() && jit <= |outs|
      ensures stop ==>
                Verdict(tx.done, tx.outs, status, dtmState)
                == old(Results(tx.acts, tx.done, outs[at..], false, tx.outs, dtmState))
      ensures !stop ==>
                && tx.done == old(tx.done) + 1 && numErrors == errorsBefore
                && Results(tx.acts, tx.done, outs[jit..], false, tx.outs, dtmState)
                   == old(Results(tx.acts, tx.done, outs[at..], false, tx.outs, dtmState))
      ensures stop ==> tx.done < |tx.acts| && (status.Crash? || status.MyBusy? || tx.error.Some?)
    {
      if outs[at].None? {
        return true, Crash, at;
      }
      var dmi := outs[at].value;
      var _, next := CheckFailInc(tx, at + 1, |outs|);
      jit := next;
      assert Drop(outs[at..], 2) == outs[jit..];

      if StatusOf(dmi) == DMI_OK {
        if tx.acts[tx.done].access.Read? {
          tx.outs := tx.outs[tx.done := Some(DataOf(dmi))];
        }
        tx.done := tx.done + 1;
        return false, Success, jit;
      }

      var myError := errorsBefore == numErrors;
      if myError {
        numErrors := numErrors + 1;
        dtmState := Error;
      }
      if StatusOf(dmi) == DMI_BUSY {
        return true, if myError then MyBusy else PrevBusy, jit;
      }
      tx.Fail(TargetError);
      return true, if myError then MyFailure else PrevFailure, jit;
    }

    /** The first access of a fresh attempt: steps over its own scan and wait. */
    method ResultFirst(tx: Transaction, outs: seq<Option<Reg>>, at: nat) returns (failed: bool, jit: nat)
      requires tx.Valid() && at <= |outs| && tx.done < |tx.acts| && tx.acts[tx.done].Dmi?
      modifies this`dtmState, tx`error
      ensures jit <= |outs| && (failed ==> dtmState.Invalid?) && (!failed ==> dtmState == old(dtmState))
      ensures failed ==> tx.error.Some?
      ensures var v := old(Results(tx.acts, tx.done, outs[at..], true, tx.outs, dtmState));
              v == if failed then Verdict(tx.done, tx.outs, MyFailure, Invalid)
                   else Results(tx.acts, tx.done, outs[jit..], false, tx.outs, dtmState)
    {
      failed, jit := CheckFailInc(tx, at, |outs|);
      if failed {
        return;
      }
      failed, jit := CheckFailInc(tx, jit, |outs|);
      if failed {
        return;
      }
      assert Drop(outs[at..], 2) == outs[jit..];
    }

    /** The result pass over one action. */
    method ResultStep(tx: Transaction, outs: seq<Option<Reg>>, at: nat, ownScan0: bool, errorsBefore: nat)
      returns (stop: bool, status: AttemptStatus, jit: nat, ownScan: bool)
      requires tx.Valid() && at <= |outs| && numErrors == errorsBefore && tx.done < |tx.acts|
      modifies this`dtmState, this`numErrors, tx`done, tx`outs, tx`error
      ensures tx.Valid() && jit <= |outs|
      ensures stop ==>
                Verdict(tx.done, tx.outs, status, dtmState)
                == old(Results(tx.acts, tx.done, outs[at..], ownScan0, tx.outs, dtmState))
      ensures !stop ==>
                && tx.done == old(tx.done) + 1 && numErrors == errorsBefore
                && Results(tx.acts, tx.done, outs[jit..], ownScan, tx.outs, dtmState)
                   == old(Results(tx.acts, tx.done, outs[at..], ownScan0, tx.outs, dtmState))
      ensures stop ==> tx.done < |tx.acts| && (status.Crash? || status.MyBusy? || tx.error.Some?)
    {
      stop, status, jit, ownScan := true, MyFailure, at, ownScan0;
      var failed;
      if tx.acts[tx.done].SkipCycles? {
        failed, jit := CheckFailInc(tx, jit, |outs|);
        if !failed {
          assert outs[at..][1..] == outs[jit..];
          tx.done := tx.done + 1;
          stop := false;
        }
        return;
      }

      if ownScan {
        failed, jit := ResultFirst(tx, outs, jit);
        if failed {
          return;
        }
        ownScan := false;
      }

      if jit == |outs| {
        dtmState := Invalid;
        tx.Fail(NestedError);
        return;
      }
      stop, status, jit := ResultAnswer(tx, outs, jit, errorsBefore);
    }

    /** The result pass over the completed chain actions, for the only client of the driver. */
    method ResultPass(tx: Transaction, outs: seq<Option<Reg>>, errorBefore: bool, errorsBefore: nat, waiting: bool)
      returns (status: AttemptStatus)
      requires tx.Valid() && dtmState.Operating? && numErrors == errorsBefore
      modifies this`dtmState, this`numErrors, tx`done, tx`outs, tx`error
      ensures tx.Valid()
      ensures Verdict(tx.done, tx.outs, status, dtmState)
           == old(AttemptResults(tap, errorBefore, tx.acts, tx.done, outs, waiting, tx.outs))
      ensures tx.done < |tx.acts| ==> status.Crash? || status.MyBusy? || tx.error.Some?
    {
      ghost var v := AttemptResults(tap, errorBefore, tx.acts, tx.done, outs, waiting, tx.outs);
      var failed;
      var jit: nat;
      failed, jit := ResultHeader(tx, |outs|, errorBefore);
      if failed {
        return MyFailure;
      }

      var ownScan := !waiting;
      while tx.done < |tx.acts|
        invariant tx.Valid() && jit <= |outs| && numErrors == errorsBefore
        invariant v == Results(tx.acts, tx.done, outs[jit..], ownScan, tx.outs, dtmState)
        decreases |tx.acts| - tx.done
      {
        var stop, answer;
        stop, answer, jit, ownScan := ResultStep(tx, outs, jit, ownScan, errorsBefore);
        if stop {
          return answer;
        }
      }
      return Success;
    }

    /** A target without faults and a chain that does not break off: nothing stands in the way but delay. */
    ghost predicate Favourable(tx: Transaction)
      reads this, tx
    {
      SkipsLead(tx.acts) && Faultless(target) && Unbroken(target, LongestAttempt(tx.acts))
    }

    /** The attempt about to be made. */
    ghost function TrialOf(tx: Transaction, waiting: bool, m: nat): Trial
      reads this, tx, latency
    {
      Trial(target, dev, tap, dtmState.Error?, tx.acts, tx.done, waiting, latency.View().cur, dmiSize, m, tx.outs)
    }

    /** One attempt at the incomplete actions, by the only client of the driver. */
    method Attempt(tx: Transaction, prev: AttemptStatus, ghost base: seq<Access>, ghost cycles: nat)
      returns (status: AttemptStatus)
      requires tx.Valid() && Discovered() && (dtmState.Operating? || dtmState.Error?)
      requires SkipsLead(tx.acts) ==>
                 AttemptReady(target, dev, dtmState.Error?, base, tx.acts, tx.done, prev.MyBusy?, tx.outs)
      modifies this`dtmState, this`numErrors, this`dev, this`sent, tx`done, tx`outs, tx`error
      ensures tx.Valid() && tx.done >= old(tx.done) && !status.PrevBusy? && !status.PrevFailure?
      ensures status.MyBusy? ==> dtmState.Error? && AddressesFit(tx.acts, old(tx.done), prev.MyBusy?, target.Abits())
      ensures !AddressesFit(tx.acts, old(tx.done), prev.MyBusy?, target.Abits()) ==>
                && status.MyFailure? && dtmState == old(dtmState) && dev == old(dev)
                && tx.done == old(tx.done) && tx.outs == old(tx.outs)
      ensures tx.done < |tx.acts| ==> status.Crash? || status.MyBusy? || tx.error.Some?
      ensures AddressesFit(tx.acts, old(tx.done), prev.MyBusy?, target.Abits()) && SkipsLead(tx.acts) ==>
                Justified(dev, target, base, tx.acts, Verdict(tx.done, tx.outs, status, dtmState)) == true
      ensures AddressesFit(tx.acts, old(tx.done), prev.MyBusy?, target.Abits()) && SkipsLead(tx.acts) ==>
                Skipped(tx.acts, tx.done) + old(dev.spent) <= Skipped(tx.acts, old(tx.done)) + dev.spent
      // Where nothing but delay stands in the way.
      ensures Favourable(tx) && AddressesFit(tx.acts, old(tx.done), prev.MyBusy?, target.Abits()) ==>
                && ((status.Success? && tx.done == |tx.acts|)
                    || (status.MyBusy? && !TimeEnough(target, latency.View().cur, prev.MyBusy?)))
                && (!prev.MyBusy? ==> dev.spent == old(dev.spent) + IdleCycles(tx.acts, latency.View().cur))
                && (old(TooFew(TrialOf(tx, prev.MyBusy?, 0), base, cycles)) ==>
                      status.MyBusy? && tx.done + 1 == |tx.acts| && Stuck(dev, cycles))
    {
      var stateBefore, errorsBefore := dtmState, numErrors;
      var errorBefore := stateBefore.Error?;
      var waiting := prev.MyBusy?;
      var ops := [SelectTAP(tap)];
      if errorBefore {
        ops := ops + [WriteIR(DTMCS_IR), WriteDR(Word(DMIRESET), 32)];
      }
      ops := ops + [WriteIR(DMI_IR)];
      assert ops == Header(tap, errorBefore);

      var fits, issued := IssuePass(tx, waiting);
      if !fits {
        tx.error := Some(ValueOutOfRange);
        return MyFailure;
      }
      ghost var lat := latency.View().cur;
      ghost var header := ops;
      ops := ops + issued + [ShiftDR(NO_REQUEST, dmiSize), GoToUpdate];
      assert ops == header + (issued + Closing(dmiSize));

      dtmState := Operating;
      var outs, m := Schedule(ops);
      if SkipsLead(tx.acts) {
        ghost var trial := old(TrialOf(tx, prev.MyBusy?, 0)).(m := m);
        AttemptOutcome(trial, base, cycles);
      }
      status := ResultPass(tx, outs, errorBefore, errorsBefore, waiting);
    }

    /** Resets the target's debug transport and reads its parameters. */
    method Discover(tx: Transaction) returns (discovered: bool)
      requires tx.Valid() && Quiet(dev) && latency.View().Ordered() && target.tap == tap
      modifies this`dmiSize, this`dev, this`sent, tx`error, latency
      ensures dev.performed == old(dev.performed) && latency.View().Ordered() && latency.reports == old(latency.reports)
      ensures dev.spent == old(dev.spent)
      ensures discovered ==> latency.View() == Informed(old(latency.View()), target.dtmcs)
      ensures discovered ==> Discovered() && HeaderReady(dev, false) && dev.progress.Reported?
      ensures !discovered && tx.done < |tx.acts| ==> tx.error.Some?
      ensures Supported(target.dtmcs) && Unbroken(target, 5) ==> discovered
    {
      var outs, m := Schedule(DiscoveryOps(tap));
      DiscoveryEffect(target, old(dev), tap, m);
      if |outs| < |DiscoveryOps(tap)| {
        tx.Fail(NestedError);
        return false;
      }
      var dtmcs := outs[4].value.bits;
      if VersionOf(dtmcs) == 0 {
        tx.Fail(InvalidVersion);
        return false;
      }
      if ErrinfoOf(dtmcs) != 0 {
        tx.Fail(FailedToClearErrorFlag);
        return false;
      }
      if AbitsOf(dtmcs) > 30 {
        tx.Fail(ValueOutOfRange);
        return false;
      }
      dmiSize := 34 + AbitsOf(dtmcs);
      latency.BumpMin(if IdleOf(dtmcs) == 0 then 0 else IdleOf(dtmcs) - 1);
      return true;
    }

    /** The transaction's accesses, in order and each once, up to the first incomplete action. */
    ghost predicate Executed(tx: Transaction, base: seq<Access>)
      requires tx.Valid()
      reads this, tx
    {
      && PerformedUpTo(dev, base, tx.acts, tx.done)
      && (tx.done == |tx.acts| ==> dev.performed == base + Accesses(tx.acts, |tx.acts|))
      && forall j :: 0 <= j < tx.done && tx.acts[j].Dmi? && tx.acts[j].access.Read? ==>
           tx.outs[j] == Some(target.result(base + Accesses(tx.acts, j + 1)))
    }

    /** The calibrator with which a transaction's first attempt is made. */
    ghost function StartLatency(): Cal
      reads this, latency
    {
      if dtmState.Initial? then Informed(latency.View(), target.dtmcs) else latency.View()
    }

    /** What a transaction needs to go through but for time. */
    ghost predicate Able(tx: Transaction)
      reads this, tx
    {
      Favourable(tx) && AddressesFit(tx.acts, 0, false, target.Abits())
    }

    /** With time enough from the start, one attempt does everything and waits no longer than it must. */
    ghost predicate AtOnce(tx: Transaction, start: Cal, spent: nat, raised: nat)
      reads this, tx, latency
    {
      && tx.done == |tx.acts| && raised == 0 && latency.View() == EnoughOf(start)
      && dev.spent == spent + IdleCycles(tx.acts, start.cur)
    }

    /** Time alone decides: what is left of a transaction once finished, or so far, after an attempt `prev`. */
    ghost predicate Timed(tx: Transaction, base: seq<Access>, start: Cal, spent: nat, cycles: nat,
                          prev: AttemptStatus, finished: bool, raised: nat)
      reads this, tx, latency
    {
      && (Within(target, start.cur) ==> if finished then AtOnce(tx, start, spent, raised) else prev.Success?)
      && (finished ==> tx.done == |tx.acts|
                       || (tx.error == Some(MaxLatencyReached) && !(Within(target, start.max) && Patient(target))))
      && (EndsInAccess(tx.acts) && SlowLast(target, base + Accesses(tx.acts, |tx.acts|), cycles) && start.cur < cycles ==>
            if finished then tx.done + 1 == |tx.acts| && tx.error == Some(MaxLatencyReached)
            else prev.Success? || (tx.done + 1 == |tx.acts| && Stuck(dev, cycles)))
    }

    /** The retry loop, as far as time goes. */
    ghost predicate OnTime(tx: Transaction, base: seq<Access>, start: Cal, spent: nat, cycles: nat,
                           prev: AttemptStatus, finished: bool, raised: nat)
      requires tx.Valid()
      reads this, tx, latency
    {
      && latency.View().max == start.max
      && (!finished && prev.Success? ==> latency.View() == start && raised == 0 && dev.spent == spent)
      && (SkipsLead(tx.acts) ==> spent + Skipped(tx.acts, tx.done) <= dev.spent)
      && (Able(tx) ==> Timed(tx, base, start, spent, cycles, prev, finished, raised))
    }

    /**
     * Executes a transaction as the driver's only client, over any target and any JTAG
     * failures. When its skips lead, the target has performed its accesses in order, each
     * once, up to the first incomplete action, and every completed read holds the value
     * its own access returned; it reports the latency too low `raised` times, at most 32.
     */
    method Execute(tx: Transaction, ghost cycles: nat) returns (crashed: bool, raised: nat)
      requires Inv() && tx.Valid() && tx.done == 0
      modifies this`dtmState, this`numErrors, this`dmiSize, this`dev, this`sent, latency
      modifies tx`done, tx`outs, tx`error
      ensures tx.Valid() && raised <= 32 && latency.View().Ordered()
      ensures latency.reports == old(latency.reports) + raised
      ensures SkipsLead(tx.acts) ==> !crashed && Inv() && Executed(tx, old(dev.performed))
      ensures SkipsLead(tx.acts) ==> old(dev.spent) + Skipped(tx.acts, tx.done) <= dev.spent
      ensures old(dtmState.Invalid?) ==> dev == old(dev) && dtmState.Invalid?
      ensures tx.done < |tx.acts| && !crashed ==> tx.error.Some?
      // Where nothing but delay stands in the way, and every access completes within the latency
      // the driver starts with, everything is done at once, waiting exactly that latency.
      ensures Able(tx) && Supported(target.dtmcs) && !old(dtmState.Invalid?) && Within(target, old(StartLatency()).cur) ==>
                AtOnce(tx, old(StartLatency()), old(dev.spent), raised)
      // Within the greatest latency: everything is done if accesses that were answered busy have
      // completed when they are asked for again.
      ensures Able(tx) && Supported(target.dtmcs) && !old(dtmState.Invalid?) ==>
                || tx.done == |tx.acts|
                || (tx.error == Some(MaxLatencyReached) && !(Within(target, old(StartLatency()).max) && Patient(target)))
      // But not otherwise: a last access that needs more cycles than the latency started with
      // never gets them, however great the greatest latency is.
      ensures Able(tx) && Supported(target.dtmcs) && !old(dtmState.Invalid?) && EndsInAccess(tx.acts)
              && SlowLast(target, old(dev.performed) + Accesses(tx.acts, |tx.acts|), cycles)
              && old(StartLatency()).cur < cycles ==>
                tx.done + 1 == |tx.acts| && tx.error == Some(MaxLatencyReached)
    {
      crashed, raised := false, 0;
      ghost var base, start, spent := dev.performed, StartLatency(), dev.spent;
      assert base + Accesses(tx.acts, 0) == base;
      if dtmState.Invalid? {
        tx.Fail(Terminated);
        return;
      }
      if dtmState.Initial? {
        var discovered := Discover(tx);
        if !discovered {
          dtmState := Invalid;
          return;
        }
        dtmState := Operating;
      }

      var prev := Success;
      var finished := false;
      while !finished
        invariant tx.Valid() && latency.View().Ordered() && raised <= 32
        invariant latency.reports == old(latency.reports) + raised
        invariant !finished ==>
                    && Discovered() && (dtmState.Operating? || dtmState.Error?) && (prev.Success? || prev.MyBusy?)
                    && (prev.Success? ==> tx.done == 0)
                    && (prev.MyBusy? ==> AddressesFit(tx.acts, tx.done, true, target.Abits()))
                    && (latency.View().cur < latency.View().max ==> Pow2(raised) <= latency.View().cur + 1)
        invariant SkipsLead(tx.acts) && !finished ==>
                    AttemptReady(target, dev, dtmState.Error?, base, tx.acts, tx.done, prev.MyBusy?, tx.outs) == true
        invariant SkipsLead(tx.acts) && finished ==> !crashed && Inv() && Executed(tx, base)
        invariant finished && tx.done < |tx.acts| && !crashed ==> tx.error.Some?
        invariant OnTime(tx, base, start, spent, cycles, prev, finished, raised)
        decreases !finished, latency.View().max - latency.View().cur
      {
        prev, finished, raised := Try(tx, prev, raised, base, start, spent, cycles);
        crashed := prev.Crash?;
      }
    }

    /** One turn of the retry loop. */
    method Try(tx: Transaction, prev: AttemptStatus, raised0: nat, ghost base: seq<Access>, ghost start: Cal,
               ghost spent: nat, ghost cycles: nat)
      returns (status: AttemptStatus, finished: bool, raised: nat)
      requires tx.Valid() && latency.View().Ordered() && raised0 <= 32
      requires Discovered() && (dtmState.Operating? || dtmState.Error?) && (prev.Success? || prev.MyBusy?)
      requires prev.Success? ==> tx.done == 0
      requires prev.MyBusy? ==> AddressesFit(tx.acts, tx.done, true, target.Abits())
      requires latency.View().cur < latency.View().max ==> Pow2(raised0) <= latency.View().cur + 1
      requires SkipsLead(tx.acts) ==>
                 AttemptReady(target, dev, dtmState.Error?, base, tx.acts, tx.done, prev.MyBusy?, tx.outs) == true
      requires OnTime(tx, base, start, spent, cycles, prev, false, raised0) == true
      modifies this`dtmState, this`numErrors, this`dev, this`sent, latency
      modifies tx`done, tx`outs, tx`error
      ensures tx.Valid() && latency.View().Ordered() && raised <= 32
      ensures latency.reports + raised0 == old(latency.reports) + raised
      ensures !finished ==>
                && Discovered() && dtmState.Error? && status.MyBusy?
                && AddressesFit(tx.acts, tx.done, true, target.Abits())
                && (latency.View().cur < latency.View().max ==> Pow2(raised) <= latency.View().cur + 1)
                && latency.View().max - latency.View().cur < old(latency.View().max - latency.View().cur)
      ensures SkipsLead(tx.acts) && !finished ==>
                AttemptReady(target, dev, dtmState.Error?, base, tx.acts, tx.done, true, tx.outs) == true
      ensures SkipsLead(tx.acts) && finished ==> !status.Crash? && Inv() && Executed(tx, base)
      ensures finished && tx.done < |tx.acts| && !status.Crash? ==> tx.error.Some?
      ensures OnTime(tx, base, start, spent, cycles, status, finished, raised) == true
    {
      ghost var waiting, doneBefore := prev.MyBusy?, tx.done;
      status := Attempt(tx, prev, base, cycles);
      if AddressesFit(tx.acts, doneBefore, waiting, target.Abits()) {
        FitLater(tx.acts, doneBefore, tx.done, waiting, target.Abits());
      } else {
        assert base + Accesses(tx.acts, 0) == base;
      }
      if SkipsLead(tx.acts) && ReadsHold(target, base, tx.acts, tx.outs, tx.done) {
        AllReadsHold(target, base, tx.acts, tx.outs, tx.done);
      }

      finished, raised := Adjust(tx, status, raised0);
    }

    /** What the driver makes of an attempt: the latency adjusted, and whether that was all. */
    method Adjust(tx: Transaction, status: AttemptStatus, raised0: nat) returns (finished: bool, raised: nat)
      requires tx.Valid() && latency.View().Ordered()
      requires latency.View().cur < latency.View().max ==> Pow2(raised0) <= latency.View().cur + 1
      modifies this`dtmState, tx`error, latency
      ensures latency.View().Ordered() && latency.View().max == old(latency.View().max)
      ensures latency.View().min >= old(latency.View().min)
      ensures finished <==> !status.MyBusy? || old(latency.View().cur == latency.View().max)
      ensures finished ==> raised == raised0 && latency.reports == old(latency.reports)
      ensures finished ==> latency.View() == if status.Success? then EnoughOf(old(latency.View())) else old(latency.View())
      ensures !(finished && status.MyBusy?) ==> dtmState == old(dtmState) && tx.error == old(tx.error)
      ensures finished && status.MyBusy? ==>
                dtmState.Invalid? && (tx.done < |tx.acts| ==> tx.error == Some(MaxLatencyReached))
      ensures !finished ==>
                && raised == raised0 + 1 <= 32 && latency.reports == old(latency.reports) + 1
                && latency.View() == TooLowOf(old(latency.View())) && latency.View().cur > old(latency.View().cur)
                && (latency.View().cur < latency.View().max ==> Pow2(raised) <= latency.View().cur + 1)
    {
      raised, finished := raised0, true;
      if status.Success? {
        latency.Enough();
      } else if status.MyBusy? {
        var atMax := latency.IsMax();
        if atMax {
          tx.Fail(MaxLatencyReached);
          dtmState := Invalid;
        } else {
          RaiseOnce(latency.View(), raised);
          latency.TooLow();
          raised, finished := raised + 1, false;
        }
      }
    }
  }
}

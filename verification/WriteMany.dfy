/**
 * Writing the payloads of many WriteBytes actions as one block, over a stream that may take
 * only part of what it is given, or take part of it and fail.
 */
module WriteMany {
  import opened Common
  import opened Num

  datatype Act = WriteBytes(data: seq<byte>) | ReadBytes(size: nat)

  /** How many bytes a call to the stream took, and whether it reported an error. */
  datatype Outcome = Outcome(num: nat, error: bool)

  function Size(a: Act): nat { if a.WriteBytes? then |a.data| else 0 }

  /** The bytes of the writes among the first n actions. */
  function Payload(acts: seq<Act>, n: nat): seq<byte>
    requires n <= |acts|
  {
    if n == 0 then []
    else Payload(acts, n - 1) + (if acts[n - 1].WriteBytes? then acts[n - 1].data else [])
  }

  /** How many bytes the writes among the first n actions have. */
  function Offset(acts: seq<Act>, n: nat): nat
    requires n <= |acts|
  {
    if n == 0 then 0 else Offset(acts, n - 1) + Size(acts[n - 1])
  }

  lemma {:induction false} OffsetIsLength(acts: seq<Act>, n: nat)
    requires n <= |acts|
    ensures |Payload(acts, n)| == Offset(acts, n)
  {
    if n > 0 {
      OffsetIsLength(acts, n - 1);
    }
  }

  lemma {:induction false} OffsetMonotone(acts: seq<Act>, i: nat, j: nat)
    requires i <= j <= |acts|
    ensures Offset(acts, i) <= Offset(acts, j)
    decreases j
  {
    if i < j {
      OffsetMonotone(acts, i, j - 1);
    }
  }

  /** Each write's own bytes stand at its own offset. */
  lemma {:induction false} PayloadAt(acts: seq<Act>, n: nat, k: nat)
    requires k < n <= |acts| && acts[k].WriteBytes?
    ensures Offset(acts, k) + |acts[k].data| <= |Payload(acts, n)|
    ensures Payload(acts, n)[Offset(acts, k)..Offset(acts, k) + |acts[k].data|] == acts[k].data
  {
    OffsetIsLength(acts, n - 1);
    if k + 1 < n {
      PayloadAt(acts, n - 1, k);
      var at, before := Offset(acts, k), Payload(acts, n - 1);
      assert Payload(acts, n)[..|before|] == before;
      assert Payload(acts, n)[at..at + |acts[k].data|] == before[at..at + |acts[k].data|];
    }
  }

  /** What action i has got of n bytes handed out to the writes in order. */
  function Filled(acts: seq<Act>, i: nat, n: nat): (r: nat)
    requires i < |acts|
    ensures r <= Size(acts[i])
  {
    if n <= Offset(acts, i) then 0 else Min(n - Offset(acts, i), Size(acts[i]))
  }

  /** The counts of the first k actions, added up. */
  function Sum(acts: seq<Act>, n: nat, k: nat): nat
    requires k <= |acts|
  {
    if k == 0 then 0 else Sum(acts, n, k - 1) + Filled(acts, k - 1, n)
  }

  /** They add up to the bytes handed out. */
  lemma {:induction false} FilledAddUp(acts: seq<Act>, n: nat, k: nat)
    requires k <= |acts|
    ensures Sum(acts, n, k) == Min(n, Offset(acts, k))
  {
    if k > 0 {
      FilledAddUp(acts, n, k - 1);
    }
  }

  /** A write has been credited its share of n bytes. */
  ghost predicate CreditedAt(acts: seq<Act>, written: array<nat>, n: nat, k: nat)
    requires k < |acts| == written.Length
    reads written
  {
    acts[k].WriteBytes? ==> written[k] == Filled(acts, k, n)
  }

  /** The bytes a write is credited with are its own first ones, taken at its own offset. */
  ghost predicate TookOwn(acts: seq<Act>, written: array<nat>, taken: seq<byte>, k: nat)
    requires k < |acts| == written.Length
    reads written
  {
    acts[k].WriteBytes? && written[k] > 0 ==>
      && written[k] <= |acts[k].data| && Offset(acts, k) + written[k] <= |taken|
      && taken[Offset(acts, k)..Offset(acts, k) + written[k]] == acts[k].data[..written[k]]
  }

  lemma TakenIsOwn(acts: seq<Act>, written: array<nat>, taken: seq<byte>, k: nat)
    requires Credited(acts, written, |taken|) && taken <= Payload(acts, |acts|) && k < |acts|
    ensures TookOwn(acts, written, taken, k)
  {
    assert CreditedAt(acts, written, |taken|, k);
    if acts[k].WriteBytes? && written[k] > 0 {
      PayloadAt(acts, |acts|, k);
      var at, w, all := Offset(acts, k), written[k], Payload(acts, |acts|);
      assert taken[at..at + w] == all[at..at + w];
      assert all[at..at + w] == all[at..at + |acts[k].data|][..w];
    }
  }

  ghost predicate Credited(acts: seq<Act>, written: array<nat>, n: nat)
    reads written
  {
    written.Length == |acts| && forall k: nat | k < |acts| :: CreditedAt(acts, written, n, k)
  }

  /** Crediting k more bytes to action j, once all writes before it are full. */
  lemma CreditOne(acts: seq<Act>, j: nat, n: nat, k: nat, i: nat)
    requires j < |acts| && acts[j].WriteBytes? && Offset(acts, j) <= n && i < |acts|
    requires k <= Size(acts[j]) - Filled(acts, j, n)
    ensures Filled(acts, i, n + k) == Filled(acts, i, n) + if i == j then k else 0
  {
    if i < j {
      OffsetMonotone(acts, i + 1, j);
    } else if i > j {
      OffsetMonotone(acts, j + 1, i);
      if n >= Offset(acts, j + 1) {
        assert k == 0;
      }
    }
  }

  method Credit(acts: seq<Act>, written: array<nat>, j: nat, ghost n: nat, k: nat)
    requires j < |acts| && acts[j].WriteBytes? && Offset(acts, j) <= n
    requires Credited(acts, written, n) && k <= Size(acts[j]) - written[j]
    modifies written
    ensures Credited(acts, written, n + k)
    ensures written[j] == Filled(acts, j, n + k) == old(written[j]) + k
  {
    assert CreditedAt(acts, written, n, j);
    written[j] := written[j] + k;
    ghost var m := n + k;
    forall i: nat | i < |acts| ensures CreditedAt(acts, written, m, i) {
      assert old(CreditedAt(acts, written, n, i));
      CreditOne(acts, j, n, k, i);
    }
    assert CreditedAt(acts, written, n + k, j);
  }

  /** Credits action j with what it lacks, or with what is left. */
  method CreditSome(acts: seq<Act>, written: array<nat>, j: nat, ghost n: nat, left: nat) returns (k: nat)
    requires j < |acts| && acts[j].WriteBytes? && Offset(acts, j) <= n
    requires Credited(acts, written, n)
    modifies written
    ensures k <= left && Credited(acts, written, n + k)
    ensures written[j] == |acts[j].data| <==> Offset(acts, j + 1) <= n + k
    ensures k < left ==> Offset(acts, j + 1) <= n + k
    ensures k > 0 ==> n + k <= Offset(acts, j + 1)
  {
    assert CreditedAt(acts, written, n, j);
    k := Min(left, |acts[j].data| - written[j]);
    Credit(acts, written, j, n, k);
  }

  // ---------------------------------------------------------------- one call to the stream

  /** The first action from i on that is not a write. */
  function Lead(acts: seq<Act>, i: nat): (n: nat)
    requires i <= |acts|
    ensures i <= n <= |acts| && (n < |acts| ==> !acts[n].WriteBytes?)
    decreases |acts| - i
  {
    if i < |acts| && acts[i].WriteBytes? then Lead(acts, i + 1) else i
  }

  lemma {:induction false} LeadIsWrites(acts: seq<Act>, i: nat, j: nat)
    requires i <= j < |acts| && j < Lead(acts, i)
    ensures acts[j].WriteBytes?
    decreases j - i
  {
    if i < j {
      LeadIsWrites(acts, i + 1, j);
    }
  }

  /** There is no write among the actions from i up to j. */
  predicate NoWrites(acts: seq<Act>, i: nat, j: nat)
    decreases j
  {
    i < j <= |acts| ==> NoWrites(acts, i, j - 1) && !acts[j - 1].WriteBytes?
  }

  /**
   * Where the handing out of one call's bytes ends, with `got` bytes taken before and everything
   * below `done` marked: at the write that gets the last of them; if none were taken, at the
   * first write that is not marked.
   */
  predicate StopsAt(acts: seq<Act>, done: nat, got: nat, taken: nat, j: nat) {
    && done <= j < |acts| && acts[j].WriteBytes?
    && (taken > 0 ==> Offset(acts, j) < got + taken <= Offset(acts, j + 1))
    && (taken == 0 ==> NoWrites(acts, done, j))
  }

  /** There is only one such place. */
  lemma StopsOnce(acts: seq<Act>, done: nat, got: nat, taken: nat, i: nat, j: nat)
    requires StopsAt(acts, done, got, taken, i) && StopsAt(acts, done, got, taken, j)
    ensures i == j
  {
    if i < j {
      if taken > 0 {
        OffsetMonotone(acts, i + 1, j);
      } else {
        NoWriteAt(acts, done, j, i);
      }
    } else if j < i {
      if taken > 0 {
        OffsetMonotone(acts, j + 1, i);
      } else {
        NoWriteAt(acts, done, i, j);
      }
    }
  }

  lemma {:induction false} NoWriteAt(acts: seq<Act>, i: nat, j: nat, k: nat)
    requires i <= k < j <= |acts| && NoWrites(acts, i, j)
    ensures !acts[k].WriteBytes?
    decreases j
  {
    if k + 1 < j {
      NoWriteAt(acts, i, j - 1, k);
    }
  }

  /** The place, searched for from action j on. */
  function StopFrom(acts: seq<Act>, j: nat, need: nat, taken: nat): (r: nat)
    requires j <= |acts|
    ensures j <= r <= |acts|
    decreases |acts| - j
  {
    if j == |acts| then j
    else if acts[j].WriteBytes? && (taken == 0 || Offset(acts, j + 1) >= need) then j
    else StopFrom(acts, j + 1, need, taken)
  }

  function StopOf(acts: seq<Act>, done: nat, got: nat, taken: nat): nat
    requires done <= |acts|
  {
    StopFrom(acts, done, got + taken, taken)
  }

  lemma StopOfIs(acts: seq<Act>, done: nat, got: nat, taken: nat, j: nat)
    requires StopsAt(acts, done, got, taken, j)
    ensures StopOf(acts, done, got, taken) == j
  {
    StopFromIs(acts, done, done, got, taken, j);
  }

  lemma {:induction false} StopFromIs(acts: seq<Act>, done: nat, i: nat, got: nat, taken: nat, j: nat)
    requires StopsAt(acts, done, got, taken, j) && done <= i <= j
    ensures StopFrom(acts, i, got + taken, taken) == j
    decreases j - i
  {
    if i < j {
      if taken > 0 {
        OffsetMonotone(acts, i + 1, j);
      } else {
        NoWriteAt(acts, done, j, i);
      }
      StopFromIs(acts, done, i + 1, got, taken, j);
    }
  }

  /**
   * The actions marked done once n bytes have been taken and the handing out stopped at `stop`:
   * the leading writes before it, and that one too if it is full and no error was reported.
   */
  function MarkedDone(acts: seq<Act>, stop: nat, n: nat, error: bool): (done: nat)
    ensures done <= Lead(acts, 0)
  {
    if !error && stop < Lead(acts, 0) && Offset(acts, stop + 1) <= n then stop + 1
    else Min(stop, Lead(acts, 0))
  }

  /** Hands out one call's bytes to the writes that still lack some. */
  method Acknowledge(acts: seq<Act>, written: array<nat>, done0: nat, continuous0: bool, ghost got: nat, error: bool, taken: nat)
    returns (done: nat, continuous: bool, failed: bool, stop: nat)
    requires Credited(acts, written, got) && got < Offset(acts, |acts|) && got + taken <= Offset(acts, |acts|)
    requires done0 <= Lead(acts, 0) && Offset(acts, done0) <= got && (done0 < Lead(acts, 0) ==> continuous0)
    modifies written
    ensures Credited(acts, written, got + taken)
    ensures StopsAt(acts, done0, got, taken, stop) && failed == error
    ensures done == MarkedDone(acts, stop, got + taken, error) && (done < Lead(acts, 0) ==> continuous)
    ensures done <= Lead(acts, 0) && Offset(acts, done) <= got + taken
  {
    done, continuous, failed := done0, continuous0, false;
    var left: nat := taken;
    var j := done0;
    ghost var lead := Lead(acts, 0);
    while j < |acts|
      invariant done0 <= j <= |acts| && left <= taken
      invariant Credited(acts, written, got + (taken - left))
      invariant Offset(acts, j) <= got + (taken - left)
      invariant done == Min(j, lead) && (continuous ==> j <= lead) && (j < lead ==> continuous)
      invariant Offset(acts, done) <= got + (taken - left)
      invariant taken > 0 ==> left > 0
      invariant taken == 0 ==> NoWrites(acts, done0, j)
      invariant !failed
    {
      if j < lead {
        LeadIsWrites(acts, 0, j);
      }
      if !acts[j].WriteBytes? {
        continuous := false;
      } else {
        ghost var n := got + (taken - left);
        var k := CreditSome(acts, written, j, n, left);
        left := left - k;
        stop := j;
        var last := left == 0;
        if last && error {
          failed := true;
          return;
        }
        if continuous && written[j] == |acts[j].data| {
          done := j + 1;
        }
        if last {
          return;
        }
      }
      j := j + 1;
    }
    assert false;
  }

  // ---------------------------------------------------------------- a whole schedule

  /** What the stream has taken, what is marked done, and the action an error was reported at. */
  datatype Served = Served(got: nat, done: nat, failed: Option<nat>)

  /** One call: it is given all that is left, and takes what it takes of it. */
  function Call(acts: seq<Act>, o: Outcome, s: Served): Served
    requires s.done <= |acts| && s.got <= Offset(acts, |acts|)
  {
    var n: nat := Min(o.num, Offset(acts, |acts|) - s.got);
    var stop := StopOf(acts, s.done, s.got, n);
    Served(s.got + n, MarkedDone(acts, stop, s.got + n, o.error), if o.error then Some(stop) else None)
  }

  /** The calls, until everything is taken, an error is reported or the schedule ends. */
  function Serve(acts: seq<Act>, schedule: seq<Outcome>, s: Served): Served
    requires s.done <= |acts| && s.got <= Offset(acts, |acts|)
    decreases |schedule|
  {
    if schedule == [] || s.failed.Some? || s.got == Offset(acts, |acts|) then s
    else Serve(acts, schedule[1..], Call(acts, schedule[0], s))
  }

  /** How many bytes a schedule takes of `total`, from `got` on. */
  function Accepted(schedule: seq<Outcome>, got: nat, total: nat): nat
    requires got <= total
    decreases |schedule|
  {
    if schedule == [] || got == total then got
    else
      var n := got + Min(schedule[0].num, total - got);
      if schedule[0].error then n else Accepted(schedule[1..], n, total)
  }

  /** Whether it reports an error before everything is taken. */
  predicate Errs(schedule: seq<Outcome>, got: nat, total: nat)
    requires got <= total
    decreases |schedule|
  {
    schedule != [] && got < total &&
      (schedule[0].error || Errs(schedule[1..], got + Min(schedule[0].num, total - got), total))
  }

  /** What is marked while no error was reported: all leading writes that are full, but for empty ones at the end. */
  predicate Marking(acts: seq<Act>, s: Served) {
    && s.done <= Lead(acts, 0) && s.got <= Offset(acts, |acts|) && Offset(acts, s.done) <= s.got
    && (s.failed.None? && s.done < Lead(acts, 0) ==>
          || s.got == Offset(acts, s.done)
          || (Size(acts[s.done]) > 0 && s.got < Offset(acts, s.done + 1)))
  }

  lemma MarkingStarts(acts: seq<Act>)
    ensures Marking(acts, Served(0, 0, None))
  {
  }

  lemma {:induction false} StopExists(acts: seq<Act>, done: nat, j: nat, got: nat, taken: nat)
    requires done <= j <= |acts| && got < Offset(acts, |acts|) && got + taken <= Offset(acts, |acts|)
    requires if taken == 0 then NoWrites(acts, done, j) && Offset(acts, j) <= got else Offset(acts, j) < got + taken
    ensures StopsAt(acts, done, got, taken, StopFrom(acts, j, got + taken, taken))
    decreases |acts| - j
  {
    if j < |acts| && !(acts[j].WriteBytes? && (taken == 0 || Offset(acts, j + 1) >= got + taken)) {
      StopExists(acts, done, j + 1, got, taken);
    }
  }

  /** A leading write not yet marked is where a call without bytes stops. */
  lemma StopAtLead(acts: seq<Act>, done: nat, got: nat, stop: nat)
    requires StopsAt(acts, done, got, 0, stop) && done < Lead(acts, 0)
    ensures stop == done
  {
    LeadIsWrites(acts, 0, done);
    if done < stop {
      NoWriteAt(acts, done, stop, done);
    }
  }

  lemma CallKeeps(acts: seq<Act>, o: Outcome, s: Served, n: nat, stop: nat)
    requires Marking(acts, s) && s.failed.None? && s.got < Offset(acts, |acts|)
    requires n == Min(o.num, Offset(acts, |acts|) - s.got) && stop == StopOf(acts, s.done, s.got, n)
    ensures StopsAt(acts, s.done, s.got, n, stop) && Marking(acts, Call(acts, o, s))
  {
    StopExists(acts, s.done, s.done, s.got, n);
    var next := Call(acts, o, s);
    OffsetMonotone(acts, next.done, if next.done <= stop then stop else next.done);
    if n == 0 && s.done < Lead(acts, 0) {
      StopAtLead(acts, s.done, s.got, stop);
    }
    if n == 0 && s.done == Lead(acts, 0) {
      assert next.done == s.done;
    }
  }

  /** One call of a schedule, and what remains of it. */
  lemma OneCall(acts: seq<Act>, schedule: seq<Outcome>, s: Served) returns (next: Served)
    requires Marking(acts, s) && s.failed.None? && schedule != [] && s.got < Offset(acts, |acts|)
    ensures next == Call(acts, schedule[0], s) && Marking(acts, next) == true && (next.failed.Some? <==> schedule[0].error)
    ensures next.done <= |acts| && next.got == s.got + Min(schedule[0].num, Offset(acts, |acts|) - s.got) <= Offset(acts, |acts|)
    ensures Serve(acts, schedule, s) == Serve(acts, schedule[1..], next)
    ensures next.failed.Some? ==> Serve(acts, schedule, s) == next
  {
    var n: nat := Min(schedule[0].num, Offset(acts, |acts|) - s.got);
    next := Call(acts, schedule[0], s);
    CallKeeps(acts, schedule[0], s, n, StopOf(acts, s.done, s.got, n));
  }

  /** Over any schedule: the bytes taken and whether an error is reported depend on the schedule alone. */
  lemma {:induction false} ServeMeans(acts: seq<Act>, schedule: seq<Outcome>, s: Served)
    requires Marking(acts, s) == true && s.failed.None? && s.done <= |acts| && s.got <= Offset(acts, |acts|)
    ensures var r := Serve(acts, schedule, s);
            && Marking(acts, r) == true
            && r.got == Accepted(schedule, s.got, Offset(acts, |acts|))
            && (r.failed.Some? <==> Errs(schedule, s.got, Offset(acts, |acts|)))
    decreases |schedule|
  {
    if schedule != [] && s.got < Offset(acts, |acts|) {
      var next := OneCall(acts, schedule, s);
      if !schedule[0].error {
        ServeMeans(acts, schedule[1..], next);
      }
    }
  }

  /** Without an error, a leading write is marked as soon as it is full, unless it is empty. */
  lemma {:induction false} FullIsMarked(acts: seq<Act>, s: Served, k: nat)
    requires Marking(acts, s) && s.failed.None? && k < Lead(acts, 0) && Size(acts[k]) > 0
    ensures k < s.done <==> Offset(acts, k + 1) <= s.got
  {
    if k < s.done {
      OffsetMonotone(acts, k + 1, s.done);
    } else {
      OffsetMonotone(acts, s.done, k);
      if s.done < k {
        OffsetMonotone(acts, s.done + 1, k);
      }
    }
  }

  // ---------------------------------------------------------------- who is blamed

  /** The call that reports an error: bytes taken before it, actions marked, bytes it took. */
  datatype ErrorCall = ErrorCall(got: nat, done: nat, taken: nat)

  function ErrorOf(acts: seq<Act>, schedule: seq<Outcome>, s: Served): Option<ErrorCall>
    requires s.done <= |acts| && s.got <= Offset(acts, |acts|)
    decreases |schedule|
  {
    if schedule == [] || s.failed.Some? || s.got == Offset(acts, |acts|) then None
    else if schedule[0].error then Some(ErrorCall(s.got, s.done, Min(schedule[0].num, Offset(acts, |acts|) - s.got)))
    else ErrorOf(acts, schedule[1..], Call(acts, schedule[0], s))
  }

  /** n bytes do not end together with any action. */
  predicate InsideWrite(acts: seq<Act>, n: nat) {
    forall k: nat | k <= |acts| :: Offset(acts, k) != n
  }

  /**
   * When the action blamed for an error is one that lacks bytes: if the failing call took some,
   * when they do not end together with an action; if it took none, when the first action not
   * marked is a write that is not empty, or, that being a read, when the bytes taken do not
   * reach the end of the first write behind it.
   */
  predicate BlamesRightly(acts: seq<Act>, e: ErrorCall, blamed: nat) {
    if e.taken > 0 then InsideWrite(acts, e.got + e.taken)
    else if e.done < |acts| && acts[e.done].WriteBytes? then Size(acts[e.done]) > 0
    else blamed < |acts| && e.got < Offset(acts, blamed + 1)
  }

  lemma BlameOne(acts: seq<Act>, s: Served, taken: nat, stop: nat)
    requires Marking(acts, s) && s.failed.None? && StopsAt(acts, s.done, s.got, taken, stop)
    ensures Filled(acts, stop, s.got + taken) < Size(acts[stop]) <==>
            BlamesRightly(acts, ErrorCall(s.got, s.done, taken), stop)
  {
    var n := s.got + taken;
    if taken > 0 {
      if n < Offset(acts, stop + 1) {
        forall k: nat | k <= |acts| ensures Offset(acts, k) != n {
          if k <= stop {
            OffsetMonotone(acts, k, stop);
          } else {
            OffsetMonotone(acts, stop + 1, k);
          }
        }
      }
    } else if acts[s.done].WriteBytes? {
      assert s.done < Lead(acts, 0);
      StopAtLead(acts, s.done, s.got, stop);
    } else {
      OffsetMonotone(acts, s.done, stop);
      StopsPast(acts, s, stop);
    }
  }

  /** Past the leading writes, the bytes before the write stopped at have all been taken. */
  lemma {:induction false} StopsPast(acts: seq<Act>, s: Served, stop: nat)
    requires Marking(acts, s) && s.done <= stop <= |acts| && NoWrites(acts, s.done, stop)
    ensures Offset(acts, stop) == Offset(acts, s.done) <= s.got
    decreases stop
  {
    if s.done < stop {
      StopsPast(acts, s, stop - 1);
    }
  }

  /** Over any schedule that errs: where the error is reported, and exactly when that action lacks bytes. */
  lemma {:induction false} BlamedLacksExactly(acts: seq<Act>, schedule: seq<Outcome>, s: Served)
    requires Marking(acts, s) && s.failed.None? && Errs(schedule, s.got, Offset(acts, |acts|))
    ensures var r := Serve(acts, schedule, s);
            var e := ErrorOf(acts, schedule, s);
            && r.failed.Some? && e.Some? && r.got == e.value.got + e.value.taken
            && StopsAt(acts, e.value.done, e.value.got, e.value.taken, r.failed.value)
            && (Filled(acts, r.failed.value, r.got) < Size(acts[r.failed.value]) <==>
                  BlamesRightly(acts, e.value, r.failed.value))
    decreases |schedule|
  {
    var n: nat := Min(schedule[0].num, Offset(acts, |acts|) - s.got);
    var stop := StopOf(acts, s.done, s.got, n);
    CallKeeps(acts, schedule[0], s, n, stop);
    if schedule[0].error {
      BlameOne(acts, s, n, stop);
    } else {
      BlamedLacksExactly(acts, schedule[1..], Call(acts, schedule[0], s));
    }
  }

  /** So an error may be reported at a write that is full: the bytes ended with it, it is empty, or a read comes before it. */
  lemma FullWritesBlamed(x: byte, y: byte)
    ensures var acts := [WriteBytes([x]), WriteBytes([y])];
            Serve(acts, [Outcome(1, true)], Served(0, 0, None)) == Served(1, 0, Some(0))
    ensures var acts := [WriteBytes([x]), WriteBytes([]), WriteBytes([y])];
            Serve(acts, [Outcome(1, false), Outcome(0, true)], Served(0, 0, None)) == Served(1, 1, Some(1))
    ensures var acts := [ReadBytes(1), WriteBytes([x]), WriteBytes([y])];
            Serve(acts, [Outcome(1, false), Outcome(0, true)], Served(0, 0, None)) == Served(1, 0, Some(1))
  {
    var start := Served(0, 0, None);
    var a := [WriteBytes([x]), WriteBytes([y])];
    assert Offset(a, 1) == 1 && Offset(a, 2) == 2;
    assert Call(a, Outcome(1, true), start) == Served(1, 0, Some(0));
    var b := [WriteBytes([x]), WriteBytes([]), WriteBytes([y])];
    assert Offset(b, 1) == 1 && Offset(b, 2) == 1 && Offset(b, 3) == 2;
    assert Lead(b, 3) == 3 && Lead(b, 2) == 3 && Lead(b, 1) == 3 && Lead(b, 0) == 3;
    ServeTwo(b, Outcome(1, false), Outcome(0, true), Served(1, 1, None), Served(1, 1, Some(1)));
    var c := [ReadBytes(1), WriteBytes([x]), WriteBytes([y])];
    assert Offset(c, 1) == 0 && Offset(c, 2) == 1 && Offset(c, 3) == 2;
    assert StopFrom(c, 1, 1, 1) == 1 && StopFrom(c, 1, 1, 0) == 1;
    ServeTwo(c, Outcome(1, false), Outcome(0, true), Served(1, 0, None), Served(1, 0, Some(1)));
  }

  lemma ServeTwo(acts: seq<Act>, o: Outcome, p: Outcome, mid: Served, end: Served)
    requires 0 < Offset(acts, |acts|) && mid.done <= |acts| && mid.got < Offset(acts, |acts|) && mid.failed.None?
    requires Call(acts, o, Served(0, 0, None)) == mid && Call(acts, p, mid) == end
    ensures end.done <= |acts| && Serve(acts, [o, p], Served(0, 0, None)) == end
  {
    assert [o, p][1..] == [p] && [p][1..] == [];
    assert Serve(acts, [], end) == end;
    assert Serve(acts, [p], mid) == end;
  }

  // ---------------------------------------------------------------- the loop

  /** One call to the stream with all that is left, and the handing out of what it took. */
  method CallStream(acts: seq<Act>, o: Outcome, written: array<nat>, done0: nat, continuous0: bool,
                    all: seq<byte>, taken0: seq<byte>)
    returns (done: nat, continuous: bool, failed: Option<nat>, taken: seq<byte>)
    requires all == Payload(acts, |acts|) && taken0 <= all && taken0 != all
    requires Credited(acts, written, |taken0|) && Marking(acts, Served(|taken0|, done0, None)) == true
    requires done0 <= Lead(acts, 0) && (done0 < Lead(acts, 0) ==> continuous0) && |all| == Offset(acts, |acts|)
    modifies written
    ensures taken0 <= taken <= all && Credited(acts, written, |taken|)
    ensures done < Lead(acts, 0) ==> continuous
    ensures Served(|taken|, done, failed) == Call(acts, o, Served(|taken0|, done0, None))
  {
    var rest := all[|taken0|..];
    var n: nat := Min(o.num, |rest|);
    assert all[..|taken0| + n] == taken0 + rest[..n];
    var err, stop;
    done, continuous, err, stop := Acknowledge(acts, written, done0, continuous0, |taken0|, o.error, n);
    StopOfIs(acts, done0, |taken0|, n, stop);
    taken := taken0 + rest[..n];
    failed := if err then Some(stop) else None;
  }

  /**
   * The whole write, against any schedule of results of the stream; it ends when everything was
   * taken, when an error is reported, or when the schedule ends. `taken` is what the stream took.
   */
  method WriteMany(acts: seq<Act>, schedule: seq<Outcome>, written: array<nat>)
    returns (done: nat, failed: Option<nat>, taken: seq<byte>)
    requires written.Length == |acts|
    modifies written
    ensures taken <= Payload(acts, |acts|)
    ensures |taken| == Accepted(schedule, 0, Offset(acts, |acts|))
    ensures failed.Some? <==> Errs(schedule, 0, Offset(acts, |acts|))
    ensures Served(|taken|, done, failed) == Serve(acts, schedule, Served(0, 0, None))
    ensures Credited(acts, written, |taken|)
    ensures forall k: nat | k < |acts| :: TookOwn(acts, written, taken, k)
    ensures Marking(acts, Served(|taken|, done, failed))
  {
    var all := Combine(acts, written);
    OffsetIsLength(acts, |acts|);
    done, failed, taken := 0, None, [];
    ghost var result := Serve(acts, schedule, Served(0, 0, None));
    MarkingStarts(acts);
    ServeMeans(acts, schedule, Served(0, 0, None));
    var continuous, s := true, 0;
    assert schedule[0..] == schedule;
    while taken != all && failed == None && s < |schedule|
      invariant s <= |schedule| && done <= Lead(acts, 0)
      invariant taken <= all && Credited(acts, written, |taken|) && Marking(acts, Served(|taken|, done, failed)) == true
      invariant done < Lead(acts, 0) ==> continuous
      invariant Serve(acts, schedule[s..], Served(|taken|, done, failed)) == result
      decreases |schedule| - s
    {
      ghost var next := OneCall(acts, schedule[s..], Served(|taken|, done, None));
      assert schedule[s..][1..] == schedule[s + 1..];
      done, continuous, failed, taken := CallStream(acts, schedule[s], written, done, continuous, all, taken);
      s := s + 1;
    }
    forall k: nat | k < |acts| ensures TookOwn(acts, written, taken, k) {
      TakenIsOwn(acts, written, taken, k);
    }
  }

  /** The block to be written, each write's bytes behind those of the ones before it. */
  method Combine(acts: seq<Act>, written: array<nat>) returns (all: seq<byte>)
    requires written.Length == |acts|
    modifies written
    ensures all == Payload(acts, |acts|) && Credited(acts, written, 0)
  {
    all := [];
    for i := 0 to |acts|
      invariant all == Payload(acts, i)
      invariant forall k | 0 <= k < i && acts[k].WriteBytes? :: written[k] == 0
    {
      if acts[i].WriteBytes? {
        all := all + acts[i].data;
        written[i] := 0;
      }
    }
  }
}

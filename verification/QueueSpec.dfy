/**
 * The resolution queue by positions. Items are numbered in the order they were enqueued. One
 * chain of `next` links serves two cursors: the next item to start and the next to resolve.
 */
module QueueSpec {
  /**
   * `busy` says that the in-progress cursor is set; it then stands at item `resolved`.
   * links[i] says that item i's `next` leads to item i + 1.
   */
  datatype Queue = Queue(total: nat, started: nat, resolved: nat, busy: bool, links: seq<bool>)

  const EMPTY: Queue := Queue(0, 0, 0, false, [])

  predicate Valid(q: Queue) {
    && q.resolved <= q.started <= q.total == |q.links|
    && (!q.busy ==> q.resolved == q.started)
    && (q.busy ==> q.resolved < q.total && q.started > 0)
    && (forall i | 0 <= i < q.total && q.links[i] :: i + 1 < q.total)
    && (forall i | q.resolved <= i < q.started - 1 :: q.links[i])
    && (forall i | q.started <= i < q.total - 1 :: q.links[i])
  }

  /** A new item is linked only to an item that is still scheduled. */
  function Enqueued(q: Queue): (r: Queue)
    requires Valid(q)
    ensures Valid(r)
  {
    q.(total := q.total + 1,
       links := (if q.started < q.total then q.links[q.total - 1 := true] else q.links) + [false])
  }

  function Started(q: Queue): (r: Queue)
    requires Valid(q) && q.started < q.total
    ensures Valid(r)
  {
    if q.busy then q.(started := q.started + 1, links := q.links[q.started - 1 := true])
    else q.(started := q.started + 1, busy := true)
  }

  function Prepared(q: Queue): (r: Queue)
    requires Valid(q) && q.busy && q.resolved < q.started
    ensures Valid(r)
  {
    q.(resolved := q.resolved + 1, busy := q.links[q.resolved])
  }

  /** Starting writes into an item that may be gone already: the last one started, when it is resolved. */
  predicate WritesResolved(q: Queue) {
    q.busy && q.resolved == q.started
  }

  // ---------------------------------------------------------------- runs

  datatype Call = Enqueue | Start | Prepare

  /** A call is made only where the queue's own assertions and the caller's count allow it. */
  predicate Allowed(q: Queue, c: Call) {
    match c
    case Enqueue => true
    case Start => q.started < q.total
    case Prepare => q.busy && q.resolved < q.started
  }

  function After(q: Queue, c: Call): Queue
    requires Valid(q) && Allowed(q, c)
  {
    match c
    case Enqueue => Enqueued(q)
    case Start => Started(q)
    case Prepare => Prepared(q)
  }

  predicate IsRun(q: Queue, calls: seq<Call>)
    requires Valid(q)
    decreases |calls|
  {
    calls == [] || (Allowed(q, calls[0]) && IsRun(After(q, calls[0]), calls[1..]))
  }

  function Run(q: Queue, calls: seq<Call>): Queue
    requires Valid(q) && IsRun(q, calls)
    decreases |calls|
  {
    if calls == [] then q else Run(After(q, calls[0]), calls[1..])
  }

  /** The items handed out by the Prepare calls of a run. */
  function HandedOut(q: Queue, calls: seq<Call>): seq<nat>
    requires Valid(q) && IsRun(q, calls)
    decreases |calls|
  {
    if calls == [] then []
    else (if calls[0] == Prepare then [q.resolved] else []) + HandedOut(After(q, calls[0]), calls[1..])
  }

  function CountOf(c: Call, calls: seq<Call>): nat {
    if calls == [] then 0 else (if calls[0] == c then 1 else 0) + CountOf(c, calls[1..])
  }

  /** Every run hands out the items in enqueue order, each once, and none before it was started. */
  lemma {:induction false} FirstInFirstOut(q: Queue, calls: seq<Call>)
    requires Valid(q) && IsRun(q, calls)
    ensures Valid(Run(q, calls))
    ensures HandedOut(q, calls) == seq(CountOf(Prepare, calls), i requires i >= 0 => q.resolved + i)
    ensures Run(q, calls).resolved == q.resolved + CountOf(Prepare, calls) <= Run(q, calls).started
    ensures Run(q, calls).started == q.started + CountOf(Start, calls)
    ensures Run(q, calls).total == q.total + CountOf(Enqueue, calls)
    decreases |calls|
  {
    if calls != [] {
      FirstInFirstOut(After(q, calls[0]), calls[1..]);
    }
  }

  /** The in-progress cursor unset means that nothing started is unresolved. */
  lemma NothingInProgress(calls: seq<Call>)
    requires IsRun(EMPTY, calls)
    ensures !Run(EMPTY, calls).busy ==> CountOf(Prepare, calls) == CountOf(Start, calls)
  {
    FirstInFirstOut(EMPTY, calls);
  }

  /** The converse fails: two items enqueued, one started and resolved. */
  lemma BusyWithNothingStarted()
    ensures Valid(EMPTY) && IsRun(EMPTY, [Enqueue, Enqueue, Start, Prepare])
    ensures var q := Run(EMPTY, [Enqueue, Enqueue, Start, Prepare]);
            q.busy && q.resolved == q.started == 1 && q.started < q.total
  {
    var q1 := Enqueued(EMPTY);
    var q2 := Enqueued(q1);
    var q3 := Started(q2);
    var q4 := Prepared(q3);
    assert IsRun(q4, []);
    assert IsRun(q3, [Prepare]) && Run(q3, [Prepare]) == Run(q4, []) by {
      assert [Prepare][1..] == [];
    }
    assert IsRun(q2, [Start, Prepare]) && Run(q2, [Start, Prepare]) == q4 by {
      assert [Start, Prepare][1..] == [Prepare];
    }
    assert IsRun(q1, [Enqueue, Start, Prepare]) && Run(q1, [Enqueue, Start, Prepare]) == q4 by {
      assert [Enqueue, Start, Prepare][1..] == [Start, Prepare];
    }
    assert [Enqueue, Enqueue, Start, Prepare][1..] == [Enqueue, Start, Prepare];
  }

  predicate NoStarts(calls: seq<Call>) {
    calls != [] ==> calls[0] != Start && NoStarts(calls[1..])
  }

  /**
   * Between two starts nothing touches the link of the item started last: it leads on exactly
   * if another item was scheduled right after that start.
   */
  lemma {:induction false} LinkStays(q: Queue, calls: seq<Call>)
    requires Valid(q) && q.started > 0 && IsRun(q, calls) && NoStarts(calls)
    ensures var n := Run(q, calls);
            && Valid(n) && n.started == q.started && n.links[n.started - 1] == q.links[q.started - 1]
            && (n.resolved == n.started && q.resolved < q.started ==> n.busy == q.links[q.started - 1])
            && (q.resolved == q.started ==> n.busy == q.busy && n.resolved == q.resolved)
    decreases |calls|
  {
    if calls != [] {
      LinkStays(After(q, calls[0]), calls[1..]);
    }
  }

  /**
   * When the next start writes into an item that is resolved. Take any run after a start, up to
   * the next one, that resolves everything started: the next start will do so if and only if
   * `NoScheduled()` was false right after the first.
   */
  lemma WritesResolvedExactly(q: Queue, calls: seq<Call>)
    requires Valid(q) && q.started < q.total && IsRun(Started(q), calls) && NoStarts(calls)
    requires Run(Started(q), calls).resolved == Run(Started(q), calls).started
    ensures WritesResolved(Run(Started(q), calls)) <==> Started(q).started < Started(q).total
  {
    LinkStays(Started(q), calls);
  }
}

/**
 * The tunnel's table of pending requests. A request carries a key; its response carries the
 * same key back. Keys are recycled, and the transaction that a response resolves may send new
 * requests before the response's own key is given back.
 */
module Tunnel {
  import opened Common

  /** Keys are 32 bits wide. */
  const KEYS: nat := 0x1_0000_0000

  /** Free keys, the last one on top; the next key never used; the transaction behind each pending key. */
  datatype Table = Table(free: seq<nat>, next: nat, pending: map<nat, nat>)

  function Total(t: Table): nat { |t.free| + |t.pending| }

  /** Every key ever used is free or pending, and not both. */
  predicate Valid(t: Table) {
    && Total(t) <= KEYS
    && t.next == Total(t) % KEYS
    && (forall k | k in t.pending :: k < Total(t))
    && (forall i | 0 <= i < |t.free| :: t.free[i] < Total(t) && t.free[i] !in t.pending)
    && (forall i, j | 0 <= i < j < |t.free| :: t.free[i] != t.free[j])
  }

  function KeyFor(t: Table): nat {
    if t.free != [] then t.free[|t.free| - 1] else t.next
  }

  function Allocated(t: Table, tx: nat): Table {
    if t.free != [] then t.(free := t.free[..|t.free| - 1], pending := t.pending[KeyFor(t) := tx])
    else t.(next := (t.next + 1) % KEYS, pending := t.pending[KeyFor(t) := tx])
  }

  function Released(t: Table, key: nat): Table {
    t.(pending := t.pending - {key}, free := t.free + [key])
  }

  /** A key handed out was neither free nor pending, unless all 2^32 are pending at once. */
  lemma AllocatedIsNew(t: Table, tx: nat)
    requires Valid(t) && |t.pending| < KEYS
    ensures KeyFor(t) !in t.pending && Valid(Allocated(t, tx))
    ensures Allocated(t, tx).pending == t.pending[KeyFor(t) := tx]
    ensures KeyFor(t) !in Allocated(t, tx).free
    ensures Total(Allocated(t, tx)) >= Total(t)
  {
    var n := Allocated(t, tx);
    assert |n.pending| == |t.pending| + 1 by {
      assert n.pending.Keys == t.pending.Keys + {KeyFor(t)};
    }
  }

  lemma ReleasedKeeps(t: Table, key: nat)
    requires Valid(t) && key in t.pending
    ensures Valid(Released(t, key)) && Total(Released(t, key)) == Total(t)
    ensures |Released(t, key).pending| == |t.pending| - 1
  {
    var n := Released(t, key);
    assert n.pending.Keys == t.pending.Keys - {key};
    assert |n.pending| == |t.pending| - 1;
  }

  /** With all keys pending, the next one handed out is one of them. */
  lemma AllPendingCollides(t: Table, tx: nat)
    requires Valid(t) && |t.pending| == KEYS
    ensures KeyFor(t) == 0 && t.free == []
    ensures forall k: nat | k < KEYS :: k in t.pending
  {
    forall k: nat | k < KEYS ensures k in t.pending {
      if k !in t.pending {
        BoundedKeys(t.pending.Keys + {k}, KEYS);
      }
    }
  }

  lemma {:induction false} BoundedKeys(s: set<nat>, n: nat)
    requires forall k | k in s :: k < n
    ensures |s| <= n
  {
    if n == 0 {
      assert s == {};
    } else {
      BoundedKeys(s - {n - 1}, n - 1);
    }
  }

  // ---------------------------------------------------------------- both ends

  /** A request on its way: its key, the transaction that sent it, whether it was written in full. */
  datatype Request = Request(key: nat, tx: nat, written: bool)

  /** `delivered` pairs the sender of each answered request with the transaction resolved for it. */
  datatype System = System(table: Table, requests: seq<Request>, alive: bool, delivered: seq<(nat, nat)>)

  const START: System := System(Table([], 0, map[]), [], true, [])

  /**
   * A transaction is sent; the i-th request has been written, or could not be; the peer answers
   * the i-th request, and the transaction so resolved sends others; the tunnel is aborted.
   */
  datatype Event =
    | Send(tx: nat)
    | Written(i: nat)
    | WriteFailed(i: nat)
    | Answered(i: nat, resent: seq<nat>)
    | Aborted

  /** What the peer and the writer may do: only written requests are answered, each once. */
  predicate Possible(s: System, e: Event) {
    match e
    case Send(_) => |s.table.pending| < KEYS
    case Written(i) => i < |s.requests| && !s.requests[i].written
    case WriteFailed(i) => i < |s.requests| && !s.requests[i].written
    case Answered(i, resent) => s.alive && i < |s.requests| && s.requests[i].written && |s.table.pending| + |resent| <= KEYS
    case Aborted => true
  }

  function Sent(s: System, tx: nat): System {
    s.(table := Allocated(s.table, tx), requests := s.requests + [Request(KeyFor(s.table), tx, false)])
  }

  function SentAll(s: System, txs: seq<nat>): System
    decreases |txs|
  {
    if txs == [] then s else SentAll(Sent(s, txs[0]), txs[1..])
  }

  function Without(rs: seq<Request>, i: nat): seq<Request>
    requires i < |rs|
  {
    rs[..i] + rs[i + 1..]
  }

  /** The response: the transaction behind the key is resolved, sends what it sends, and only then the key is freed. */
  function Respond(s: System, i: nat, resent: seq<nat>): System
    requires i < |s.requests|
  {
    var key := s.requests[i].key;
    if key !in s.table.pending then s.(requests := Without(s.requests, i))
    else
      var resolved := s.(requests := Without(s.requests, i),
                         delivered := s.delivered + [(s.requests[i].tx, s.table.pending[key])]);
      var after := SentAll(resolved, resent);
      after.(table := Released(after.table, key))
  }

  function Step(s: System, e: Event): System
    requires Possible(s, e)
  {
    match e
    case Send(tx) => Sent(s, tx)
    case Written(i) => s.(requests := s.requests[i := s.requests[i].(written := true)])
    case WriteFailed(i) =>
      s.(table := Released(s.table, s.requests[i].key), requests := Without(s.requests, i))
    case Answered(i, resent) => Respond(s, i, resent)
    case Aborted => s.(alive := false)
  }

  /** Each request on its way holds its own key. */
  predicate Matched(t: Table, rs: seq<Request>) {
    && (forall i | 0 <= i < |rs| :: rs[i].key in t.pending && t.pending[rs[i].key] == rs[i].tx)
    && (forall i, j | 0 <= i < j < |rs| :: rs[i].key != rs[j].key)
  }

  predicate AllOwn(delivered: seq<(nat, nat)>) {
    forall i | 0 <= i < |delivered| :: delivered[i].0 == delivered[i].1
  }

  predicate Sound(s: System) {
    Valid(s.table) && Matched(s.table, s.requests) && AllOwn(s.delivered)
  }

  /** No key is pending but for a request on its way. */
  predicate Balanced(s: System) { |s.table.pending| == |s.requests| }

  /** The sender of the request that an event answers. */
  function AnsweredBy(s: System, e: Event): seq<nat>
    requires Possible(s, e)
  {
    if e.Answered? then [s.requests[e.i].tx] else []
  }

  function Pairs(txs: seq<nat>): seq<(nat, nat)> {
    seq(|txs|, i requires 0 <= i < |txs| => (txs[i], txs[i]))
  }

  lemma SentSound(s: System, tx: nat)
    requires Sound(s) && |s.table.pending| < KEYS
    ensures Sound(Sent(s, tx))
    ensures Sent(s, tx).table.pending == s.table.pending[KeyFor(s.table) := tx] && KeyFor(s.table) !in s.table.pending
    ensures |Sent(s, tx).table.pending| == |s.table.pending| + 1 && |Sent(s, tx).requests| == |s.requests| + 1
  {
    AllocatedIsNew(s.table, tx);
    assert Sent(s, tx).table.pending.Keys == s.table.pending.Keys + {KeyFor(s.table)};
  }

  /** Sending more keeps every pending key with its transaction, and no request takes one of them. */
  lemma {:induction false} SentAllSound(s: System, txs: seq<nat>, key: nat)
    requires Sound(s) && |s.table.pending| + |txs| <= KEYS
    requires key in s.table.pending && forall i | 0 <= i < |s.requests| :: s.requests[i].key != key
    ensures var n := SentAll(s, txs);
            && Sound(n) && n.alive == s.alive && n.delivered == s.delivered
            && key in n.table.pending
            && |n.table.pending| == |s.table.pending| + |txs| && |n.requests| == |s.requests| + |txs|
            && forall i | 0 <= i < |n.requests| :: n.requests[i].key != key
    decreases |txs|
  {
    if txs != [] {
      SentSound(s, txs[0]);
      SentAllSound(Sent(s, txs[0]), txs[1..], key);
    }
  }

  lemma ReleasedSound(s: System, key: nat)
    requires Sound(s) && key in s.table.pending && forall i | 0 <= i < |s.requests| :: s.requests[i].key != key
    ensures Sound(s.(table := Released(s.table, key))) && |Released(s.table, key).pending| == |s.table.pending| - 1
  {
    ReleasedKeeps(s.table, key);
  }

  lemma WithoutSound(s: System, i: nat, delivered: seq<(nat, nat)>)
    requires Sound(s) && i < |s.requests| && AllOwn(delivered)
    ensures var n := s.(requests := Without(s.requests, i), delivered := delivered);
            Sound(n) && forall j | 0 <= j < |n.requests| :: n.requests[j].key != s.requests[i].key
  {
    var rs, n := s.requests, Without(s.requests, i);
    forall j | 0 <= j < |n| ensures n[j] == rs[if j < i then j else j + 1] && n[j].key != rs[i].key {
    }
  }

  /** A response in the order it happens. */
  lemma RespondInOrder(s: System, i: nat, resent: seq<nat>, resolved: System, after: System)
    requires Sound(s) && Possible(s, Answered(i, resent))
    requires resolved == s.(requests := Without(s.requests, i),
                            delivered := s.delivered + [(s.requests[i].tx, s.table.pending[s.requests[i].key])])
    requires after == SentAll(resolved, resent)
    ensures Sound(resolved) && s.table.pending[s.requests[i].key] == s.requests[i].tx
    ensures Respond(s, i, resent) == after.(table := Released(after.table, s.requests[i].key))
    ensures Sound(Respond(s, i, resent))
  {
    WithoutSound(s, i, resolved.delivered);
    RespondSound(s, i, resent);
  }

  lemma RespondSound(s: System, i: nat, resent: seq<nat>)
    requires Sound(s) && Possible(s, Answered(i, resent))
    ensures Sound(Respond(s, i, resent)) && (Balanced(s) ==> Balanced(Respond(s, i, resent)))
    ensures Respond(s, i, resent).delivered == s.delivered + [(s.requests[i].tx, s.requests[i].tx)]
  {
    var key := s.requests[i].key;
    var delivered := s.delivered + [(s.requests[i].tx, s.table.pending[key])];
    WithoutSound(s, i, delivered);
    var resolved := s.(requests := Without(s.requests, i), delivered := delivered);
    SentAllSound(resolved, resent, key);
    ReleasedSound(SentAll(resolved, resent), key);
  }

  lemma StepSound(s: System, e: Event)
    requires Sound(s) && Possible(s, e)
    ensures Sound(Step(s, e)) && (Balanced(s) ==> Balanced(Step(s, e)))
    ensures Step(s, e).delivered == s.delivered + Pairs(AnsweredBy(s, e))
  {
    match e
    case Send(tx) => SentSound(s, tx);
    case Written(i) =>
    case WriteFailed(i) =>
      WithoutSound(s, i, s.delivered);
      ReleasedSound(s.(requests := Without(s.requests, i)), s.requests[i].key);
    case Answered(i, resent) => RespondSound(s, i, resent);
    case Aborted =>
  }

  predicate IsRun(s: System, events: seq<Event>)
    decreases |events|
  {
    events == [] || (Possible(s, events[0]) && IsRun(Step(s, events[0]), events[1..]))
  }

  function Run(s: System, events: seq<Event>): System
    requires IsRun(s, events)
    decreases |events|
  {
    if events == [] then s else Run(Step(s, events[0]), events[1..])
  }

  /** The senders of the requests answered in a run, in order. */
  function Senders(s: System, events: seq<Event>): seq<nat>
    requires IsRun(s, events)
    decreases |events|
  {
    if events == [] then [] else AnsweredBy(s, events[0]) + Senders(Step(s, events[0]), events[1..])
  }

  /**
   * In every run, each response resolves exactly the transaction that sent its request, once and in
   * order, and no key stays pending but for a request on its way.
   */
  lemma {:induction false} EveryRun(s: System, events: seq<Event>)
    requires Sound(s) && Balanced(s) && IsRun(s, events)
    ensures Sound(Run(s, events)) && Balanced(Run(s, events))
    ensures Run(s, events).delivered == s.delivered + Pairs(Senders(s, events))
    decreases |events|
  {
    if events == [] {
      assert s.delivered + Pairs([]) == s.delivered;
    } else {
      var next := Step(s, events[0]);
      StepSound(s, events[0]);
      EveryRun(next, events[1..]);
      PairsConcat(s.delivered, AnsweredBy(s, events[0]), Senders(next, events[1..]));
    }
  }

  lemma PairsConcat(d: seq<(nat, nat)>, a: seq<nat>, b: seq<nat>)
    ensures d + Pairs(a) + Pairs(b) == d + Pairs(a + b)
  {
    assert Pairs(a + b) == Pairs(a) + Pairs(b);
  }

  // ---------------------------------------------------------------- the tunnel itself

  class ByteStreamTunnel {
    var freeKeys: seq<nat>
    var nextKey: nat
    var pending: map<nat, nat>
    ghost var system: System

    ghost predicate Valid()
      reads this
    {
      system.table == Table(freeKeys, nextKey, pending) && Sound(system)
    }

    constructor ()
      ensures Valid() && system == START
    {
      freeKeys, nextKey, pending, system := [], 0, map[], START;
    }

    /** A transaction gets a key; its request starts to be written. */
    method ScheduleRemoteTransaction(tx: nat) returns (key: nat)
      requires Valid() && |pending| < KEYS
      modifies this
      ensures Valid() && system == Step(old(system), Send(tx))
      ensures key !in old(pending) && key !in freeKeys && pending == old(pending)[key := tx]
    {
      SentSound(system, tx);
      AllocatedIsNew(system.table, tx);
      if freeKeys != [] {
        key := freeKeys[|freeKeys| - 1];
        freeKeys := freeKeys[..|freeKeys| - 1];
      } else {
        key := nextKey;
        nextKey := (nextKey + 1) % KEYS;
      }
      pending := pending[key := tx];
      system := Sent(system, tx);
    }

    /** The i-th request could not be written. */
    method RequestFailed(key: nat, ghost i: nat)
      requires Valid() && Possible(system, WriteFailed(i)) && key == system.requests[i].key
      modifies this
      ensures Valid() && system == Step(old(system), WriteFailed(i))
      ensures key !in pending && key in freeKeys
    {
      StepSound(system, WriteFailed(i));
      pending := pending - {key};
      freeKeys := freeKeys + [key];
      system := Step(system, WriteFailed(i));
    }

    /** Sends the transactions of a resumed client. */
    method Resend(txs: seq<nat>)
      requires Valid() && |pending| + |txs| <= KEYS
      modifies this
      ensures system == SentAll(old(system), txs) && system.table == Table(freeKeys, nextKey, pending)
    {
      var k := 0;
      while k < |txs|
        invariant k <= |txs| && Valid() && |pending| + (|txs| - k) <= KEYS
        invariant SentAll(system, txs[k..]) == SentAll(old(system), txs)
      {
        SentSound(system, txs[k]);
        assert txs[k..][1..] == txs[k + 1..];
        var _ := ScheduleRemoteTransaction(txs[k]);
        k := k + 1;
      }
    }

    /**
     * A response, to the i-th request if there is one. The transaction it resolves is the one
     * that sent the request, whatever that transaction sends before the key is free again.
     */
    method HandleResponse(key: nat, resent: seq<nat>, ghost i: nat) returns (resolved: Option<nat>)
      requires Valid()
      requires key in pending ==> Possible(system, Answered(i, resent)) && key == system.requests[i].key
      modifies this
      ensures Valid()
      ensures resolved.Some? <==> key in old(pending)
      ensures resolved.Some? ==> resolved == Some(old(system).requests[i].tx) && key in freeKeys && key !in pending
      ensures system == if resolved.Some? then Step(old(system), Answered(i, resent)) else old(system)
    {
      if key !in pending {
        return None;
      }
      ghost var s := system;
      resolved := Some(pending[key]);
      ghost var first := s.(requests := Without(s.requests, i), delivered := s.delivered + [(s.requests[i].tx, pending[key])]);
      RespondInOrder(s, i, resent, first, SentAll(first, resent));
      system := first;
      Resend(resent);
      pending := pending - {key};
      freeKeys := freeKeys + [key];
      system := system.(table := Released(system.table, key));
    }
  }
}

/** The state of a pull-driven JTAG port and what its steps keep. */
module PullState {
  import opened Common
  import opened Num
  import opened Bits
  import opened JtagWire
  import opened PullSpec
  import opened QueueSpec

  // ---------------------------------------------------------------- the pulling side

  /** Bits sent so far, then what is left of the current action and transaction, then what is scheduled. */
  ghost predicate Sent(items: seq<Txn>, started: nat, acts: seq<JtagAct>, segs: seq<Segment>, tms: seq<bool>, tdi: seq<bool>) {
    && started <= |items|
    && |tms| == |tdi|
    && forall k: nat | IsKey(k) :: SentStreams(items, started, acts, segs, tms, tdi)
  }

  predicate SentStreams(items: seq<Txn>, started: nat, acts: seq<JtagAct>, segs: seq<Segment>, tms: seq<bool>, tdi: seq<bool>)
    requires started <= |items|
  {
    && tms + (TmsOfSegments(segs) + TmsStream(acts + Flatten(items[started..]))) == TmsStream(Flatten(items))
    && tdi + (TdiOfSegments(segs) + TdiStream(acts + Flatten(items[started..]))) == TdiStream(Flatten(items))
  }

  /** Cycles of started transactions that have not been sent. */
  function Pending(acts: seq<JtagAct>, segs: seq<Segment>): nat {
    |TmsOfSegments(segs)| + |TmsStream(acts)|
  }

  /** One more transaction makes what is scheduled, and the whole, longer at the end. */
  lemma OneMore(items: seq<Txn>, started: nat, acts: seq<JtagAct>, t: Txn)
    requires started <= |items|
    ensures acts + Flatten((items + [t])[started..]) == (acts + Flatten(items[started..])) + t
    ensures Flatten(items + [t]) == Flatten(items) + t
  {
    FlattenOne(t);
    FlattenConcat(items, [t]);
    assert (items + [t])[started..] == items[started..] + [t];
    FlattenConcat(items[started..], [t]);
    ActsAssoc(acts, Flatten(items[started..]), t);
  }

  lemma ActsAssoc(a: seq<JtagAct>, b: seq<JtagAct>, c: seq<JtagAct>)
    ensures a + (b + c) == (a + b) + c
  {
  }

  lemma SentEnqueue(items: seq<Txn>, started: nat, acts: seq<JtagAct>, segs: seq<Segment>, tms: seq<bool>, tdi: seq<bool>, t: Txn)
    requires Sent(items, started, acts, segs, tms, tdi) == true
    ensures Sent(items + [t], started, acts, segs, tms, tdi) == true
  {
    assert IsKey(0);
    OneMore(items, started, acts, t);
    var rest, whole := acts + Flatten(items[started..]), Flatten(items);
    TmsStreamConcat(rest, t);
    TmsStreamConcat(whole, t);
    Longer(tms, TmsOfSegments(segs), TmsStream(rest), TmsStream(t));
    TdiStreamConcat(rest, t);
    TdiStreamConcat(whole, t);
    Longer(tdi, TdiOfSegments(segs), TdiStream(rest), TdiStream(t));
  }

  lemma Longer(a: seq<bool>, b: seq<bool>, c: seq<bool>, d: seq<bool>)
    ensures a + (b + (c + d)) == a + (b + c) + d
  {
  }

  /** The next transaction becomes the current one. */
  lemma SentStart(items: seq<Txn>, started: nat, tms: seq<bool>, tdi: seq<bool>)
    requires Sent(items, started, [], [], tms, tdi) == true && started < |items|
    ensures Sent(items, started + 1, items[started], [], tms, tdi) == true
  {
    assert IsKey(0);
    assert items[started..] == [items[started]] + items[started + 1..];
    var rest := Flatten(items[started..]);
    assert [] + rest == rest;
    assert rest == items[started] + Flatten(items[started + 1..]);
  }

  /** The next action becomes the current one. */
  lemma SentAction(items: seq<Txn>, started: nat, acts: seq<JtagAct>, tms: seq<bool>, tdi: seq<bool>)
    requires Sent(items, started, acts, [], tms, tdi) == true && acts != []
    ensures Sent(items, started, acts[1..], SegmentsOf(acts[0]), tms, tdi) == true
    ensures Pending(acts, []) == Pending(acts[1..], SegmentsOf(acts[0]))
  {
    assert IsKey(0);
    SegmentsMean(acts[0]);
    var rest := Flatten(items[started..]);
    assert acts + rest == [acts[0]] + (acts[1..] + rest);
    assert (acts + rest)[1..] == acts[1..] + rest;
    assert TmsStream(acts + rest) == TmsOf(acts[0]) + TmsStream(acts[1..] + rest);
    assert TdiStream(acts + rest) == TdiOf(acts[0]) + TdiStream(acts[1..] + rest);
    assert [] + TmsStream(acts + rest) == TmsStream(acts + rest);
    assert [] + TdiStream(acts + rest) == TdiStream(acts + rest);
  }

  /** A segment is sent to its end. */
  lemma SentSegment(items: seq<Txn>, started: nat, acts: seq<JtagAct>, segs: seq<Segment>, tms: seq<bool>, tdi: seq<bool>)
    requires Sent(items, started, acts, segs, tms, tdi) == true && segs != [] && segs[0].bits == []
    ensures Sent(items, started, acts, segs[1..], tms, tdi) == true
    ensures Pending(acts, segs[1..]) == Pending(acts, segs)
  {
    assert IsKey(0);
    assert TmsOfSegment(segs[0]) == [] && TdiOfSegment(segs[0]) == [];
    assert TmsOfSegments(segs) == TmsOfSegments(segs[1..]);
    assert TdiOfSegments(segs) == TdiOfSegments(segs[1..]);
  }

  lemma SentSome(items: seq<Txn>, started: nat, acts: seq<JtagAct>, segs: seq<Segment>, tms: seq<bool>, tdi: seq<bool>, n: nat)
    requires Sent(items, started, acts, segs, tms, tdi) == true && segs != [] && n <= |segs[0].bits|
    ensures Sent(items, started, acts, [Cut(segs[0], n)] + segs[1..],
                 tms + TmsOfSegment(segs[0])[..n], tdi + TdiOfSegment(segs[0])[..n]) == true
  {
    assert IsKey(0);
    var after := [Cut(segs[0], n)] + segs[1..];
    assert after[1..] == segs[1..];
    CutMeans(segs[0], n);
    var rest := acts + Flatten(items[started..]);
    Regroup(tms, TmsOfSegment(segs[0])[..n], TmsOfSegment(after[0]), TmsOfSegments(segs[1..]), TmsStream(rest));
    Regroup(tdi, TdiOfSegment(segs[0])[..n], TdiOfSegment(after[0]), TdiOfSegments(segs[1..]), TdiStream(rest));
  }

  lemma Regroup(a: seq<bool>, b: seq<bool>, c: seq<bool>, d: seq<bool>, e: seq<bool>)
    ensures a + (((b + c) + d) + e) == (a + b) + ((c + d) + e)
  {
  }

  // ---------------------------------------------------------------- the pushing side

  /**
   * The TDO bits seen have been given to the actions in order: `reports` for those whose cycles
   * are over, `got` for the current one, action `doneActs` of transaction `resolved`.
   */
  ghost predicate Received(items: seq<Txn>, resolved: nat, doneActs: nat, got: seq<bool>, reports: seq<Report>, tdo: seq<bool>) {
    && resolved <= |items|
    && doneActs <= (if resolved < |items| then |items[resolved]| else 0)
    && |got| <= (if resolved < |items| && doneActs < |items[resolved]| then |items[resolved][doneActs].bits| else 0)
    && forall k: nat | IsKey(k) :: HandedOut(items, resolved, doneActs, got, reports, tdo)
  }

  predicate HandedOut(items: seq<Txn>, resolved: nat, doneActs: nat, got: seq<bool>, reports: seq<Report>, tdo: seq<bool>)
    requires resolved <= |items|
  {
    && var flat := Flatten(items);
       var k := |Flatten(items[..resolved])| + doneActs;
       && k <= |flat|
       && StartOf(flat, k) + |got| == |tdo|
       && tdo[StartOf(flat, k)..] == got
       && reports == Reports(flat, tdo, k)
  }

  lemma ItemInFlat(items: seq<Txn>, r: nat)
    requires r < |items|
    ensures var before := |Flatten(items[..r])|;
            && |Flatten(items[..r + 1])| == before + |items[r]| <= |Flatten(items)|
            && Flatten(items)[before..before + |items[r]|] == items[r]
  {
    assert items[..r + 1] == items[..r] + [items[r]];
    FlattenConcat(items[..r], [items[r]]);
    FlattenOne(items[r]);
    assert items == items[..r + 1] + items[r + 1..];
    FlattenConcat(items[..r + 1], items[r + 1..]);
    var a, b, c := Flatten(items[..r]), items[r], Flatten(items[r + 1..]);
    assert (a + b + c)[|a|..|a| + |b|] == b;
  }

  lemma ActInFlat(items: seq<Txn>, r: nat, j: nat)
    requires r < |items| && j < |items[r]|
    ensures |Flatten(items[..r])| + j < |Flatten(items[..r + 1])| <= |Flatten(items)|
    ensures Flatten(items)[|Flatten(items[..r])| + j] == items[r][j]
  {
    ItemInFlat(items, r);
    var before := |Flatten(items[..r])|;
    assert Flatten(items)[before + j] == Flatten(items)[before..before + |items[r]|][j];
  }

  lemma ReceivedEnqueue(items: seq<Txn>, resolved: nat, doneActs: nat, got: seq<bool>, reports: seq<Report>, tdo: seq<bool>, t: Txn)
    requires Received(items, resolved, doneActs, got, reports, tdo) == true
    ensures Received(items + [t], resolved, doneActs, got, reports, tdo) == true
  {
    assert IsKey(0);
    OneMore(items, 0, [], t);
    var flat := Flatten(items);
    var k := |Flatten(items[..resolved])| + doneActs;
    assert (items + [t])[..resolved] == items[..resolved];
    StartOfPrefix(flat, t, k);
    ReportsGrow(flat, t, tdo, [], k);
    assert tdo + [] == tdo;
  }

  lemma ReceivedBits(items: seq<Txn>, resolved: nat, doneActs: nat, got: seq<bool>, reports: seq<Report>, tdo: seq<bool>, more: seq<bool>)
    requires Received(items, resolved, doneActs, got, reports, tdo) == true
    requires resolved < |items| && doneActs < |items[resolved]| && |got| + |more| <= |items[resolved][doneActs].bits|
    ensures Received(items, resolved, doneActs, got + more, reports, tdo + more) == true
  {
    assert IsKey(0);
    var flat := Flatten(items);
    var k := |Flatten(items[..resolved])| + doneActs;
    ReportsGrow(flat, [], tdo, more, k);
    assert flat + [] == flat;
  }

  lemma ReceivedAction(items: seq<Txn>, resolved: nat, doneActs: nat, got: seq<bool>, reports: seq<Report>, tdo: seq<bool>)
    requires Received(items, resolved, doneActs, got, reports, tdo) == true
    requires resolved < |items| && doneActs < |items[resolved]| && |got| == |items[resolved][doneActs].bits|
    ensures Received(items, resolved, doneActs + 1, [], reports + [ReportOf(items[resolved][doneActs], got)], tdo) == true
  {
    assert IsKey(0);
    ActInFlat(items, resolved, doneActs);
    var flat, k := Flatten(items), |Flatten(items[..resolved])| + doneActs;
    assert StartOf(flat, k + 1) == |tdo|;
    assert tdo[StartOf(flat, k)..|tdo|] == got;
  }

  lemma ReceivedItem(items: seq<Txn>, resolved: nat, doneActs: nat, reports: seq<Report>, tdo: seq<bool>)
    requires Received(items, resolved, doneActs, [], reports, tdo) == true
    requires resolved < |items| && doneActs == |items[resolved]|
    ensures Received(items, resolved + 1, 0, [], reports, tdo) == true
  {
    assert IsKey(0);
    ItemInFlat(items, resolved);
  }

  // ---------------------------------------------------------------- the two sides together

  /** The cycle after the last one of the first n transactions. */
  function EndOf(items: seq<Txn>, n: nat): nat
    requires n <= |items|
  {
    |TmsStream(Flatten(items[..n]))|
  }

  lemma SentUpTo(items: seq<Txn>, started: nat, acts: seq<JtagAct>, segs: seq<Segment>, tms: seq<bool>, tdi: seq<bool>)
    requires Sent(items, started, acts, segs, tms, tdi) == true
    ensures started <= |items| && EndOf(items, started) == |tms| + Pending(acts, segs)
  {
    assert IsKey(0);
    var later := Flatten(items[started..]);
    TmsStreamConcat(acts, later);
    assert items == items[..started] + items[started..];
    FlattenConcat(items[..started], items[started..]);
    TmsStreamConcat(Flatten(items[..started]), later);
  }

  lemma {:induction false} StartOfMonotone(acts: seq<JtagAct>, j: nat, k: nat)
    requires j <= k <= |acts|
    ensures StartOf(acts, j) <= StartOf(acts, k)
    decreases k
  {
    if j < k {
      StartOfMonotone(acts, j, k - 1);
    }
  }

  lemma EndIsStart(items: seq<Txn>, n: nat)
    requires n <= |items|
    ensures |Flatten(items[..n])| <= |Flatten(items)|
    ensures EndOf(items, n) == StartOf(Flatten(items), |Flatten(items[..n])|)
  {
    assert items == items[..n] + items[n..];
    FlattenConcat(items[..n], items[n..]);
    var flat, m := Flatten(items), |Flatten(items[..n])|;
    StartIsLength(flat, m);
    assert flat[..m] == Flatten(items[..n]);
  }

  /** All TDO bits of the first transactions have been seen, and no more. */
  lemma ReceivedUpTo(items: seq<Txn>, resolved: nat, reports: seq<Report>, tdo: seq<bool>)
    requires Received(items, resolved, 0, [], reports, tdo) == true
    ensures resolved <= |items| && |tdo| == EndOf(items, resolved)
  {
    assert IsKey(0);
    EndIsStart(items, resolved);
  }

  lemma ReceivedOver(items: seq<Txn>, resolved: nat, doneActs: nat, got: seq<bool>, reports: seq<Report>, tdo: seq<bool>)
    requires Received(items, resolved, doneActs, got, reports, tdo) == true
    ensures resolved <= |items| && EndOf(items, resolved) <= |tdo|
  {
    assert IsKey(0);
    EndIsStart(items, resolved);
    var flat, before := Flatten(items), |Flatten(items[..resolved])|;
    StartOfMonotone(flat, before, before + doneActs);
  }

  lemma ReceivedReports(items: seq<Txn>, resolved: nat, doneActs: nat, got: seq<bool>, reports: seq<Report>, tdo: seq<bool>)
    requires Received(items, resolved, doneActs, got, reports, tdo) == true
    ensures |reports| <= |Flatten(items)| && StartOf(Flatten(items), |reports|) <= |tdo|
    ensures reports == Reports(Flatten(items), tdo, |reports|)
  {
    assert IsKey(0);
  }

  /** An action of transaction `resolved` still lacks bits: the transaction is not over. */
  lemma ReceivedLess(items: seq<Txn>, resolved: nat, doneActs: nat, got: seq<bool>, reports: seq<Report>, tdo: seq<bool>)
    requires Received(items, resolved, doneActs, got, reports, tdo) == true
    requires resolved < |items| && doneActs < |items[resolved]| && |got| < |items[resolved][doneActs].bits|
    ensures |tdo| < EndOf(items, resolved + 1)
  {
    assert IsKey(0);
    ActInFlat(items, resolved, doneActs);
    EndIsStart(items, resolved + 1);
    var flat, k, end := Flatten(items), |Flatten(items[..resolved])| + doneActs, |Flatten(items[..resolved + 1])|;
    StartOfMonotone(flat, k + 1, end);
  }

  /**
   * TDO never runs ahead; with everything started resolved there is no current action; and a
   * link out of the last transaction started exists only while that one has cycles to send.
   */
  predicate Paired(q: Queue, pending: nat, doneActs: nat, got: seq<bool>, seen: nat, sent: nat) {
    && seen <= sent
    && (q.resolved == q.started ==> doneActs == 0 && got == [])
    && (0 < q.started <= |q.links| && q.links[q.started - 1] ==> pending > 0)
  }

  /** What has been sent is the beginning of the two streams. */
  lemma SentSoFar(items: seq<Txn>, started: nat, acts: seq<JtagAct>, segs: seq<Segment>, tms: seq<bool>, tdi: seq<bool>)
    requires Sent(items, started, acts, segs, tms, tdi) == true
    ensures tms <= TmsStream(Flatten(items)) && tdi <= TdiStream(Flatten(items))
    ensures |tms| == |tdi|
  {
    assert IsKey(0);
  }

  lemma StillPending(items: seq<Txn>, started: nat, acts: seq<JtagAct>, segs: seq<Segment>, tms: seq<bool>, tdi: seq<bool>)
    requires Sent(items, started, acts, segs, tms, tdi) == true && segs != [] && segs[0].bits != []
    ensures Pending(acts, segs) > 0 && |tms| < |TmsStream(Flatten(items))|
  {
    assert IsKey(0);
  }

  lemma NonePending(items: seq<Txn>, started: nat, tms: seq<bool>, tdi: seq<bool>)
    requires Sent(items, started, [], [], tms, tdi) == true && started == |items|
    ensures |tms| == |TmsStream(Flatten(items))|
  {
    assert IsKey(0);
    assert items[started..] == [];
  }

  // ---------------------------------------------------------------- the whole port

  /** The queue, the pulling generator, all bits sent, the pushing generator, all bits seen. */
  datatype Port = Port(
    items: seq<Txn>, q: Queue,
    acts: seq<JtagAct>, segs: seq<Segment>, tms: seq<bool>, tdi: seq<bool>,
    doneActs: nat, got: seq<bool>, reports: seq<Report>, tdo: seq<bool>)

  /** The invariant; in the middle of a pull the last transaction started may be all sent. */
  ghost predicate Right(p: Port, resting: bool) {
    && QueueSpec.Valid(p.q) && |p.items| == p.q.total
    && (p.q.busy ==> p.q.resolved < p.q.started)
    && Sent(p.items, p.q.started, p.acts, p.segs, p.tms, p.tdi) == true
    && Received(p.items, p.q.resolved, p.doneActs, p.got, p.reports, p.tdo) == true
    && Paired(p.q, if resting then Pending(p.acts, p.segs) else 1, p.doneActs, p.got, |p.tdo|, |p.tms|) == true
  }

  /** The invariant behind a key. */
  ghost predicate Kept(p: Port, resting: bool) {
    forall k: nat | IsKey(k) :: Right(p, resting)
  }

  lemma Open(p: Port, resting: bool)
    requires Kept(p, resting)
    ensures Right(p, resting) == true
  {
    assert IsKey(0);
  }

  /** The part of it that the port's methods need to see. */
  predicate Plain(p: Port) {
    && |p.items| == p.q.total
    && p.q.resolved <= p.q.started <= p.q.total
    && (p.q.busy ==> p.q.resolved < p.q.started)
    && (!p.q.busy ==> p.q.resolved == p.q.started)
    && (p.q.resolved < |p.items| ==> p.doneActs <= |p.items[p.q.resolved]|)
    && (p.q.resolved < |p.items| && p.doneActs < |p.items[p.q.resolved]| ==>
          |p.got| <= |p.items[p.q.resolved][p.doneActs].bits|)
    && |p.tdo| <= |p.tms| == |p.tdi|
  }

  lemma ItIsPlain(p: Port, resting: bool)
    requires Kept(p, resting)
    ensures Plain(p)
  {
    Open(p, resting);
  }

  lemma KeptFresh()
    ensures Kept(Port([], EMPTY, [], [], [], [], 0, [], [], []), true)
  {
  }

  lemma PairedEnqueue(q: Queue, pending: nat, doneActs: nat, got: seq<bool>, seen: nat, sent: nat)
    requires QueueSpec.Valid(q) && Paired(q, pending, doneActs, got, seen, sent)
    ensures Paired(Enqueued(q), pending, doneActs, got, seen, sent) == true
    ensures Enqueued(q).started == q.started && Enqueued(q).resolved == q.resolved && Enqueued(q).busy == q.busy
    ensures Enqueued(q).total == q.total + 1
  {
  }

  lemma KeptEnqueue(p: Port, t: Txn)
    requires Kept(p, true)
    ensures QueueSpec.Valid(p.q)
    ensures Kept(p.(items := p.items + [t], q := Enqueued(p.q)), true)
  {
    Open(p, true);
    SentEnqueue(p.items, p.q.started, p.acts, p.segs, p.tms, p.tdi, t);
    ReceivedEnqueue(p.items, p.q.resolved, p.doneActs, p.got, p.reports, p.tdo, t);
    PairedEnqueue(p.q, Pending(p.acts, p.segs), p.doneActs, p.got, |p.tdo|, |p.tms|);
  }

  lemma KeptPulling(p: Port)
    requires Kept(p, true)
    ensures Kept(p, false)
  {
    Open(p, true);
  }

  lemma KeptSome(p: Port, n: nat)
    requires Kept(p, false) && p.segs != [] && n <= |p.segs[0].bits|
    ensures Kept(p.(segs := [Cut(p.segs[0], n)] + p.segs[1..],
                    tms := p.tms + TmsOfSegment(p.segs[0])[..n], tdi := p.tdi + TdiOfSegment(p.segs[0])[..n]), false)
  {
    Open(p, false);
    SentSome(p.items, p.q.started, p.acts, p.segs, p.tms, p.tdi, n);
  }

  lemma KeptSegment(p: Port)
    requires Kept(p, false) && p.segs != [] && p.segs[0].bits == []
    ensures Kept(p.(segs := p.segs[1..]), false)
  {
    Open(p, false);
    SentSegment(p.items, p.q.started, p.acts, p.segs, p.tms, p.tdi);
  }

  lemma KeptAction(p: Port)
    requires Kept(p, false) && p.segs == [] && p.acts != []
    ensures Kept(p.(segs := SegmentsOf(p.acts[0]), acts := p.acts[1..]), false)
  {
    Open(p, false);
    SentAction(p.items, p.q.started, p.acts, p.tms, p.tdi);
  }

  /** The next transaction starts: never by writing into one that is gone. */
  lemma KeptStart(p: Port)
    requires Kept(p, false) && p.segs == [] && p.acts == [] && p.q.started < p.q.total
    ensures p.q.started < |p.items| && QueueSpec.Valid(p.q) && !WritesResolved(p.q)
    ensures Kept(p.(q := Started(p.q), acts := p.items[p.q.started]), false)
  {
    Open(p, false);
    SentStart(p.items, p.q.started, p.tms, p.tdi);
  }

  /** A pull stops with nothing left to send, or with its buffers full and a cycle pending. */
  lemma KeptRest(p: Port)
    requires Kept(p, false)
    requires (p.segs != [] && p.segs[0].bits != []) || (p.segs == [] && p.acts == [] && p.q.started == p.q.total)
    ensures Kept(p, true)
    ensures p.segs == [] ==> |p.tms| == |TmsStream(Flatten(p.items))|
  {
    Open(p, false);
    if p.segs == [] {
      NonePending(p.items, p.q.started, p.tms, p.tdi);
    } else {
      StillPending(p.items, p.q.started, p.acts, p.segs, p.tms, p.tdi);
    }
  }

  /** What has been pulled, for any split into buffers, is the beginning of the two streams. */
  lemma PulledBits(p: Port)
    requires Kept(p, true)
    ensures p.tms <= TmsStream(Flatten(p.items)) && p.tdi <= TdiStream(Flatten(p.items)) && |p.tms| == |p.tdi|
  {
    Open(p, true);
    SentSoFar(p.items, p.q.started, p.acts, p.segs, p.tms, p.tdi);
  }

  lemma KeptBits(p: Port, more: seq<bool>)
    requires Kept(p, true) && p.q.resolved < |p.items| && p.doneActs < |p.items[p.q.resolved]|
    requires |p.got| + |more| <= |p.items[p.q.resolved][p.doneActs].bits| && p.q.busy && |p.tdo| + |more| <= |p.tms|
    ensures Kept(p.(got := p.got + more, tdo := p.tdo + more), true)
  {
    Open(p, true);
    ReceivedBits(p.items, p.q.resolved, p.doneActs, p.got, p.reports, p.tdo, more);
  }

  lemma KeptActionDone(p: Port, a: JtagAct, done: nat, reports: seq<Report>)
    requires Kept(p, true) && p.q.busy && p.q.resolved < |p.items| && p.doneActs < |p.items[p.q.resolved]|
    requires a == p.items[p.q.resolved][p.doneActs] && |p.got| == |a.bits|
    requires done == p.doneActs + 1 && reports == p.reports + [ReportOf(a, p.got)]
    ensures Kept(p.(doneActs := done, got := [], reports := reports), true)
  {
    Open(p, true);
    ReceivedAction(p.items, p.q.resolved, p.doneActs, p.got, p.reports, p.tdo);
  }

  lemma KeptLess(p: Port)
    requires Kept(p, true) && p.q.resolved < |p.items| && p.doneActs < |p.items[p.q.resolved]|
    requires |p.got| < |p.items[p.q.resolved][p.doneActs].bits|
    ensures |p.tdo| < EndOf(p.items, p.q.resolved + 1)
  {
    Open(p, true);
    ReceivedLess(p.items, p.q.resolved, p.doneActs, p.got, p.reports, p.tdo);
  }

  /** Every resolved transaction is over. */
  lemma KeptOver(p: Port)
    requires Kept(p, true)
    ensures p.q.resolved <= |p.items| && EndOf(p.items, p.q.resolved) <= |p.tdo|
  {
    Open(p, true);
    ReceivedOver(p.items, p.q.resolved, p.doneActs, p.got, p.reports, p.tdo);
  }

  /** With all TDO of the transactions up to the last one started seen, that one has nothing left to send. */
  lemma PairedResolve(q: Queue, pending: nat, doneActs: nat, got: seq<bool>, seen: nat, sent: nat)
    requires QueueSpec.Valid(q) && q.busy && q.resolved < q.started && Paired(q, pending, doneActs, got, seen, sent)
    requires q.resolved + 1 == q.started ==> seen == sent + pending
    ensures Paired(Prepared(q), pending, 0, [], seen, sent) == true
    ensures Prepared(q).busy ==> Prepared(q).resolved < Prepared(q).started
    ensures Prepared(q).resolved == q.resolved + 1 && Prepared(q).started == q.started && Prepared(q).total == q.total
  {
  }

  /** The current transaction is over: resolving it leaves the in-progress cursor right. */
  lemma KeptResolve(p: Port)
    requires Kept(p, true) && p.q.busy && p.q.resolved < |p.items| && p.doneActs == |p.items[p.q.resolved]|
    ensures QueueSpec.Valid(p.q) && p.q.resolved < p.q.started
    ensures Kept(p.(q := Prepared(p.q), doneActs := 0, got := []), true)
  {
    Open(p, true);
    ReceivedItem(p.items, p.q.resolved, p.doneActs, p.reports, p.tdo);
    ReceivedUpTo(p.items, p.q.resolved + 1, p.reports, p.tdo);
    SentUpTo(p.items, p.q.started, p.acts, p.segs, p.tms, p.tdi);
    PairedResolve(p.q, Pending(p.acts, p.segs), p.doneActs, p.got, |p.tdo|, |p.tms|);
  }

  /** Nothing in progress: every bit pulled has been answered. */
  lemma KeptIdle(p: Port)
    requires Kept(p, true) && !p.q.busy
    ensures |p.tdo| == |p.tms| && p.q.resolved == p.q.started
  {
    Open(p, true);
    ReceivedUpTo(p.items, p.q.resolved, p.reports, p.tdo);
    SentUpTo(p.items, p.q.started, p.acts, p.segs, p.tms, p.tdi);
  }

  /** TMS during a shift of n bits: low, and as asked for at the last bit. */
  function LastHigh(n: nat, last: bool): seq<bool> {
    seq(n, j => last && j == n - 1)
  }

  /**
   * Every shift that has reported holds the TDO bits of exactly the cycles in which its TDI
   * bits were pulled.
   */
  lemma OwnTdo(p: Port, k: nat)
    requires Kept(p, true) == true && k < |p.reports|
    ensures k < |Flatten(p.items)|
    ensures var a := Flatten(p.items)[k];
            var at, end := StartOf(Flatten(p.items), k), StartOf(Flatten(p.items), k + 1);
            && at + |a.bits| == end <= |p.tdo| <= |p.tms| == |p.tdi|
            && p.reports[k] == (if a.PutTDIGetTDO? then TdoBits(p.tdo[at..end]) else NumPut(|a.bits|))
            && (a.PutTMS? ==> p.tms[at..end] == a.bits && p.tdi[at..end] == Zeros(|a.bits|))
            && (!a.PutTMS? ==> p.tdi[at..end] == a.bits && p.tms[at..end] == LastHigh(|a.bits|, a.lastTms))
  {
    Open(p, true);
    var flat := Flatten(p.items);
    ReceivedReports(p.items, p.q.resolved, p.doneActs, p.got, p.reports, p.tdo);
    ReportsAt(flat, p.tdo, |p.reports|, k);
    PulledBits(p);
    PulledPart(flat, p.tms, p.tdi, k);
    PinsOf(flat[k]);
    CyclesCarry(flat, k);
  }

  lemma PinsOf(a: JtagAct)
    ensures a.PutTMS? ==> TmsOf(a) == a.bits && TdiOf(a) == Zeros(|a.bits|)
    ensures !a.PutTMS? ==> TdiOf(a) == a.bits && TmsOf(a) == LastHigh(|a.bits|, a.lastTms)
  {
  }

  lemma PulledPart(flat: seq<JtagAct>, tms: seq<bool>, tdi: seq<bool>, k: nat)
    requires k < |flat| && tms <= TmsStream(flat) && tdi <= TdiStream(flat) && |tms| == |tdi|
    requires StartOf(flat, k + 1) <= |tms|
    ensures StartOf(flat, k) <= StartOf(flat, k + 1)
    ensures tms[StartOf(flat, k)..StartOf(flat, k + 1)] == TmsOf(flat[k])
    ensures tdi[StartOf(flat, k)..StartOf(flat, k + 1)] == TdiOf(flat[k])
  {
    CyclesCarry(flat, k);
    var at, end := StartOf(flat, k), StartOf(flat, k + 1);
    PrefixPart(tms, TmsStream(flat), at, end);
    PrefixPart(tdi, TdiStream(flat), at, end);
  }

  lemma PrefixPart(a: seq<bool>, b: seq<bool>, i: nat, j: nat)
    requires a <= b && i <= j <= |a|
    ensures a[i..j] == b[i..j]
  {
  }
}

/**
 * The pull-driven JTAG port: two resumable generators over one queue of transactions. A pull
 * fills two buffers with the next TMS and TDI bits; a push hands in the TDO bits of cycles
 * already pulled. A generator's local variables are fields here, so that a call resumes where
 * the last one stopped.
 */
module PullJtag {
  import opened Num
  import opened Bits
  import opened JtagWire
  import opened PullSpec
  import opened PullState
  import opened QueueSpec

  /** The generator's inner write: data to one buffer, as many fillers to the other. */
  method TryWrite(s: Segment, tmsRoom: nat, tdiRoom: nat)
    returns (rest: Segment, tms: seq<bool>, tdi: seq<bool>, tmsLeft: nat, tdiLeft: nat)
    ensures var n := Min(|s.bits|, Min(tmsRoom, tdiRoom));
            && rest == Cut(s, n) && tms == TmsOfSegment(s)[..n] && tdi == TdiOfSegment(s)[..n]
            && Min(tmsLeft, tdiLeft) == Min(tmsRoom, tdiRoom) - n
  {
    var dataRoom, fillerRoom := tmsRoom, tdiRoom;
    if !s.onTms {
      dataRoom, fillerRoom := tdiRoom, tmsRoom;
    }
    if fillerRoom < dataRoom {
      dataRoom := fillerRoom;
    }
    var toWrite: nat := Min(dataRoom, |s.bits|);
    var data := s.bits[..toWrite];
    var fill := [];
    var toFill: nat := toWrite;
    while toFill != 0
      invariant toFill <= toWrite && fill == Repeat(s.filler, toWrite - toFill)
    {
      var k := Min(64, toFill);
      fill := fill + Repeat(s.filler, k);
      toFill := toFill - k;
    }
    rest := Cut(s, toWrite);
    if s.onTms {
      tms, tdi, tmsLeft, tdiLeft := data, fill, dataRoom - toWrite, fillerRoom - toWrite;
    } else {
      tms, tdi, tmsLeft, tdiLeft := fill, data, fillerRoom - toWrite, dataRoom - toWrite;
    }
  }

  class PullJtag {
    var items: seq<Txn>
    var queue: Queue
    // The pulling generator's current transaction and action.
    var acts: seq<JtagAct>
    var segs: seq<Segment>
    // The pushing generator's current transaction and action.
    var doneActs: nat
    var got: seq<bool>
    var reports: seq<Report>
    // All bits sent and seen.
    ghost var tms: seq<bool>
    ghost var tdi: seq<bool>
    ghost var tdo: seq<bool>

    ghost function State(): Port
      reads this
    {
      Port(items, queue, acts, segs, tms, tdi, doneActs, got, reports, tdo)
    }

    ghost predicate Valid()
      reads this
    {
      Kept(State(), true) && Plain(State())
    }

    constructor ()
      ensures Valid() && items == [] && tms == [] && tdi == [] && tdo == [] && reports == []
    {
      items, queue, acts, segs, doneActs, got, reports := [], EMPTY, [], [], 0, [], [];
      tms, tdi, tdo := [], [], [];
      new;
      KeptFresh();
      ItIsPlain(State(), true);
    }

    /** A client's transaction enters the queue. */
    method Execute(t: Txn)
      requires Valid()
      modifies this`items, this`queue
      ensures Valid() && items == old(items) + [t]
      ensures queue.resolved == old(queue).resolved && queue.started == old(queue).started
    {
      KeptEnqueue(State(), t);
      items := items + [t];
      queue := Enqueued(queue);
      ItIsPlain(State(), true);
    }

    /** Writes what fits of the current segment. */
    method WriteSegment(tmsRoom: nat, tdiRoom: nat) returns (t: seq<bool>, d: seq<bool>, tmsLeft: nat, tdiLeft: nat, full: bool)
      requires Kept(State(), false) && segs != []
      modifies this`segs, this`tms, this`tdi
      ensures Kept(State(), false)
      ensures tms == old(tms) + t && tdi == old(tdi) + d && |t| == |d|
      ensures |t| + Min(tmsLeft, tdiLeft) == Min(tmsRoom, tdiRoom)
      ensures full ==> Min(tmsLeft, tdiLeft) == 0 && segs != [] && segs[0].bits != []
      ensures !full ==> |segs| < |old(segs)|
    {
      var rest;
      KeptSome(State(), Min(|segs[0].bits|, Min(tmsRoom, tdiRoom)));
      rest, t, d, tmsLeft, tdiLeft := TryWrite(segs[0], tmsRoom, tdiRoom);
      tms, tdi := tms + t, tdi + d;
      segs := [rest] + segs[1..];
      full := rest.bits != [];
      if !full {
        KeptSegment(State());
        segs := segs[1..];
      }
    }

    /** The next action, or the next transaction. */
    method Advance()
      requires Kept(State(), false)
      requires segs == [] && (acts != [] || queue.started < queue.total)
      modifies this`queue, this`acts, this`segs
      ensures Kept(State(), false)
      ensures queue.resolved == old(queue).resolved && queue.total == old(queue).total
      ensures old(queue).started <= queue.started && (queue.started == old(queue).started ==> |acts| < |old(acts)|)
    {
      if acts != [] {
        KeptAction(State());
        segs, acts := SegmentsOf(acts[0]), acts[1..];
      } else {
        KeptStart(State());
        assert !WritesResolved(queue);
        acts := items[queue.started];
        queue := Started(queue);
      }
    }

    /** Fills two buffers with the next bits: as many as both have room for and transactions have. */
    method Pull(tmsSize: nat, tdiSize: nat) returns (n: nat, outTms: seq<bool>, outTdi: seq<bool>)
      requires Valid()
      modifies this`queue, this`acts, this`segs, this`tms, this`tdi
      ensures Valid()
      ensures tms == old(tms) + outTms && tdi == old(tdi) + outTdi && tms <= TmsStream(Flatten(items))
      ensures n == |outTms| == |outTdi| == Min(Min(tmsSize, tdiSize), |TmsStream(Flatten(items))| - |old(tms)|)
      ensures queue.resolved == old(queue).resolved && queue.total == old(queue).total
    {
      outTms, outTdi := [], [];
      var tmsRoom, tdiRoom := tmsSize, tdiSize;
      var full := false;
      KeptPulling(State());
      while !full && (segs != [] || acts != [] || queue.started < queue.total)
        invariant Kept(State(), false)
        invariant |outTms| + Min(tmsRoom, tdiRoom) == Min(tmsSize, tdiSize)
        invariant tms == old(tms) + outTms && tdi == old(tdi) + outTdi && |outTms| == |outTdi|
        invariant queue.resolved == old(queue).resolved && queue.total == old(queue).total
        invariant queue.started <= queue.total
        invariant full ==> Min(tmsRoom, tdiRoom) == 0 && segs != [] && segs[0].bits != []
        decreases !full, queue.total - queue.started, |acts|, |segs|
      {
        if segs != [] {
          var t, d;
          t, d, tmsRoom, tdiRoom, full := WriteSegment(tmsRoom, tdiRoom);
          Assoc(old(tms), outTms, t);
          Assoc(old(tdi), outTdi, d);
          outTms, outTdi := outTms + t, outTdi + d;
        } else {
          Advance();
          ItIsPlain(State(), false);
        }
      }
      n := |outTms|;
      KeptRest(State());
      ItIsPlain(State(), true);
      PulledBits(State());
    }

    /** The current action takes what it needs of the TDO bits. */
    method TakeBits(source: seq<bool>, need: nat) returns (rest: seq<bool>)
      requires Valid() && queue.busy && |tdo| + |source| <= |tms|
      requires queue.resolved < |items| && doneActs < |items[queue.resolved]|
      requires need == |items[queue.resolved][doneActs].bits| - |got|
      modifies this`got, this`tdo
      ensures Valid() && |tdo| + |rest| <= |tms| && tdo + rest == old(tdo) + source
      ensures |got| == old(|got|) + Min(need, |source|) && |rest| == |source| - Min(need, |source|)
    {
      var k := Min(need, |source|);
      var more := source[..k];
      rest := source[k..];
      KeptBits(State(), more);
      Assoc(tdo, more, rest);
      assert more + rest == source;
      got, tdo := got + more, tdo + more;
      ItIsPlain(State(), true);
    }

    /** Its cycles over, the current action reports. */
    method FinishAction()
      requires Valid() && queue.busy && queue.resolved < |items| && doneActs < |items[queue.resolved]|
      requires |got| == |items[queue.resolved][doneActs].bits|
      modifies this`doneActs, this`got, this`reports
      ensures Valid() && doneActs == old(doneActs) + 1
    {
      var act := items[queue.resolved][doneActs];
      var next := reports + [ReportOf(act, got)];
      KeptActionDone(State(), act, doneActs + 1, next);
      reports, doneActs, got := next, doneActs + 1, [];
      ItIsPlain(State(), true);
    }

    /** Transactions executed one after the other. */
    method Arrive(more: seq<Txn>)
      requires Valid()
      modifies this`items, this`queue
      ensures Valid() && items == old(items) + more
      ensures queue.resolved == old(queue).resolved && queue.started == old(queue).started
    {
      var k := 0;
      while k < |more|
        invariant k <= |more| && Valid() && items == old(items) + more[..k]
        invariant queue.resolved == old(queue).resolved && queue.started == old(queue).started
      {
        Execute(more[k]);
        assert more[..k + 1] == more[..k] + [more[k]];
        k := k + 1;
      }
      assert more[..k] == more;
    }

    /** The current transaction is resolved, and its owner, resumed, may execute more. */
    method Resolve(more: seq<Txn>)
      requires Valid() && queue.busy
      requires queue.resolved < |items| && doneActs == |items[queue.resolved]|
      modifies this`items, this`queue, this`doneActs, this`got
      ensures Valid() && items == old(items) + more
      ensures queue.resolved == old(queue).resolved + 1 && queue.started == old(queue).started
    {
      KeptResolve(State());
      queue, doneActs, got := Prepared(queue), 0, [];
      ItIsPlain(State(), true);
      Arrive(more);
    }

    /**
     * Hands in TDO bits of cycles already pulled. `arrivals` says which transactions the owner
     * of each resolved one executes when it is resumed.
     */
    method Push(source: seq<bool>, arrivals: nat -> seq<Txn>) returns (consumed: nat)
      requires Valid() && |tdo| + |source| <= |tms|
      modifies this`items, this`queue, this`doneActs, this`got, this`reports, this`tdo
      ensures Valid() && old(items) <= items
      ensures consumed == |source| && tdo == old(tdo) + source
      ensures queue.started == old(queue).started && old(queue).resolved <= queue.resolved
      // Resolved are exactly the started transactions all of whose cycles are over.
      ensures EndOf(items, queue.resolved) <= |tdo|
      ensures queue.resolved == queue.started || |tdo| < EndOf(items, queue.resolved + 1)
    {
      consumed := 0;
      var rest := source;
      while queue.busy
        invariant Valid() && |tdo| + |rest| <= |tms| && tdo + rest == old(tdo) + source
        invariant consumed == |source| - |rest|
        invariant old(items) <= items
        invariant queue.started == old(queue).started && old(queue).resolved <= queue.resolved
        decreases queue.started - queue.resolved,
                  if queue.resolved < |items| then |items[queue.resolved]| - doneActs else 0
      {
        if doneActs < |items[queue.resolved]| {
          var bits, before := items[queue.resolved][doneActs].bits, |got|;
          rest := TakeBits(rest, |bits| - |got|);
          consumed := consumed + (|got| - before);
          if |got| != |bits| {
            KeptLess(State());
            KeptOver(State());
            return;
          }
          FinishAction();
        } else {
          Resolve(arrivals(queue.resolved));
        }
      }
      KeptIdle(State());
      KeptOver(State());
    }
  }
}

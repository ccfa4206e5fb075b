/**
 * What a pull-driven JTAG port sends and receives, as plain bit sequences. Transactions are
 * numbered in the order they were enqueued; all their actions together make one long sequence,
 * whose cycles are numbered from 0.
 */
module PullSpec {
  import opened Bits
  import opened JtagWire

  type Txn = seq<JtagAct>

  function Flatten(items: seq<Txn>): seq<JtagAct> {
    if items == [] then [] else items[0] + Flatten(items[1..])
  }

  lemma {:induction false} FlattenConcat(a: seq<Txn>, b: seq<Txn>)
    ensures Flatten(a + b) == Flatten(a) + Flatten(b)
  {
    if a == [] {
      assert a + b == b;
    } else {
      assert (a + b)[0] == a[0] && (a + b)[1..] == a[1..] + b;
      FlattenConcat(a[1..], b);
      var head, tail, rest := a[0], Flatten(a[1..]), Flatten(b);
      assert head + tail + rest == head + (tail + rest);
    }
  }

  lemma FlattenOne(t: Txn)
    ensures Flatten([t]) == t
  {
    assert [t][1..] == [];
    assert t + [] == t;
  }

  /** The cycle at which action k begins. */
  function StartOf(acts: seq<JtagAct>, k: nat): nat
    requires k <= |acts|
  {
    if k == 0 then 0 else StartOf(acts, k - 1) + |acts[k - 1].bits|
  }

  lemma {:induction false} StartOfPrefix(acts: seq<JtagAct>, more: seq<JtagAct>, k: nat)
    requires k <= |acts|
    ensures StartOf(acts + more, k) == StartOf(acts, k)
  {
    if k > 0 {
      StartOfPrefix(acts, more, k - 1);
    }
  }

  lemma {:induction false} StartIsLength(acts: seq<JtagAct>, k: nat)
    requires k <= |acts|
    ensures StartOf(acts, k) == |TmsStream(acts[..k])| == |TdiStream(acts[..k])|
  {
    if k == 0 {
      assert acts[..0] == [];
    } else {
      StartIsLength(acts, k - 1);
      assert acts[..k] == acts[..k - 1] + [acts[k - 1]];
      TmsStreamConcat(acts[..k - 1], [acts[k - 1]]);
      TmsStreamOne(acts[k - 1]);
      StreamsEquallyLong(acts[..k]);
    }
  }

  /** An action's cycles carry its own bits. */
  lemma CyclesCarry(acts: seq<JtagAct>, k: nat)
    requires k < |acts|
    ensures StartOf(acts, k + 1) == StartOf(acts, k) + |acts[k].bits| <= |TdiStream(acts)| == |TmsStream(acts)|
    ensures TmsStream(acts)[StartOf(acts, k)..StartOf(acts, k + 1)] == TmsOf(acts[k])
    ensures TdiStream(acts)[StartOf(acts, k)..StartOf(acts, k + 1)] == TdiOf(acts[k])
  {
    var before, mid, after := acts[..k], [acts[k]], acts[k + 1..];
    assert acts == before + (mid + after);
    StartIsLength(acts, k);
    StreamsEquallyLong(acts);
    TmsStreamConcat(before, mid + after);
    TdiStreamConcat(before, mid + after);
    TmsStreamConcat(mid, after);
    TdiStreamConcat(mid, after);
    TmsStreamOne(acts[k]);
    assert mid[1..] == [];
    assert TdiStream(mid) == TdiOf(acts[k]) + TdiStream(mid[1..]);
    Middle(TmsStream(before), TmsOf(acts[k]), TmsStream(after));
    Middle(TdiStream(before), TdiOf(acts[k]), TdiStream(after));
  }

  lemma Middle(a: seq<bool>, b: seq<bool>, c: seq<bool>)
    ensures (a + (b + c))[|a|..|a| + |b|] == b
  {
  }

  // ---------------------------------------------------------------- pulling

  /** A stretch of cycles: data on one pin, a filler on the other. */
  datatype Segment = Segment(onTms: bool, bits: seq<bool>, filler: bool)

  function TmsOfSegment(s: Segment): (r: seq<bool>)
    ensures |r| == |s.bits|
  {
    if s.onTms then s.bits else Repeat(s.filler, |s.bits|)
  }

  function TdiOfSegment(s: Segment): (r: seq<bool>)
    ensures |r| == |s.bits|
  {
    if s.onTms then Repeat(s.filler, |s.bits|) else s.bits
  }

  function TmsOfSegments(segs: seq<Segment>): seq<bool> {
    if segs == [] then [] else TmsOfSegment(segs[0]) + TmsOfSegments(segs[1..])
  }

  function TdiOfSegments(segs: seq<Segment>): seq<bool> {
    if segs == [] then [] else TdiOfSegment(segs[0]) + TdiOfSegments(segs[1..])
  }

  /** How an action is sent: a shift that ends with TMS high is split before its last bit. */
  function SegmentsOf(a: JtagAct): seq<Segment> {
    if a.PutTMS? then [Segment(true, a.bits, false)]
    else if a.bits == [] then []
    else if !a.lastTms then [Segment(false, a.bits, false)]
    else [Segment(false, a.bits[..|a.bits| - 1], false), Segment(false, a.bits[|a.bits| - 1..], true)]
  }

  lemma OneSegment(s: Segment)
    ensures TmsOfSegments([s]) == TmsOfSegment(s) && TdiOfSegments([s]) == TdiOfSegment(s)
  {
    assert [s][1..] == [];
    assert TmsOfSegment(s) + [] == TmsOfSegment(s);
    assert TdiOfSegment(s) + [] == TdiOfSegment(s);
  }

  lemma SegmentsMean(a: JtagAct)
    ensures TmsOfSegments(SegmentsOf(a)) == TmsOf(a) && TdiOfSegments(SegmentsOf(a)) == TdiOf(a)
  {
    if a.PutTMS? {
      OneSegment(Segment(true, a.bits, false));
    } else if a.bits != [] {
      if !a.lastTms {
        OneSegment(Segment(false, a.bits, false));
        assert Zeros(|a.bits|) == Zeros(|a.bits| - 1) + [false];
      } else {
        var n := |a.bits| - 1;
        var left, right := Segment(false, a.bits[..n], false), Segment(false, a.bits[n..], true);
        OneSegment(right);
        assert [left, right][1..] == [right];
        assert Repeat(true, 1) == [true];
        assert a.bits[..n] + a.bits[n..] == a.bits;
      }
    }
  }

  /** The first n bits of what is left of the segments. */
  function Cut(s: Segment, n: nat): Segment
    requires n <= |s.bits|
  {
    s.(bits := s.bits[n..])
  }

  lemma CutMeans(s: Segment, n: nat)
    requires n <= |s.bits|
    ensures TmsOfSegment(s) == TmsOfSegment(s)[..n] + TmsOfSegment(Cut(s, n))
    ensures TdiOfSegment(s) == TdiOfSegment(s)[..n] + TdiOfSegment(Cut(s, n))
  {
  }

  // ---------------------------------------------------------------- pushing

  /** What an action reports when its cycles are over: how many bits were put, or its TDO bits. */
  datatype Report = NumPut(n: nat) | TdoBits(bits: seq<bool>)

  function ReportOf(a: JtagAct, tdo: seq<bool>): Report {
    if a.PutTDIGetTDO? then TdoBits(tdo) else NumPut(|tdo|)
  }

  /** The reports of the first k actions, from the TDO bits of their own cycles. */
  function Reports(acts: seq<JtagAct>, tdo: seq<bool>, k: nat): (r: seq<Report>)
    requires k <= |acts| && StartOf(acts, k) <= |tdo|
    ensures |r| == k
  {
    if k == 0 then []
    else Reports(acts, tdo, k - 1) + [ReportOf(acts[k - 1], tdo[StartOf(acts, k - 1)..StartOf(acts, k)])]
  }

  lemma {:induction false} ReportsGrow(acts: seq<JtagAct>, more: seq<JtagAct>, tdo: seq<bool>, later: seq<bool>, k: nat)
    requires k <= |acts| && StartOf(acts, k) <= |tdo|
    ensures StartOf(acts + more, k) <= |tdo + later|
    ensures Reports(acts + more, tdo + later, k) == Reports(acts, tdo, k)
  {
    StartOfPrefix(acts, more, k);
    if k > 0 {
      StartOfPrefix(acts, more, k - 1);
      ReportsGrow(acts, more, tdo, later, k - 1);
      var a, b := StartOf(acts, k - 1), StartOf(acts, k);
      assert (tdo + later)[a..b] == tdo[a..b];
    }
  }

  lemma {:induction false} ReportsAt(acts: seq<JtagAct>, tdo: seq<bool>, k: nat, i: nat)
    requires i < k <= |acts| && StartOf(acts, k) <= |tdo|
    ensures StartOf(acts, i + 1) <= |tdo|
    ensures Reports(acts, tdo, k)[i] == ReportOf(acts[i], tdo[StartOf(acts, i)..StartOf(acts, i + 1)])
  {
    if i + 1 < k {
      ReportsAt(acts, tdo, k - 1, i);
    }
  }
}

/** The transactions of the raw JTAG port and the pin values each of them drives. */
module JtagWire {
  import opened Bits

  datatype JtagAct =
    | PutTMS(bits: seq<bool>)
    | PutTDI(bits: seq<bool>, lastTms: bool)
    | PutTDIGetTDO(bits: seq<bool>, lastTms: bool)

  /** TMS, cycle by cycle: a shift holds TMS low except, perhaps, on its last bit. */
  function TmsOf(a: JtagAct): (s: seq<bool>)
    ensures |s| == |a.bits|
  {
    if a.PutTMS? then a.bits
    else if a.bits == [] then []
    else Zeros(|a.bits| - 1) + [a.lastTms]
  }

  /** TDI, cycle by cycle: zero while only TMS matters. */
  function TdiOf(a: JtagAct): (s: seq<bool>)
    ensures |s| == |a.bits|
  {
    if a.PutTMS? then Zeros(|a.bits|) else a.bits
  }

  function TmsStream(acts: seq<JtagAct>): (s: seq<bool>) {
    if acts == [] then [] else TmsOf(acts[0]) + TmsStream(acts[1..])
  }

  function TdiStream(acts: seq<JtagAct>): (s: seq<bool>) {
    if acts == [] then [] else TdiOf(acts[0]) + TdiStream(acts[1..])
  }

  lemma {:induction false} TmsStreamConcat(a: seq<JtagAct>, b: seq<JtagAct>)
    ensures TmsStream(a + b) == TmsStream(a) + TmsStream(b)
  {
    if a == [] {
      assert a + b == b;
    } else {
      assert (a + b)[0] == a[0] && (a + b)[1..] == a[1..] + b;
      var head, tail := TmsOf(a[0]), TmsStream(a[1..]);
      assert TmsStream(a + b) == head + (tail + TmsStream(b)) by {
        TmsStreamConcat(a[1..], b);
      }
      Assoc(head, tail, TmsStream(b));
    }
  }

  lemma {:induction false} TdiStreamConcat(a: seq<JtagAct>, b: seq<JtagAct>)
    ensures TdiStream(a + b) == TdiStream(a) + TdiStream(b)
  {
    if a == [] {
      assert a + b == b;
    } else {
      assert (a + b)[0] == a[0] && (a + b)[1..] == a[1..] + b;
      var head, tail := TdiOf(a[0]), TdiStream(a[1..]);
      assert TdiStream(a + b) == head + (tail + TdiStream(b)) by {
        TdiStreamConcat(a[1..], b);
      }
      Assoc(head, tail, TdiStream(b));
    }
  }

  lemma TmsStreamOne(a: JtagAct)
    ensures TmsStream([a]) == TmsOf(a)
  {
    assert [a][1..] == [];
  }

  lemma {:induction false} StreamsEquallyLong(acts: seq<JtagAct>)
    ensures |TmsStream(acts)| == |TdiStream(acts)|
  {
    if acts != [] {
      StreamsEquallyLong(acts[1..]);
    }
  }
}

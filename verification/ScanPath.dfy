/**
 * What a batched scan does to the chain. The registers of all TAPs form one shift register:
 * the bit at index 0 is the one at TDO, so the TAP with the highest number comes first.
 */
module ScanPath {
  import opened Bits
  import opened ChainBits

  /** One clock in a Shift state: the bit at TDO leaves, the bit at TDI enters. */
  function ShiftOne(reg: seq<bool>, tdi: bool): seq<bool> {
    (reg + [tdi])[1..]
  }

  function ShiftIn(reg: seq<bool>, tdi: seq<bool>): seq<bool>
    decreases |tdi|
  {
    if tdi == [] then reg else ShiftIn(ShiftOne(reg, tdi[0]), tdi[1..])
  }

  function ShiftOut(reg: seq<bool>, tdi: seq<bool>): (tdo: seq<bool>)
    ensures |tdo| == |tdi|
    decreases |tdi|
  {
    if tdi == [] then [] else [(reg + [tdi[0]])[0]] + ShiftOut(ShiftOne(reg, tdi[0]), tdi[1..])
  }

  lemma {:induction false} Shifted(reg: seq<bool>, tdi: seq<bool>)
    ensures ShiftIn(reg, tdi) == (reg + tdi)[|tdi|..]
    ensures ShiftOut(reg, tdi) == (reg + tdi)[..|tdi|]
    decreases |tdi|
  {
    if tdi != [] {
      Shifted(ShiftOne(reg, tdi[0]), tdi[1..]);
      assert ShiftOne(reg, tdi[0]) + tdi[1..] == (reg + tdi)[1..];
      assert (reg + [tdi[0]])[0] == (reg + tdi)[0];
      assert (reg + tdi)[..|tdi|] == [(reg + tdi)[0]] + (reg + tdi)[1..][..|tdi[1..]|];
    } else {
      assert (reg + tdi)[..0] == [];
      assert reg + tdi == reg;
    }
  }

  // ---------------------------------------------------------------- loading the registers

  /** How many register bits lie below TAP t, when none of those TAPs is written. */
  function BitsBelow(op: Op, taps: seq<nat>, t: nat): nat {
    if t == 0 then 0 else |Filler(op, taps, t - 1)| + BitsBelow(op, taps, t - 1)
  }

  lemma {:induction false} TargetsBelow(s: Scan, end: nat, high: nat)
    requires s.first <= end <= |s.acts| && IsBatch(s, end) && high <= Emitted(s, end).last
    ensures |Targets(s, end, high, 0)| == BitsBelow(s.op, s.taps, high)
    decreases high
  {
    if high > 0 {
      UntouchedBelow(s, end, high - 1);
      TargetsBelow(s, end, high - 1);
    }
  }

  /**
   * The scan leaves every TAP holding its target, whatever the registers held, if and only if
   * no register bit lies below the last TAP written: those bits are never sent.
   */
  lemma LoadsIffNothingBelow(s: Scan, end: nat)
    requires s.first < end <= |s.acts| && IsBatch(s, end)
    ensures var e := Emitted(s, end);
            var want := Targets(s, end, |s.taps|, 0);
            (forall reg: seq<bool> | |reg| == |want| :: ShiftIn(reg, e.bits) == want)
            <==> BitsBelow(s.op, s.taps, e.last) == 0
  {
    var e := Emitted(s, end);
    var want := Targets(s, end, |s.taps|, 0);
    var below := Targets(s, end, e.last, 0);
    UntouchedBelow(s, end, e.last);
    EmittedAreTargets(s, end);
    TargetsSplit(s, end, |s.taps|, e.last, 0);
    TargetsBelow(s, end, e.last);
    if |below| == 0 {
      forall reg: seq<bool> | |reg| == |want| ensures ShiftIn(reg, e.bits) == want {
        Shifted(reg, e.bits);
      }
    } else {
      var reg := Repeat(!want[0], |want|);
      Shifted(reg, e.bits);
      assert ShiftIn(reg, e.bits)[0] == !want[0];
    }
  }

  /** Where in the chain the register of TAP t starts. */
  function RegisterAt(s: Scan, end: nat, t: nat): nat
    requires s.first <= end <= |s.acts|
  {
    |Targets(s, end, |s.taps|, t + 1)|
  }

  /** No action of the batch writes to TAP t. */
  predicate Unwritten(s: Scan, end: nat, t: nat)
    requires s.first <= end <= |s.acts|
  {
    forall i: nat | s.first <= i < end && !s.acts[i].Select? :: SelectedAt(s, i) != t
  }

  lemma {:induction false} NothingWanted(s: Scan, end: nat, t: nat)
    requires s.first <= end <= |s.acts| && Unwritten(s, end, t)
    ensures WantedFor(s, end, t).Nothing?
    decreases end
  {
    if s.first < end {
      NothingWanted(s, end - 1, t);
    }
  }

  /**
   * A chain that holds all targets holds, at each TAP's place, that TAP's own; a TAP nobody writes
   * to gets ones over the whole length of its instruction register, or one zero as its data.
   */
  lemma EachHoldsItsOwn(s: Scan, end: nat, t: nat)
    requires s.first <= end <= |s.acts| && t < |s.taps|
    ensures var at := RegisterAt(s, end, t);
            var all := Targets(s, end, |s.taps|, 0);
            && at + |Target(s, end, t)| <= |all| && all[at..at + |Target(s, end, t)|] == Target(s, end, t)
            && (Unwritten(s, end, t) ==>
                  && |Target(s, end, t)| == (if s.op.IrOp? then s.taps[t] else 1)
                  && forall k | at <= k < at + |Target(s, end, t)| :: all[k] == s.op.IrOp?)
  {
    TargetsSplit(s, end, |s.taps|, t + 1, 0);
    TargetsSplit(s, end, t + 1, t, 0);
    LastTarget(s, end, t);
    var a, b, c := Targets(s, end, |s.taps|, t + 1), Target(s, end, t), Targets(s, end, t, 0);
    assert (a + (b + c))[|a|..|a| + |b|] == b;
    if Unwritten(s, end, t) {
      NothingWanted(s, end, t);
      forall k | |a| <= k < |a| + |b| ensures (a + (b + c))[k] == s.op.IrOp? {
        assert (a + (b + c))[k] == b[k - |a|];
      }
    }
  }

  // ---------------------------------------------------------------- reading them back

  /** The bits of a batch only grow, at the end; and it only goes down. */
  lemma {:induction false} EmittedGrows(s: Scan, i: nat, end: nat)
    requires s.first <= i <= end <= |s.acts| && IsBatch(s, end)
    ensures IsBatch(s, i)
    ensures Emitted(s, end).last <= Emitted(s, i).last
    ensures |Emitted(s, i).bits| <= |Emitted(s, end).bits|
    ensures Emitted(s, end).bits[..|Emitted(s, i).bits|] == Emitted(s, i).bits
    decreases end
  {
    if i < end {
      EmittedGrows(s, i, end - 1);
    }
  }

  lemma {:induction false} TargetsAboveStay(s: Scan, i: nat, end: nat, t: nat)
    requires s.first < i <= end <= |s.acts| && IsBatch(s, end) && Emitted(s, i).last == t
    ensures Targets(s, end, |s.taps|, t + 1) == Targets(s, i, |s.taps|, t + 1)
    decreases end
  {
    if i < end {
      EmittedGrows(s, i, end);
      EmittedGrows(s, i, end - 1);
      SelectedIsEmitted(s, end - 1);
      TargetsAboveStay(s, i, end - 1, t);
      TargetsAbove(s, end, |s.taps|, t + 1);
    }
  }

  /** Bits written to TAP t before action i of the batch. */
  function WrittenBefore(s: Scan, i: nat, t: nat): nat
    requires s.first <= i <= |s.acts|
  {
    var w := WantedFor(s, i, t);
    if w.Nothing? then 0 else |w.bits|
  }

  /** Where in the scan a write's own bits begin. */
  function CyclesAt(s: Scan, i: nat): nat
    requires s.first <= i < |s.acts|
  {
    var e := Emitted(s, i);
    |e.bits| + |Between(s.op, s.taps, e.last, e.selected)|
  }

  /** A write's own bits are sent in its own cycles. */
  lemma OwnBitsSent(s: Scan, i: nat, end: nat, p: nat, own: seq<bool>)
    requires s.first <= i < end <= |s.acts| && IsBatch(s, end) && !s.acts[i].Select?
    requires p == CyclesAt(s, i) && own == OwnBits(s.taps, s.acts[i], SelectedAt(s, i))
    ensures var all := Emitted(s, end).bits;
            p + |own| <= |all| && all[p..p + |own|] == own && |Emitted(s, i + 1).bits| == p + |own|
  {
    EmittedGrows(s, i + 1, end);
    SelectedIsEmitted(s, i);
    var e := Emitted(s, i);
    var lead := e.bits + Between(s.op, s.taps, e.last, e.selected);
    var upTo, all := Emitted(s, i + 1).bits, Emitted(s, end).bits;
    assert upTo == lead + own;
    PrefixSlice(all, upTo, lead, own);
  }

  lemma PrefixSlice(all: seq<bool>, upTo: seq<bool>, lead: seq<bool>, own: seq<bool>)
    requires upTo == lead + own && |upTo| <= |all| && all[..|upTo|] == upTo
    ensures all[|lead|..|lead| + |own|] == own
  {
    assert all[|lead|..|lead| + |own|] == all[..|upTo|][|lead|..];
  }

  /** What TAP t gets once action i has written to it: what it got before, then the action's own bits. */
  lemma TargetGrows(s: Scan, i: nat, t: nat)
    requires s.first <= i < |s.acts| && !s.acts[i].Select? && t == SelectedAt(s, i)
    ensures |Target(s, i + 1, t)| == WrittenBefore(s, i, t) + |OwnBits(s.taps, s.acts[i], t)|
  {
  }

  /** How many bits have been sent once action i is over: counted by cycles. */
  lemma SentByCycles(s: Scan, i: nat, t: nat)
    requires s.first <= i < |s.acts| && IsBatch(s, i + 1) && !s.acts[i].Select? && t == SelectedAt(s, i)
    ensures Emitted(s, i + 1).last == t < |s.taps|
    ensures |Emitted(s, i + 1).bits| == CyclesAt(s, i) + |OwnBits(s.taps, s.acts[i], t)|
  {
    SelectedIsEmitted(s, i);
  }

  /** And counted by registers. */
  lemma SentByRegisters(s: Scan, i: nat, t: nat)
    requires s.first <= i < |s.acts| && IsBatch(s, i + 1) && Emitted(s, i + 1).last == t < |s.taps|
    ensures |Emitted(s, i + 1).bits| == RegisterAt(s, i + 1, t) + |Target(s, i + 1, t)|
  {
    EmittedAreTargets(s, i + 1);
    TargetsDown(s, i + 1, t);
  }

  lemma TargetsDown(s: Scan, end: nat, t: nat)
    requires s.first <= end <= |s.acts| && t < |s.taps|
    ensures |Targets(s, end, |s.taps|, t)| == RegisterAt(s, end, t) + |Target(s, end, t)|
  {
    TargetsSplit(s, end, |s.taps|, t + 1, t);
    LastTarget(s, end, t);
  }

  /** Those cycles stand where the TAP's register stands, past what earlier writes took. */
  lemma OwnPlace(s: Scan, i: nat, end: nat, t: nat)
    requires s.first <= i < end <= |s.acts| && IsBatch(s, end) && !s.acts[i].Select?
    requires t == SelectedAt(s, i)
    ensures CyclesAt(s, i) == RegisterAt(s, end, t) + WrittenBefore(s, i, t)
  {
    EmittedGrows(s, i + 1, end);
    SentByCycles(s, i, t);
    SentByRegisters(s, i, t);
    TargetGrows(s, i, t);
    TargetsAboveStay(s, i + 1, end, t);
  }

  /** The cycles of two writes of a batch lie apart, in the order of the writes. */
  lemma CyclesApart(s: Scan, i: nat, j: nat, end: nat)
    requires s.first <= i < j < end <= |s.acts| && IsBatch(s, end) && !s.acts[i].Select?
    ensures CyclesAt(s, i) + |OwnBits(s.taps, s.acts[i], SelectedAt(s, i))| <= CyclesAt(s, j)
  {
    OwnBitsSent(s, i, end, CyclesAt(s, i), OwnBits(s.taps, s.acts[i], SelectedAt(s, i)));
    EmittedGrows(s, j, end);
    EmittedGrows(s, i + 1, j);
  }

  /**
   * The cycles that send a write's own bits are the ones during which its own TAP's register,
   * from where the writes before it left off, comes out at TDO.
   */
  lemma OwnCycles(s: Scan, i: nat, end: nat, reg: seq<bool>, p: nat, own: seq<bool>)
    requires s.first <= i < end <= |s.acts| && IsBatch(s, end) && !s.acts[i].Select?
    requires |reg| >= |Emitted(s, end).bits|
    requires p == CyclesAt(s, i) && own == OwnBits(s.taps, s.acts[i], SelectedAt(s, i))
    ensures var t := SelectedAt(s, i);
            p == RegisterAt(s, end, t) + WrittenBefore(s, i, t)
    ensures var all := Emitted(s, end).bits;
            && p + |own| <= |all|
            && all[p..p + |own|] == own
            && ShiftOut(reg, all)[p..p + |own|] == reg[p..p + |own|]
  {
    var all := Emitted(s, end).bits;
    OwnBitsSent(s, i, end, p, own);
    OwnPlace(s, i, end, SelectedAt(s, i));
    Shifted(reg, all);
    assert (reg + all)[..|all|] == reg[..|all|];
  }
}

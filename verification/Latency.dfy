/**
 * The latency calibrator of the DMI driver: a doubling search upwards while accesses
 * come back busy, halving back towards the smallest latency not yet refuted.
 * All three fields are 32-bit words and every operation wraps as such.
 */
module Latency {
  import opened Num

  const WORD: nat := 0x1_0000_0000

  /** The three words held by a calibrator. */
  datatype Cal = Cal(min: nat, max: nat, cur: nat) {
    predicate Words() {
      min < WORD && max < WORD && cur < WORD
    }

    predicate Ordered() {
      min <= cur <= max < WORD
    }
  }

  function Initial(a: nat, b: nat): Cal {
    Cal(Min(a, b), Max(a, b), a)
  }

  function BumpMinOf(c: Cal, least: nat): Cal {
    Cal(Max(least, c.min), Max(least, c.max), Max(least, c.cur))
  }

  function TooLowOf(c: Cal): Cal {
    var room := (c.max - c.cur) % WORD;
    Cal((c.cur + 1) % WORD, c.max, if room <= c.cur then c.max else (c.cur * 2 + 1) % WORD)
  }

  function EnoughOf(c: Cal): Cal {
    var step := ((c.cur - c.min + 1) % WORD) / 2;
    c.(cur := (c.cur - step) % WORD)
  }

  class LatencyCalibrator {
    var minLatency: nat
    var maxLatency: nat
    var currentLatency: nat
    /** How often the latency has been reported too low. */
    ghost var reports: nat

    ghost function View(): Cal
      reads this
    {
      Cal(minLatency, maxLatency, currentLatency)
    }

    constructor (a: nat, b: nat)
      requires a < WORD && b < WORD
      ensures View() == Initial(a, b) && View().Ordered() && reports == 0
    {
      minLatency := Min(a, b);
      maxLatency := Max(a, b);
      currentLatency := a;
      reports := 0;
    }

    method BumpMin(least: nat)
      requires View().Words() && least < WORD
      modifies this
      ensures View() == BumpMinOf(old(View()), least) && reports == old(reports)
      ensures old(View().Ordered()) ==> View().Ordered()
    {
      minLatency := Max(least, minLatency);
      currentLatency := Max(least, currentLatency);
      maxLatency := Max(least, maxLatency);
    }

    method TooLow()
      requires View().Words()
      modifies this
      ensures View() == TooLowOf(old(View())) && reports == old(reports) + 1
      ensures old(View().Ordered() && currentLatency < maxLatency) ==>
                View().Ordered() && minLatency == old(currentLatency) + 1
    {
      reports := reports + 1;
      minLatency := (currentLatency + 1) % WORD;
      var room := (maxLatency - currentLatency) % WORD;
      if room <= currentLatency {
        currentLatency := maxLatency;
        return;
      }
      currentLatency := (currentLatency * 2 + 1) % WORD;
    }

    method Enough()
      requires View().Words()
      modifies this
      ensures View() == EnoughOf(old(View())) && reports == old(reports)
      ensures old(View().Ordered()) ==> View().Ordered()
    {
      var step := ((currentLatency - minLatency + 1) % WORD) / 2;
      currentLatency := (currentLatency - step) % WORD;
    }

    method Get() returns (r: nat)
      ensures r == View().cur
    {
      r := currentLatency;
    }

    method IsMax() returns (b: bool)
      ensures b <==> View().cur == View().max
    {
      b := currentLatency == maxLatency;
    }
  }

  /**
   * TooLow both keeps the order of the three words and puts the refuted latency below
   * the new minimum exactly when the calibrator is not at its maximum; then the search
   * doubles, or stops at the maximum, and nothing wraps.
   */
  lemma TooLowExact(c: Cal)
    requires c.Ordered()
    ensures TooLowOf(c).Ordered() && TooLowOf(c).min > c.cur <==> c.cur < c.max
    ensures c.cur < c.max ==>
              var n := TooLowOf(c);
              n.max == c.max && (n.cur == n.max || n.cur + 1 == 2 * (c.cur + 1))
  {
    if c.cur == c.max {
      assert TooLowOf(c).cur == c.max;
      assert TooLowOf(c).min <= c.cur || TooLowOf(c).min > TooLowOf(c).max;
    } else {
      assert (c.max - c.cur) % WORD == c.max - c.cur;
    }
  }

  /** A greater minimum raises each of the three words as far as it must and no further. */
  lemma BumpMinLeast(c: Cal, least: nat)
    requires c.Ordered() && least < WORD
    ensures var n := BumpMinOf(c, least);
            && n.Ordered() && least <= n.min
            && (forall m: Cal :: m.Ordered() && least <= m.min && c.min <= m.min && c.cur <= m.cur && c.max <= m.max ==>
                  n.min <= m.min && n.cur <= m.cur && n.max <= m.max)
  {
  }

  datatype Op = Bump(least: nat) | Low | Suffices

  function Apply(c: Cal, op: Op): Cal {
    match op
    case Bump(l) => BumpMinOf(c, l)
    case Low => TooLowOf(c)
    case Suffices => EnoughOf(c)
  }

  /** The driver reports a latency too low only after checking that it is not the maximum. */
  predicate Allowed(c: Cal, op: Op) {
    match op
    case Bump(l) => l < WORD
    case Low => c.cur < c.max
    case Suffices => true
  }

  predicate AllowedRun(c: Cal, ops: seq<Op>)
    decreases |ops|
  {
    ops == [] || (Allowed(c, ops[0]) && AllowedRun(Apply(c, ops[0]), ops[1..]))
  }

  function Run(c: Cal, ops: seq<Op>): Cal
    decreases |ops|
  {
    if ops == [] then c else Run(Apply(c, ops[0]), ops[1..])
  }

  lemma StepKeepsOrder(c: Cal, op: Op, n: Cal)
    requires c.Ordered() && Allowed(c, op) && n == Apply(c, op)
    ensures n.Ordered() && c.min <= n.min
  {
    if op.Low? {
      TooLowExact(c);
    }
  }

  /** Over every allowed run the words stay ordered and the minimum never falls. */
  lemma {:induction false} RunKeepsOrder(c: Cal, ops: seq<Op>)
    requires c.Ordered() && AllowedRun(c, ops)
    ensures Run(c, ops).Ordered() && c.min <= Run(c, ops).min
    decreases |ops|
  {
    if ops != [] {
      StepKeepsOrder(c, ops[0], Apply(c, ops[0]));
      RunKeepsOrder(Apply(c, ops[0]), ops[1..]);
    }
  }

  /** A latency once reported too low is never used again, whatever follows. */
  lemma NeverUsedAgain(c: Cal, ops: seq<Op>)
    requires c.Ordered() && AllowedRun(c, [Low] + ops)
    ensures Run(c, [Low] + ops).cur > c.cur
  {
    TooLowExact(c);
    assert ([Low] + ops)[1..] == ops;
    RunKeepsOrder(TooLowOf(c), ops);
  }

  function Repeat(c: Cal, k: nat): Cal {
    if k == 0 then c else TooLowOf(Repeat(c, k - 1))
  }

  predicate BelowMax(c: Cal, k: nat) {
    Repeat(c, k).cur < Repeat(c, k).max
  }

  /** Every one of the first k reports found the calibrator below its maximum. */
  predicate AllowedRepeat(c: Cal, k: nat) {
    forall i: nat :: i < k ==> BelowMax(c, i)
  }

  lemma {:induction false} RepeatGrows(c: Cal, k: nat)
    requires c.Ordered() && AllowedRepeat(c, k)
    ensures Repeat(c, k).Ordered() && Repeat(c, k).max == c.max
    ensures Repeat(c, k).cur == c.max || Repeat(c, k).cur + 1 >= Pow2(k)
  {
    if k > 0 {
      RepeatGrows(c, k - 1);
      assert BelowMax(c, k - 1);
      TooLowExact(Repeat(c, k - 1));
    }
  }

  /** From any calibrator at most 32 reports in a row are possible. */
  lemma AtMost32Reports(c: Cal, k: nat)
    requires c.Ordered() && AllowedRepeat(c, k)
    ensures k <= 32
  {
    if k > 32 {
      assert BelowMax(c, 32);
      RepeatGrows(c, 32);
      Pow2Of32();
      assert false;
    }
  }

  /**
   * Enough halves the distance to the smallest latency not refuted, and changes nothing else,
   * exactly unless that distance is the widest; then it wraps and changes nothing at all.
   */
  lemma EnoughHalves(c: Cal)
    requires c.Ordered()
    ensures var n := EnoughOf(c);
            n.Ordered() && n.min == c.min && n.max == c.max && n.cur - n.min == (c.cur - c.min) / 2 <==> c.cur - c.min < WORD - 1
    ensures c.cur - c.min == WORD - 1 ==> EnoughOf(c) == c
  {
    var d := c.cur - c.min;
    if d < WORD - 1 {
      assert (d + 1) % WORD == d + 1;
    } else {
      assert (d + 1) % WORD == 0;
    }
  }

  function Calm(c: Cal, k: nat): Cal {
    if k == 0 then c else EnoughOf(Calm(c, k - 1))
  }

  /** So after 32 transactions in a row that met no busy answer the driver waits no longer than that. */
  lemma {:induction false} CalmSettles(c: Cal, k: nat)
    requires c.Ordered() && c.cur - c.min < WORD - 1
    ensures var n := Calm(c, k);
            && n.Ordered() && n.min == c.min && n.max == c.max && n.cur <= c.cur
            && Scale(n.cur - n.min, k) <= c.cur - c.min
            && (k >= 32 ==> n.cur == n.min)
  {
    if k > 0 {
      CalmSettles(c, k - 1);
      EnoughHalves(Calm(c, k - 1));
      HalfScales(Calm(c, k).cur - c.min, Calm(c, k - 1).cur - c.min, k);
    }
    if k >= 32 {
      NothingLeft(Calm(c, k).cur - c.min, k, c.cur - c.min);
    }
  }

  lemma HalfScales(half: nat, d: nat, k: nat)
    requires half == d / 2 && k > 0
    ensures Scale(half, k) <= Scale(d, k - 1)
  {
    ScaleTwice(half, k - 1);
    ScaleMonotone(2 * half, d, k - 1);
  }

  lemma NothingLeft(n: nat, k: nat, d: nat)
    requires Scale(n, k) <= d < WORD - 1 && k >= 32
    ensures n == 0
  {
    Pow2Of32();
    Pow2Monotone(32, k);
    ScaleOne(k);
    if n > 0 {
      ScaleMonotone(1, n, k);
    }
  }

  const WIDEST := Cal(0, WORD - 1, 0)

  lemma WidestDoubles(c: Cal)
    requires c.max == WORD - 1 && c.cur + 1 <= 0x8000_0000
    ensures TooLowOf(c).cur + 1 == 2 * (c.cur + 1) && TooLowOf(c).max == c.max
  {
    assert (c.max - c.cur) % WORD == c.max - c.cur;
  }

  lemma {:induction false} WidestRepeat(k: nat)
    requires k <= 32
    ensures Repeat(WIDEST, k).cur + 1 == Pow2(k)
    ensures Repeat(WIDEST, k).max == WORD - 1
  {
    if k > 0 {
      WidestRepeat(k - 1);
      Pow2Monotone(k, 32);
      Pow2Of32();
      WidestDoubles(Repeat(WIDEST, k - 1));
    }
  }

  /** The bound is attained: the widest range takes all 32 reports to reach its maximum. */
  lemma Bound32IsTight()
    ensures AllowedRepeat(WIDEST, 32)
    ensures Repeat(WIDEST, 32).cur == WORD - 1
  {
    Pow2Of32();
    WidestRepeat(32);
    forall i: nat | i < 32
      ensures BelowMax(WIDEST, i)
    {
      WidestRepeat(i);
      Pow2Monotone(i + 1, 32);
    }
  }
}

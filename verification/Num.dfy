/** Powers of two, shared by the modules that reason about fixed-width words. */
module Num {

  function Pow2(n: nat): (r: nat)
    ensures r >= 1
  {
    if n == 0 then 1 else 2 * Pow2(n - 1)
  }

  lemma {:induction false} Pow2Monotone(m: nat, n: nat)
    requires m <= n
    ensures Pow2(m) <= Pow2(n)
    decreases n - m
  {
    if m < n {
      Pow2Monotone(m + 1, n);
    }
  }

  lemma Pow2Of32()
    ensures Pow2(32) == 0x1_0000_0000
  {
    assert Pow2(8) == 256;
    assert Pow2(16) == 65536 by {
      assert Pow2(12) == 4096;
    }
    assert Pow2(24) == 0x100_0000 by {
      assert Pow2(20) == 0x10_0000;
    }
    assert Pow2(28) == 0x1000_0000;
  }

  /** d times 2^k. */
  function Scale(d: nat, k: nat): nat {
    if k == 0 then d else 2 * Scale(d, k - 1)
  }

  lemma {:induction false} ScaleTwice(d: nat, k: nat)
    ensures Scale(2 * d, k) == 2 * Scale(d, k)
  {
    if k > 0 {
      ScaleTwice(d, k - 1);
    }
  }

  lemma {:induction false} ScaleMonotone(d: nat, e: nat, k: nat)
    requires d <= e
    ensures Scale(d, k) <= Scale(e, k)
  {
    if k > 0 {
      ScaleMonotone(d, e, k - 1);
    }
  }

  lemma {:induction false} ScaleOne(k: nat)
    ensures Scale(1, k) == Pow2(k) && Scale(0, k) == 0
  {
    if k > 0 {
      ScaleOne(k - 1);
    }
  }

  function Min(a: int, b: int): (r: int)
    ensures r <= a && r <= b && (r == a || r == b)
  {
    if a <= b then a else b
  }

  function Max(a: int, b: int): (r: int)
    ensures r >= a && r >= b && (r == a || r == b)
  {
    if a <= b then b else a
  }
}

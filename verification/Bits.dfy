/** Words as bit sequences, least significant bit first. */
module Bits {
  import opened Num

  /** The low n bits of v. */
  function BitsOf(v: nat, n: nat): (b: seq<bool>)
    ensures |b| == n
  {
    if n == 0 then [] else [v % 2 == 1] + BitsOf(v / 2, n - 1)
  }

  function Repeat(b: bool, n: nat): (s: seq<bool>)
    ensures |s| == n && forall i :: 0 <= i < n ==> s[i] == b
  {
    seq(n, _ => b)
  }

  function Zeros(n: nat): seq<bool> { Repeat(false, n) }

  function Ones(n: nat): seq<bool> { Repeat(true, n) }

  lemma Assoc(a: seq<bool>, b: seq<bool>, c: seq<bool>)
    ensures a + b + c == a + (b + c)
  {
  }

  /** The number that bits denote: the sum of the powers of two at which they are set. */
  function ValueOf(b: seq<bool>): nat {
    if b == [] then 0
    else ValueOf(b[..|b| - 1]) + if b[|b| - 1] then Pow2(|b| - 1) else 0
  }

  lemma {:induction false} ValueOfCons(bit: bool, b: seq<bool>)
    ensures ValueOf([bit] + b) == (if bit then 1 else 0) + 2 * ValueOf(b)
    decreases |b|
  {
    var n, all := |b|, [bit] + b;
    if n == 0 {
      assert all[..0] == [] && all == [bit];
    } else {
      assert all[..n] == [bit] + b[..n - 1];
      ValueOfCons(bit, b[..n - 1]);
    }
  }

  /** v without its low n bits. */
  function Above(v: nat, n: nat): nat {
    if n == 0 then v else Above(v / 2, n - 1)
  }

  /** The low n bits of v denote v, but for what lies above them. */
  lemma {:induction false} BitsDenote(v: nat, n: nat)
    ensures ValueOf(BitsOf(v, n)) + Scale(Above(v, n), n) == v && ValueOf(BitsOf(v, n)) < Pow2(n)
    ensures v < Pow2(n) ==> ValueOf(BitsOf(v, n)) == v
    decreases n
  {
    if n > 0 {
      BitsDenote(v / 2, n - 1);
      ValueOfCons(v % 2 == 1, BitsOf(v / 2, n - 1));
    }
  }

  /** Setting bit n of a word below 2^n appends that bit. */
  lemma {:induction false} BitsOfAppend(v: nat, n: nat, top: bool)
    requires v < Pow2(n)
    ensures BitsOf(if top then v + Pow2(n) else v, n + 1) == BitsOf(v, n) + [top]
    ensures (if top then v + Pow2(n) else v) < Pow2(n + 1)
  {
    var w := if top then v + Pow2(n) else v;
    if n == 0 {
      assert BitsOf(w, 1) == [w % 2 == 1] + BitsOf(w / 2, 0);
    } else {
      BitsOfAppend(v / 2, n - 1, top);
      assert w / 2 == if top then v / 2 + Pow2(n - 1) else v / 2;
      assert w % 2 == v % 2;
      assert BitsOf(w, n + 1) == [v % 2 == 1] + (BitsOf(v / 2, n - 1) + [top]);
    }
  }
}

/**
 * Machine words as their bits, least significant first, and memory as words. The width of a
 * word is the length of its sequence, so that every pair of word sizes is covered at once.
 */
module Words {
  import opened Bits

  type Word = seq<bool>

  /** Bit i, zero outside the word. */
  function Bit(x: Word, i: int): bool { 0 <= i < |x| && x[i] }

  function Shl(x: Word, n: nat): (r: Word)
    ensures |r| == |x| && forall i | 0 <= i < |x| :: r[i] == Bit(x, i - n)
  {
    seq(|x|, i => Bit(x, i - n))
  }

  function Shr(x: Word, n: nat): (r: Word)
    ensures |r| == |x| && forall i | 0 <= i < |x| :: r[i] == Bit(x, i + n)
  {
    seq(|x|, i => Bit(x, i + n))
  }

  function And(x: Word, y: Word): (r: Word)
    requires |x| == |y|
    ensures |r| == |x| && forall i | 0 <= i < |x| :: r[i] == (x[i] && y[i])
  {
    seq(|x|, i requires 0 <= i < |x| => x[i] && y[i])
  }

  function Or(x: Word, y: Word): (r: Word)
    requires |x| == |y|
    ensures |r| == |x| && forall i | 0 <= i < |x| :: r[i] == (x[i] || y[i])
  {
    seq(|x|, i requires 0 <= i < |x| => x[i] || y[i])
  }

  function Not(x: Word): (r: Word)
    ensures |r| == |x| && forall i | 0 <= i < |x| :: r[i] == !x[i]
  {
    seq(|x|, i requires 0 <= i < |x| => !x[i])
  }

  /** The word whose low n bits are ones. */
  function LowOnes(width: nat, n: nat): (r: Word)
    ensures |r| == width && forall i | 0 <= i < width :: r[i] == (i < n)
  {
    seq(width, i => i < n)
  }

  /** Conversion to another width: cut off, or extended with zeros. */
  function Cast(x: Word, width: nat): (r: Word)
    ensures |r| == width && forall i | 0 <= i < width :: r[i] == Bit(x, i)
  {
    seq(width, i => Bit(x, i))
  }

  predicate ZeroFrom(x: Word, n: nat) {
    forall i | n <= i < |x| :: !x[i]
  }

  // ---------------------------------------------------------------- memory

  predicate Uniform(words: seq<Word>, width: nat) {
    width > 0 && forall i | 0 <= i < |words| :: |words[i]| == width
  }

  /** n words of the given width, in bits. */
  function Span(width: nat, n: nat): nat {
    if n == 0 then 0 else Span(width, n - 1) + width
  }

  lemma {:induction false} SpanAdd(width: nat, m: nat, n: nat)
    ensures Span(width, m + n) == Span(width, m) + Span(width, n)
  {
    if n > 0 {
      SpanAdd(width, m, n - 1);
    }
  }

  lemma {:induction false} SpanIsProduct(width: nat, n: nat)
    ensures Span(width, n) == n * width
  {
    if n > 0 {
      SpanIsProduct(width, n - 1);
      assert (n - 1) * width + width == n * width;
    }
  }

  lemma SpanDiv(width: nat, x: nat)
    requires width > 0
    ensures Span(width, x / width) + x % width == x
  {
    SpanIsProduct(width, x / width);
    assert x == width * (x / width) + x % width;
  }

  /** Memory as one sequence of bits. */
  function Flat(words: seq<Word>): seq<bool> {
    if words == [] then [] else Flat(words[..|words| - 1]) + words[|words| - 1]
  }

  lemma {:induction false} FlatLength(words: seq<Word>, width: nat)
    requires Uniform(words, width)
    ensures |Flat(words)| == Span(width, |words|)
  {
    if words != [] {
      FlatLength(words[..|words| - 1], width);
    }
  }

  lemma {:induction false} FlatConcat(a: seq<Word>, b: seq<Word>)
    ensures Flat(a + b) == Flat(a) + Flat(b)
    decreases |b|
  {
    if b == [] {
      assert a + b == a;
    } else {
      var init, last := b[..|b| - 1], b[|b| - 1];
      assert (a + b)[..|a + b| - 1] == a + init;
      FlatConcat(a, init);
      Assoc(Flat(a), Flat(init), last);
    }
  }

  /** Memory around word k. */
  lemma FlatAround(words: seq<Word>, width: nat, k: nat)
    requires Uniform(words, width) && k < |words|
    ensures |Flat(words[..k])| == Span(width, k)
    ensures Flat(words) == Flat(words[..k]) + (words[k] + Flat(words[k + 1..]))
  {
    FlatLength(words[..k], width);
    assert words == words[..k] + ([words[k]] + words[k + 1..]);
    FlatConcat(words[..k], [words[k]] + words[k + 1..]);
    FlatConcat([words[k]], words[k + 1..]);
    FlatOne(words[k]);
  }

  lemma FlatOne(w: Word)
    ensures Flat([w]) == w
  {
    assert [w][..0] == [];
    assert Flat([w][..0]) + w == w;
  }

  // ---------------------------------------------------------------- writing and reading a piece

  /** f with the bits from p on replaced by b. */
  function Splice(f: seq<bool>, p: nat, b: seq<bool>): (r: seq<bool>)
    requires p + |b| <= |f|
    ensures |r| == |f|
  {
    f[..p] + b + f[p + |b|..]
  }

  lemma SpliceTwice(f: seq<bool>, p: nat, a: seq<bool>, b: seq<bool>)
    requires p + |a| + |b| <= |f|
    ensures Splice(Splice(f, p, a), p + |a|, b) == Splice(f, p, a + b)
  {
  }

  /** A splice reads back, and nothing else changed. */
  lemma SpliceReads(f: seq<bool>, p: nat, b: seq<bool>)
    requires p + |b| <= |f|
    ensures Splice(f, p, b)[p..p + |b|] == b
    ensures forall i | 0 <= i < |f| && !(p <= i < p + |b|) :: Splice(f, p, b)[i] == f[i]
  {
  }

  lemma SpliceMiddle(f: seq<bool>, g: seq<bool>, a: seq<bool>, w: Word, c: seq<bool>, offset: nat, b: seq<bool>)
    requires offset + |b| <= |w| && f == a + (w + c) && g == a + (Splice(w, offset, b) + c)
    ensures |a| + offset + |b| <= |f| && g == Splice(f, |a| + offset, b)
  {
  }

  /** Memory before and after word k, which may be replaced. */
  lemma FlatSplit(words: seq<Word>, width: nat, k: nat, w: Word) returns (a: seq<bool>, c: seq<bool>)
    requires Uniform(words, width) && k < |words| && |w| == width
    ensures |a| == Span(width, k)
    ensures Flat(words) == a + (words[k] + c) && Flat(words[k := w]) == a + (w + c)
  {
    var next := words[k := w];
    FlatAround(words, width, k);
    FlatAround(next, width, k);
    assert next[..k] == words[..k];
    assert next[k + 1..] == words[k + 1..];
    a, c := Flat(words[..k]), Flat(words[k + 1..]);
  }

  /** One word replaced in part: memory as bits is spliced there. */
  lemma PieceWritten(words: seq<Word>, width: nat, k: nat, offset: nat, b: seq<bool>, w: Word)
    requires Uniform(words, width) && k < |words| && offset + |b| <= width && w == Splice(words[k], offset, b)
    ensures Span(width, k) + offset + |b| <= |Flat(words)|
    ensures Flat(words[k := w]) == Splice(Flat(words), Span(width, k) + offset, b)
  {
    var a, c := FlatSplit(words, width, k, w);
    SpliceMiddle(Flat(words), Flat(words[k := w]), a, words[k], c, offset, b);
  }

  lemma SliceMiddle(f: seq<bool>, a: seq<bool>, w: Word, c: seq<bool>, offset: nat, n: nat)
    requires f == a + (w + c) && offset + n <= |w|
    ensures |a| + offset + n <= |f| && f[|a| + offset..|a| + offset + n] == w[offset..offset + n]
  {
    assert f[|a|..] == w + c;
    assert f[|a| + offset..|a| + offset + n] == f[|a|..][offset..offset + n];
  }

  lemma PieceRead(words: seq<Word>, width: nat, k: nat, offset: nat, n: nat)
    requires Uniform(words, width) && k < |words| && offset + n <= width
    ensures var p := Span(width, k) + offset;
            p + n <= |Flat(words)| && Flat(words)[p..p + n] == words[k][offset..offset + n]
  {
    var a, c := FlatSplit(words, width, k, words[k]);
    SliceMiddle(Flat(words), a, words[k], c, offset, n);
  }

  lemma ShrTwice(x: Word, a: nat, b: nat)
    ensures Shr(Shr(x, a), b) == Shr(x, a + b)
  {
  }

  lemma ShrBits(x: Word, done: nat, k: nat)
    requires done + k <= |x|
    ensures Shr(x, done)[..k] == x[done..done + k]
  {
  }

  lemma SpliceNone(f: seq<bool>, p: nat, value: Word)
    requires p <= |f|
    ensures Splice(f, p, value[..0]) == f && Shr(value, 0) == value
  {
  }

  /** The next k bits of a value, spliced in behind the first ones. */
  lemma SpliceNext(f: seq<bool>, p: nat, value: Word, done: nat, k: nat)
    requires done + k <= |value| && p + done + k <= |f|
    ensures |Splice(f, p, value[..done])| == |f|
    ensures Splice(Splice(f, p, value[..done]), p + done, Shr(value, done)[..k]) == Splice(f, p, value[..done + k])
  {
    ShrBits(value, done, k);
    SpliceTwice(f, p, value[..done], value[done..done + k]);
    assert value[..done] + value[done..done + k] == value[..done + k];
  }

  /** The masks and shifts of a partial write replace exactly the bits meant. */
  lemma MaskedWrite(word: Word, value: Word, offset: nat, n: nat)
    requires offset + n <= |word| && n <= |value|
    ensures var mask := Shl(LowOnes(|word|, n), offset);
            var piece := Shl(Cast(value, |word|), offset);
            Or(And(word, Not(mask)), And(piece, mask)) == Splice(word, offset, value[..n])
  {
  }

  /** A word with k bits from `offset` on replaced by the low bits of `value`, as the writer computes it. */
  function Blend(word: Word, value: Word, offset: nat, k: nat): (r: Word)
    requires offset + k <= |word| && k <= |value|
    ensures r == Splice(word, offset, value[..k])
  {
    var low := if k == |word| then Not(LowOnes(|word|, 0)) else LowOnes(|word|, k);
    assert low == LowOnes(|word|, k);
    MaskedWrite(word, value, offset, k);
    var mask := Shl(low, offset);
    var piece := Shl(Cast(value, |word|), offset);
    Or(And(word, Not(mask)), And(piece, mask))
  }

  /** The result with k bits of `word` from `offset` on added at its bit `at`, as the reader computes it. */
  function Pick(word: Word, offset: nat, k: nat, result: Word, at: nat): (r: Word)
    requires offset + k <= |word| && at + k <= |result| && ZeroFrom(result, at)
    ensures r == Splice(result, at, word[offset..offset + k])
  {
    var shifted := Shr(word, offset);
    var piece := if k == |word| then shifted else And(shifted, LowOnes(|word|, k));
    assert piece == And(shifted, LowOnes(|word|, k));
    MaskedRead(word, offset, k, result, at);
    Or(result, Shl(Cast(piece, |result|), at))
  }

  /** The shifts and masks of a partial read pick exactly the bits meant. */
  lemma MaskedRead(word: Word, offset: nat, n: nat, result: Word, at: nat)
    requires offset + n <= |word| && at + n <= |result| && ZeroFrom(result, at)
    ensures var piece := And(Shr(word, offset), LowOnes(|word|, n));
            Or(result, Shl(Cast(piece, |result|), at)) == Splice(result, at, word[offset..offset + n])
  {
  }

  /** Zero-extended bits, with more bits read behind them. */
  lemma CastMore(f: seq<bool>, p: nat, done: nat, k: nat, width: nat)
    requires p + done + k <= |f| && done + k <= width
    ensures Splice(Cast(f[p..p + done], width), done, f[p + done..p + done + k]) == Cast(f[p..p + done + k], width)
    ensures ZeroFrom(Cast(f[p..p + done], width), done)
  {
  }

  /** A read followed by a write of the same bits moves them. */
  lemma CastBits(b: seq<bool>, width: nat)
    requires |b| <= width
    ensures Cast(b, width)[..|b|] == b
  {
  }
}

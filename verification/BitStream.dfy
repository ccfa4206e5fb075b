/**
 * Bit streams over words of any width. Every operation works a word at a time with shifts and
 * masks; its contract speaks of the memory as one sequence of bits.
 */
module BitStream {
  import opened Common
  import opened Num
  import opened Bits
  import opened Words

  lemma {:induction false} SpanMonotone(width: nat, m: nat, n: nat)
    requires m <= n
    ensures Span(width, m) <= Span(width, n)
    decreases n
  {
    if m < n {
      SpanMonotone(width, m, n - 1);
    }
  }

  /** A stream that has a bit left stands within memory. */
  lemma WithinMemory(width: nat, at: nat, offset: nat, length: nat)
    requires Span(width, at) + offset < Span(width, length)
    ensures at < length
  {
    if at >= length {
      SpanMonotone(width, length, at);
    }
  }

  /** A key of its own for what a stream holds. */
  predicate IsMemoryKey(k: nat) { k >= 0 }

  /** The first `done` bits of `value` have been spliced into `f`. */
  ghost predicate Written(memory: seq<bool>, f: seq<bool>, start: nat, value: Word, done: nat) {
    && done <= |value| && start + done <= |f| == |memory|
    && forall key: nat | IsKey(key) :: memory == Splice(f, start, value[..done])
  }

  lemma WrittenNone(f: seq<bool>, start: nat, value: Word)
    requires start <= |f|
    ensures Written(f, f, start, value, 0) == true
  {
    SpliceNone(f, start, value);
  }

  lemma WrittenNext(memory: seq<bool>, f: seq<bool>, start: nat, value: Word, done: nat, k: nat, v: Word, next: seq<bool>)
    requires Written(memory, f, start, value, done) == true && done + k <= |value| && start + done + k <= |f|
    requires v == Shr(value, done) && k <= |v| && next == Splice(memory, start + done, v[..k])
    ensures Written(next, f, start, value, done + k) == true
  {
    assert IsKey(0);
    SpliceNext(f, start, value, done, k);
  }

  lemma WrittenAll(memory: seq<bool>, f: seq<bool>, start: nat, value: Word, done: nat)
    requires Written(memory, f, start, value, done) == true
    ensures start + done <= |f| && memory == Splice(f, start, value[..done])
  {
    assert IsKey(0);
  }

  class BitStream {
    const mem: array<Word>
    const width: nat
    var at: nat
    var offset: nat
    var remaining: nat

    ghost function Position(): nat
      reads this
    {
      Span(width, at) + offset
    }

    /** All of the memory the stream stands in, as bits. */
    ghost function Memory(): seq<bool>
      reads this, mem
    {
      Flat(mem[..])
    }

    ghost predicate Valid()
      reads this, mem
    {
      && Uniform(mem[..], width)
      && offset < width
      && Position() + remaining <= Span(width, mem.Length)
    }

    constructor (mem: array<Word>, width: nat, numBits: nat, offset: nat)
      requires Uniform(mem[..], width) && offset <= numBits <= Span(width, mem.Length)
      ensures this.mem == mem && this.width == width && Valid()
      ensures Position() == offset && remaining == numBits - offset
    {
      SpanDiv(width, offset);
      this.mem, this.width := mem, width;
      this.at, this.offset, this.remaining := offset / width, offset % width, numBits - offset;
    }

    /** Steps over k bits of the current word. */
    method StepOver(k: nat)
      requires offset < width && k <= width - offset
      modifies this`at, this`offset
      ensures Position() == old(Position()) + k && offset < width
    {
      offset := offset + k;
      if offset == width {
        offset := 0;
        at := at + 1;
      }
    }

    /** Replaces k bits of the current word with the low bits of v. */
    method WritePiece(v: Word, k: nat)
      requires Uniform(mem[..], width) && at < mem.Length && offset + k <= width && k <= |v|
      modifies mem
      ensures Uniform(mem[..], width)
      ensures Position() + k <= |old(Memory())| && Memory() == Splice(old(Memory()), Position(), v[..k])
    {
      ghost var words := mem[..];
      var word := Blend(mem[at], v, offset, k);
      PieceWritten(words, width, at, offset, v[..k], word);
      mem[at] := word;
      assert mem[..] == words[at := word];
    }

    /** Writes as many of the `left` low bits of v as the current word takes. */
    method WriteSome(v: Word, left: nat) returns (k: nat)
      requires Uniform(mem[..], width) && offset < width && 0 < left <= |v|
      requires Position() + left <= Span(width, mem.Length)
      modifies this`at, this`offset, mem
      ensures Uniform(mem[..], width) && offset < width && 0 < k <= left
      ensures Position() == old(Position()) + k <= |old(Memory())|
      ensures Memory() == Splice(old(Memory()), old(Position()), v[..k])
    {
      WithinMemory(width, at, offset, mem.Length);
      k := Min(width - offset, left);
      WritePiece(v, k);
      StepOver(k);
    }

    /** The write so far: the first `done` bits of `value`, spliced into `f` at `start`. */
    ghost predicate Wrote(f: seq<bool>, start: nat, value: Word, done: nat)
      reads this, mem
    {
      && Uniform(mem[..], width) == true && offset < width
      && Position() == start + done && Written(Memory(), f, start, value, done) == true
    }

    /** One more word. */
    method WriteMore(v: Word, left: nat, ghost f: seq<bool>, ghost start: nat, ghost value: Word, ghost done: nat)
      returns (k: nat, next: Word)
      requires Wrote(f, start, value, done) == true && 0 < left && done + left <= |value| && v == Shr(value, done)
      requires Position() + left <= Span(width, mem.Length) == |f|
      modifies this`at, this`offset, mem
      ensures 0 < k <= left && Wrote(f, start, value, done + k) == true && next == Shr(value, done + k)
    {
      ghost var memory := Memory();
      k := WriteSome(v, left);
      WrittenNext(memory, f, start, value, done, k, v, Memory());
      ShrTwice(value, done, k);
      next := Shr(v, k);
    }

    /** Word by word. */
    method WriteWords(value: Word, n: nat, ghost f: seq<bool>, ghost start: nat)
      requires n <= |value| && start + n <= Span(width, mem.Length) == |f| && Wrote(f, start, value, 0) == true
      modifies this`at, this`offset, mem
      ensures Wrote(f, start, value, n) == true
    {
      var v: Word, left: nat := value, n;
      ghost var done := 0;
      while left != 0
        invariant left + done == n && Wrote(f, start, value, done) == true && v == Shr(value, done)
      {
        var k;
        k, v := WriteMore(v, left, f, start, value, done);
        left, done := left - k, done + k;
      }
    }

    /** Exactly bits [position, position + n) change, to the low n bits of `value`. */
    method WriteUnsafe(value: Word, n: nat)
      requires Valid() && n <= remaining && n <= |value|
      modifies this`at, this`offset, this`remaining, mem
      ensures Valid() && remaining == old(remaining) - n && Position() == old(Position()) + n
      ensures Position() <= |old(Memory())| && Memory() == Splice(old(Memory()), old(Position()), value[..n])
    {
      ghost var start, f := Position(), Memory();
      FlatLength(mem[..], width);
      WrittenNone(f, start, value);
      remaining := remaining - n;
      WriteWords(value, n, f, start);
      WrittenAll(Memory(), f, start, value, n);
    }

    /** Adds k bits of the current word to the result, at its bit `done`. */
    method ReadPiece(result: Word, done: nat, k: nat) returns (r: Word)
      requires Uniform(mem[..], width) && at < mem.Length && offset + k <= width && done + k <= |result|
      requires ZeroFrom(result, done)
      ensures Position() + k <= |Memory()| && r == Splice(result, done, Memory()[Position()..Position() + k])
    {
      ghost var p, bits := Position(), Memory();
      assert p + k <= |bits| && bits[p..p + k] == mem[at][offset..offset + k] by {
        PieceRead(mem[..], width, at, offset, k);
        assert mem[..][at] == mem[at];
      }
      r := Pick(mem[at], offset, k, result, done);
    }

    /** Reads as many of the `left` bits as the current word holds. */
    method ReadSome(result: Word, done: nat, left: nat) returns (r: Word, k: nat)
      requires Uniform(mem[..], width) && offset < width && 0 < left && done + left <= |result|
      requires Position() + left <= Span(width, mem.Length)
      requires ZeroFrom(result, done)
      modifies this`at, this`offset
      ensures offset < width && 0 < k <= left
      ensures Position() == old(Position()) + k <= |Memory()|
      ensures r == Splice(result, done, Memory()[old(Position())..Position()])
    {
      WithinMemory(width, at, offset, mem.Length);
      k := Min(width - offset, left);
      r := ReadPiece(result, done, k);
      StepOver(k);
    }

    /** One more word read: `result` holds the bits from `start` on. */
    method ReadMore(result: Word, done: nat, left: nat, ghost start: nat) returns (r: Word, k: nat)
      requires Uniform(mem[..], width) && offset < width && 0 < left && done + left <= |result|
      requires Position() == start + done && Position() + left <= Span(width, mem.Length) == |Memory()|
      requires result == Cast(Memory()[start..start + done], |result|)
      modifies this`at, this`offset
      ensures offset < width && 0 < k <= left && |r| == |result|
      ensures Position() == start + done + k <= |Memory()|
      ensures r == Cast(Memory()[start..Position()], |result|)
    {
      CastMore(Memory(), start, done, 0, |result|);
      r, k := ReadSome(result, done, left);
      CastMore(Memory(), start, done, k, |result|);
    }

    /** The next n bits, zero-extended to a word of any width that holds them. */
    method ReadUnsafe(n: nat, resultWidth: nat) returns (result: Word)
      requires Valid() && n <= remaining && n <= resultWidth
      modifies this`at, this`offset, this`remaining
      ensures Valid() && remaining == old(remaining) - n && Position() == old(Position()) + n <= |Memory()|
      ensures result == Cast(Memory()[old(Position())..Position()], resultWidth)
    {
      FlatLength(mem[..], width);
      remaining := remaining - n;
      result := LowOnes(resultWidth, 0);
      var done: nat, left: nat := 0, n;
      while left != 0
        invariant left + done == n && offset < width && remaining == old(remaining) - n
        invariant Position() == old(Position()) + done && |result| == resultWidth
        invariant result == Cast(Memory()[old(Position())..Position()], resultWidth)
      {
        var k;
        result, k := ReadMore(result, done, left, old(Position()));
        done, left := done + k, left - k;
      }
    }

    /** The assertion on the width is the caller's business; what does not fit is dropped. */
    method WriteValue(value: Word, numBits: nat) returns (n: nat)
      requires Valid() && numBits <= |value|
      modifies this`at, this`offset, this`remaining, mem
      ensures n == Min(numBits, old(remaining))
      ensures Valid() && remaining == old(remaining) - n && Position() == old(Position()) + n
      ensures Position() <= |old(Memory())| && Memory() == Splice(old(Memory()), old(Position()), value[..n])
    {
      n := Min(numBits, remaining);
      WriteUnsafe(value, n);
    }

    method Read(numBits: nat, resultWidth: nat) returns (result: Word)
      requires Valid() && numBits <= resultWidth
      modifies this`at, this`offset, this`remaining
      ensures var n := Min(numBits, old(remaining));
              && Valid() && remaining == old(remaining) - n && Position() == old(Position()) + n <= |Memory()|
              && result == Cast(Memory()[old(Position())..Position()], resultWidth)
    {
      result := ReadUnsafe(Min(numBits, remaining), resultWidth);
    }

    method Skip(numBits: nat) returns (n: nat)
      requires Valid()
      modifies this`at, this`offset, this`remaining
      ensures n == Min(numBits, old(remaining))
      ensures Valid() && remaining == old(remaining) - n && Position() == old(Position()) + n
    {
      n := Min(numBits, remaining);
      remaining := remaining - n;
      var sum := offset + n;
      SpanDiv(width, sum);
      SpanAdd(width, at, sum / width);
      offset := sum % width;
      at := at + sum / width;
    }

    method Crop(numBits: nat)
      requires Valid()
      modifies this`remaining
      ensures Valid() && remaining == Min(old(remaining), numBits)
    {
      remaining := Min(remaining, numBits);
    }

    /** Moves k bits, no more than a vessel holds, out of its own memory or another. */
    method Move(src: BitStream, vessel: nat, k: nat)
      requires Valid() && src.Valid() && this != src && 0 < k <= remaining && k <= src.remaining && k <= vessel
      modifies this`at, this`offset, this`remaining, mem, src`at, src`offset, src`remaining
      ensures Valid() && remaining == old(remaining) - k && Position() == old(Position()) + k
      ensures src.Valid() && src.remaining == old(src.remaining) - k && src.Position() == old(src.Position()) + k
      ensures src.Memory() == if mem == src.mem then Memory() else old(src.Memory())
      ensures Moved(old(Memory()), old(Position()), old(src.Memory()), old(src.Position()), k, Memory()) == true
    {
      ghost var from, source := src.Position(), src.Memory();
      var word := src.ReadUnsafe(k, vessel);
      CastBits(source[from..from + k], vessel);
      WithinMemory(width, at, offset, mem.Length);
      WriteUnsafe(word, k);
    }

    /** The stream stands at a position of memory, with so many bits remaining. */
    ghost predicate Stands(s: Stand)
      reads this, mem
    {
      forall key: nat | IsMemoryKey(key) :: Valid() && Memory() == s.memory && Position() == s.position && remaining == s.remaining
    }

    /** Moves one vessel's worth of bits. */
    method CopySome(src: BitStream, vessel: nat, left: nat, ghost s: Stand, ghost t: Stand) returns (k: nat, ghost next: seq<bool>)
      requires Stands(s) == true && src.Stands(t) == true && this != src && 0 < vessel && 0 < left <= s.remaining && left <= t.remaining
      modifies this`at, this`offset, this`remaining, mem, src`at, src`offset, src`remaining
      ensures k == Min(vessel, left) && Moved(s.memory, s.position, t.memory, t.position, k, next) == true
      ensures Stands(Past(s, k, next)) == true
      ensures src.Stands(Past(t, k, if mem == src.mem then next else t.memory)) == true
    {
      assert IsMemoryKey(0);
      k := Min(vessel, left);
      Move(src, vessel, k);
      next := Memory();
    }

    /**
     * Copies bits from another stream, of any word width: as they were if it stands in other memory,
     * else vessel by vessel.
     */
    method CopyFrom(src: BitStream, numBits: nat) returns (n: nat)
      requires Valid() && src.Valid() && this != src
      modifies this`at, this`offset, this`remaining, mem, src`at, src`offset, src`remaining
      ensures n == Min(numBits, Min(old(remaining), old(src.remaining)))
      ensures Valid() && remaining == old(remaining) - n && Position() == old(Position()) + n <= |old(Memory())|
      ensures src.Valid() && src.remaining == old(src.remaining) - n && src.Position() == old(src.Position()) + n <= |old(src.Memory())|
      ensures mem != src.mem ==>
        && src.Memory() == old(src.Memory())
        && Memory() == Splice(old(Memory()), old(Position()), old(src.Memory())[old(src.Position())..src.Position()])
      ensures mem == src.mem ==>
        Memory() == CopiedWithin(old(Memory()), old(Position()), old(src.Position()), n, Max(width, src.width))
    {
      n := Min(numBits, Min(remaining, src.remaining));
      FlatLength(mem[..], width);
      FlatLength(src.mem[..], src.width);
      ghost var s, t := Stand(Memory(), Position(), remaining), Stand(src.Memory(), src.Position(), src.remaining);
      ghost var all := if mem == src.mem then CopiedWithin(s.memory, s.position, t.position, n, Max(width, src.width)) else [];
      ghost var c := Copy(s.memory, s.position, t.memory, t.position, n, all);
      MidwayStart(c, mem == src.mem, s, t, Max(width, src.width));
      s, t := CopyAll(src, n, c, mem == src.mem, s, t);
      MidwayEnd(c, mem == src.mem, s, t, Max(width, src.width));
      assert IsMemoryKey(0);
    }

    /** Vessel by vessel. */
    method CopyAll(src: BitStream, n: nat, ghost c: Copy, ghost shared: bool, ghost first: Stand, ghost source: Stand)
      returns (ghost s: Stand, ghost t: Stand)
      requires Stands(first) == true && src.Stands(source) == true && this != src && width > 0 && shared == (mem == src.mem)
      requires n <= first.remaining && n <= source.remaining
      requires Midway(c, shared, first, source, n, Max(width, src.width)) == true
      modifies this`at, this`offset, this`remaining, mem, src`at, src`offset, src`remaining
      ensures Stands(s) == true && src.Stands(t) == true
      ensures s.remaining == first.remaining - n && t.remaining == source.remaining - n
      ensures Midway(c, shared, s, t, 0, Max(width, src.width)) == true
    {
      var vessel, left: nat := Max(width, src.width), n;
      s, t := first, source;
      while left != 0
        invariant left <= n && Stands(s) == true && src.Stands(t) == true
        invariant s.remaining == first.remaining - (n - left) && t.remaining == source.remaining - (n - left)
        invariant Midway(c, shared, s, t, left, vessel) == true
      {
        ghost var next;
        var k: nat;
        k, next := CopySome(src, vessel, left, s, t);
        MidwayNext(c, shared, s, t, left, vessel, k, next);
        left, s, t := left - k, Past(s, k, next), Past(t, k, if shared then next else t.memory);
      }
    }
  }

  /** Where a stream stands: the memory, a position in it and how many bits remain. */
  datatype Stand = Stand(memory: seq<bool>, position: nat, remaining: nat)

  /** k bits on, in memory that may have changed. */
  function Past(s: Stand, k: nat, memory: seq<bool>): Stand
    requires k <= s.remaining
  {
    Stand(memory, s.position + k, s.remaining - k)
  }

  /** k bits of the source, from `from` on, have been moved to `at`. */
  predicate Moved(memory: seq<bool>, at: nat, source: seq<bool>, from: nat, k: nat, next: seq<bool>) {
    at + k <= |memory| && from + k <= |source| && next == Splice(memory, at, source[from..from + k])
  }

  /** A copy of n bits of g, from `from` on, to `start` in f; `all` is what it makes within one memory. */
  datatype Copy = Copy(f: seq<bool>, start: nat, g: seq<bool>, from: nat, n: nat, all: seq<bool>)

  /**
   * With `left` bits to go and the streams standing there: so many bits of g have been spliced into
   * f, or, within one memory, going on makes the whole copy.
   */
  ghost predicate Midway(c: Copy, shared: bool, s: Stand, t: Stand, left: nat, vessel: nat) {
    forall key: nat | IsKey(key) :: CopiedSoFar(c, shared, s, t, left, vessel)
  }

  ghost predicate CopiedSoFar(c: Copy, shared: bool, s: Stand, t: Stand, left: nat, vessel: nat) {
    && c.start + c.n <= |c.f| && c.from + c.n <= |c.g| && left <= c.n
    && s.position == c.start + (c.n - left) && t.position == c.from + (c.n - left)
    && if shared then t.memory == s.memory && WillBe(s.memory, s.position, t.position, left, vessel, c.all) == true
       else t.memory == c.g && s.memory == Splice(c.f, c.start, c.g[c.from..t.position])
  }

  lemma MidwayStart(c: Copy, shared: bool, s: Stand, t: Stand, vessel: nat)
    requires c.start + c.n <= |c.f| && c.from + c.n <= |c.g|
    requires s.memory == c.f && s.position == c.start && t.memory == c.g && t.position == c.from
    requires shared ==> c.f == c.g && 0 < vessel && c.all == CopiedWithin(c.f, c.start, c.from, c.n, vessel)
    ensures Midway(c, shared, s, t, c.n, vessel) == true
  {
    SpliceNothing(c.f, c.start, c.g, c.from);
  }

  lemma MidwayNext(c: Copy, shared: bool, s: Stand, t: Stand, left: nat, vessel: nat, k: nat, next: seq<bool>)
    requires Midway(c, shared, s, t, left, vessel) == true && 0 < left && k == Min(vessel, left)
    requires k <= s.remaining && k <= t.remaining && Moved(s.memory, s.position, t.memory, t.position, k, next) == true
    ensures Midway(c, shared, Past(s, k, next), Past(t, k, if shared then next else t.memory), left - k, vessel) == true
  {
    assert IsKey(0);
    if shared {
      WillStillBe(s.memory, s.position, t.position, left, vessel, c.all, k, next);
    } else {
      SpliceCopied(c.f, c.start, c.g, c.from, t.position - c.from, t.position + k, s.memory);
    }
  }

  lemma MidwayEnd(c: Copy, shared: bool, s: Stand, t: Stand, vessel: nat)
    requires Midway(c, shared, s, t, 0, vessel) == true
    ensures s.position == c.start + c.n <= |c.f| && t.position == c.from + c.n <= |c.g|
    ensures shared ==> s.memory == c.all && t.memory == c.all
    ensures !shared ==> t.memory == c.g && s.memory == Splice(c.f, c.start, c.g[c.from..t.position])
  {
    assert IsKey(0);
  }

  // ---------------------------------------------------------------- copying within one memory

  /** n bits copied from `from` to `start` of the same memory, at most `vessel` at a time. */
  function CopiedWithin(f: seq<bool>, start: nat, from: nat, n: nat, vessel: nat): (r: seq<bool>)
    requires 0 < vessel && start + n <= |f| && from + n <= |f|
    ensures |r| == |f|
    decreases n
  {
    if n == 0 then f
    else
      var k: nat := Min(vessel, n);
      CopiedWithin(Splice(f, start, f[from..from + k]), start + k, from + k, n - k, vessel)
  }

  /** Copying n bits within f makes `all`. */
  ghost predicate WillBe(f: seq<bool>, start: nat, from: nat, n: nat, vessel: nat, all: seq<bool>) {
    && 0 < vessel && start + n <= |f| == |all| && from + n <= |f|
    && forall key: nat | IsKey(key) :: all == CopiedWithin(f, start, from, n, vessel)
  }

  /** `all` is f with the n bits copied as they were. */
  ghost predicate AsTheyWere(f: seq<bool>, start: nat, from: nat, n: nat, all: seq<bool>) {
    && start + n <= |f| && from + n <= |f|
    && forall key: nat | IsKey(key) :: all == Splice(f, start, f[from..from + n])
  }

  /** One vessel has been moved. */
  lemma WillStillBe(f: seq<bool>, start: nat, from: nat, n: nat, vessel: nat, all: seq<bool>, k: nat, next: seq<bool>)
    requires WillBe(f, start, from, n, vessel, all) == true && 0 < n && k == Min(vessel, n) && Moved(f, start, f, from, k, next) == true
    ensures WillBe(next, start + k, from + k, n - k, vessel, all) == true
  {
    assert IsKey(0);
  }

  lemma OneVessel(f: seq<bool>, start: nat, from: nat, n: nat, vessel: nat, all: seq<bool>) returns (k: nat, next: seq<bool>)
    requires WillBe(f, start, from, n, vessel, all) == true && 0 < n
    ensures 0 < k == Min(vessel, n) && Moved(f, start, f, from, k, next) == true && |next| == |f|
    ensures WillBe(next, start + k, from + k, n - k, vessel, all) == true
  {
    k := Min(vessel, n);
    next := Splice(f, start, f[from..from + k]);
    WillStillBe(f, start, from, n, vessel, all, k, next);
  }

  /** Whether no vessel carries a bit that an earlier one has overwritten. */
  predicate Undisturbed(start: nat, from: nat, n: nat, vessel: nat) {
    start <= from || from + n <= start || n <= vessel
  }

  lemma WereBefore(f: seq<bool>, start: nat, from: nat, n: nat, vessel: nat, all: seq<bool>, k: nat, next: seq<bool>)
    requires k == Min(vessel, n) && start + n <= |f| && from + n <= |f| && Undisturbed(start, from, n, vessel)
    requires Moved(f, start, f, from, k, next) == true && AsTheyWere(next, start + k, from + k, n - k, all) == true
    ensures AsTheyWere(f, start, from, n, all) == true
  {
    assert IsKey(0);
    assert next[from + k..from + n] == f[from + k..from + n];
    SpliceCopied(f, start, f, from, k, from + n, next);
  }

  lemma {:induction false} CleanCopy(f: seq<bool>, start: nat, from: nat, n: nat, vessel: nat, all: seq<bool>)
    requires WillBe(f, start, from, n, vessel, all) == true && Undisturbed(start, from, n, vessel)
    ensures AsTheyWere(f, start, from, n, all) == true
    decreases n
  {
    if n == 0 {
      assert IsKey(0);
      SpliceNothing(f, start, f, from);
    } else {
      var k, next := OneVessel(f, start, from, n, vessel, all);
      CleanCopy(next, start + k, from + k, n - k, vessel, all);
      WereBefore(f, start, from, n, vessel, all, k, next);
    }
  }

  lemma MovedAt(f: seq<bool>, start: nat, from: nat, k: nat, next: seq<bool>, p: nat)
    requires Moved(f, start, f, from, k, next) == true && p < |f|
    ensures |next| == |f| && next[p] == if start <= p < start + k then f[p - start + from] else f[p]
  {
  }

  /** What lies below the place written is kept. */
  lemma {:induction false} KeptBelow(f: seq<bool>, start: nat, from: nat, n: nat, vessel: nat, all: seq<bool>, p: nat)
    requires WillBe(f, start, from, n, vessel, all) == true && p < start
    ensures all[p] == f[p]
    decreases n
  {
    if n == 0 {
      assert IsKey(0);
    } else {
      var k, next := OneVessel(f, start, from, n, vessel, all);
      KeptBelow(next, start + k, from + k, n - k, vessel, all, p);
      MovedAt(f, start, from, k, next, p);
    }
  }

  /** The bits up to p are zero, from `from` on. */
  predicate Dark(f: seq<bool>, from: nat, p: nat) {
    p < |f| && forall q: nat | from <= q <= p :: !f[q]
  }

  lemma DarkNext(f: seq<bool>, start: nat, from: nat, k: nat, p: nat, next: seq<bool>)
    requires from <= start && from + k <= p && Dark(f, from, p) && Moved(f, start, f, from, k, next) == true
    ensures Dark(next, from + k, p)
  {
    forall q: nat | from + k <= q <= p ensures p < |next| && !next[q] {
      MovedAt(f, start, from, k, next, q);
    }
  }

  /** Where everything up to bit x of the source is zero, zero is copied for it. */
  lemma {:induction false} DarkCopy(f: seq<bool>, start: nat, from: nat, n: nat, vessel: nat, all: seq<bool>, x: nat)
    requires WillBe(f, start, from, n, vessel, all) == true && x < n && from <= start && Dark(f, from, from + x)
    ensures !all[start + x]
    decreases n
  {
    var k, next := OneVessel(f, start, from, n, vessel, all);
    if x < k {
      KeptBelow(next, start + k, from + k, n - k, vessel, all, start + x);
      MovedAt(f, start, from, k, next, start + x);
    } else {
      DarkNext(f, start, from, k, from + x, next);
      DarkCopy(next, start + k, from + k, n - k, vessel, all, x - k);
    }
  }

  /** Memory of all zeros but for one bit. */
  function OneLit(length: nat, x: nat): (f: seq<bool>)
    ensures |f| == length && forall p: nat | p < length :: f[p] == (p == x)
  {
    seq(length, p => p == x)
  }

  /** Copying forwards onto itself, more than one vessel: a bit is lost. */
  lemma BitLost(length: nat, start: nat, from: nat, n: nat, vessel: nat) returns (f: seq<bool>)
    requires 0 < vessel && start + n <= length && from + n <= length && !Undisturbed(start, from, n, vessel)
    ensures |f| == length && CopiedWithin(f, start, from, n, vessel) != Splice(f, start, f[from..from + n])
  {
    var x: nat := Max(start - from, vessel);
    f := OneLit(length, from + x);
    var all := CopiedWithin(f, start, from, n, vessel);
    var k, next := OneVessel(f, start, from, n, vessel, all);
    forall q: nat | from + k <= q <= from + x ensures from + x < |next| && !next[q] {
      MovedAt(f, start, from, k, next, q);
    }
    DarkCopy(next, start + k, from + k, n - k, vessel, all, x - k);
    assert Splice(f, start, f[from..from + n])[start + x] == f[from + x];
  }

  /** A copy within one memory copies the bits that were there, whatever they are, exactly when undisturbed. */
  lemma CopyWithinExactly(length: nat, start: nat, from: nat, n: nat, vessel: nat)
    requires 0 < vessel && start + n <= length && from + n <= length
    ensures (forall f: seq<bool> | |f| == length :: CopiedWithin(f, start, from, n, vessel) == Splice(f, start, f[from..from + n]))
            <==> Undisturbed(start, from, n, vessel)
  {
    if Undisturbed(start, from, n, vessel) {
      forall f: seq<bool> | |f| == length ensures CopiedWithin(f, start, from, n, vessel) == Splice(f, start, f[from..from + n]) {
        assert IsKey(0);
        CleanCopy(f, start, from, n, vessel, CopiedWithin(f, start, from, n, vessel));
      }
    } else {
      var f := BitLost(length, start, from, n, vessel);
    }
  }

  lemma SpliceNothing(f: seq<bool>, p: nat, g: seq<bool>, q: nat)
    requires p <= |f| && q <= |g|
    ensures Splice(f, p, g[q..q]) == f
  {
  }

  lemma SpliceCopied(f: seq<bool>, p: nat, g: seq<bool>, q: nat, done: nat, end: nat, m: seq<bool>)
    requires q + done <= end <= |g| && p + (end - q) <= |f| && m == Splice(f, p, g[q..q + done])
    ensures |m| == |f| && Splice(m, p + done, g[q + done..end]) == Splice(f, p, g[q..end])
  {
    SpliceTwice(f, p, g[q..q + done], g[q + done..end]);
    assert g[q..q + done] + g[q + done..end] == g[q..end];
  }

  // ---------------------------------------------------------------- splitting

  /** A part of a stream's bits: where it starts and how many it has. */
  datatype Part = Part(position: nat, remaining: nat)

  /** A stream made anew from another's word, offset and count, as Split and the read-only conversion do. */
  function Remade(position: nat, offset: nat, remaining: nat): Part
    requires offset <= remaining
  {
    Part(position, remaining - offset)
  }

  /** The two parts Split makes; its assertion holds if the offset does not exceed the count. */
  function SplitAt(position: nat, offset: nat, remaining: nat, n: nat): (Part, Part)
    requires offset <= remaining
  {
    var made := Remade(position, offset, remaining);
    var skipped: nat := Min(n, made.remaining);
    (made.(remaining := Min(made.remaining, n)), Part(position + skipped, made.remaining - skipped))
  }

  /** The two parts meant: the first n bits, and the others. */
  function SplitMeant(position: nat, remaining: nat, n: nat): (Part, Part) {
    var k: nat := Min(n, remaining);
    (Part(position, k), Part(position + k, remaining - k))
  }

  /** Remaking keeps the bits, and splitting parts them as meant wherever it is asked to, exactly at offset 0. */
  lemma SplitExactly(position: nat, offset: nat, remaining: nat)
    requires offset <= remaining
    ensures Remade(position, offset, remaining) == Part(position, remaining) <==> offset == 0
    ensures (forall n: nat :: SplitAt(position, offset, remaining, n) == SplitMeant(position, remaining, n)) <==> offset == 0
  {
    if offset > 0 {
      assert SplitAt(position, offset, remaining, remaining) != SplitMeant(position, remaining, remaining);
    }
  }
}

/**
 * The chunked buffer of a transaction. Chunks form a list that outlives `Clear`; the chunks up
 * to the tail are in use, those behind it wait to be reused. An offset counts from the start
 * of the chunk's header.
 */
module TransactionBuffer {
  /** Offsets are 64 bits wide; a chunk's header takes 32 bytes. */
  const SIZES: nat := 0x1_0000_0000_0000_0000
  const HEADER: nat := 32

  datatype Chunk = Chunk(total: nat, used: nat)

  datatype Position = Position(chunk: nat, offset: nat)

  /** An allocation: where it is and how large. */
  datatype Block = Block(at: Position, size: nat)

  // ---------------------------------------------------------------- reading

  /** The reader's step: past the end of a chunk it goes on to the next one there is, in use or not. */
  function Advance(chunks: seq<Chunk>, p: Position, size: nat): Position
    requires p.chunk < |chunks|
  {
    if p.offset + size >= chunks[p.chunk].used && p.chunk + 1 < |chunks|
    then Position(p.chunk + 1, HEADER)
    else Position(p.chunk, p.offset + size)
  }

  /** What a chunk holds. */
  function Room(c: Chunk): nat { if c.used < HEADER then 0 else c.used - HEADER }

  /** Bytes held by the first n chunks. */
  function Before(chunks: seq<Chunk>, n: nat): nat
    requires n <= |chunks|
  {
    if n == 0 then 0 else Before(chunks, n - 1) + Room(chunks[n - 1])
  }

  /** The sizes of the first k blocks, added up. */
  function Sizes(blocks: seq<Block>, k: nat): nat
    requires k <= |blocks|
  {
    if k == 0 then 0 else Sizes(blocks, k - 1) + blocks[k - 1].size
  }

  lemma {:induction false} BeforeSame(a: seq<Chunk>, b: seq<Chunk>, n: nat)
    requires n <= |a| && n <= |b| && a[..n] == b[..n]
    ensures Before(a, n) == Before(b, n)
  {
    if n > 0 {
      assert a[n - 1] == a[..n][n - 1] == b[..n][n - 1] == b[n - 1];
      assert a[..n - 1] == a[..n][..n - 1] && b[..n - 1] == b[..n][..n - 1];
      BeforeSame(a, b, n - 1);
    }
  }

  // ---------------------------------------------------------------- what the blocks look like

  /** Block k ends where block k + 1 begins, for the reader. */
  predicate Follows(chunks: seq<Chunk>, blocks: seq<Block>, k: nat)
    requires k + 1 < |blocks|
  {
    && blocks[k].at.chunk < |chunks|
    && blocks[k + 1].at == Advance(chunks, blocks[k].at, blocks[k].size)
  }

  /** Where block k lies: inside its chunk, and short of its end while the chunk is the tail. */
  predicate Placed(chunks: seq<Chunk>, tail: nat, blocks: seq<Block>, k: nat)
    requires k < |blocks| && tail < |chunks|
  {
    var b := blocks[k];
    && b.at.chunk <= tail && b.size > 0 && b.at.offset >= HEADER
    && b.at.offset + b.size <= chunks[b.at.chunk].used
    && (b.at.chunk == tail && k + 1 < |blocks| ==> b.at.offset + b.size < chunks[tail].used)
    && Before(chunks, b.at.chunk) + b.at.offset == HEADER + Sizes(blocks, k)
  }

  /** The blocks allocated since the last `Clear`, in a buffer that has a tail. */
  predicate Filled(chunks: seq<Chunk>, tail: nat, offset: nat, blocks: seq<Block>) {
    && tail < |chunks| && blocks != []
    && blocks[0].at == Position(0, HEADER)
    && blocks[|blocks| - 1].at.chunk == tail
    && blocks[|blocks| - 1].at.offset + blocks[|blocks| - 1].size == offset == chunks[tail].used
    && (forall k: nat | k < |blocks| :: Placed(chunks, tail, blocks, k))
    && (forall k: nat | k + 1 < |blocks| :: Follows(chunks, blocks, k))
  }

  lemma {:induction false} SizesSame(blocks: seq<Block>, b: Block, k: nat)
    requires k <= |blocks|
    ensures Sizes(blocks + [b], k) == Sizes(blocks, k)
  {
    if k > 0 {
      SizesSame(blocks, b, k - 1);
    }
  }

  /** Another block in the tail chunk. */
  lemma FilledSame(chunks: seq<Chunk>, tail: nat, offset: nat, blocks: seq<Block>, size: nat)
    requires Filled(chunks, tail, offset, blocks) && size > 0
    ensures Filled(chunks[tail := chunks[tail].(used := offset + size)], tail, offset + size,
                   blocks + [Block(Position(tail, offset), size)])
  {
    var next := chunks[tail := chunks[tail].(used := offset + size)];
    var more := blocks + [Block(Position(tail, offset), size)];
    var n := |blocks|;
    forall k: nat | k < |more| ensures Placed(next, tail, more, k) {
      SizesSame(blocks, more[n], k);
      var at := if k < n then blocks[k].at.chunk else tail;
      if k < n {
        assert Placed(chunks, tail, blocks, k);
      } else {
        assert Placed(chunks, tail, blocks, n - 1);
        SizesSame(blocks, more[n], n - 1);
        BeforeSame(chunks, next, blocks[n - 1].at.chunk);
      }
      BeforeSame(chunks, next, at);
    }
    forall k: nat | k + 1 < |more| ensures Follows(next, more, k) {
      assert Placed(chunks, tail, blocks, k);
      if k + 1 < n {
        assert Follows(chunks, blocks, k);
      }
    }
  }

  /** A first block in the chunk behind the tail, whether that chunk is new or reused. */
  lemma FilledNext(chunks: seq<Chunk>, tail: nat, offset: nat, blocks: seq<Block>, next: seq<Chunk>, size: nat)
    requires Filled(chunks, tail, offset, blocks) && size > 0
    requires tail + 1 < |next| && next[..tail + 1] == chunks[..tail + 1] && next[tail + 1].used == HEADER + size
    ensures Filled(next, tail + 1, HEADER + size, blocks + [Block(Position(tail + 1, HEADER), size)])
  {
    var more := blocks + [Block(Position(tail + 1, HEADER), size)];
    var n, last := |blocks|, tail + 1;
    assert forall i: nat | i <= tail :: next[i] == next[..tail + 1][i] == chunks[i];
    forall k: nat | k < |more| ensures Placed(next, last, more, k) {
      SizesSame(blocks, more[n], k);
      if k < n {
        assert Placed(chunks, tail, blocks, k);
        Prefix(chunks, next, tail + 1, blocks[k].at.chunk);
      } else {
        assert Placed(chunks, tail, blocks, n - 1);
        SizesSame(blocks, more[n], n - 1);
        Prefix(chunks, next, tail + 1, tail);
      }
    }
    forall k: nat | k + 1 < |more| ensures Follows(next, more, k) {
      assert Placed(chunks, tail, blocks, k);
      if k + 1 < n {
        assert Follows(chunks, blocks, k);
      }
    }
  }

  lemma Prefix(a: seq<Chunk>, b: seq<Chunk>, m: nat, n: nat)
    requires n <= m <= |a| && m <= |b| && a[..m] == b[..m]
    ensures Before(a, n) == Before(b, n)
  {
    assert a[..n] == a[..m][..n] && b[..n] == b[..m][..n];
    BeforeSame(a, b, n);
  }

  lemma FilledFirst(chunks: seq<Chunk>, size: nat)
    requires chunks != [] && chunks[0].used == HEADER + size && size > 0
    ensures Filled(chunks, 0, HEADER + size, [Block(Position(0, HEADER), size)])
  {
  }

  // ---------------------------------------------------------------- walking and measuring

  /** Where a reader is that started at the beginning and stepped over k blocks. */
  function Visited(chunks: seq<Chunk>, blocks: seq<Block>, k: nat): Position
    requires k <= |blocks|
  {
    if k == 0 then Position(0, HEADER)
    else
      var p := Visited(chunks, blocks, k - 1);
      if p.chunk < |chunks| then Advance(chunks, p, blocks[k - 1].size) else p
  }

  /** It visits every position that was handed out. */
  lemma {:induction false} VisitsBlocks(chunks: seq<Chunk>, tail: nat, offset: nat, blocks: seq<Block>, k: nat)
    requires Filled(chunks, tail, offset, blocks) && k < |blocks|
    ensures Visited(chunks, blocks, k) == blocks[k].at
  {
    if k > 0 {
      VisitsBlocks(chunks, tail, offset, blocks, k - 1);
      assert Follows(chunks, blocks, k - 1);
    }
  }

  /** After the last block it stands at the end if and only if no chunk waits behind the tail. */
  lemma StopsAtEnd(chunks: seq<Chunk>, tail: nat, offset: nat, blocks: seq<Block>)
    requires Filled(chunks, tail, offset, blocks)
    ensures Visited(chunks, blocks, |blocks|) == Position(tail, offset) <==> tail + 1 == |chunks|
  {
    VisitsBlocks(chunks, tail, offset, blocks, |blocks| - 1);
  }

  /** The distance of a block is the size of all blocks before it. */
  lemma DistanceIsSizes(chunks: seq<Chunk>, tail: nat, offset: nat, blocks: seq<Block>, k: nat)
    requires Filled(chunks, tail, offset, blocks) && k < |blocks|
    ensures blocks[k].at.chunk < |chunks| && blocks[k].at.offset >= HEADER
    ensures Before(chunks, blocks[k].at.chunk) + (blocks[k].at.offset - HEADER) == Sizes(blocks, k)
  {
    assert Placed(chunks, tail, blocks, k);
  }

  /** The bytes of the first n chunks, one after the other; data[i] is chunk i with its header. */
  function Concatenation<T>(chunks: seq<Chunk>, data: seq<seq<T>>, n: nat): (r: seq<T>)
    requires n <= |chunks| == |data| && forall i | 0 <= i < n :: chunks[i].used <= |data[i]|
    ensures |r| == Before(chunks, n)
  {
    if n == 0 then []
    else Concatenation(chunks, data, n - 1)
         + (if chunks[n - 1].used < HEADER then [] else data[n - 1][HEADER..chunks[n - 1].used])
  }

  /** Byte o of chunk c stands at its distance in the concatenation. */
  lemma {:induction false} ByteAtDistance<T>(chunks: seq<Chunk>, data: seq<seq<T>>, n: nat, c: nat, o: nat)
    requires n <= |chunks| == |data| && forall i | 0 <= i < n :: chunks[i].used <= |data[i]|
    requires c < n && HEADER <= o < chunks[c].used
    ensures Before(chunks, c) + (o - HEADER) < Before(chunks, n)
    ensures Concatenation(chunks, data, n)[Before(chunks, c) + (o - HEADER)] == data[c][o]
    decreases n
  {
    if c < n - 1 {
      ByteAtDistance(chunks, data, n - 1, c, o);
    }
  }

  // ---------------------------------------------------------------- the buffer

  class TransactionBuffer {
    const minChunkSize: nat
    var chunks: seq<Chunk>
    var tail: int
    var offset: nat
    ghost var blocks: seq<Block>

    ghost predicate Valid()
      reads this
    {
      && -1 <= tail < |chunks|
      && (forall i | 0 <= i < |chunks| :: HEADER <= chunks[i].used <= chunks[i].total)
      && (if tail == -1 then blocks == [] && offset == HEADER else Filled(chunks, tail, offset, blocks))
    }

    constructor (minChunkSize: nat)
      ensures Valid() && chunks == [] && tail == -1 && blocks == []
    {
      this.minChunkSize := minChunkSize;
      chunks, tail, offset, blocks := [], -1, HEADER, [];
    }

    method Clear()
      requires Valid()
      modifies this`tail, this`offset, this`blocks
      ensures Valid() && tail == -1 && blocks == []
    {
      tail, offset, blocks := -1, HEADER, [];
    }

    /** Moves to the next chunk: the one behind the tail if it is large enough, else a new one in its place. */
    method GoToNextChunk(size: nat)
      requires -1 <= tail < |chunks| && forall i | 0 <= i < |chunks| :: HEADER <= chunks[i].used <= chunks[i].total
      modifies this`chunks, this`tail, this`offset
      ensures tail == old(tail) + 1 < |chunks| && offset == HEADER == chunks[tail].used
      ensures HEADER + size <= chunks[tail].total
      ensures old(tail + 1 == |chunks|) ==> tail + 1 == |chunks|
      ensures chunks[..tail] == old(chunks)[..tail]
      ensures forall i | 0 <= i < |chunks| :: HEADER <= chunks[i].used <= chunks[i].total
    {
      var total := if HEADER + size < minChunkSize then minChunkSize else HEADER + size;
      var next := tail + 1;
      if next < |chunks| && chunks[next].total >= total {
        chunks := chunks[next := chunks[next].(used := HEADER)];
      } else {
        chunks := chunks[..next] + [Chunk(total, HEADER)];
      }
      tail, offset := next, HEADER;
    }

    /** A block of at least one byte, behind all others and where a reader will find it. */
    method Allocate(size: nat) returns (p: Position)
      requires Valid() && size > 0
      modifies this
      ensures Valid() && blocks == old(blocks) + [Block(p, size)]
      ensures tail >= old(tail) && tail >= 0 && p.chunk == tail
      // A buffer never cleared keeps its tail last, which is what a reader needs to stop at the end.
      ensures old(tail + 1 == |chunks|) ==> tail + 1 == |chunks|
    {
      ghost var was := chunks;
      if tail == -1 || offset + size > chunks[tail].total {
        GoToNextChunk(size);
        ghost var next := chunks[tail := chunks[tail].(used := HEADER + size)];
        if old(tail) == -1 {
          FilledFirst(next, size);
        } else {
          FilledNext(was, old(tail), old(offset), blocks, next, size);
        }
      } else {
        FilledSame(chunks, tail, offset, blocks, size);
      }
      p := Position(tail, offset);
      chunks := chunks[tail := chunks[tail].(used := offset + size)];
      offset := offset + size;
      blocks := blocks + [Block(p, size)];
    }

    /** The distance of a position from the beginning, chunk by chunk. */
    method Distance(p: Position) returns (d: nat)
      requires Valid() && p.chunk < |chunks| && p.offset >= HEADER
      ensures d == Before(chunks, p.chunk) + (p.offset - HEADER)
    {
      var total: nat := 0;
      var current := 0;
      while current < |chunks| && current != p.chunk
        invariant current <= p.chunk && total == Before(chunks, current)
      {
        total := total + (chunks[current].used - HEADER);
        current := current + 1;
      }
      d := total + (p.offset - HEADER);
    }

    /** All bytes in use, in order. */
    method ForEachChunk<T>(data: seq<seq<T>>) returns (all: seq<T>)
      requires Valid() && |data| == |chunks| && forall i | 0 <= i < |chunks| :: chunks[i].used <= |data[i]|
      ensures all == Concatenation(chunks, data, tail + 1)
    {
      all := [];
      if tail == -1 {
        return;
      }
      var current := 0;
      while current <= tail
        invariant 0 <= current <= tail + 1 && all == Concatenation(chunks, data, current)
      {
        all := all + data[current][HEADER..chunks[current].used];
        current := current + 1;
      }
    }

    /** Back from a distance; what it subtracts for a chunk includes the chunk's header. */
    method FromDistance(distance: nat) returns (p: Position)
      requires Valid() && tail >= 0 && distance < SIZES
      ensures p == Found(chunks, tail, 0, distance)
    {
      var current, d: nat := 0, distance;
      while current != tail && chunks[current].used - HEADER <= d
        invariant 0 <= current <= tail && d < SIZES
        invariant Found(chunks, tail, current, d) == Found(chunks, tail, 0, distance)
        decreases tail - current
      {
        d := (d - chunks[current].used) % SIZES;
        current := current + 1;
      }
      p := Position(current, (d + HEADER) % SIZES);
    }
  }

  function Found(chunks: seq<Chunk>, tail: nat, current: nat, d: nat): Position
    requires current <= tail < |chunks|
    decreases tail - current
  {
    if current != tail && Room(chunks[current]) <= d
    then Found(chunks, tail, current + 1, (d - chunks[current].used) % SIZES)
    else Position(current, (d + HEADER) % SIZES)
  }

  /** Memory taken by the first n chunks, headers included. */
  function Taken(chunks: seq<Chunk>, n: nat): nat
    requires n <= |chunks|
  {
    if n == 0 then 0 else Taken(chunks, n - 1) + chunks[n - 1].used
  }

  lemma {:induction false} TakenMore(chunks: seq<Chunk>, m: nat, n: nat)
    requires m <= n <= |chunks| && forall i | 0 <= i < |chunks| :: chunks[i].used >= HEADER
    ensures Taken(chunks, m) <= Taken(chunks, n)
    ensures n > 0 ==> Taken(chunks, n) >= Before(chunks, n) + HEADER
    decreases n
  {
    if m < n {
      TakenMore(chunks, m, n - 1);
    } else if n > 0 {
      TakenMore(chunks, m - 1, n - 1);
    }
  }

  lemma ModAdd(a: int, b: int)
    ensures (a % SIZES + b) % SIZES == (a + b) % SIZES
  {
  }

  /** Whatever chunk it stops at, the offset it finds there misses the headers passed over. */
  lemma {:induction false} FoundOffset(chunks: seq<Chunk>, tail: nat, current: nat, d: nat)
    requires current <= tail < |chunks|
    ensures var q := Found(chunks, tail, current, d);
            && current <= q.chunk <= tail
            && q.offset == (d + Taken(chunks, current) - Taken(chunks, q.chunk) + HEADER) % SIZES
    decreases tail - current
  {
    if current != tail && Room(chunks[current]) <= d {
      var less := d - chunks[current].used;
      FoundOffset(chunks, tail, current + 1, less % SIZES);
      var q := Found(chunks, tail, current + 1, less % SIZES);
      ModAdd(less, Taken(chunks, current + 1) - Taken(chunks, q.chunk) + HEADER);
    }
  }

  /** It finds a block again, from its distance, if and only if the block is in the first chunk. */
  lemma FromDistanceExactly(chunks: seq<Chunk>, tail: nat, offset: nat, blocks: seq<Block>, k: nat)
    requires Filled(chunks, tail, offset, blocks) && k < |blocks|
    requires Taken(chunks, |chunks|) < SIZES && forall i | 0 <= i < |chunks| :: chunks[i].used >= HEADER
    ensures Found(chunks, tail, 0, Sizes(blocks, k)) == blocks[k].at <==> blocks[k].at.chunk == 0
  {
    var p := blocks[k].at;
    assert Placed(chunks, tail, blocks, k);
    DistanceIsSizes(chunks, tail, offset, blocks, k);
    FoundOffset(chunks, tail, 0, Sizes(blocks, k));
    TakenMore(chunks, p.chunk, p.chunk + 1);
    TakenMore(chunks, p.chunk + 1, |chunks|);
    TakenMore(chunks, 0, p.chunk);
  }
}

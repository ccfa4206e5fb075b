/**
 * Variable-size structures: a head of fixed size, followed by parts whose sizes the head, or a
 * variant's discriminant, decides. Emplacing runs once to count and once to write; extracting
 * recovers the size from the bytes alone. Streams are aligned to 4 bytes, and no alignment
 * exceeds that.
 */
module Vss {
  import opened Common

  const STREAM: nat := 4

  predicate IsAlignment(a: nat) { a == 1 || a == 2 || a == 4 }

  /** Up to the next multiple of a, written out for the alignments there are. */
  function AlignUp(x: nat, a: nat): (r: nat)
    ensures x <= r
    ensures a == 1 ==> r == x
    ensures IsAlignment(a) && x % 4 == 0 ==> r == x
    ensures a == 2 ==> r % 2 == 0 && r < x + 2
    ensures a == 4 ==> r % 4 == 0 && r < x + 4
  {
    if a == 2 then x + x % 2
    else if a == 4 then x + (4 - x % 4) % 4
    else x
  }

  /** Rounding up commutes with adding whole multiples. */
  lemma AlignUpShift(x: nat, y: nat)
    requires x % 4 == 0
    ensures AlignUp(x + y, 4) == x + AlignUp(y, 4)
  {
  }

  // ---------------------------------------------------------------- types and objects

  /**
   * A plain type; an array whose length comes from its context; a record whose head tells the
   * lengths of its arrays; a variant, which is a 32-bit index and one of its options.
   */
  datatype Ty =
    | LeafTy(size: nat, align: nat)
    | ArrayTy(align: nat)
    | RecordTy(size: nat, align: nat, lengths: seq<byte> -> seq<nat>, parts: seq<Ty>)
    | VariantTy(options: seq<Ty>)

  datatype Obj =
    | Leaf(data: seq<byte>, align: nat)
    | Array(data: seq<byte>, align: nat)
    | Record(head: seq<byte>, align: nat, parts: seq<Obj>)
    | Chosen(index: nat, option: Obj)

  /** The largest alignment a type needs anywhere: the one it is placed by. */
  function TyAlign(t: Ty): nat { if t.VariantTy? then 4 else t.align }

  function AlignOf(o: Obj): nat { if o.Chosen? then 4 else o.align }

  /** Alignments are at most 4, heads are whole multiples of 4, parts after the first are aligned to 4. */
  predicate WellFormed(t: Ty) {
    match t
    case LeafTy(_, a) => IsAlignment(a)
    case ArrayTy(a) => IsAlignment(a)
    case RecordTy(size, a, _, parts) =>
      && IsAlignment(a) && size % 4 == 0
      && forall i | 0 <= i < |parts| :: WellFormed(parts[i]) && (i > 0 ==> TyAlign(parts[i]) == 4)
    case VariantTy(options) => forall i | 0 <= i < |options| :: WellFormed(options[i])
  }

  /** A 32-bit value, least significant byte first. */
  function Encode(n: nat): seq<byte> {
    var a := n / 256;
    var b := a / 256;
    [n % 256, a % 256, b % 256, b / 256 % 256]
  }

  function Decode(b: seq<byte>): nat
    requires |b| == 4
  {
    var high: nat := b[2] as int + 256 * (b[3] as int);
    b[0] as int + 256 * (b[1] as int + 256 * high)
  }

  lemma EncodeDecode(n: nat)
    requires n < 0x1_0000_0000
    ensures Decode(Encode(n)) == n
  {
    var a := n / 256;
    var b := a / 256;
    assert b / 256 < 256;
    assert b % 256 + 256 * (b / 256) == b;
    assert a % 256 + 256 * b == a;
  }

  /** An object of a type; `length` is the length its context gives, which only an array uses. */
  predicate Fits(o: Obj, t: Ty, length: nat) {
    match t
    case LeafTy(size, a) => o.Leaf? && |o.data| == size && o.align == a
    case ArrayTy(a) => o.Array? && |o.data| == length && o.align == a
    case RecordTy(size, a, lengths, parts) =>
      && o.Record? && |o.head| == size && o.align == a
      && |o.parts| == |parts| == |lengths(o.head)|
      && forall i | 0 <= i < |parts| :: Fits(o.parts[i], parts[i], lengths(o.head)[i])
    case VariantTy(options) =>
      o.Chosen? && o.index < |options| && o.index < 0x1_0000_0000 && Fits(o.option, options[o.index], 0)
  }

  // ---------------------------------------------------------------- emplacing

  function Padded(b: seq<byte>, a: nat): (r: seq<byte>)
    ensures |r| == AlignUp(|b|, a) && b <= r
  {
    b + seq(AlignUp(|b|, a) - |b|, _ => 0)
  }

  /** The alignment that part i is padded to: that of the part behind it, or of what follows the record. */
  function After(o: Obj, i: nat, post: nat): nat
    requires o.Record? && i < |o.parts|
  {
    if i + 1 < |o.parts| then AlignOf(o.parts[i + 1]) else post
  }

  function HeadAlign(o: Obj): nat
    requires o.Record?
  {
    if o.parts == [] then 1 else AlignOf(o.parts[0])
  }

  /** The bytes written. */
  function Bytes(o: Obj, post: nat): seq<byte>
    decreases o, if o.Record? then |o.parts| + 1 else 0
  {
    match o
    case Leaf(data, _) => Padded(data, post)
    case Array(data, _) => Padded(data, post)
    case Record(head, _, _) => Padded(head, HeadAlign(o)) + PartBytes(o, 0, post)
    case Chosen(index, option) => Padded(Encode(index), AlignOf(option)) + Bytes(option, post)
  }

  function PartBytes(o: Obj, i: nat, post: nat): seq<byte>
    requires o.Record? && i <= |o.parts|
    decreases o, |o.parts| - i
  {
    if i == |o.parts| then [] else Bytes(o.parts[i], After(o, i, post)) + PartBytes(o, i + 1, post)
  }

  /** The counting pass: the same walk over a stream that only counts. */
  function Count(o: Obj, post: nat): nat
    decreases o, if o.Record? then |o.parts| + 1 else 0
  {
    match o
    case Leaf(data, _) => AlignUp(|data|, post)
    case Array(data, _) => AlignUp(|data|, post)
    case Record(head, _, _) => AlignUp(|head|, HeadAlign(o)) + PartCount(o, 0, post)
    case Chosen(_, option) => AlignUp(4, AlignOf(option)) + Count(option, post)
  }

  function PartCount(o: Obj, i: nat, post: nat): nat
    requires o.Record? && i <= |o.parts|
    decreases o, |o.parts| - i
  {
    if i == |o.parts| then 0 else Count(o.parts[i], After(o, i, post)) + PartCount(o, i + 1, post)
  }

  lemma {:induction false} CountIsLength(o: Obj, post: nat)
    ensures |Bytes(o, post)| == Count(o, post)
    decreases o, if o.Record? then |o.parts| + 1 else 0
  {
    match o
    case Leaf(_, _) =>
    case Array(_, _) =>
    case Record(_, _, _) => PartCountIsLength(o, 0, post);
    case Chosen(_, option) => CountIsLength(option, post);
  }

  lemma {:induction false} PartCountIsLength(o: Obj, i: nat, post: nat)
    requires o.Record? && i <= |o.parts|
    ensures |PartBytes(o, i, post)| == PartCount(o, i, post)
    decreases o, |o.parts| - i
  {
    if i < |o.parts| {
      CountIsLength(o.parts[i], After(o, i, post));
      PartCountIsLength(o, i + 1, post);
    }
  }

  // ---------------------------------------------------------------- extracting

  /** The bytes a record's head takes, up to its first part. */
  function HeadSize(t: Ty): nat
    requires t.RecordTy?
  {
    AlignUp(t.size, if t.parts == [] then 1 else TyAlign(t.parts[0]))
  }

  /** A head of h bytes and what follows it, rounded up. */
  function Whole(h: nat, inner: Option<nat>, max: nat, post: nat): (r: Option<nat>)
    requires h <= max
    ensures r.Some? ==> r.value <= max
  {
    if inner.None? || AlignUp(inner.value, post) > max - h then None else Some(h + AlignUp(inner.value, post))
  }

  /** The size of an object of type t at `at`, of which `max` bytes may be looked at. */
  function SizeOf(t: Ty, mem: seq<byte>, at: nat, max: nat, length: nat, post: nat): (r: Option<nat>)
    requires at + max <= |mem|
    ensures r.Some? ==> r.value <= max
    decreases t, if t.RecordTy? then |t.parts| + 1 else 0
  {
    match t
    case LeafTy(size, _) => if AlignUp(size, post) > max then None else Some(AlignUp(size, post))
    case ArrayTy(_) => if AlignUp(length, post) > max then None else Some(AlignUp(length, post))
    case RecordTy(size, _, lengths, parts) =>
      if HeadSize(t) > max then None
      else Whole(HeadSize(t), SizeOfParts(t, lengths(mem[at..at + size]), 0, mem, at + HeadSize(t), max - HeadSize(t)), max, post)
    case VariantTy(options) =>
      if 4 > max then None
      else
        var d := Decode(mem[at..at + 4]);
        Whole(4, if d < |options| then SizeOf(options[d], mem, at + 4, max - 4, 0, 1) else Some(0), max, post)
  }

  function SizeOfParts(t: Ty, lengths: seq<nat>, i: nat, mem: seq<byte>, at: nat, max: nat): (r: Option<nat>)
    requires t.RecordTy? && i <= |t.parts| && at + max <= |mem|
    ensures r.Some? ==> r.value <= max
    decreases t, |t.parts| - i
  {
    if i == |t.parts| then Some(0)
    else
      var post := if i + 1 < |t.parts| then TyAlign(t.parts[i + 1]) else 1;
      var first := SizeOf(t.parts[i], mem, at, max, if i < |lengths| then lengths[i] else 0, post);
      if first.None? then None
      else
        var rest := SizeOfParts(t, lengths, i + 1, mem, at + first.value, max - first.value);
        if rest.None? then None else Some(first.value + rest.value)
  }

  // ---------------------------------------------------------------- the same size either way

  /** The parts of a record are of the types of its parts, with the lengths its head gives. */
  predicate PartsFit(o: Obj, t: Ty, lengths: seq<nat>) {
    && o.Record? && t.RecordTy? && |o.parts| == |t.parts| == |lengths|
    && forall k | 0 <= k < |t.parts| :: Fits(o.parts[k], t.parts[k], lengths[k])
  }


  /** Rounded up, the bytes for post-alignment 1 become those for the stream's alignment. */
  lemma {:induction false} TrailingPadding(o: Obj, t: Ty, length: nat)
    requires WellFormed(t) == true && Fits(o, t, length) == true
    ensures Bytes(o, 1) <= Bytes(o, 4) && |Bytes(o, 4)| == AlignUp(|Bytes(o, 1)|, 4)
    decreases o, if o.Record? then |o.parts| + 1 else 0
  {
    match o
    case Leaf(data, _) =>
    case Array(data, _) =>
    case Record(head, _, parts) =>
      PartPadding(o, t, t.lengths(head), 0);
      AlignUpShift(|Padded(head, HeadAlign(o))|, |PartBytes(o, 0, 1)|);
    case Chosen(index, option) =>
      TrailingPadding(option, t.options[index], 0);
      AlignUpShift(|Padded(Encode(index), AlignOf(option))|, |Bytes(option, 1)|);
  }

  lemma {:induction false} PartPadding(o: Obj, t: Ty, lengths: seq<nat>, i: nat)
    requires WellFormed(t) == true && PartsFit(o, t, lengths) && i <= |o.parts|
    ensures PartBytes(o, i, 1) <= PartBytes(o, i, 4) && |PartBytes(o, i, 4)| == AlignUp(|PartBytes(o, i, 1)|, 4)
    decreases o, |o.parts| - i
  {
    if i < |o.parts| {
      TrailingPadding(o.parts[i], t.parts[i], lengths[i]);
      PartPadding(o, t, lengths, i + 1);
      if i + 1 < |o.parts| {
        AlignUpShift(|Bytes(o.parts[i], 4)|, |PartBytes(o, i + 1, 1)|);
      }
    }
  }

  predicate Holds(mem: seq<byte>, at: nat, b: seq<byte>) {
    at + |b| <= |mem| && mem[at..at + |b|] == b
  }

  lemma HoldsPart(mem: seq<byte>, at: nat, a: seq<byte>, b: seq<byte>, c: seq<byte>)
    requires Holds(mem, at, a + b) == true && c <= b
    ensures Holds(mem, at, a) == true && Holds(mem, at + |a|, c) == true
    ensures mem[at..at + |a|] == a
  {
    var m := mem[at..at + |a + b|];
    assert m == a + b;
    assert mem[at..at + |a|] == m[..|a|] == a;
    var p := at + |a|;
    forall k | 0 <= k < |c| ensures mem[p + k] == c[k] {
      assert m[|a| + k] == mem[at + (|a| + k)];
    }
    assert mem[p..p + |c|] == c;
  }

  lemma FitsAlign(o: Obj, t: Ty, length: nat)
    requires Fits(o, t, length)
    ensures AlignOf(o) == TyAlign(t)
  {
  }

  /** Extracting what was emplaced recovers exactly the size emplaced, whatever else lies behind it. */
  lemma {:induction false} Recovered(o: Obj, t: Ty, length: nat, mem: seq<byte>, at: nat, max: nat, post: nat)
    requires WellFormed(t) == true && Fits(o, t, length) == true && (post == 1 || post == 4)
    requires at + max <= |mem| && |Bytes(o, post)| <= max && Holds(mem, at, Bytes(o, post)) == true
    ensures SizeOf(t, mem, at, max, length, post) == Some(|Bytes(o, post)|)
    decreases o, if o.Record? then |o.parts| + 1 else 0, 1
  {
    match o
    case Leaf(_, _) =>
    case Array(_, _) =>
    case Record(_, _, _) =>
      RecordBytes(o, t, length, post);
      RecoveredRecord(o, t, length, mem, at, max, post);
    case Chosen(index, option) => RecoveredOption(o, t, length, mem, at, max, post);
  }

  /** What a record's bytes are made of. */
  lemma RecordBytes(o: Obj, t: Ty, length: nat, post: nat)
    requires WellFormed(t) == true && Fits(o, t, length) == true && o.Record? && (post == 1 || post == 4)
    ensures Shaped(o, t, t.lengths(o.head))
    ensures t.size == |o.head| == HeadSize(t)
    ensures Bytes(o, post) == o.head + PartBytes(o, 0, post)
    ensures PartBytes(o, 0, 1) <= PartBytes(o, 0, post)
    ensures |PartBytes(o, 0, post)| == AlignUp(|PartBytes(o, 0, 1)|, post)
  {
    HeadIsWhole(o, t, t.lengths(o.head));
    PartPadding(o, t, t.lengths(o.head), 0);
  }

  lemma {:induction false} RecoveredRecord(o: Obj, t: Ty, length: nat, mem: seq<byte>, at: nat, max: nat, post: nat)
    requires o.Record? && t.RecordTy? && Shaped(o, t, t.lengths(o.head))
    requires t.size == |o.head| == HeadSize(t)
    requires PartBytes(o, 0, 1) <= PartBytes(o, 0, post)
    requires |PartBytes(o, 0, post)| == AlignUp(|PartBytes(o, 0, 1)|, post)
    requires at + max <= |mem| && |o.head + PartBytes(o, 0, post)| <= max
    requires Holds(mem, at, o.head + PartBytes(o, 0, post)) == true
    ensures SizeOf(t, mem, at, max, length, post) == Some(|o.head + PartBytes(o, 0, post)|)
    decreases o, |o.parts| + 1, 0
  {
    HoldsPart(mem, at, o.head, PartBytes(o, 0, post), PartBytes(o, 0, 1));
    RecoveredParts(o, t, t.lengths(o.head), 0, mem, at + |o.head|, max - |o.head|);
    SizeOfRecord(t, mem, at, max, length, post, o.head, |PartBytes(o, 0, 1)|);
  }

  /** A head of whole multiples of 4 needs no padding. */
  lemma HeadIsWhole(o: Obj, t: Ty, lengths: seq<nat>)
    requires WellFormed(t) == true && PartsFit(o, t, lengths) && |o.head| == t.size
    ensures Padded(o.head, HeadAlign(o)) == o.head
    ensures t.size == HeadSize(t)
  {
    if o.parts != [] {
      FitsAlign(o.parts[0], t.parts[0], lengths[0]);
    }
  }

  lemma SizeOfRecord(t: Ty, mem: seq<byte>, at: nat, max: nat, length: nat, post: nat, head: seq<byte>, n: nat)
    requires t.RecordTy? && at + max <= |mem| && |head| + AlignUp(n, post) <= max
    requires t.size == |head| == HeadSize(t) && mem[at..at + t.size] == head
    requires SizeOfParts(t, t.lengths(head), 0, mem, at + |head|, max - |head|) == Some(n)
    ensures SizeOf(t, mem, at, max, length, post) == Some(|head| + AlignUp(n, post))
  {
    assert Whole(|head|, Some(n), max, post) == Some(|head| + AlignUp(n, post));
  }

  /** What a variant's bytes are made of. */
  lemma OptionBytes(o: Obj, t: Ty, length: nat, post: nat)
    requires WellFormed(t) == true && Fits(o, t, length) == true && o.Chosen? && (post == 1 || post == 4)
    ensures t.VariantTy? && o.index < |t.options|
    ensures WellFormed(t.options[o.index]) == true && Fits(o.option, t.options[o.index], 0) == true
    ensures Bytes(o, post) == Encode(o.index) + Bytes(o.option, post) && Decode(Encode(o.index)) == o.index
    ensures Bytes(o.option, 1) <= Bytes(o.option, post) && |Bytes(o.option, post)| == AlignUp(|Bytes(o.option, 1)|, post)
  {
    TrailingPadding(o.option, t.options[o.index], 0);
    EncodeDecode(o.index);
    FitsAlign(o.option, t.options[o.index], 0);
    assert Padded(Encode(o.index), AlignOf(o.option)) == Encode(o.index);
  }

  lemma SizeOfVariant(t: Ty, mem: seq<byte>, at: nat, max: nat, length: nat, post: nat, index: nat, n: nat)
    requires t.VariantTy? && index < |t.options| && at + max <= |mem| && 4 + AlignUp(n, post) <= max
    requires Decode(mem[at..at + 4]) == index && SizeOf(t.options[index], mem, at + 4, max - 4, 0, 1) == Some(n)
    ensures SizeOf(t, mem, at, max, length, post) == Some(4 + AlignUp(n, post))
  {
    assert Whole(4, Some(n), max, post) == Some(4 + AlignUp(n, post));
  }

  lemma {:induction false} RecoveredOption(o: Obj, t: Ty, length: nat, mem: seq<byte>, at: nat, max: nat, post: nat)
    requires WellFormed(t) == true && Fits(o, t, length) == true && o.Chosen? && (post == 1 || post == 4)
    requires at + max <= |mem| && |Bytes(o, post)| <= max && Holds(mem, at, Bytes(o, post)) == true
    ensures SizeOf(t, mem, at, max, length, post) == Some(|Bytes(o, post)|)
    decreases o, 0, 0
  {
    OptionBytes(o, t, length, post);
    HoldsPart(mem, at, Encode(o.index), Bytes(o.option, post), Bytes(o.option, 1));
    Recovered(o.option, t.options[o.index], 0, mem, at + 4, max - 4, 1);
    SizeOfVariant(t, mem, at, max, length, post, o.index, |Bytes(o.option, 1)|);
  }

  /** The padding behind part i is what the reader expects behind it. */
  lemma SamePost(o: Obj, t: Ty, lengths: seq<nat>, i: nat, post: nat)
    requires WellFormed(t) == true && PartsFit(o, t, lengths) && i < |o.parts| && post == After(o, i, 1)
    ensures post == (if i + 1 < |t.parts| then TyAlign(t.parts[i + 1]) else 1) && (post == 1 || post == 4)
  {
    if i + 1 < |o.parts| {
      FitsAlign(o.parts[i + 1], t.parts[i + 1], lengths[i + 1]);
    }
  }

  lemma SizeOfPartsStep(t: Ty, lengths: seq<nat>, i: nat, mem: seq<byte>, at: nat, max: nat, post: nat, n: nat, m: nat)
    requires t.RecordTy? && i < |t.parts| == |lengths| && at + max <= |mem| && n <= max
    requires post == if i + 1 < |t.parts| then TyAlign(t.parts[i + 1]) else 1
    requires SizeOf(t.parts[i], mem, at, max, lengths[i], post) == Some(n)
    requires SizeOfParts(t, lengths, i + 1, mem, at + n, max - n) == Some(m)
    ensures SizeOfParts(t, lengths, i, mem, at, max) == Some(n + m)
  {
  }

  /** Part i, of n bytes, and what is left for the parts behind it. */
  lemma {:induction false} RecoveredPart(o: Obj, t: Ty, lengths: seq<nat>, i: nat, mem: seq<byte>, at: nat, max: nat)
    returns (post: nat, n: nat)
    requires WellFormed(t) == true && PartsFit(o, t, lengths) == true && i < |o.parts|
    requires at + max <= |mem| && |PartBytes(o, i, 1)| <= max && Holds(mem, at, PartBytes(o, i, 1)) == true
    ensures |PartBytes(o, i, 1)| == n + |PartBytes(o, i + 1, 1)|
    ensures SizeOf(t.parts[i], mem, at, max, lengths[i], post) == Some(n)
    ensures Holds(mem, at + n, PartBytes(o, i + 1, 1)) == true
    ensures post == if i + 1 < |t.parts| then TyAlign(t.parts[i + 1]) else 1
    decreases o, |o.parts| - i, 0
  {
    post := After(o, i, 1);
    SamePost(o, t, lengths, i, post);
    var first, rest := Bytes(o.parts[i], post), PartBytes(o, i + 1, 1);
    n := |first|;
    HoldsPart(mem, at, first, rest, rest);
    Recovered(o.parts[i], t.parts[i], lengths[i], mem, at, max, post);
  }

  /** A well-formed record and its parts, behind a key: the induction over the parts only passes it on. */
  ghost predicate Shaped(o: Obj, t: Ty, lengths: seq<nat>) {
    && o.Record? && t.RecordTy? && |o.parts| == |t.parts| == |lengths|
    && forall k: nat | IsKey(k) :: WellFormed(t) && PartsFit(o, t, lengths)
  }

  lemma {:induction false} RecoveredNext(o: Obj, t: Ty, lengths: seq<nat>, i: nat, mem: seq<byte>, at: nat, max: nat)
    returns (post: nat, n: nat)
    requires Shaped(o, t, lengths) && i < |o.parts|
    requires at + max <= |mem| && |PartBytes(o, i, 1)| <= max && Holds(mem, at, PartBytes(o, i, 1)) == true
    ensures |PartBytes(o, i, 1)| == n + |PartBytes(o, i + 1, 1)|
    ensures SizeOf(t.parts[i], mem, at, max, lengths[i], post) == Some(n)
    ensures Holds(mem, at + n, PartBytes(o, i + 1, 1)) == true
    ensures post == if i + 1 < |t.parts| then TyAlign(t.parts[i + 1]) else 1
    decreases o, |o.parts| - i, 1
  {
    assert IsKey(0);
    post, n := RecoveredPart(o, t, lengths, i, mem, at, max);
  }

  lemma {:induction false} RecoveredParts(o: Obj, t: Ty, lengths: seq<nat>, i: nat, mem: seq<byte>, at: nat, max: nat)
    requires Shaped(o, t, lengths) && i <= |o.parts|
    requires at + max <= |mem| && |PartBytes(o, i, 1)| <= max && Holds(mem, at, PartBytes(o, i, 1)) == true
    ensures SizeOfParts(t, lengths, i, mem, at, max) == Some(|PartBytes(o, i, 1)|)
    decreases o, |o.parts| - i, 2
  {
    if i < |o.parts| {
      var post, n := RecoveredNext(o, t, lengths, i, mem, at, max);
      RecoveredParts(o, t, lengths, i + 1, mem, at + n, max - n);
      SizeOfPartsStep(t, lengths, i, mem, at, max, post, n, |PartBytes(o, i + 1, 1)|);
    }
  }

  /** The size recovered is the size counted: what Emplace allocated is what Extract steps over. */
  lemma ExtractSteps(o: Obj, t: Ty, mem: seq<byte>, at: nat, max: nat)
    requires WellFormed(t) == true && Fits(o, t, 0) == true
    requires at + max <= |mem| && Count(o, STREAM) <= max && Holds(mem, at, Bytes(o, STREAM)) == true
    ensures SizeOf(t, mem, at, max, 0, STREAM) == Some(Count(o, STREAM))
  {
    CountIsLength(o, STREAM);
    Recovered(o, t, 0, mem, at, max, STREAM);
  }

  // ---------------------------------------------------------------- what is read back

  /** How far behind the head of a record its part i stands, by the sizes recovered of the parts before it. */
  function PartAt(t: Ty, lengths: seq<nat>, i: nat, mem: seq<byte>, at: nat, max: nat): (r: Option<nat>)
    requires t.RecordTy? && i < |t.parts| && at + max <= |mem|
    ensures r.Some? ==> r.value <= max
  {
    if i == 0 then Some(0)
    else
      var before := PartAt(t, lengths, i - 1, mem, at, max);
      if before.None? then None
      else
        var length := if i - 1 < |lengths| then lengths[i - 1] else 0;
        var size := SizeOf(t.parts[i - 1], mem, at + before.value, max - before.value, length, TyAlign(t.parts[i]));
        if size.None? then None else Some(before.value + size.value)
  }

  /** The object of type t that a reader finds at `at`. */
  function ReadAt(t: Ty, mem: seq<byte>, at: nat, max: nat, length: nat): Option<Obj>
    requires at + max <= |mem|
    decreases t, if t.RecordTy? then |t.parts| + 1 else 0
  {
    match t
    case LeafTy(size, a) => if size > max then None else Some(Leaf(mem[at..at + size], a))
    case ArrayTy(a) => if length > max then None else Some(Array(mem[at..at + length], a))
    case RecordTy(size, a, lengths, _) =>
      if HeadSize(t) > max then None
      else
        var head := mem[at..at + size];
        var parts := ReadParts(t, lengths(head), 0, mem, at + HeadSize(t), max - HeadSize(t));
        if parts.None? then None else Some(Record(head, a, parts.value))
    case VariantTy(options) =>
      if 4 > max || Decode(mem[at..at + 4]) >= |options| then None
      else
        var index := Decode(mem[at..at + 4]);
        var option := ReadAt(options[index], mem, at + 4, max - 4, 0);
        if option.None? then None else Some(Chosen(index, option.value))
  }

  function ReadParts(t: Ty, lengths: seq<nat>, i: nat, mem: seq<byte>, at: nat, max: nat): Option<seq<Obj>>
    requires t.RecordTy? && i <= |t.parts| && at + max <= |mem|
    decreases t, |t.parts| - i
  {
    if i == |t.parts| then Some([])
    else
      var place := PartAt(t, lengths, i, mem, at, max);
      if place.None? then None
      else
        var length := if i < |lengths| then lengths[i] else 0;
        var part := ReadAt(t.parts[i], mem, at + place.value, max - place.value, length);
        var rest := ReadParts(t, lengths, i + 1, mem, at, max);
        if part.None? || rest.None? then None else Some([part.value] + rest.value)
  }

  lemma PartAtNext(t: Ty, lengths: seq<nat>, i: nat, mem: seq<byte>, at: nat, max: nat, n: nat, size: nat)
    requires t.RecordTy? && 0 < i < |t.parts| == |lengths| && at + max <= |mem| && n + size <= max
    requires PartAt(t, lengths, i - 1, mem, at, max) == Some(n)
    requires SizeOf(t.parts[i - 1], mem, at + n, max - n, lengths[i - 1], TyAlign(t.parts[i])) == Some(size)
    ensures PartAt(t, lengths, i, mem, at, max) == Some(n + size)
  {
  }

  /** A key of its own for what memory holds. */
  predicate IsMemoryKey(k: nat) { k >= 0 }

  /** Memory holds the parts of a record from part i on, within max bytes. */
  ghost predicate Laid(o: Obj, i: nat, mem: seq<byte>, at: nat, max: nat) {
    && o.Record? && i <= |o.parts| && at + max <= |mem|
    && forall key: nat | IsMemoryKey(key) :: |PartBytes(o, i, 1)| <= max && Holds(mem, at, PartBytes(o, i, 1))
  }

  /** Each part is found where it was laid out. */
  lemma {:induction false} PartFound(o: Obj, t: Ty, lengths: seq<nat>, i: nat, mem: seq<byte>, at: nat, max: nat) returns (n: nat)
    requires Shaped(o, t, lengths) == true && i < |o.parts| && |o.parts| == |t.parts| == |lengths| && t.RecordTy?
    requires at + max <= |mem| && Laid(o, 0, mem, at, max) == true
    ensures n <= max && PartAt(t, lengths, i, mem, at, max) == Some(n) && Laid(o, i, mem, at + n, max - n) == true
  {
    if i == 0 {
      n := 0;
    } else {
      var before := PartFound(o, t, lengths, i - 1, mem, at, max);
      n := NextFound(o, t, lengths, i - 1, i, mem, at, max, before);
    }
  }

  lemma NextFound(o: Obj, t: Ty, lengths: seq<nat>, j: nat, i: nat, mem: seq<byte>, at: nat, max: nat, before: nat)
    returns (n: nat)
    requires Shaped(o, t, lengths) == true && i == j + 1 < |o.parts| && |o.parts| == |t.parts| == |lengths| && t.RecordTy?
    requires at + max <= |mem| && before <= max && Laid(o, j, mem, at + before, max - before) == true
    requires PartAt(t, lengths, j, mem, at, max) == Some(before)
    ensures n <= max && PartAt(t, lengths, i, mem, at, max) == Some(n) && Laid(o, i, mem, at + n, max - n) == true
  {
    assert IsMemoryKey(0);
    var post, size := RecoveredNext(o, t, lengths, j, mem, at + before, max - before);
    PartAtNext(t, lengths, i, mem, at, max, before, size);
    n := before + size;
  }

  /** A part, its type, and the bytes of it that are there. */
  lemma PartHeld(o: Obj, t: Ty, lengths: seq<nat>, i: nat, mem: seq<byte>, at: nat, max: nat)
    requires Shaped(o, t, lengths) == true && i < |o.parts| == |t.parts| == |lengths| && Laid(o, i, mem, at, max) == true && t.RecordTy?
    ensures WellFormed(t.parts[i]) == true && Fits(o.parts[i], t.parts[i], lengths[i]) == true
    ensures Holds(mem, at, Bytes(o.parts[i], 1)) == true && |Bytes(o.parts[i], 1)| <= max
  {
    assert IsKey(0) && IsMemoryKey(0);
    var post := After(o, i, 1);
    SamePost(o, t, lengths, i, post);
    TrailingPadding(o.parts[i], t.parts[i], lengths[i]);
    HoldsPrefix(mem, at, Bytes(o.parts[i], post) + PartBytes(o, i + 1, 1), Bytes(o.parts[i], 1));
  }

  lemma HoldsPrefix(mem: seq<byte>, at: nat, a: seq<byte>, b: seq<byte>)
    requires Holds(mem, at, a) == true && b <= a
    ensures Holds(mem, at, b) == true
  {
    assert mem[at..at + |b|] == mem[at..at + |a|][..|b|];
  }

  /** What was emplaced is read back: every head, array, leaf and chosen option, as it was. */
  lemma {:induction false} ReadBack(o: Obj, t: Ty, length: nat, mem: seq<byte>, at: nat, max: nat)
    requires WellFormed(t) == true && Fits(o, t, length) == true
    requires at + max <= |mem| && |Bytes(o, 1)| <= max && Holds(mem, at, Bytes(o, 1)) == true
    ensures ReadAt(t, mem, at, max, length) == Some(o)
    decreases o, if o.Record? then |o.parts| + 1 else 0, 1
  {
    match o
    case Leaf(data, _) => HoldsPrefix(mem, at, Bytes(o, 1), data);
    case Array(data, _) => HoldsPrefix(mem, at, Bytes(o, 1), data);
    case Record(_, _, _) =>
      RecordBytes(o, t, length, 1);
      RecordBack(o, t, length, mem, at, max);
    case Chosen(_, _) => OptionBack(o, t, length, mem, at, max);
  }

  lemma {:induction false} RecordBack(o: Obj, t: Ty, length: nat, mem: seq<byte>, at: nat, max: nat)
    requires o.Record? && t.RecordTy? && o.align == t.align && Shaped(o, t, t.lengths(o.head)) == true
    requires t.size == |o.head| == HeadSize(t)
    requires at + max <= |mem| && |o.head + PartBytes(o, 0, 1)| <= max && Holds(mem, at, o.head + PartBytes(o, 0, 1)) == true
    ensures ReadAt(t, mem, at, max, length) == Some(o)
    decreases o, |o.parts| + 1, 0
  {
    HoldsPart(mem, at, o.head, PartBytes(o, 0, 1), PartBytes(o, 0, 1));
    assert Laid(o, 0, mem, at + |o.head|, max - |o.head|);
    PartsBack(o, t, t.lengths(o.head), 0, mem, at + |o.head|, max - |o.head|);
    assert o.parts[0..] == o.parts;
  }

  lemma {:induction false} OptionBack(o: Obj, t: Ty, length: nat, mem: seq<byte>, at: nat, max: nat)
    requires WellFormed(t) == true && Fits(o, t, length) == true && o.Chosen?
    requires at + max <= |mem| && |Bytes(o, 1)| <= max && Holds(mem, at, Bytes(o, 1)) == true
    ensures ReadAt(t, mem, at, max, length) == Some(o)
    decreases o, 0, 0
  {
    OptionBytes(o, t, length, 1);
    HoldsPart(mem, at, Encode(o.index), Bytes(o.option, 1), Bytes(o.option, 1));
    ReadBack(o.option, t.options[o.index], 0, mem, at + 4, max - 4);
  }

  lemma {:induction false} PartsBack(o: Obj, t: Ty, lengths: seq<nat>, i: nat, mem: seq<byte>, at: nat, max: nat)
    requires Shaped(o, t, lengths) == true && i <= |o.parts| && |o.parts| == |t.parts| == |lengths| && t.RecordTy?
    requires at + max <= |mem| && Laid(o, 0, mem, at, max) == true
    ensures ReadParts(t, lengths, i, mem, at, max) == Some(o.parts[i..])
    decreases o, |o.parts| - i, 0
  {
    if i == |o.parts| {
      assert o.parts[i..] == [];
    } else {
      var n := PartFound(o, t, lengths, i, mem, at, max);
      PartHeld(o, t, lengths, i, mem, at + n, max - n);
      ReadBack(o.parts[i], t.parts[i], lengths[i], mem, at + n, max - n);
      PartsBack(o, t, lengths, i + 1, mem, at, max);
      ReadPartsStep(t, lengths, i, mem, at, max, n, o.parts);
    }
  }

  lemma ReadPartsStep(t: Ty, lengths: seq<nat>, i: nat, mem: seq<byte>, at: nat, max: nat, n: nat, parts: seq<Obj>)
    requires t.RecordTy? && i < |t.parts| == |lengths| == |parts| && at + max <= |mem| && n <= max
    requires PartAt(t, lengths, i, mem, at, max) == Some(n)
    requires ReadAt(t.parts[i], mem, at + n, max - n, lengths[i]) == Some(parts[i])
    requires ReadParts(t, lengths, i + 1, mem, at, max) == Some(parts[i + 1..])
    ensures ReadParts(t, lengths, i, mem, at, max) == Some(parts[i..])
  {
    assert parts[i..] == [parts[i]] + parts[i + 1..];
  }

  /** The round trip of a stream: what Emplace wrote is what a reader of the extracted object finds. */
  lemma RoundTrip(o: Obj, t: Ty, mem: seq<byte>, at: nat, max: nat)
    requires WellFormed(t) == true && Fits(o, t, 0) == true
    requires at + max <= |mem| && Count(o, STREAM) <= max && Holds(mem, at, Bytes(o, STREAM)) == true
    ensures ReadAt(t, mem, at, max, 0) == Some(o) && SizeOf(t, mem, at, max, 0, STREAM) == Some(Count(o, STREAM))
  {
    ExtractSteps(o, t, mem, at, max);
    CountIsLength(o, STREAM);
    TrailingPadding(o, t, 0);
    HoldsPrefix(mem, at, Bytes(o, STREAM), Bytes(o, 1));
    ReadBack(o, t, 0, mem, at, max);
  }

  /** Without the alignment of later parts: two byte arrays of odd lengths are counted and recovered differently. */
  lemma UnalignedPartsDiffer(h: seq<byte>, a: seq<byte>, b: seq<byte>, mem: seq<byte>)
    requires |h| == 4 && |a| == 3 && |b| == 2 && |mem| == 16
    ensures var o := Record(h, 4, [Array(a, 1), Array(b, 1)]);
            var t := RecordTy(4, 4, (_: seq<byte>) => [3, 2], [ArrayTy(1), ArrayTy(1)]);
            && Fits(o, t, 0) && !WellFormed(t)
            && Count(o, STREAM) == 11 && SizeOf(t, mem, 0, 16, 0, STREAM) == Some(12)
  {
    var o := Record(h, 4, [Array(a, 1), Array(b, 1)]);
    var lengths := (_: seq<byte>) => [3, 2];
    var t := RecordTy(4, 4, lengths, [ArrayTy(1), ArrayTy(1)]);
    assert PartCount(o, 2, 4) == 0;
    assert PartCount(o, 1, 4) == 4;
    assert PartCount(o, 0, 4) == 7;
    assert SizeOfParts(t, [3, 2], 2, mem, 9, 7) == Some(0);
    assert SizeOfParts(t, [3, 2], 1, mem, 7, 9) == Some(2);
    assert SizeOfParts(t, [3, 2], 0, mem, 4, 12) == Some(5);
    assert TyAlign(t.parts[1]) == 1;
  }
}

/**
  The inventory tools: the stable descending sort by flammability, the
  danger filter, and the binary inventory file.  The file is a `u32` record
  count, then per record four length-prefixed UTF-8 strings (substance,
  weight, specific gravity, strength) and the 4-byte packed flammability.
  `u32` is the little-endian layout `struct.pack('I', n)` gives on the
  machines the program targets.  Packing a flammability into its four bytes
  is a parameter, since it may fail for values too large for a 32-bit float.
 */
module Inventory {
  import opened Wrappers
  import opened Seqs
  import opened Sorting

  type Byte = x: int | 0 <= x < 256

  /** Four packed bytes of a 32-bit float. */
  type Word4 = s: seq<Byte> | |s| == 4 witness [0, 0, 0, 0]

  /** `struct.pack('f', x)`: `None` where it raises. */
  type Pack = real -> Option<Word4>

  /** Bytes in a packed `u32`. */
  const U32Width: nat := 4
  /** `2^32`: the first count or length `struct.pack('I', ...)` rejects. */
  const U32Limit: nat := Pow256(U32Width)
  /** Text fields per record. */
  const FieldCount: nat := 4

  /**
    One inventory row. A text field is kept as the UTF-8 form of its code
    points; a lone surrogate, which `encode('utf-8')` rejects, leaves that
    form ill-formed (see `Utf8`).
   */
  datatype Item = Item(substance: seq<Byte>, weight: seq<Byte>, gravity: seq<Byte>, strength: seq<Byte>,
                       flammability: real)

  /** One record as it is stored: the flammability as its packed bytes. */
  datatype Record = Record(substance: seq<Byte>, weight: seq<Byte>, gravity: seq<Byte>, strength: seq<Byte>,
                           flammability: Word4)

  // ---------------------------------------------------------------------
  // Ordering and filtering

  /** `a` may come before `b` in a descending sort by flammability. */
  predicate FlammabilityGeq(a: Item, b: Item) {
    a.flammability >= b.flammability
  }

  lemma FlammabilityGeqTotal()
    ensures TotalPreorder(FlammabilityGeq)
  {
  }

  /** `sort_by_flammability`: `sorted(..., key=flammability, reverse=True)`. */
  function SortByFlammability(items: seq<Item>): (r: seq<Item>)
    ensures multiset(r) == multiset(items)
  {
    SortBy(items, FlammabilityGeq)
  }

  /** The sort is descending, and items of equal flammability keep their input order. */
  lemma SortByFlammabilitySpec(items: seq<Item>, e: Item)
    ensures var r := SortByFlammability(items);
      && (forall i, j :: 0 <= i < j < |r| ==> r[i].flammability >= r[j].flammability)
      && Filter(r, SameRank(FlammabilityGeq, e)) == Filter(items, SameRank(FlammabilityGeq, e))
  {
    FlammabilityGeqTotal();
    SortBySorted(items, FlammabilityGeq);
    SortByStable(items, FlammabilityGeq, e);
  }

  function AtLeast(threshold: real): Item -> bool {
    (item: Item) => item.flammability >= threshold
  }

  /** `filter_dangerous_items(items, threshold)`: the items at or above the threshold, in order. */
  function FilterDangerous(items: seq<Item>, threshold: real): (r: seq<Item>)
    ensures forall i :: 0 <= i < |r| ==> r[i].flammability >= threshold && r[i] in items
    ensures forall i :: 0 <= i < |items| && items[i].flammability >= threshold ==> items[i] in r
  {
    Filter(items, AtLeast(threshold))
  }

  /** The kept items are in input order. */
  lemma FilterDangerousInOrder(items: seq<Item>, threshold: real)
    ensures IsSubseq(FilterDangerous(items, threshold), items)
  {
    FilterIsSubseq(items, AtLeast(threshold));
  }

  /** On a list sorted by descending flammability the dangerous items form a prefix. */
  lemma {:induction false} SortedFilterIsPrefix(items: seq<Item>, threshold: real)
    requires forall i, j :: 0 <= i < j < |items| ==> items[i].flammability >= items[j].flammability
    ensures exists k :: 0 <= k <= |items| && FilterDangerous(items, threshold) == items[..k]
  {
    if items == [] {
      assert FilterDangerous(items, threshold) == items[..0];
    } else {
      var init := items[..|items| - 1];
      var last := items[|items| - 1];
      if last.flammability >= threshold {
        FilterAll(items, AtLeast(threshold));
        assert FilterDangerous(items, threshold) == items[..|items|];
      } else {
        SortedFilterIsPrefix(init, threshold);
        var k :| 0 <= k <= |init| && FilterDangerous(init, threshold) == init[..k];
        assert FilterDangerous(items, threshold) == FilterDangerous(init, threshold);
        assert init[..k] == items[..k];
      }
    }
  }

  /** Sorting then filtering gives the dangerous items, most flammable first, as a prefix of the sorted list. */
  lemma DangerousAfterSortIsPrefix(items: seq<Item>, threshold: real)
    ensures var sorted := SortByFlammability(items);
      exists k :: 0 <= k <= |sorted| && FilterDangerous(sorted, threshold) == sorted[..k]
  {
    var e := Item([], [], [], [], 0.0);
    SortByFlammabilitySpec(items, e);
    SortedFilterIsPrefix(SortByFlammability(items), threshold);
  }

  // ---------------------------------------------------------------------
  // ---------------------------------------------------------------------
  // Bytes at a position

  lemma HeadTail<T>(s: seq<T>)
    requires s != []
    ensures [s[0]] + s[1..] == s
  {
  }

  /** `b` holds the bytes `x` at position `p`. */
  predicate Matches(b: seq<Byte>, p: nat, x: seq<Byte>)
    decreases |x|
  {
    if x == [] then p <= |b| else p < |b| && b[p] == x[0] && Matches(b, p + 1, x[1..])
  }

  lemma {:induction false} MatchesSlice(b: seq<Byte>, p: nat, x: seq<Byte>)
    ensures Matches(b, p, x) <==> p + |x| <= |b| && b[p..p + |x|] == x
    decreases |x|
  {
    if x != [] {
      MatchesSlice(b, p + 1, x[1..]);
      if p + |x| <= |b| {
        assert b[p..p + |x|] == [b[p]] + b[p + 1..p + |x|];
        HeadTail(x);
      }
    }
  }

  /** `b` holds `x + y` at `p`: it holds `x` there and `y` right after. */
  /** Bytes stand at the start of anything that begins with them. */
  lemma MatchesPrefix(x: seq<Byte>, y: seq<Byte>)
    ensures Matches(x + y, 0, x)
  {
    MatchesSlice(x + y, 0, x);
    assert (x + y)[0..|x|] == x;
  }

  /** Slicing a prefix inside the prefix is slicing the whole. */
  lemma PrefixSlice(e: seq<Byte>, k: nat, i: nat, j: nat)
    requires i <= j <= k <= |e|
    ensures e[..k][i..j] == e[i..j]
  {
  }

  lemma SliceSplit(b: seq<Byte>, p: nat, x: seq<Byte>, y: seq<Byte>)
    requires Matches(b, p, x + y)
    ensures Matches(b, p, x) && Matches(b, p + |x|, y)
  {
    MatchesSlice(b, p, x + y);
    MatchesSlice(b, p, x);
    MatchesSlice(b, p + |x|, y);
    forall i | 0 <= i < |x| ensures b[p + i] == x[i] {
      assert b[p..p + |x| + |y|][i] == (x + y)[i];
    }
    forall i | 0 <= i < |y| ensures b[p + |x| + i] == y[i] {
      assert b[p..p + |x| + |y|][|x| + i] == (x + y)[|x| + i];
    }
  }

  /** `b` holds `x` at `p` and `y` right after: it holds `x + y` at `p`. */
  lemma MatchesJoin(b: seq<Byte>, p: nat, x: seq<Byte>, y: seq<Byte>)
    requires Matches(b, p, x) && Matches(b, p + |x|, y)
    ensures Matches(b, p, x + y)
  {
    MatchesSlice(b, p, x + y);
    MatchesSlice(b, p, x);
    MatchesSlice(b, p + |x|, y);
    assert b[p..p + |x| + |y|] == b[p..p + |x|] + b[p + |x|..p + |x| + |y|];
  }

  // ---------------------------------------------------------------------
  // Little-endian numbers

  /** The value of a byte string read least significant byte first. */
  function LittleEndian(bs: seq<Byte>): nat {
    if bs == [] then 0 else bs[0] as nat + 256 * LittleEndian(bs[1..])
  }

  /** The `width` low bytes of `n`, least significant first. */
  function LittleEndianBytes(n: nat, width: nat): (bs: seq<Byte>)
    ensures |bs| == width
  {
    if width == 0 then [] else [n % 256] + LittleEndianBytes(n / 256, width - 1)
  }

  function Pow256(k: nat): nat {
    if k == 0 then 1 else 256 * Pow256(k - 1)
  }

  lemma DivMod256(n: nat, c: nat, m: nat)
    requires n == c + 256 * m && c < 256
    ensures n % 256 == c && n / 256 == m
  {
  }

  /** Every number below `256^width` is read back from its `width` bytes. */
  lemma {:induction false} LittleEndianInverse(n: nat, width: nat)
    requires n < Pow256(width)
    ensures LittleEndian(LittleEndianBytes(n, width)) == n
  {
    if width > 0 {
      var bs := LittleEndianBytes(n, width);
      DivMod256(n, n % 256, n / 256);
      assert n / 256 < Pow256(width - 1);
      LittleEndianInverse(n / 256, width - 1);
      assert bs[0] == n % 256 && bs[1..] == LittleEndianBytes(n / 256, width - 1);
    }
  }

  /** Every byte string is the encoding of the value it reads as. */
  lemma {:induction false} LittleEndianCanonical(bs: seq<Byte>)
    ensures LittleEndian(bs) < Pow256(|bs|) && LittleEndianBytes(LittleEndian(bs), |bs|) == bs
  {
    if bs != [] {
      var m := LittleEndian(bs[1..]);
      LittleEndianCanonical(bs[1..]);
      DivMod256(LittleEndian(bs), bs[0], m);
      HeadTail(bs);
    }
  }

  /** `struct.pack('I', n)` for an `n` below `2^32`; larger ones are refused before it is called. */
  function U32(n: nat): (b: seq<Byte>)
    ensures |b| == U32Width
  {
    LittleEndianBytes(n, U32Width)
  }

  /** `struct.unpack('I', ...)` of the four bytes at `pos`, or `None` when fewer remain. */
  function ReadU32(b: seq<Byte>, pos: nat): (r: Option<nat>)
    ensures r.Some? <==> pos + U32Width <= |b|
  {
    if pos + U32Width <= |b| then Some(LittleEndian(b[pos..pos + U32Width])) else None
  }

  /** Reading the four bytes `U32(n)` gives back `n`. */
  lemma ReadU32At(b: seq<Byte>, p: nat, n: nat)
    requires n < U32Limit && Matches(b, p, U32(n))
    ensures ReadU32(b, p) == Some(n)
  {
    MatchesSlice(b, p, U32(n));
    LittleEndianInverse(n, U32Width);
  }

  /** Any four bytes read as a `u32` are that number's encoding. */
  lemma ReadU32Canonical(b: seq<Byte>, p: nat)
    requires p + U32Width <= |b|
    ensures ReadU32(b, p).value < U32Limit && Matches(b, p, U32(ReadU32(b, p).value))
  {
    LittleEndianCanonical(b[p..p + U32Width]);
    MatchesSlice(b, p, U32(ReadU32(b, p).value));
  }

  // ---------------------------------------------------------------------
  // Runs of items read one after another

  /** Reads one item at a position: the item and the position after it, or `None` on a short read. */
  type Reader<T> = (seq<Byte>, nat) -> Option<(T, nat)>

  function Prepended<T>(xs: seq<T>, r: Option<(seq<T>, nat)>): Option<(seq<T>, nat)> {
    match r
    case None => None
    case Some((rest, end)) => Some((xs + rest, end))
  }

  /** Reads `n` items in a row with `read`: all of them, or `None`. */
  function ReadMany<T>(read: Reader<T>, b: seq<Byte>, pos: nat, n: nat): (r: Option<(seq<T>, nat)>)
    ensures r.Some? ==> |r.value.0| == n
    decreases n
  {
    if n == 0 then (if pos <= |b| then Some(([], pos)) else None)
    else match read(b, pos)
      case None => None
      case Some((x, p)) => Prepended([x], ReadMany(read, b, p, n - 1))
  }

  /** The items written one after another with `enc`. */
  function EncodeMany<T>(enc: T -> seq<Byte>, xs: seq<T>): seq<Byte> {
    if xs == [] then [] else enc(xs[0]) + EncodeMany(enc, xs[1..])
  }

  predicate All<T>(ok: T -> bool, xs: seq<T>) {
    forall i :: 0 <= i < |xs| ==> ok(xs[i])
  }

  /** `read` gives back every item `ok` accepts from its encoding, wherever it stands. */
  ghost predicate Inverts<T(!new)>(read: Reader<T>, enc: T -> seq<Byte>, ok: T -> bool) {
    forall x: T, b: seq<Byte>, p: nat {:trigger Matches(b, p, enc(x))} :: ok(x) && Matches(b, p, enc(x)) ==> read(b, p) == Some((x, p + |enc(x)|))
  }

  /** Whatever `read` accepts is exactly the encoding of the item it returns. */
  ghost predicate Canonical<T(!new)>(read: Reader<T>, enc: T -> seq<Byte>, ok: T -> bool) {
    forall b: seq<Byte>, p: nat :: read(b, p).Some? ==>
      ok(read(b, p).value.0) && read(b, p).value.1 == p + |enc(read(b, p).value.0)|
      && Matches(b, p, enc(read(b, p).value.0))
  }

  lemma {:induction false} ReadManyInverse<T(!new)>(read: Reader<T>, enc: T -> seq<Byte>, ok: T -> bool,
                                                    b: seq<Byte>, p: nat, xs: seq<T>)
    requires Inverts(read, enc, ok) && All(ok, xs) && Matches(b, p, EncodeMany(enc, xs))
    ensures ReadMany(read, b, p, |xs|) == Some((xs, p + |EncodeMany(enc, xs)|))
    decreases |xs|
  {
    if xs != [] {
      var x, tail := xs[0], xs[1..];
      assert All(ok, tail) by {
        forall i | 0 <= i < |tail| ensures ok(tail[i]) {
          assert tail[i] == xs[i + 1];
        }
      }
      SliceSplit(b, p, enc(x), EncodeMany(enc, tail));
      ReadManyInverse(read, enc, ok, b, p + |enc(x)|, tail);
      HeadTail(xs);
    }
  }

  lemma {:induction false} ReadManyCanonical<T(!new)>(read: Reader<T>, enc: T -> seq<Byte>, ok: T -> bool,
                                                      b: seq<Byte>, p: nat, n: nat)
    requires Canonical(read, enc, ok) && ReadMany(read, b, p, n).Some?
    ensures var (xs, end) := ReadMany(read, b, p, n).value;
      All(ok, xs) && end == p + |EncodeMany(enc, xs)| && Matches(b, p, EncodeMany(enc, xs))
    decreases n
  {
    if n > 0 {
      var (x, q) := read(b, p).value;
      var (tail, end) := ReadMany(read, b, q, n - 1).value;
      ReadManyCanonical(read, enc, ok, b, q, n - 1);
      var xs := [x] + tail;
      assert xs[0] == x && xs[1..] == tail;
      MatchesJoin(b, p, enc(x), EncodeMany(enc, tail));
    }
  }

  /** Items read from `t` read the same from any `b` holding the same bytes where they were read. */
  lemma ReadManyStable<T(!new)>(read: Reader<T>, enc: T -> seq<Byte>, ok: T -> bool,
                                t: seq<Byte>, b: seq<Byte>, p: nat, n: nat)
    requires Inverts(read, enc, ok) && Canonical(read, enc, ok)
    requires ReadMany(read, t, p, n).Some?
    requires var end := ReadMany(read, t, p, n).value.1;
      p <= end <= |b| && end <= |t| && b[p..end] == t[p..end]
    ensures ReadMany(read, b, p, n) == ReadMany(read, t, p, n)
  {
    var r := ReadMany(read, t, p, n).value;
    var e := EncodeMany(enc, r.0);
    ReadManyCanonical(read, enc, ok, t, p, n);
    MatchesTransfer(t, b, p, e);
    ReadManyInverse(read, enc, ok, b, p, r.0);
  }

  /** Bytes matched in `t` are matched in any `b` that holds the same bytes there. */
  lemma MatchesTransfer(t: seq<Byte>, b: seq<Byte>, p: nat, e: seq<Byte>)
    requires Matches(t, p, e) && p + |e| <= |t| && p + |e| <= |b| && b[p..p + |e|] == t[p..p + |e|]
    ensures Matches(b, p, e)
  {
    MatchesSlice(t, p, e);
    MatchesSlice(b, p, e);
  }

  lemma {:induction false} EncodeManySnoc<T>(enc: T -> seq<Byte>, xs: seq<T>, x: T)
    ensures EncodeMany(enc, xs + [x]) == EncodeMany(enc, xs) + enc(x)
    decreases |xs|
  {
    if xs == [] {
      assert EncodeMany(enc, [x]) == enc(x) + EncodeMany(enc, []);
    } else {
      assert (xs + [x])[0] == xs[0] && (xs + [x])[1..] == xs[1..] + [x];
      EncodeManySnoc(enc, xs[1..], x);
    }
  }

  // ---------------------------------------------------------------------
  // Fields and records

  /** A byte that continues a multi-byte UTF-8 sequence. */
  predicate Continuation(x: Byte) {
    0x80 <= x <= 0xBF
  }

  /**
    The length of the well-formed UTF-8 sequence that starts at `s[i]`, or
    0 (section 4 of RFC 3629): no overlong forms, no surrogates, nothing
    beyond U+10FFFF, the same sequences Python's strict codec accepts.
   */
  function LeadLength(s: seq<Byte>, i: nat): (n: nat)
    requires i < |s|
    ensures i + n <= |s| && n <= 4
  {
    var x := s[i];
    if x < 0x80 then 1
    else if 0xC2 <= x <= 0xDF then
      (if i + 2 <= |s| && Continuation(s[i + 1]) then 2 else 0)
    else if 0xE0 <= x <= 0xEF then
      (if i + 3 <= |s| && Continuation(s[i + 2])
          && (if x == 0xE0 then 0xA0 <= s[i + 1] <= 0xBF
              else if x == 0xED then 0x80 <= s[i + 1] <= 0x9F
              else Continuation(s[i + 1]))
       then 3 else 0)
    else if 0xF0 <= x <= 0xF4 then
      (if i + 4 <= |s| && Continuation(s[i + 2]) && Continuation(s[i + 3])
          && (if x == 0xF0 then 0x90 <= s[i + 1] <= 0xBF
              else if x == 0xF4 then 0x80 <= s[i + 1] <= 0x8F
              else Continuation(s[i + 1]))
       then 4 else 0)
    else 0
  }

  /** `s[i..]` splits into well-formed sequences. */
  predicate Utf8From(s: seq<Byte>, i: nat)
    decreases |s| - i
  {
    i >= |s| || (LeadLength(s, i) > 0 && Utf8From(s, i + LeadLength(s, i)))
  }

  /** `s.decode('utf-8')` succeeds. */
  predicate Utf8(s: seq<Byte>) {
    Utf8From(s, 0)
  }

  /** ASCII and a two-byte letter decode; a stray byte, a surrogate and an overlong `/` do not. */
  lemma Utf8Examples()
    ensures Utf8([0x41, 0x42]) && Utf8([0xC3, 0xA9])
    ensures !Utf8([0xFF]) && !Utf8([0xED, 0xA0, 0x80]) && !Utf8([0xC0, 0xAF])
  {
    assert Utf8From([0x41, 0x42], 1);
  }

  /** A sequence that starts inside `a` reads the same inside `a + b`. */
  lemma LeadLengthAppend(a: seq<Byte>, b: seq<Byte>, i: nat)
    requires i < |a| && LeadLength(a, i) > 0
    ensures LeadLength(a + b, i) == LeadLength(a, i)
  {
  }

  lemma {:induction false} Utf8FromAppend(a: seq<Byte>, b: seq<Byte>, i: nat)
    requires i <= |a| && Utf8From(a, i) && Utf8(b)
    ensures Utf8From(a + b, i)
    decreases |a| - i
  {
    if i == |a| {
      Utf8FromShift(a, b, 0);
    } else {
      var n := LeadLength(a, i);
      LeadLengthAppend(a, b, i);
      Utf8FromAppend(a, b, i + n);
    }
  }

  /** Well-formed text after a prefix stays well-formed from where it starts. */
  lemma {:induction false} Utf8FromShift(a: seq<Byte>, b: seq<Byte>, j: nat)
    requires j <= |b| && Utf8From(b, j)
    ensures Utf8From(a + b, |a| + j)
    decreases |b| - j
  {
    if j < |b| {
      var n := LeadLength(b, j);
      assert LeadLength(a + b, |a| + j) == n by {
        assert forall k :: j <= k < |b| ==> (a + b)[|a| + k] == b[k];
      }
      Utf8FromShift(a, b, j + n);
    }
  }

  /** Text decodes piece by piece: well-formed text followed by well-formed text is well-formed. */
  lemma Utf8Append(a: seq<Byte>, b: seq<Byte>)
    requires Utf8(a) && Utf8(b)
    ensures Utf8(a + b)
  {
    Utf8FromAppend(a, b, 0);
  }

  /** A field can be written: its length fits the `u32` prefix and its text encodes. */
  predicate FieldFits(f: seq<Byte>) {
    |f| < U32Limit && Utf8(f)
  }

  /** A field as written: its length, then its bytes. */
  function EncodeField(f: seq<Byte>): (e: seq<Byte>)
    ensures |e| == U32Width + |f|
  {
    U32(|f|) + f
  }

  /**
    Reads one length-prefixed field at `pos` and decodes it; `None` on a
    short read or on bytes that are not UTF-8.
   */
  function ReadField(b: seq<Byte>, pos: nat): (r: Option<(seq<Byte>, nat)>)
    ensures r.Some? ==> pos + U32Width <= r.value.1 <= |b| && Utf8(r.value.0)
  {
    match ReadU32(b, pos)
    case None => None
    case Some(len) =>
      var start := pos + U32Width;
      if start + len <= |b| && Utf8(b[start..start + len]) then Some((b[start..start + len], start + len))
      else None
  }

  lemma ReadFieldAt(b: seq<Byte>, p: nat, f: seq<Byte>)
    requires FieldFits(f) && Matches(b, p, EncodeField(f))
    ensures ReadField(b, p) == Some((f, p + |EncodeField(f)|))
  {
    SliceSplit(b, p, U32(|f|), f);
    ReadU32At(b, p, |f|);
    MatchesSlice(b, p + U32Width, f);
  }

  lemma ReadFieldCanonical(b: seq<Byte>, p: nat)
    requires ReadField(b, p).Some?
    ensures var (f, end) := ReadField(b, p).value;
      FieldFits(f) && end == p + |EncodeField(f)| && Matches(b, p, EncodeField(f))
  {
    ReadU32Canonical(b, p);
    var (f, end) := ReadField(b, p).value;
    MatchesSlice(b, p + U32Width, f);
    MatchesJoin(b, p, U32(|f|), f);
  }

  /** Reading a field gives back what was written. */
  lemma FieldInverts()
    ensures Inverts(ReadField, EncodeField, FieldFits)
  {
    forall f: seq<Byte>, b: seq<Byte>, p: nat | FieldFits(f) && Matches(b, p, EncodeField(f))
      ensures ReadField(b, p) == Some((f, p + |EncodeField(f)|))
    {
      ReadFieldAt(b, p, f);
    }
  }

  /** Whatever is read as a field was written as that field. */
  lemma FieldCanonical()
    ensures Canonical(ReadField, EncodeField, FieldFits)
  {
    forall b: seq<Byte>, p: nat | ReadField(b, p).Some?
      ensures var (f, end) := ReadField(b, p).value;
        FieldFits(f) && end == p + |EncodeField(f)| && Matches(b, p, EncodeField(f))
    {
      ReadFieldCanonical(b, p);
    }
  }

  /** The four text fields of a record, in file order. */
  function Fields(r: Record): (fs: seq<seq<Byte>>)
    ensures |fs| == FieldCount
  {
    [r.substance, r.weight, r.gravity, r.strength]
  }

  predicate Fits(r: Record) {
    All(FieldFits, Fields(r))
  }

  /** A record as written: its four fields, then its packed flammability. */
  function EncodeRecord(r: Record): seq<Byte> {
    EncodeMany(EncodeField, Fields(r)) + r.flammability
  }

  /** Reads the four fields and the four flammability bytes of one record. */
  function ReadRecord(b: seq<Byte>, pos: nat): (r: Option<(Record, nat)>)
    ensures r.Some? ==> r.value.1 <= |b|
  {
    match ReadMany(ReadField, b, pos, FieldCount)
    case None => None
    case Some((fs, p)) =>
      if p + 4 <= |b| then Some((Record(fs[0], fs[1], fs[2], fs[3], b[p..p + 4]), p + 4)) else None
  }

  lemma {:induction false} ReadRecordAt(b: seq<Byte>, p: nat, r: Record)
    requires Fits(r) && Matches(b, p, EncodeRecord(r))
    ensures ReadRecord(b, p) == Some((r, p + |EncodeRecord(r)|))
  {
    FieldInverts();
    var fs := Fields(r);
    var q := p + |EncodeMany(EncodeField, fs)|;
    SliceSplit(b, p, EncodeMany(EncodeField, fs), r.flammability);
    ReadManyInverse(ReadField, EncodeField, FieldFits, b, p, fs);
    MatchesSlice(b, q, r.flammability);
    assert Record(fs[0], fs[1], fs[2], fs[3], r.flammability) == r;
  }

  lemma {:induction false} ReadRecordCanonical(b: seq<Byte>, p: nat)
    requires ReadRecord(b, p).Some?
    ensures var (r, end) := ReadRecord(b, p).value;
      Fits(r) && end == p + |EncodeRecord(r)| && Matches(b, p, EncodeRecord(r))
  {
    var fs, q := ReadRecordParts(b, p);
    var (r, end) := ReadRecord(b, p).value;
    FieldsCanonical(b, p);
    assert Fits(r);
    MatchesSlice(b, q, r.flammability);
    MatchesJoin(b, p, EncodeMany(EncodeField, fs), r.flammability);
  }

  /** The four fields of a record read are canonical on their own. */
  lemma FieldsCanonical(b: seq<Byte>, p: nat)
    requires ReadMany(ReadField, b, p, FieldCount).Some?
    ensures var (fs, q) := ReadMany(ReadField, b, p, FieldCount).value;
      All(FieldFits, fs) && q == p + |EncodeMany(EncodeField, fs)| && Matches(b, p, EncodeMany(EncodeField, fs))
  {
    FieldCanonical();
    ReadManyCanonical(ReadField, EncodeField, FieldFits, b, p, FieldCount);
  }

  /** A record read is its four fields read in a row, then four more bytes. */
  lemma ReadRecordParts(b: seq<Byte>, p: nat) returns (fs: seq<seq<Byte>>, q: nat)
    requires ReadRecord(b, p).Some?
    ensures ReadMany(ReadField, b, p, FieldCount) == Some((fs, q))
    ensures var (r, end) := ReadRecord(b, p).value;
      Fields(r) == fs && end == q + 4 && q + 4 <= |b| && r.flammability == b[q..q + 4]
  {
    fs := ReadMany(ReadField, b, p, FieldCount).value.0;
    q := ReadMany(ReadField, b, p, FieldCount).value.1;
    var r := ReadRecord(b, p).value.0;
    assert Fields(r) == fs;
  }

  /** Reading a record gives back what was written. */
  lemma RecordInverts()
    ensures Inverts(ReadRecord, EncodeRecord, Fits)
  {
    var read: Reader<Record>, enc: Record -> seq<Byte>, ok: Record -> bool := ReadRecord, EncodeRecord, Fits;
    forall r: Record, b: seq<Byte>, p: nat {:trigger Matches(b, p, enc(r))} | ok(r) && Matches(b, p, enc(r))
      ensures read(b, p) == Some((r, p + |enc(r)|))
    {
      ReadRecordAt(b, p, r);
    }
  }

  /** Whatever is read as a record was written as that record. */
  lemma RecordCanonical()
    ensures Canonical(ReadRecord, EncodeRecord, Fits)
  {
    forall b: seq<Byte>, p: nat | ReadRecord(b, p).Some?
      ensures var (r, end) := ReadRecord(b, p).value;
        Fits(r) && end == p + |EncodeRecord(r)| && Matches(b, p, EncodeRecord(r))
    {
      ReadRecordCanonical(b, p);
    }
  }

  // ---------------------------------------------------------------------
  // The file

  /** The stored form of one item, or `None` where the writer fails on it. */
  function ToRecord(item: Item, pack: Pack): (r: Option<Record>)
    ensures r.Some? <==> FieldFits(item.substance) && FieldFits(item.weight) && FieldFits(item.gravity)
                         && FieldFits(item.strength) && pack(item.flammability).Some?
    ensures r.Some? ==> Fits(r.value) && r.value.flammability == pack(item.flammability).value
    ensures r.Some? ==> Fields(r.value) == [item.substance, item.weight, item.gravity, item.strength]
  {
    if FieldFits(item.substance) && FieldFits(item.weight) && FieldFits(item.gravity) && FieldFits(item.strength)
    then match pack(item.flammability)
      case Some(w) => Some(Record(item.substance, item.weight, item.gravity, item.strength, w))
      case None => None
    else None
  }

  /** The records of `items`, or `None` if one of them cannot be written. */
  function ToRecords(items: seq<Item>, pack: Pack): (r: Option<seq<Record>>)
    ensures r.Some? <==> forall i :: 0 <= i < |items| ==> ToRecord(items[i], pack).Some?
    ensures r.Some? ==> |r.value| == |items| && All(Fits, r.value)
    ensures r.Some? ==> forall i :: 0 <= i < |items| ==> ToRecord(items[i], pack) == Some(r.value[i])
  {
    if forall i :: 0 <= i < |items| ==> ToRecord(items[i], pack).Some?
    then Some(seq(|items|, i requires 0 <= i < |items| => ToRecord(items[i], pack).value))
    else None
  }

  /**
    `write_binary_file(items)`: the bytes written, or `None` where the
    writer reports failure (a count or a field too long for `u32`, text that
    `encode('utf-8')` rejects, or a
    flammability `struct.pack` rejects).
   */
  function Encode(items: seq<Item>, pack: Pack): (r: Option<seq<Byte>>)
    ensures r.Some? <==> |items| < U32Limit && ToRecords(items, pack).Some?
  {
    if |items| >= U32Limit then None
    else match ToRecords(items, pack)
      case Some(rs) => Some(U32(|items|) + EncodeMany(EncodeRecord, rs))
      case None => None
  }

  /**
    `read_binary_file`: every record the count announces, or nothing at all.
    A short `file.read` of a field does not raise by itself, but the 4-byte
    read that always follows it then fails, so any truncation ends in `[]`.
   */
  function Decode(b: seq<Byte>): (r: seq<Record>)
    ensures r == [] || (ReadU32(b, 0).Some? && |r| == ReadU32(b, 0).value)
  {
    match ReadU32(b, 0)
    case None => []
    case Some(n) =>
      match ReadMany(ReadRecord, b, U32Width, n)
      case None => []
      case Some((rs, _)) => rs
  }

  /** Where the count and the records sit in what the writer wrote. */
  lemma EncodedLayout(items: seq<Item>, pack: Pack, trailing: seq<Byte>)
    requires Encode(items, pack).Some?
    ensures var b := Encode(items, pack).value + trailing;
      && ReadU32(b, 0) == Some(|items|)
      && ReadMany(ReadRecord, b, U32Width, |items|) == Some((ToRecords(items, pack).value, |Encode(items, pack).value|))
  {
    var rs := ToRecords(items, pack).value;
    var e := Encode(items, pack).value;
    EncodeValue(items, pack);
    MatchesPrefix(e, trailing);
    LayoutAt(e + trailing, |items|, rs);
  }

  lemma EncodeValue(items: seq<Item>, pack: Pack)
    requires Encode(items, pack).Some?
    ensures |items| < U32Limit && ToRecords(items, pack).Some? && All(Fits, ToRecords(items, pack).value)
    ensures Encode(items, pack).value == U32(|items|) + EncodeMany(EncodeRecord, ToRecords(items, pack).value)
  {
  }

  /** A count followed by encoded records reads back as that count and those records. */
  lemma LayoutAt(b: seq<Byte>, n: nat, rs: seq<Record>)
    requires n < U32Limit && All(Fits, rs) && Matches(b, 0, U32(n) + EncodeMany(EncodeRecord, rs))
    ensures ReadU32(b, 0) == Some(n)
    ensures ReadMany(ReadRecord, b, U32Width, |rs|) == Some((rs, U32Width + |EncodeMany(EncodeRecord, rs)|))
  {
    SliceSplit(b, 0, U32(n), EncodeMany(EncodeRecord, rs));
    ReadU32At(b, 0, n);
    RecordsAt(b, U32Width, rs);
  }

  /** Encoded records read back as those records, wherever they stand. */
  lemma RecordsAt(b: seq<Byte>, p: nat, rs: seq<Record>)
    requires All(Fits, rs) && Matches(b, p, EncodeMany(EncodeRecord, rs))
    ensures ReadMany(ReadRecord, b, p, |rs|) == Some((rs, p + |EncodeMany(EncodeRecord, rs)|))
  {
    RecordInverts();
    ReadManyInverse(ReadRecord, EncodeRecord, Fits, b, p, rs);
  }

  /**
    Reading back what the writer wrote gives every record with its four
    fields and its packed flammability, whatever bytes follow.
   */
  lemma DecodeEncode(items: seq<Item>, pack: Pack, trailing: seq<Byte>)
    requires Encode(items, pack).Some?
    ensures Decode(Encode(items, pack).value + trailing) == ToRecords(items, pack).value
  {
    EncodedLayout(items, pack, trailing);
  }

  /** Whatever the reader accepts, the file begins with exactly the bytes the writer produces for it. */
  lemma EncodeDecode(b: seq<Byte>)
    requires Decode(b) != []
    ensures var rs := Decode(b);
      All(Fits, rs) && |rs| < U32Limit && U32(|rs|) + EncodeMany(EncodeRecord, rs) <= b
  {
    var n := ReadU32(b, 0).value;
    var (rs, end) := ReadMany(ReadRecord, b, U32Width, n).value;
    ReadU32Canonical(b, 0);
    RecordCanonical();
    ReadManyCanonical(ReadRecord, EncodeRecord, Fits, b, U32Width, n);
    MatchesJoin(b, 0, U32(n), EncodeMany(EncodeRecord, rs));
    MatchesSlice(b, 0, U32(n) + EncodeMany(EncodeRecord, rs));
  }

  /** Records read from a cut-short copy of `e` read the same from `e` itself. */
  lemma TruncatedReadStable(e: seq<Byte>, k: nat, n: nat)
    requires k <= |e| && ReadMany(ReadRecord, e[..k], U32Width, n).Some?
    ensures ReadMany(ReadRecord, e[..k], U32Width, n).value.1 <= k
    ensures ReadMany(ReadRecord, e, U32Width, n) == ReadMany(ReadRecord, e[..k], U32Width, n)
  {
    var t := e[..k];
    var end := ReadMany(ReadRecord, t, U32Width, n).value.1;
    RecordInverts();
    RecordCanonical();
    ReadManyCanonical(ReadRecord, EncodeRecord, Fits, t, U32Width, n);
    MatchesSlice(t, U32Width, EncodeMany(EncodeRecord, ReadMany(ReadRecord, t, U32Width, n).value.0));
    PrefixSlice(e, k, U32Width, end);
    ReadManyStable(ReadRecord, EncodeRecord, Fits, t, e, U32Width, n);
  }

  /** A file cut short anywhere reads back as an empty list, never as a partial one. */
  lemma DecodeTruncated(items: seq<Item>, pack: Pack, k: nat)
    requires Encode(items, pack).Some? && k < |Encode(items, pack).value|
    ensures Decode(Encode(items, pack).value[..k]) == []
  {
    var e := Encode(items, pack).value;
    var t := e[..k];
    var n := |items|;
    if k >= U32Width {
      EncodedLayout(items, pack, []);
      assert e + [] == e;
      assert t[..U32Width] == e[..U32Width];
      assert ReadU32(t, 0) == Some(n);
      if ReadMany(ReadRecord, t, U32Width, n).Some? {
        var end := ReadMany(ReadRecord, t, U32Width, n).value.1;
        TruncatedReadStable(e, k, n);
        assert false;
      }
    }
  }

  /** A first substance whose bytes are not UTF-8 makes the whole read fail, whatever follows. */
  lemma DecodeRejectsInvalidText(b: seq<Byte>, n: nat, len: nat)
    requires ReadU32(b, 0) == Some(n) && n > 0
    requires ReadU32(b, U32Width) == Some(len) && 2 * U32Width + len <= |b|
    requires !Utf8(b[2 * U32Width..2 * U32Width + len])
    ensures Decode(b) == []
  {
    assert ReadField(b, U32Width).None?;
    assert ReadRecord(b, U32Width).None?;
  }

  // ---------------------------------------------------------------------
  // The writer and the reader, step by step

  /** A record is written as its four length-prefixed fields and then its packed flammability. */
  lemma EncodeRecordParts(r: Record)
    ensures EncodeRecord(r) == EncodeField(r.substance) + EncodeField(r.weight)
      + EncodeField(r.gravity) + EncodeField(r.strength) + r.flammability
  {
    var e1, e2, e3, e4 := EncodeField(r.substance), EncodeField(r.weight), EncodeField(r.gravity), EncodeField(r.strength);
    var s4: seq<seq<Byte>> := [r.strength];
    var s3: seq<seq<Byte>> := [r.gravity, r.strength];
    var s2: seq<seq<Byte>> := [r.weight, r.gravity, r.strength];
    assert s4[1..] == [];
    assert EncodeMany(EncodeField, s4) == e4;
    assert s3[1..] == s4;
    assert EncodeMany(EncodeField, s3) == e3 + e4;
    assert s2[1..] == s3;
    assert EncodeMany(EncodeField, s2) == e2 + e3 + e4;
    assert Fields(r)[1..] == s2;
  }

  /** The body of the writer's loop: one item's four fields, then its packed flammability. */
  method WriteRecord(item: Item, pack: Pack) returns (ok: bool, written: seq<Byte>)
    ensures ok <==> ToRecord(item, pack).Some?
    ensures ok ==> written == EncodeRecord(ToRecord(item, pack).value)
  {
    written := [];
    if !FieldFits(item.substance) {
      return false, written;
    }
    written := written + EncodeField(item.substance);
    if !FieldFits(item.weight) {
      return false, written;
    }
    written := written + EncodeField(item.weight);
    if !FieldFits(item.gravity) {
      return false, written;
    }
    written := written + EncodeField(item.gravity);
    if !FieldFits(item.strength) {
      return false, written;
    }
    written := written + EncodeField(item.strength);
    var packed := pack(item.flammability);
    if packed.None? {
      return false, written;
    }
    written := written + packed.value;
    EncodeRecordParts(ToRecord(item, pack).value);
    ok := true;
  }

  /** `write_binary_file`: writes the count, then each record in turn; false on the first failure. */
  method WriteBinary(items: seq<Item>, pack: Pack) returns (ok: bool, written: seq<Byte>)
    ensures ok <==> Encode(items, pack).Some?
    ensures ok ==> written == Encode(items, pack).value
  {
    if |items| >= U32Limit {
      return false, [];
    }
    written := U32(|items|);
    var body;
    ok, body := WriteRecords(items, pack);
    written := written + body;
  }

  /** The writer's loop over the items: the bytes of every record, or false at the first one that fails. */
  method WriteRecords(items: seq<Item>, pack: Pack) returns (ok: bool, written: seq<Byte>)
    ensures ok <==> ToRecords(items, pack).Some?
    ensures ok ==> written == EncodeMany(EncodeRecord, ToRecords(items, pack).value)
  {
    written := [];
    ghost var rs: seq<Record> := [];
    var i := 0;
    while i < |items|
      invariant 0 <= i <= |items| && |rs| == i
      invariant forall j :: 0 <= j < i ==> ToRecord(items[j], pack) == Some(rs[j])
      invariant written == EncodeMany(EncodeRecord, rs)
    {
      var recordOk, bytes := WriteRecord(items[i], pack);
      if !recordOk {
        return false, written + bytes;
      }
      var r := ToRecord(items[i], pack).value;
      EncodeManySnoc(EncodeRecord, rs, r);
      written := written + bytes;
      rs := rs + [r];
      i := i + 1;
    }
    assert rs == ToRecords(items, pack).value;
    ok := true;
  }

  /** `read_binary_file`: reads the count, then record after record from a cursor. */
  method ReadBinary(b: seq<Byte>) returns (data: seq<Record>)
    ensures data == Decode(b)
  {
    var count := ReadU32(b, 0);
    if count.None? {
      return [];
    }
    var records := ReadAll(ReadRecord, b, U32Width, count.value);
    if records.None? {
      return [];
    }
    data := records.value.0;
  }

  method ReadAll<T>(read: Reader<T>, b: seq<Byte>, start: nat, n: nat) returns (r: Option<(seq<T>, nat)>)
    requires start <= |b|
    requires forall c: seq<Byte>, q: nat :: read(c, q).Some? ==> read(c, q).value.1 <= |c|
    ensures r == ReadMany(read, b, start, n)
  {
    var pos: nat := start;
    var i: nat := 0;
    var data: seq<T> := [];
    PrependedNothing(ReadMany(read, b, pos, n));
    while i < n
      invariant i <= n && pos <= |b|
      invariant ReadMany(read, b, start, n) == Prepended(data, ReadMany(read, b, pos, n - i))
    {
      var next := read(b, pos);
      if next.None? {
        return None;
      }
      var x := next.value.0;
      var p := next.value.1;
      PrependedAssoc(data, x, ReadMany(read, b, p, n - i - 1));
      data := data + [x];
      pos := p;
      i := i + 1;
    }
    assert data + [] == data;
    return Some((data, pos));
  }

  lemma PrependedAssoc<T>(xs: seq<T>, x: T, r: Option<(seq<T>, nat)>)
    ensures Prepended(xs, Prepended([x], r)) == Prepended(xs + [x], r)
  {
    if r.Some? {
      assert xs + ([x] + r.value.0) == (xs + [x]) + r.value.0;
    }
  }

  lemma PrependedNothing<T>(r: Option<(seq<T>, nat)>)
    ensures Prepended([], r) == r
  {
    if r.Some? {
      assert [] + r.value.0 == r.value.0;
    }
  }
}

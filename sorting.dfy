/**
  A stable sort, as Python's `sorted` and `list.sort` are: the result is
  ordered by a total preorder `leq` ("may come before"), it is a permutation
  of the input, and elements that `leq` ranks equal keep their original
  relative order.  Ascending and descending sorts on a key are both instances,
  with `leq(a, b)` defined as `key(a) <= key(b)` or as `key(a) >= key(b)`
  (Python keeps stability under `reverse=True`).
 */
module Sorting {
  import opened Seqs

  /** `leq` is total and transitive: a ranking that may have ties. */
  ghost predicate TotalPreorder<T(!new)>(leq: (T, T) -> bool) {
    && (forall a, b :: leq(a, b) || leq(b, a))
    && (forall a, b, c :: leq(a, b) && leq(b, c) ==> leq(a, c))
  }

  ghost predicate SortedBy<T>(s: seq<T>, leq: (T, T) -> bool) {
    forall i, j :: 0 <= i < j < |s| ==> leq(s[i], s[j])
  }

  /** The elements that `leq` ranks equal to `e`. */
  function SameRank<T>(leq: (T, T) -> bool, e: T): T -> bool {
    x => leq(x, e) && leq(e, x)
  }

  /**
    Inserts `x` before the first element it may precede; when `x` came first
    in the input, it therefore stays ahead of every element ranked equal.
   */
  function Insert<T>(x: T, t: seq<T>, leq: (T, T) -> bool): (r: seq<T>)
    ensures |r| == |t| + 1
    ensures multiset(r) == multiset(t) + multiset{x}
  {
    if t == [] then [x]
    else if leq(x, t[0]) then [x] + t
    else
      assert t == [t[0]] + t[1..];
      [t[0]] + Insert(x, t[1..], leq)
  }

  /** Insertion sort: the head is inserted into the sorted tail. */
  function SortBy<T>(s: seq<T>, leq: (T, T) -> bool): (r: seq<T>)
    ensures |r| == |s|
    ensures multiset(r) == multiset(s)
  {
    if s == [] then []
    else
      assert s == [s[0]] + s[1..];
      Insert(s[0], SortBy(s[1..], leq), leq)
  }

  lemma {:induction false} InsertSorted<T(!new)>(x: T, t: seq<T>, leq: (T, T) -> bool)
    requires TotalPreorder(leq)
    requires SortedBy(t, leq)
    ensures SortedBy(Insert(x, t, leq), leq)
    decreases |t|
  {
    if t != [] && !leq(x, t[0]) {
      var rest := Insert(x, t[1..], leq);
      InsertSorted(x, t[1..], leq);
      forall k | 0 <= k < |rest|
        ensures leq(t[0], rest[k])
      {
        assert rest[k] in multiset(rest);
        assert rest[k] == x || rest[k] in multiset(t[1..]);
      }
    }
  }

  lemma {:induction false} SortBySorted<T(!new)>(s: seq<T>, leq: (T, T) -> bool)
    requires TotalPreorder(leq)
    ensures SortedBy(SortBy(s, leq), leq)
    decreases |s|
  {
    if s != [] {
      SortBySorted(s[1..], leq);
      InsertSorted(s[0], SortBy(s[1..], leq), leq);
    }
  }

  /** An element of another rank class is never the one passed over. */
  lemma SkippedNotSameRank<T(!new)>(x: T, y: T, leq: (T, T) -> bool, e: T)
    requires TotalPreorder(leq)
    requires !leq(x, y) && SameRank(leq, e)(x)
    ensures !SameRank(leq, e)(y)
  {
    assert leq(x, e);
  }

  /** Inserting `x` adds it to its own rank class, at the front. */
  lemma {:induction false} InsertStable<T(!new)>(x: T, t: seq<T>, leq: (T, T) -> bool, e: T)
    requires TotalPreorder(leq)
    ensures Filter(Insert(x, t, leq), SameRank(leq, e))
         == Filter([x], SameRank(leq, e)) + Filter(t, SameRank(leq, e))
    decreases |t|
  {
    if t == [] {
    } else if leq(x, t[0]) {
      FilterAppend([x], t, SameRank(leq, e));
    } else {
      assert Insert(x, t, leq) == [t[0]] + Insert(x, t[1..], leq);
      assert [t[0]] + t[1..] == t;
      InsertStable(x, t[1..], leq, e);
      if SameRank(leq, e)(x) {
        SkippedNotSameRank(x, t[0], leq, e);
      }
      FilterPastHead(x, t[0], Insert(x, t[1..], leq), t[1..], SameRank(leq, e));
    }
  }

  /** The step of `InsertStable` where `x` moves past a head `y` outside its rank class. */
  lemma FilterPastHead<T>(x: T, y: T, inserted: seq<T>, rest: seq<T>, p: T -> bool)
    requires p(x) ==> !p(y)
    requires Filter(inserted, p) == Filter([x], p) + Filter(rest, p)
    ensures Filter([y] + inserted, p) == Filter([x], p) + Filter([y] + rest, p)
  {
    var fx, fy, fr := Filter([x], p), Filter([y], p), Filter(rest, p);
    FilterOne(x, p);
    FilterOne(y, p);
    assert fx == [] || fy == [];
    FilterAppend([y], inserted, p);
    FilterAppend([y], rest, p);
    SwapPastEmpty(fx, fy, fr);
  }

  lemma SwapPastEmpty<T>(a: seq<T>, b: seq<T>, c: seq<T>)
    requires a == [] || b == []
    ensures b + (a + c) == a + (b + c)
  {
    if a == [] {
      assert a + c == c;
    } else {
      assert b + c == c;
    }
  }

  /** Stability: each rank class appears in the output in input order. */
  lemma {:induction false} SortByStable<T(!new)>(s: seq<T>, leq: (T, T) -> bool, e: T)
    requires TotalPreorder(leq)
    ensures Filter(SortBy(s, leq), SameRank(leq, e)) == Filter(s, SameRank(leq, e))
    decreases |s|
  {
    if s != [] {
      var p := SameRank(leq, e);
      SortByStable(s[1..], leq, e);
      InsertStable(s[0], SortBy(s[1..], leq), leq, e);
      FilterAppend([s[0]], s[1..], p);
      assert [s[0]] + s[1..] == s;
    }
  }
}

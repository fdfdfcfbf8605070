/**
 * `Array.prototype.sort` with the comparators of the modelled code.
 * Each comparator there compares a number, then a second number or a
 * string; here it is written as an ascending sort key, and the sort is a
 * stable insertion sort on that key.
 */
module Sorting {
  import opened Text

  /** Compared on `primary`, then `secondary`, then `tie` (code-unit order). */
  datatype SortKey = SortKey(primary: int, secondary: int, tie: string)

  predicate KeyLe(a: SortKey, b: SortKey) {
    a.primary < b.primary ||
    (a.primary == b.primary &&
     (a.secondary < b.secondary || (a.secondary == b.secondary && LexLe(a.tie, b.tie))))
  }

  lemma KeyLeTotal(a: SortKey, b: SortKey)
    ensures KeyLe(a, b) || KeyLe(b, a)
  {
    LexLeTotal(a.tie, b.tie);
  }

  lemma KeyLeTransitive(a: SortKey, b: SortKey, c: SortKey)
    requires KeyLe(a, b) && KeyLe(b, c)
    ensures KeyLe(a, c)
  {
    if a.primary == b.primary == c.primary && a.secondary == b.secondary == c.secondary {
      LexLeTransitive(a.tie, b.tie, c.tie);
    }
  }

  predicate SortedBy<T>(s: seq<T>, key: T -> SortKey) {
    forall i, j :: 0 <= i < j < |s| ==> KeyLe(key(s[i]), key(s[j]))
  }

  /** Puts `x` before the first element whose key is not below `x`'s. */
  function Insert<T>(x: T, s: seq<T>, key: T -> SortKey): (r: seq<T>)
    ensures multiset(r) == multiset(s) + multiset{x}
    ensures |r| == |s| + 1
  {
    if s == [] then [x]
    else if KeyLe(key(x), key(s[0])) then [x] + s
    else
      assert s == [s[0]] + s[1..];
      [s[0]] + Insert(x, s[1..], key)
  }

  lemma {:induction false} InsertSorted<T>(x: T, s: seq<T>, key: T -> SortKey)
    requires SortedBy(s, key)
    ensures SortedBy(Insert(x, s, key), key)
    decreases |s|
  {
    if s == [] {
    } else if KeyLe(key(x), key(s[0])) {
      var r := [x] + s;
      forall i, j | 0 <= i < j < |r| ensures KeyLe(key(r[i]), key(r[j])) {
        if i == 0 && j > 1 {
          KeyLeTransitive(key(x), key(s[0]), key(s[j - 1]));
        }
      }
    } else {
      KeyLeTotal(key(x), key(s[0]));
      InsertSorted(x, s[1..], key);
      var tail := Insert(x, s[1..], key);
      var r := [s[0]] + tail;
      forall i, j | 0 <= i < j < |r| ensures KeyLe(key(r[i]), key(r[j])) {
        if i == 0 {
          assert r[j] in multiset(tail);
          assert r[j] == x || r[j] in multiset(s[1..]);
          if r[j] != x {
            var k :| 1 <= k < |s| && s[k] == r[j];
          }
        }
      }
    }
  }

  /** The sorted permutation of `s`; `SortByStable` shows that equal keys keep their input order. */
  function SortBy<T>(s: seq<T>, key: T -> SortKey): (r: seq<T>)
    ensures multiset(r) == multiset(s)
    ensures |r| == |s|
    ensures SortedBy(r, key)
    decreases |s|
  {
    if s == [] then []
    else
      assert s == [s[0]] + s[1..];
      var rest := SortBy(s[1..], key);
      InsertSorted(s[0], rest, key);
      Insert(s[0], rest, key)
  }

  /**
   * `s.filter(keep)`: every kept element as often as `s` holds it and no
   * other; `FilterConcat` shows that the kept elements keep their order.
   */
  function Filter<T(!new)>(s: seq<T>, keep: T -> bool): (r: seq<T>)
    ensures |r| <= |s|
    ensures forall i :: 0 <= i < |r| ==> keep(r[i])
    ensures forall i :: 0 <= i < |r| ==> r[i] in s
    ensures forall i :: 0 <= i < |s| && keep(s[i]) ==> s[i] in r
    ensures multiset(r) <= multiset(s)
    decreases |s|
  {
    if s == [] then []
    else
      assert s == [s[0]] + s[1..];
      if keep(s[0]) then [s[0]] + Filter(s[1..], keep) else Filter(s[1..], keep)
  }

  /** A kept value occurs in the result as often as in `s`; a rejected one never. */
  lemma {:induction false} FilterCount<T(!new)>(s: seq<T>, keep: T -> bool, x: T)
    ensures multiset(Filter(s, keep))[x] == if keep(x) then multiset(s)[x] else 0
    decreases |s|
  {
    if s != [] {
      assert s == [s[0]] + s[1..];
      FilterCount(s[1..], keep, x);
    }
  }

  /** Filtering one element: kept or dropped. */
  lemma FilterOne<T(!new)>(x: T, keep: T -> bool)
    ensures Filter([x], keep) == if keep(x) then [x] else []
  {
    assert [x][1..] == [];
  }

  /** Filtering `[x] + s` decides `x`, then filters `s`. */
  lemma FilterCons<T(!new)>(x: T, s: seq<T>, keep: T -> bool)
    ensures Filter([x] + s, keep) == (if keep(x) then [x] else []) + Filter(s, keep)
  {
    var xs := [x] + s;
    assert xs[0] == x && xs[1..] == s;
  }

  /** Filtering a concatenation filters each part, in order. */
  lemma {:induction false} FilterConcat<T(!new)>(a: seq<T>, b: seq<T>, keep: T -> bool)
    ensures Filter(a + b, keep) == Filter(a, keep) + Filter(b, keep)
    decreases |a|
  {
    if a == [] {
      assert a + b == b;
    } else {
      var head, tail := a[0], a[1..];
      assert a == [head] + tail;
      assert a + b == [head] + (tail + b);
      FilterConcat(tail, b, keep);
      FilterCons(head, tail + b, keep);
      FilterCons(head, tail, keep);
    }
  }

  /** The elements whose key is `k`. */
  function KeyIs<T>(key: T -> SortKey, k: SortKey): T -> bool {
    (x: T) => key(x) == k
  }

  /** Inserting `x` puts it after every element of its key already there. */
  lemma {:induction false} InsertKeepsKeyOrder<T(!new)>(x: T, s: seq<T>, key: T -> SortKey, k: SortKey)
    ensures Filter(Insert(x, s, key), KeyIs(key, k)) == Filter([x], KeyIs(key, k)) + Filter(s, KeyIs(key, k))
    decreases |s|
  {
    if s == [] || KeyLe(key(x), key(s[0])) {
      assert Insert(x, s, key) == [x] + s;
      FilterConcat([x], s, KeyIs(key, k));
    } else {
      var head, tail := s[0], s[1..];
      assert s == [head] + tail;
      assert Insert(x, s, key) == [head] + Insert(x, tail, key);
      InsertKeepsKeyOrder(x, tail, key, k);
      KeyLeTotal(key(x), key(x));
      assert !(key(head) == k && key(x) == k);
      PassKept(x, head, tail, Insert(x, tail, key), KeyIs(key, k));
    }
  }

  /**
   * The step of `InsertKeepsKeyOrder`: `x` moves past `head`, and at most
   * one of the two is kept.
   */
  lemma PassKept<T(!new)>(x: T, head: T, tail: seq<T>, inserted: seq<T>, keep: T -> bool)
    requires !(keep(head) && keep(x))
    requires Filter(inserted, keep) == Filter([x], keep) + Filter(tail, keep)
    ensures Filter([head] + inserted, keep) == Filter([x], keep) + Filter([head] + tail, keep)
  {
    var h: seq<T> := if keep(head) then [head] else [];
    var fx, ft := Filter([x], keep), Filter(tail, keep);
    assert fx == [] || h == [] by {
      FilterOne(x, keep);
    }
    calc {
      Filter([head] + inserted, keep);
      { FilterCons(head, inserted, keep); }
      h + (fx + ft);
      { SwapEmpty(h, fx, ft); }
      fx + (h + ft);
      { FilterCons(head, tail, keep); }
      fx + Filter([head] + tail, keep);
    }
  }

  /** Two parts, one of them empty, can be swapped. */
  lemma SwapEmpty<T>(a: seq<T>, b: seq<T>, c: seq<T>)
    requires a == [] || b == []
    ensures a + (b + c) == b + (a + c)
  {
    if a == [] {
      assert a + (b + c) == b + c == b + (a + c);
    } else {
      assert a + (b + c) == a + c == b + (a + c);
    }
  }

  /** The sort is stable: the elements of each key come out in their input order. */
  lemma {:induction false} SortByStable<T(!new)>(s: seq<T>, key: T -> SortKey, k: SortKey)
    ensures Filter(SortBy(s, key), KeyIs(key, k)) == Filter(s, KeyIs(key, k))
    decreases |s|
  {
    if s != [] {
      var same := KeyIs(key, k);
      SortByStable(s[1..], key, k);
      InsertKeepsKeyOrder(s[0], SortBy(s[1..], key), key, k);
      assert s == [s[0]] + s[1..];
      FilterConcat([s[0]], s[1..], same);
    }
  }

  /** Everything kept when every element passes. */
  lemma {:induction false} FilterAll<T(!new)>(s: seq<T>, keep: T -> bool)
    requires forall i :: 0 <= i < |s| ==> keep(s[i])
    ensures Filter(s, keep) == s
    decreases |s|
  {
    if s != [] {
      FilterAll(s[1..], keep);
      assert s == [s[0]] + s[1..];
    }
  }

  /** Filtering the reversed sequence gives the kept elements back to front. */
  lemma {:induction false} FilterReverse<T(!new)>(s: seq<T>, keep: T -> bool)
    ensures Filter(Reverse(s), keep) == Reverse(Filter(s, keep))
    decreases |s|
  {
    if s != [] {
      var head, tail := s[0], s[1..];
      assert s == [head] + tail;
      assert Reverse(s) == Reverse(tail) + [head];
      FilterReverse(tail, keep);
      FilterConcat(Reverse(tail), [head], keep);
      FilterOne(head, keep);
      FilterCons(head, tail, keep);
      if keep(head) {
        ReverseConcat([head], Filter(tail, keep));
        assert Reverse([head]) == [head];
      } else {
        assert Filter(s, keep) == Filter(tail, keep);
      }
    }
  }

  /** Reversing a concatenation reverses and swaps the parts. */
  lemma ReverseConcat<T>(a: seq<T>, b: seq<T>)
    ensures Reverse(a + b) == Reverse(b) + Reverse(a)
  {
    var ab, ra, rb := a + b, Reverse(a), Reverse(b);
    var l, r := Reverse(ab), rb + ra;
    assert |l| == |r|;
    forall i | 0 <= i < |l| ensures l[i] == r[i] {
      assert l[i] == ab[|ab| - 1 - i];
      if i < |b| {
        assert ab[|ab| - 1 - i] == b[|b| - 1 - i] == rb[i] == r[i];
      } else {
        assert ab[|ab| - 1 - i] == a[|a| - 1 - (i - |b|)] == ra[i - |b|] == r[i];
      }
    }
  }

  /** `s` back to front. */
  function Reverse<T>(s: seq<T>): (r: seq<T>)
    ensures |r| == |s|
    ensures forall i :: 0 <= i < |s| ==> r[i] == s[|s| - 1 - i]
    ensures multiset(r) == multiset(s)
    decreases |s|
  {
    if s == [] then []
    else
      assert s == [s[0]] + s[1..];
      Reverse(s[1..]) + [s[0]]
  }

  /** Where `slice(0, end)` stops on a sequence of length `len`: a negative end counts from the back. */
  function SliceEnd(len: nat, end: int): (n: nat)
    ensures n <= len
    ensures end >= 0 ==> n == if end < len then end else len
    ensures end < 0 ==> n == if len + end > 0 then len + end else 0
  {
    if end < 0 then (if len + end > 0 then len + end else 0)
    else if end < len then end
    else len
  }
}

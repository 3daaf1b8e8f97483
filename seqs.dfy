/**
 * Sequence operations that the JavaScript sources use through the Array API:
 * `filter`, `filter((_, i) => i !== k)`, `[...new Set(xs)]`, stable `sort`
 * with a key comparison, and the default string ordering.
 */
module Seqs {

  /** `a` is obtained from `b` by deleting elements: an order-preserving sublist. */
  ghost predicate IsSubsequence<T>(a: seq<T>, b: seq<T>)
    decreases |b|
  {
    a == [] || (b != [] && ((a[0] == b[0] && IsSubsequence(a[1..], b[1..])) || IsSubsequence(a, b[1..])))
  }

  /**
   * `xs.filter(p)`: the elements of `xs` that satisfy `p`, in their original
   * order (FilterCounts and FilterSubsequence below say so exactly).
   */
  function Filter<T(!new)>(p: T -> bool, xs: seq<T>): (r: seq<T>)
    ensures |r| <= |xs|
    ensures forall i :: 0 <= i < |r| ==> p(r[i])
    decreases |xs|
  {
    if xs == [] then []
    else if p(xs[0]) then [xs[0]] + Filter(p, xs[1..])
    else Filter(p, xs[1..])
  }

  /** The filter keeps each passing element exactly as often as `xs` holds it, and no other. */
  lemma {:induction false} FilterCounts<T(!new)>(p: T -> bool, xs: seq<T>)
    ensures forall x :: multiset(Filter(p, xs))[x] == if p(x) then multiset(xs)[x] else 0
    decreases |xs|
  {
    if xs != [] {
      FilterCounts(p, xs[1..]);
      assert xs == [xs[0]] + xs[1..];
    }
  }

  /** The filter is an order-preserving sublist of its input. */
  lemma {:induction false} FilterSubsequence<T(!new)>(p: T -> bool, xs: seq<T>)
    ensures IsSubsequence(Filter(p, xs), xs)
    decreases |xs|
  {
    if xs != [] {
      FilterSubsequence(p, xs[1..]);
      var r := Filter(p, xs);
      if p(xs[0]) {
        assert r[0] == xs[0] && r[1..] == Filter(p, xs[1..]);
      }
    }
  }

  /** What callers of `filter` rely on: an order-preserving sublist holding exactly the passing elements. */
  lemma FilterSpec<T(!new)>(p: T -> bool, xs: seq<T>)
    ensures IsSubsequence(Filter(p, xs), xs)
    ensures forall x :: x in Filter(p, xs) <==> x in xs && p(x)
  {
    FilterSubsequence(p, xs);
    forall x ensures x in Filter(p, xs) <==> x in xs && p(x) {
      FilterMember(p, xs, x);
    }
  }

  /** A filter that every element passes returns its input unchanged. */
  lemma {:induction false} FilterAll<T(!new)>(p: T -> bool, xs: seq<T>)
    requires forall i :: 0 <= i < |xs| ==> p(xs[i])
    ensures Filter(p, xs) == xs
    decreases |xs|
  {
    if xs != [] {
      FilterAll(p, xs[1..]);
    }
  }

  /** A filter that no element passes returns nothing. */
  lemma {:induction false} FilterNone<T(!new)>(p: T -> bool, xs: seq<T>)
    requires forall i :: 0 <= i < |xs| ==> !p(xs[i])
    ensures Filter(p, xs) == []
    decreases |xs|
  {
    if xs != [] {
      FilterNone(p, xs[1..]);
    }
  }

  /** Filtering a concatenation filters each part. */
  lemma {:induction false} FilterConcat<T(!new)>(p: T -> bool, a: seq<T>, b: seq<T>)
    ensures Filter(p, a + b) == Filter(p, a) + Filter(p, b)
    decreases |a|
  {
    if a == [] {
      assert a + b == b;
    } else {
      var c := a + b;
      assert c[0] == a[0] && c[1..] == a[1..] + b;
      FilterConcat(p, a[1..], b);
      var head := if p(a[0]) then [a[0]] else [];
      assert Filter(p, c) == head + Filter(p, c[1..]);
      assert Filter(p, a) == head + Filter(p, a[1..]);
      var x, y := Filter(p, a[1..]), Filter(p, b);
      assert Filter(p, c[1..]) == x + y;
      assert head + (x + y) == (head + x) + y;
    }
  }

  /** When exactly the elements from position `k` on pass, the filter keeps that suffix. */
  lemma FilterSuffix<T(!new)>(p: T -> bool, xs: seq<T>, k: nat)
    requires k <= |xs|
    requires forall i :: 0 <= i < |xs| ==> (p(xs[i]) <==> k <= i)
    ensures Filter(p, xs) == xs[k..]
  {
    var early, late := xs[..k], xs[k..];
    assert early + late == xs;
    assert forall i :: 0 <= i < |early| ==> !p(early[i]) by {
      forall i | 0 <= i < |early| ensures !p(early[i]) { assert early[i] == xs[i]; }
    }
    assert forall i :: 0 <= i < |late| ==> p(late[i]) by {
      forall i | 0 <= i < |late| ensures p(late[i]) { assert late[i] == xs[k + i]; }
    }
    FilterConcat(p, early, late);
    FilterNone(p, early);
    FilterAll(p, late);
  }

  /** When exactly the elements before position `k` pass, the filter keeps that prefix. */
  lemma FilterPrefix<T(!new)>(p: T -> bool, xs: seq<T>, k: nat)
    requires k <= |xs|
    requires forall i :: 0 <= i < |xs| ==> (p(xs[i]) <==> i < k)
    ensures Filter(p, xs) == xs[..k]
  {
    var early, late := xs[..k], xs[k..];
    assert early + late == xs;
    assert forall i :: 0 <= i < |early| ==> p(early[i]) by {
      forall i | 0 <= i < |early| ensures p(early[i]) { assert early[i] == xs[i]; }
    }
    assert forall i :: 0 <= i < |late| ==> !p(late[i]) by {
      forall i | 0 <= i < |late| ensures !p(late[i]) { assert late[i] == xs[k + i]; }
    }
    FilterConcat(p, early, late);
    FilterAll(p, early);
    FilterNone(p, late);
  }

  /**
   * Two filters with complementary tests split `xs`: together they hold every
   * element exactly as often as `xs` does.
   */
  lemma FilterPartition<T(!new)>(p: T -> bool, q: T -> bool, xs: seq<T>)
    requires forall x :: q(x) == !p(x)
    ensures |Filter(p, xs)| + |Filter(q, xs)| == |xs|
    ensures multiset(Filter(p, xs)) + multiset(Filter(q, xs)) == multiset(xs)
  {
    FilterCounts(p, xs);
    FilterCounts(q, xs);
    var a, b := multiset(Filter(p, xs)), multiset(Filter(q, xs));
    assert forall x :: (a + b)[x] == multiset(xs)[x];
    assert a + b == multiset(xs);
    assert |a + b| == |a| + |b|;
  }

  /** Membership in a filter: the element is in the input and passes the test. */
  lemma FilterMember<T(!new)>(p: T -> bool, xs: seq<T>, x: T)
    ensures x in Filter(p, xs) <==> x in xs && p(x)
  {
    FilterCounts(p, xs);
    var r := Filter(p, xs);
    assert x in r <==> multiset(r)[x] > 0;
    assert x in xs <==> multiset(xs)[x] > 0;
  }

  /**
   * `xs.filter((_, i) => i !== k)`: the element at position `k` is dropped when
   * there is one; any other `k` leaves `xs` unchanged.
   */
  function RemoveAt<T>(xs: seq<T>, k: int): (r: seq<T>)
    ensures 0 <= k < |xs| ==> r == xs[..k] + xs[k + 1..]
    ensures !(0 <= k < |xs|) ==> r == xs
    decreases |xs|
  {
    if xs == [] then []
    else
      assert xs == [xs[0]] + xs[1..];
      (if k == 0 then [] else [xs[0]]) + RemoveAt(xs[1..], k - 1)
  }

  /** After a removal in range, the length drops by one and the survivors keep their order. */
  lemma RemoveAtShifts<T>(xs: seq<T>, k: int)
    requires 0 <= k < |xs|
    ensures |RemoveAt(xs, k)| == |xs| - 1
    ensures forall j :: 0 <= j < |xs| - 1 ==> RemoveAt(xs, k)[j] == xs[if j < k then j else j + 1]
  {
  }

  predicate NoDuplicates<T(==)>(s: seq<T>)
  {
    forall i, j :: 0 <= i < j < |s| ==> s[i] != s[j]
  }

  /** The position of the first occurrence of `x` in `xs`. */
  function FirstIndex<T(==)>(xs: seq<T>, x: T): (k: nat)
    requires x in xs
    ensures k < |xs| && xs[k] == x && x !in xs[..k]
  {
    if xs[0] == x then 0 else 1 + FirstIndex(xs[1..], x)
  }

  /**
   * `[...new Set(xs)]`: every element of `xs` once, in the order of first
   * occurrence (a JavaScript Set iterates in insertion order).
   */
  function Dedup<T(==,!new)>(xs: seq<T>): (r: seq<T>)
    ensures NoDuplicates(r)
    ensures forall x :: x in r <==> x in xs
    ensures IsSubsequence(r, xs)
    ensures forall i, j :: 0 <= i < j < |r| ==> FirstIndex(xs, r[i]) < FirstIndex(xs, r[j])
  {
    DedupAfter(xs, {})
  }

  /** The Set insertion loop, started with the elements of `seen` already inserted. */
  function DedupAfter<T(==,!new)>(xs: seq<T>, seen: set<T>): (r: seq<T>)
    ensures NoDuplicates(r)
    ensures forall x :: x in r <==> x in xs && x !in seen
    ensures IsSubsequence(r, xs)
    ensures forall i, j :: 0 <= i < j < |r| ==> FirstIndex(xs, r[i]) < FirstIndex(xs, r[j])
    decreases |xs|
  {
    if xs == [] then []
    else if xs[0] in seen then
      var r := DedupAfter(xs[1..], seen);
      assert forall y :: y in r ==> FirstIndex(xs, y) == 1 + FirstIndex(xs[1..], y);
      r
    else
      var r := DedupAfter(xs[1..], seen + {xs[0]});
      assert forall y :: y in r ==> FirstIndex(xs, y) == 1 + FirstIndex(xs[1..], y);
      [xs[0]] + r
  }

  /** JavaScript's default string comparison (character by character, by code), as `<=`. */
  predicate StrLe(a: string, b: string)
  {
    a == [] || (b != [] && (a[0] < b[0] || (a[0] == b[0] && StrLe(a[1..], b[1..]))))
  }

  lemma {:induction false} StrLeTotal(a: string, b: string)
    ensures StrLe(a, b) || StrLe(b, a)
  {
    if a != [] && b != [] && a[0] == b[0] {
      StrLeTotal(a[1..], b[1..]);
    }
  }

  lemma {:induction false} StrLeTransitive(a: string, b: string, c: string)
    requires StrLe(a, b) && StrLe(b, c)
    ensures StrLe(a, c)
  {
    if a != [] && a[0] == b[0] && b[0] == c[0] {
      StrLeTransitive(a[1..], b[1..], c[1..]);
    }
  }

  lemma {:induction false} StrLeAntisymmetric(a: string, b: string)
    requires StrLe(a, b) && StrLe(b, a)
    ensures a == b
  {
    if a != [] {
      StrLeAntisymmetric(a[1..], b[1..]);
      assert a == [a[0]] + a[1..] && b == [b[0]] + b[1..];
    }
  }

  /** `a` may stand before `b` in an ascending (or descending) sort. */
  predicate InOrder(a: string, b: string, descending: bool)
  {
    if descending then StrLe(b, a) else StrLe(a, b)
  }

  ghost predicate SortedByKey<T>(s: seq<T>, key: T -> string, descending: bool)
  {
    forall i, j :: 0 <= i < j < |s| ==> InOrder(key(s[i]), key(s[j]), descending)
  }

  lemma InOrderTransitive(a: string, b: string, c: string, descending: bool)
    requires InOrder(a, b, descending) && InOrder(b, c, descending)
    ensures InOrder(a, c, descending)
  {
    if descending { StrLeTransitive(c, b, a); } else { StrLeTransitive(a, b, c); }
  }

  /** Inserts `x` into sorted `s` before the first element it may precede. */
  function InsertByKey<T>(x: T, s: seq<T>, key: T -> string, descending: bool): (r: seq<T>)
    requires SortedByKey(s, key, descending)
    ensures SortedByKey(r, key, descending)
    ensures multiset(r) == multiset(s) + multiset{x}
    ensures |r| == |s| + 1
    decreases |s|
  {
    if s == [] || InOrder(key(x), key(s[0]), descending) then
      InsertFrontSorted(x, s, key, descending);
      [x] + s
    else
      assert s == [s[0]] + s[1..];
      var rest := InsertByKey(x, s[1..], key, descending);
      InsertBehindSorted(x, s, rest, key, descending);
      [s[0]] + rest
  }

  lemma InsertFrontSorted<T>(x: T, s: seq<T>, key: T -> string, descending: bool)
    requires SortedByKey(s, key, descending)
    requires s == [] || InOrder(key(x), key(s[0]), descending)
    ensures SortedByKey([x] + s, key, descending)
  {
    var r := [x] + s;
    forall i, j | 0 <= i < j < |r|
      ensures InOrder(key(r[i]), key(r[j]), descending)
    {
      if i == 0 && j > 1 {
        InOrderTransitive(key(x), key(s[0]), key(s[j - 1]), descending);
      }
    }
  }

  lemma InsertBehindSorted<T>(x: T, s: seq<T>, rest: seq<T>, key: T -> string, descending: bool)
    requires s != [] && SortedByKey(s, key, descending)
    requires !InOrder(key(x), key(s[0]), descending)
    requires SortedByKey(rest, key, descending)
    requires multiset(rest) == multiset(s[1..]) + multiset{x}
    ensures SortedByKey([s[0]] + rest, key, descending)
  {
    StrLeTotal(key(x), key(s[0]));
    assert InOrder(key(s[0]), key(x), descending);
    forall y | y in rest
      ensures InOrder(key(s[0]), key(y), descending)
    {
      assert y in multiset(rest);
      if y != x {
        assert y in multiset(s[1..]);
        var k :| 0 <= k < |s[1..]| && s[1..][k] == y;
        assert s[k + 1] == y;
      }
    }
    var r := [s[0]] + rest;
    forall i, j | 0 <= i < j < |r|
      ensures InOrder(key(r[i]), key(r[j]), descending)
    {
      if i == 0 {
        assert r[j] == rest[j - 1] && rest[j - 1] in rest;
      }
    }
  }

  /**
   * A stable sort by `key` (Array.prototype.sort with a key comparator):
   * the result is ordered and is a permutation of the input.
   */
  function SortByKey<T>(xs: seq<T>, key: T -> string, descending: bool): (r: seq<T>)
    ensures SortedByKey(r, key, descending)
    ensures multiset(r) == multiset(xs)
    ensures |r| == |xs|
    decreases |xs|
  {
    if xs == [] then []
    else
      assert xs == [xs[0]] + xs[1..];
      InsertByKey(xs[0], SortByKey(xs[1..], key, descending), key, descending)
  }

  /** Two permutations of each other are duplicate-free together. */
  lemma NoDuplicatesPermutation<T>(a: seq<T>, b: seq<T>)
    requires multiset(a) == multiset(b) && NoDuplicates(a)
    ensures NoDuplicates(b)
  {
    NoDuplicatesCounts(a);
    NoDuplicatesCounts(b);
  }

  lemma {:induction false} NoDuplicatesCounts<T>(a: seq<T>)
    ensures NoDuplicates(a) <==> forall x :: multiset(a)[x] <= 1
    decreases |a|
  {
    if a != [] {
      NoDuplicatesCounts(a[1..]);
      assert a == [a[0]] + a[1..];
      assert a[0] in a[1..] <==> multiset(a[1..])[a[0]] > 0;
      if NoDuplicates(a) {
        assert a[0] !in a[1..];
        assert NoDuplicates(a[1..]) by {
          forall i, j | 0 <= i < j < |a[1..]| ensures a[1..][i] != a[1..][j] {
            assert a[i + 1] != a[j + 1];
          }
        }
      } else {
        var i, j :| 0 <= i < j < |a| && a[i] == a[j];
        assert multiset(a) == multiset{a[0]} + multiset(a[1..]);
        if i == 0 {
          assert a[j] in a[1..];
          assert multiset(a)[a[0]] > 1;
        } else {
          assert a[1..][i - 1] == a[1..][j - 1];
          assert !NoDuplicates(a[1..]);
          var x :| multiset(a[1..])[x] > 1;
          assert multiset(a)[x] > 1;
        }
      }
    }
  }

  /** A sorted duplicate-free sequence of strings is strictly increasing (or decreasing). */
  lemma SortedDistinctStrict<T>(s: seq<T>, key: T -> string, descending: bool)
    requires SortedByKey(s, key, descending)
    requires forall i, j :: 0 <= i < j < |s| ==> key(s[i]) != key(s[j])
    ensures forall i, j :: 0 <= i < j < |s| ==> InOrder(key(s[i]), key(s[j]), descending) && !InOrder(key(s[j]), key(s[i]), descending)
  {
    forall i, j | 0 <= i < j < |s|
      ensures !InOrder(key(s[j]), key(s[i]), descending)
    {
      if InOrder(key(s[j]), key(s[i]), descending) {
        StrLeAntisymmetric(key(s[i]), key(s[j]));
      }
    }
  }

  function Identity(s: string): string
  {
    s
  }

  /** `Array.from(new Set(xs)).sort()` on strings: the distinct values in ascending order. */
  function SortedDistinct(xs: seq<string>): (r: seq<string>)
    ensures forall x :: x in r <==> x in xs
    ensures forall i, j :: 0 <= i < j < |r| ==> StrLe(r[i], r[j]) && r[i] != r[j]
  {
    var distinct := Dedup(xs);
    var sorted := SortByKey(distinct, Identity, false);
    SortedDistinctFacts(distinct, sorted);
    sorted
  }

  lemma SortedDistinctFacts(distinct: seq<string>, sorted: seq<string>)
    requires NoDuplicates(distinct)
    requires multiset(sorted) == multiset(distinct)
    requires SortedByKey(sorted, Identity, false)
    ensures forall x :: x in sorted <==> x in distinct
    ensures forall i, j :: 0 <= i < j < |sorted| ==> StrLe(sorted[i], sorted[j]) && sorted[i] != sorted[j]
  {
    NoDuplicatesPermutation(distinct, sorted);
    forall x ensures x in sorted <==> x in distinct {
      assert x in sorted <==> x in multiset(sorted);
      assert x in distinct <==> x in multiset(distinct);
    }
    forall i, j | 0 <= i < j < |sorted| ensures StrLe(sorted[i], sorted[j]) && sorted[i] != sorted[j] {
      assert InOrder(Identity(sorted[i]), Identity(sorted[j]), false);
    }
  }
}

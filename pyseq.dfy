/**
 * Python list operations the bot relies on: slicing `s[i:j]` (with Python's clamping and
 * negative indices) and list comprehensions with a condition (`[x for x in s if p(x)]`).
 */
module PySeq {

  function Min(a: int, b: int): int { if a <= b then a else b }

  function Max(a: int, b: int): int { if a <= b then b else a }

  /** Where a slice bound `i` lands in a list of length `n`: negative bounds count from the end, then clamp to [0, n]. */
  function SliceBound(i: int, n: nat): (b: nat)
    ensures b <= n
    ensures 0 <= i ==> b == Min(i, n)
  {
    if i < 0 then (if i + n < 0 then 0 else i + n) else if i > n then n else i
  }

  /** `s[i:j]` as Python evaluates it; it never fails. */
  function PySlice<T>(s: seq<T>, i: int, j: int): (r: seq<T>)
    ensures |r| <= |s|
  {
    var a, b := SliceBound(i, |s|), SliceBound(j, |s|);
    if a < b then s[a..b] else []
  }

  /** With non-negative bounds a Python slice is the Dafny slice between the clamped bounds, or empty. */
  lemma PySliceNonNegative<T>(s: seq<T>, i: int, j: int)
    requires 0 <= i && 0 <= j
    ensures |PySlice(s, i, j)| == Max(0, Min(j, |s|) - Min(i, |s|))
    ensures i <= j <= |s| ==> PySlice(s, i, j) == s[i..j]
    ensures j <= i || |s| <= i ==> PySlice(s, i, j) == []
  {
  }

  /** `[x for x in s if p(x)]`. */
  function Filter<T>(p: T -> bool, s: seq<T>): (r: seq<T>)
    ensures |r| <= |s|
    ensures forall k :: 0 <= k < |r| ==> p(r[k])
  {
    if s == [] then [] else (if p(s[0]) then [s[0]] else []) + Filter(p, s[1..])
  }

  /** Filtering a list with a known head. */
  lemma FilterCons<T>(p: T -> bool, x: T, s: seq<T>)
    ensures Filter(p, [x] + s) == (if p(x) then [x] else []) + Filter(p, s)
  {
    assert ([x] + s)[1..] == s;
  }

  /** `a` is obtained from `b` by deleting elements: same relative order, nothing added or repeated. */
  predicate IsSubseq<T(==)>(a: seq<T>, b: seq<T>) {
    if a == [] then true
    else if b == [] then false
    else (a[0] == b[0] && IsSubseq(a[1..], b[1..])) || IsSubseq(a, b[1..])
  }

  /** `s` is a merge of `a` and `b`: every element of `s` comes from exactly one of them, in order. */
  predicate Interleaves<T(==)>(s: seq<T>, a: seq<T>, b: seq<T>) {
    if s == [] then a == [] && b == []
    else
      || (a != [] && a[0] == s[0] && Interleaves(s[1..], a[1..], b))
      || (b != [] && b[0] == s[0] && Interleaves(s[1..], a, b[1..]))
  }

  /** A comprehension over a concatenation is the concatenation of the comprehensions. */
  lemma {:induction false} FilterConcat<T>(p: T -> bool, a: seq<T>, b: seq<T>)
    ensures Filter(p, a + b) == Filter(p, a) + Filter(p, b)
  {
    if a == [] {
      assert a + b == b;
    } else {
      assert (a + b)[1..] == a[1..] + b;
      FilterConcat(p, a[1..], b);
    }
  }

  /** An element survives the comprehension exactly when it was in the list and satisfies the condition. */
  lemma {:induction false} FilterMember<T>(p: T -> bool, s: seq<T>, x: T)
    ensures x in Filter(p, s) <==> x in s && p(x)
  {
    if s != [] {
      FilterMember(p, s[1..], x);
      assert s == [s[0]] + s[1..];
    }
  }

  /** A comprehension keeps relative order and adds nothing. */
  lemma {:induction false} FilterIsSubseq<T>(p: T -> bool, s: seq<T>)
    ensures IsSubseq(Filter(p, s), s)
  {
    if s != [] {
      FilterIsSubseq(p, s[1..]);
      var r := Filter(p, s);
      if p(s[0]) {
        assert r[0] == s[0] && r[1..] == Filter(p, s[1..]);
      } else {
        assert r == Filter(p, s[1..]);
        if r != [] {
          assert IsSubseq(r, s[1..]);
        }
      }
    }
  }

  /**
   * Two comprehensions with complementary conditions partition the list: the list is a merge of the two
   * results, so each element lands in exactly one of them and both keep the original order.
   */
  lemma {:induction false} FilterPartition<T>(p: T -> bool, q: T -> bool, s: seq<T>)
    requires forall x :: q(x) == !p(x)
    ensures Interleaves(s, Filter(p, s), Filter(q, s))
  {
    if s != [] {
      FilterPartition(p, q, s[1..]);
      var a, b := Filter(p, s), Filter(q, s);
      if p(s[0]) {
        assert a == [s[0]] + Filter(p, s[1..]) && b == Filter(q, s[1..]);
        assert a[1..] == Filter(p, s[1..]);
      } else {
        assert b == [s[0]] + Filter(q, s[1..]) && a == Filter(p, s[1..]);
        assert b[1..] == Filter(q, s[1..]);
      }
    }
  }

  /** The two sides of a partition together hold exactly the elements of the list, as many times as it does. */
  lemma {:induction false} FilterPartitionCounts<T>(p: T -> bool, q: T -> bool, s: seq<T>)
    requires forall x :: q(x) == !p(x)
    ensures |Filter(p, s)| + |Filter(q, s)| == |s|
    ensures multiset(Filter(p, s)) + multiset(Filter(q, s)) == multiset(s)
  {
    if s != [] {
      FilterPartitionCounts(p, q, s[1..]);
      assert s == [s[0]] + s[1..];
    }
  }
}

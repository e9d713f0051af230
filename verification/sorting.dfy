/**
 * `Array.prototype.sort` with a comparator, modelled as insertion sort under
 * a total preorder. The console's comparators answer -1 on ties, so the
 * order among equal elements is not specified; what the model promises is
 * what any correct sort delivers: a sorted permutation of the input.
 */
module Sorting {

  /** `le` relates every two elements one way or the other and is transitive. */
  ghost predicate TotalPreorder<T(!new)>(le: (T, T) -> bool) {
    && (forall a, b :: le(a, b) || le(b, a))
    && (forall a, b, c :: le(a, b) && le(b, c) ==> le(a, c))
  }

  /** Every element is `le` every element after it. */
  ghost predicate SortedBy<T>(le: (T, T) -> bool, xs: seq<T>) {
    forall i, j :: 0 <= i < j < |xs| ==> le(xs[i], xs[j])
  }

  /** No two positions carry the same key. */
  ghost predicate DistinctBy<T, K>(xs: seq<T>, key: T -> K) {
    forall i, j :: 0 <= i < j < |xs| ==> key(xs[i]) != key(xs[j])
  }

  /** Inserts `x` into the sorted `xs` in front of the first element it is `le`. */
  function Insert<T(!new)>(x: T, xs: seq<T>, le: (T, T) -> bool): (r: seq<T>)
    requires TotalPreorder(le)
    requires SortedBy(le, xs)
    ensures multiset(r) == multiset(xs) + multiset{x}
    ensures SortedBy(le, r)
    decreases |xs|
  {
    if |xs| == 0 then [x]
    else if le(x, xs[0]) then [x] + xs
    else
      var rest := Insert(x, xs[1..], le);
      assert xs == [xs[0]] + xs[1..];
      assert le(xs[0], x);
      forall k | 0 <= k < |rest|
        ensures le(xs[0], rest[k])
      {
        assert rest[k] in multiset(xs[1..]) + multiset{x};
        if rest[k] != x {
          assert rest[k] in multiset(xs[1..]);
          var m :| 0 <= m < |xs[1..]| && xs[1..][m] == rest[k];
          assert xs[m + 1] == rest[k];
        }
      }
      [xs[0]] + rest
  }

  /** The sorted permutation of `xs` under `le`. */
  function SortBy<T(!new)>(xs: seq<T>, le: (T, T) -> bool): (r: seq<T>)
    requires TotalPreorder(le)
    ensures multiset(r) == multiset(xs)
    ensures SortedBy(le, r)
    decreases |xs|
  {
    if |xs| == 0 then []
    else
      assert xs == xs[..|xs| - 1] + [xs[|xs| - 1]];
      Insert(xs[|xs| - 1], SortBy(xs[..|xs| - 1], le), le)
  }

  /** A value at two positions of `s` is counted at least twice. */
  lemma TwoPositionsCountTwice<T>(s: seq<T>, i: int, j: int)
    requires 0 <= i < j < |s| && s[i] == s[j]
    ensures multiset(s)[s[i]] >= 2
  {
    assert s == s[..j] + s[j..];
    assert s[..j][i] == s[i];
    assert s[j..][0] == s[i];
  }

  /** A value counted at least twice sits at two different positions. */
  lemma CountTwiceTwoPositions<T>(s: seq<T>, x: T) returns (i: int, j: int)
    requires multiset(s)[x] >= 2
    ensures 0 <= i < |s| && 0 <= j < |s| && i != j && s[i] == x && s[j] == x
  {
    assert x in multiset(s);
    i :| 0 <= i < |s| && s[i] == x;
    assert s == s[..i] + [x] + s[i + 1..];
    var rest := s[..i] + s[i + 1..];
    assert multiset(s) == multiset(rest) + multiset{x};
    assert x in multiset(rest);
    var k :| 0 <= k < |rest| && rest[k] == x;
    if k < i {
      j := k;
    } else {
      j := k + 1;
      assert rest[k] == s[i + 1..][k - i];
    }
  }

  /** Two positions of a permutation of `a` come from two positions of `a`. */
  lemma PermutedPositions<T>(a: seq<T>, b: seq<T>, i: int, j: int) returns (i': int, j': int)
    requires multiset(a) == multiset(b)
    requires 0 <= i < j < |b|
    ensures 0 <= i' < |a| && 0 <= j' < |a| && i' != j'
    ensures a[i'] == b[i] && a[j'] == b[j]
  {
    if b[i] == b[j] {
      TwoPositionsCountTwice(b, i, j);
      i', j' := CountTwiceTwoPositions(a, b[i]);
    } else {
      assert b[i] in multiset(a) && b[j] in multiset(a);
      i' :| 0 <= i' < |a| && a[i'] == b[i];
      j' :| 0 <= j' < |a| && a[j'] == b[j];
    }
  }

  /** Rearranging a sequence keeps its keys distinct. */
  lemma PermutationKeepsDistinct<T, K>(a: seq<T>, b: seq<T>, key: T -> K)
    requires multiset(a) == multiset(b)
    requires DistinctBy(a, key)
    ensures DistinctBy(b, key)
  {
    forall i, j | 0 <= i < j < |b|
      ensures key(b[i]) != key(b[j])
    {
      var i', j' := PermutedPositions(a, b, i, j);
      if i' < j' {
        assert key(a[i']) != key(a[j']);
      } else {
        assert key(a[j']) != key(a[i']);
      }
    }
  }
}

/**
 * List comprehensions over sequences: `[x for x in s if f(x)]` and `[f(x) for x in s]`,
 * with the facts about them the roster loader and the candidate filters need.
 */
module Sequences {

  /** `a` is obtained from `b` by deleting elements, without reordering what is left. */
  ghost predicate IsSubsequence<T>(a: seq<T>, b: seq<T>)
    decreases |b|
  {
    if a == [] then true
    else if b == [] then false
    else (a[0] == b[0] && IsSubsequence(a[1..], b[1..])) || IsSubsequence(a, b[1..])
  }

  /** `[x for x in s if f(x)]`: keeps, in order and with their multiplicity, the elements satisfying `f`. */
  function Filter<T(!new)>(f: T -> bool, s: seq<T>): (r: seq<T>)
    ensures IsSubsequence(r, s)
    ensures forall x :: x in r ==> f(x)
  {
    if s == [] then []
    else
      var rest := Filter(f, s[1..]);
      if f(s[0]) then
        assert ([s[0]] + rest)[1..] == rest;
        [s[0]] + rest
      else rest
  }

  /** The filter keeps every element satisfying `f` as often as it occurs, and no other. */
  lemma {:induction false} FilterMultiset<T(!new)>(f: T -> bool, s: seq<T>)
    ensures forall x :: multiset(Filter(f, s))[x] == if f(x) then multiset(s)[x] else 0
  {
    if s != [] {
      FilterMultiset(f, s[1..]);
      assert s == [s[0]] + s[1..];
    }
  }

  /** Every element of `s` that satisfies `f` survives the filter. */
  lemma FilterKeeps<T(!new)>(f: T -> bool, s: seq<T>, x: T)
    requires x in s && f(x)
    ensures x in Filter(f, s)
  {
    FilterMultiset(f, s);
    assert multiset(s)[x] > 0;
    assert multiset(Filter(f, s))[x] > 0;
  }

  /** Filtering a list that was extended by one element, one loop iteration of a filtering loop. */
  lemma {:induction false} FilterSnoc<T(!new)>(f: T -> bool, s: seq<T>, x: T)
    ensures Filter(f, s + [x]) == Filter(f, s) + (if f(x) then [x] else [])
  {
    if s == [] {
      assert [] + [x] == [x];
    } else {
      assert (s + [x])[0] == s[0];
      assert (s + [x])[1..] == s[1..] + [x];
      FilterSnoc(f, s[1..], x);
    }
  }

  /** Every sequence is a subsequence of itself. */
  lemma {:induction false} SubsequenceRefl<T>(s: seq<T>)
    ensures IsSubsequence(s, s)
  {
    if s != [] {
      SubsequenceRefl(s[1..]);
    }
  }

  /** Deleting elements twice is deleting elements once. */
  lemma {:induction false} SubsequenceTrans<T>(a: seq<T>, b: seq<T>, c: seq<T>)
    requires IsSubsequence(a, b) && IsSubsequence(b, c)
    ensures IsSubsequence(a, c)
    decreases |c|
  {
    if a != [] {
      if b[0] == c[0] && IsSubsequence(b[1..], c[1..]) {
        if a[0] == b[0] && IsSubsequence(a[1..], b[1..]) {
          SubsequenceTrans(a[1..], b[1..], c[1..]);
        } else {
          SubsequenceTrans(a, b[1..], c[1..]);
        }
      } else {
        SubsequenceTrans(a, b, c[1..]);
      }
    }
  }

  /** `[f(x) for x in s]`. */
  function MapSeq<T, U>(f: T -> U, s: seq<T>): (r: seq<U>)
    ensures |r| == |s|
    ensures forall i :: 0 <= i < |s| ==> r[i] == f(s[i])
  {
    seq(|s|, i requires 0 <= i < |s| => f(s[i]))
  }

  /** Mapping keeps the subsequence relation: the images of a subsequence stay in order. */
  lemma {:induction false} MapSubsequence<T, U>(f: T -> U, a: seq<T>, b: seq<T>)
    requires IsSubsequence(a, b)
    ensures IsSubsequence(MapSeq(f, a), MapSeq(f, b))
    decreases |b|
  {
    if a != [] {
      assert MapSeq(f, b)[1..] == MapSeq(f, b[1..]);
      if a[0] == b[0] && IsSubsequence(a[1..], b[1..]) {
        MapSubsequence(f, a[1..], b[1..]);
        assert MapSeq(f, a)[1..] == MapSeq(f, a[1..]);
      } else {
        MapSubsequence(f, a, b[1..]);
      }
    }
  }

  /** `f(x)` occurs in the mapped list at least as often as `x` occurs in the list. */
  lemma {:induction false} MapMultiset<T, U>(f: T -> U, s: seq<T>, x: T)
    ensures multiset(MapSeq(f, s))[f(x)] >= multiset(s)[x]
  {
    if s != [] {
      MapMultiset(f, s[1..], x);
      assert s == [s[0]] + s[1..];
      assert MapSeq(f, s) == [f(s[0])] + MapSeq(f, s[1..]);
    }
  }

  /** Mapping over a list extended by one element. */
  lemma MapSeqSnoc<T, U>(f: T -> U, s: seq<T>, x: T)
    ensures MapSeq(f, s + [x]) == MapSeq(f, s) + [f(x)]
  {
  }
}

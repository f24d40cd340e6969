/** Sequence helpers shared by the dataset preparation and the dashboard
    callback: optional values, order-preserving filtering (a boolean mask
    applied to a table), and the duplicate-free list of values a column
    holds (`Series.unique`). */
module Seqs {

  datatype Option<T> = None | Some(value: T)

  /** No value occurs twice in `s`. */
  predicate NoDuplicates<T(==)>(s: seq<T>) {
    forall i, j :: 0 <= i < j < |s| ==> s[i] != s[j]
  }

  /** Dropping the head of a duplicate-free sequence leaves a
      duplicate-free sequence without the head. */
  lemma NoDuplicatesTail<T>(s: seq<T>)
    requires s != [] && NoDuplicates(s)
    ensures NoDuplicates(s[1..]) && s[0] !in s[1..]
  {
    forall j | 0 <= j < |s| - 1 ensures s[1..][j] != s[0] {
      assert s[1..][j] == s[j + 1];
    }
  }

  /** `r` is obtained from `s` by deleting some elements, keeping the
      order of the rest. */
  predicate IsSubsequence<T(==)>(r: seq<T>, s: seq<T>)
    decreases |s|
  {
    r == [] ||
    (s != [] &&
     ((r[0] == s[0] && IsSubsequence(r[1..], s[1..])) || IsSubsequence(r, s[1..])))
  }

  /** The elements of `s` satisfying `p`, in their original order: what a
      boolean mask does to a table's rows. */
  function Filter<T(==,!new)>(s: seq<T>, p: T -> bool): (r: seq<T>)
    ensures forall x :: x in r <==> x in s && p(x)
    ensures |r| <= |s|
  {
    if s == [] then []
    else if p(s[0]) then [s[0]] + Filter(s[1..], p)
    else Filter(s[1..], p)
  }

  /** Each element is kept exactly as often as it occurs in `s` when it
      satisfies `p`, and not at all otherwise, and the kept elements keep
      their order. */
  lemma {:induction false} FilterExact<T(!new)>(s: seq<T>, p: T -> bool)
    ensures forall x :: multiset(Filter(s, p))[x] == if p(x) then multiset(s)[x] else 0
    ensures IsSubsequence(Filter(s, p), s)
  {
    if s != [] {
      FilterExact(s[1..], p);
      var rest := Filter(s[1..], p);
      assert s == [s[0]] + s[1..];
      if p(s[0]) {
        assert ([s[0]] + rest)[1..] == rest;
      }
    }
  }

  /** Two masks that agree on every element of `s` select the same rows. */
  lemma {:induction false} FilterCongruent<T(!new)>(s: seq<T>, p: T -> bool, q: T -> bool)
    requires forall x :: x in s ==> p(x) == q(x)
    ensures Filter(s, p) == Filter(s, q)
  {
    if s != [] {
      FilterCongruent(s[1..], p, q);
    }
  }

  /** The distinct values of `s`, in the order of their first occurrence. */
  function Unique<T(==,!new)>(s: seq<T>): (r: seq<T>)
    ensures NoDuplicates(r)
    ensures forall x :: x in r <==> x in s
    ensures |r| <= |s|
  {
    if s == [] then []
    else
      var init := s[..|s| - 1];
      var last := s[|s| - 1];
      assert s == init + [last];
      var u := Unique(init);
      if last in u then u else u + [last]
  }
}

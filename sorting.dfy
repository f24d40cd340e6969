/** Sorting a table by a comparison, as `DataFrame.sort_values` does. The
    model sorts by insertion; what it promises is that the result is a
    permutation of the input and is ordered by the comparison whenever
    the comparison is a total preorder. */
module Sorting {

  /** Any two values are comparable one way or the other. */
  ghost predicate Total<T(!new)>(le: (T, T) -> bool) {
    forall x, y :: le(x, y) || le(y, x)
  }

  ghost predicate Transitive<T(!new)>(le: (T, T) -> bool) {
    forall x, y, z :: le(x, y) && le(y, z) ==> le(x, z)
  }

  /** Every earlier element is `le` every later one. */
  predicate SortedBy<T>(s: seq<T>, le: (T, T) -> bool) {
    forall i, j :: 0 <= i < j < |s| ==> le(s[i], s[j])
  }

  /** `x` placed before the first element it is `le`. */
  function Insert<T(==)>(x: T, s: seq<T>, le: (T, T) -> bool): (r: seq<T>)
    ensures multiset(r) == multiset(s) + multiset{x}
  {
    if s == [] || le(x, s[0]) then [x] + s
    else
      assert s == [s[0]] + s[1..];
      [s[0]] + Insert(x, s[1..], le)
  }

  /** `s` ordered by `le`; elements that are equivalent under `le` keep
      their relative order. */
  function SortBy<T(==)>(s: seq<T>, le: (T, T) -> bool): (r: seq<T>)
    ensures multiset(r) == multiset(s)
    ensures |r| == |s|
  {
    if s == [] then []
    else
      assert s == [s[0]] + s[1..];
      Insert(s[0], SortBy(s[1..], le), le)
  }

  lemma InsertMembers<T>(x: T, s: seq<T>, le: (T, T) -> bool)
    ensures forall y :: y in Insert(x, s, le) <==> y == x || y in s
  {
    forall y ensures y in Insert(x, s, le) <==> y == x || y in s {
      assert y in Insert(x, s, le) <==> y in multiset(Insert(x, s, le));
    }
  }

  lemma {:induction false} InsertSorted<T(!new)>(x: T, s: seq<T>, le: (T, T) -> bool)
    requires Total(le) && Transitive(le)
    requires SortedBy(s, le)
    ensures SortedBy(Insert(x, s, le), le)
  {
    if s == [] || le(x, s[0]) {
    } else {
      var tail := Insert(x, s[1..], le);
      InsertSorted(x, s[1..], le);
      assert le(s[0], x);
      InsertMembers(x, s[1..], le);
      forall y | y in tail ensures le(s[0], y) {
        if y != x {
          assert y in s[1..];
        }
      }
      var r := [s[0]] + tail;
      forall i, j | 0 <= i < j < |r| ensures le(r[i], r[j]) {
        if i == 0 {
          assert r[j] == tail[j - 1];
        } else {
          assert r[i] == tail[i - 1] && r[j] == tail[j - 1];
        }
      }
    }
  }

  /** The result of SortBy is ordered by `le` when `le` is a total preorder. */
  lemma {:induction false} SortBySorted<T(!new)>(s: seq<T>, le: (T, T) -> bool)
    requires Total(le) && Transitive(le)
    ensures SortedBy(SortBy(s, le), le)
  {
    if s != [] {
      SortBySorted(s[1..], le);
      InsertSorted(s[0], SortBy(s[1..], le), le);
    }
  }
}

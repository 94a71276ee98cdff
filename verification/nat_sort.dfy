/**
 * Finder's `sort` with a user comparator (lines 216-219 and 253-256 of the
 * helper compare real paths with `strnatcmp`). The comparator is a parameter:
 * `le(a, b)` stands for `strnatcmp(a, b) <= 0`, whose internals are not part
 * of this model.
 */
module NatSort {

  /** `le` relates every pair one way or the other, as `strnatcmp` does. */
  ghost predicate Total<T(!new)>(le: (T, T) -> bool)
  {
    forall a, b :: le(a, b) || le(b, a)
  }

  ghost predicate Transitive<T(!new)>(le: (T, T) -> bool)
  {
    forall a, b, c :: le(a, b) && le(b, c) ==> le(a, c)
  }

  /** Each element is `le` its successor. */
  ghost predicate Sorted<T>(s: seq<T>, le: (T, T) -> bool)
  {
    forall i :: 0 <= i < |s| - 1 ==> le(s[i], s[i + 1])
  }

  /** Every earlier element is `le` every later one. */
  ghost predicate SortedPairwise<T>(s: seq<T>, le: (T, T) -> bool)
  {
    forall i, j :: 0 <= i < j < |s| ==> le(s[i], s[j])
  }

  /** Insert `x` before the first element it is `le`. */
  function Insert<T>(x: T, s: seq<T>, le: (T, T) -> bool): (r: seq<T>)
    ensures multiset(r) == multiset(s) + multiset{x}
    ensures |r| == |s| + 1
    ensures r[0] == x || (s != [] && r[0] == s[0])
  {
    if s == [] then [x]
    else if le(x, s[0]) then [x] + s
    else
      assert s == [s[0]] + s[1..];
      [s[0]] + Insert(x, s[1..], le)
  }

  /** Insertion sort: the files in the order Finder hands them out. */
  function Sort<T>(s: seq<T>, le: (T, T) -> bool): (r: seq<T>)
    ensures multiset(r) == multiset(s)
    ensures |r| == |s|
  {
    if s == [] then []
    else
      assert s == [s[0]] + s[1..];
      Insert(s[0], Sort(s[1..], le), le)
  }

  lemma {:induction false} InsertSorted<T(!new)>(x: T, s: seq<T>, le: (T, T) -> bool)
    requires Total(le)
    requires Sorted(s, le)
    ensures Sorted(Insert(x, s, le), le)
    decreases |s|
  {
    if s != [] && !le(x, s[0]) {
      InsertSorted(x, s[1..], le);
      var tail := Insert(x, s[1..], le);
      assert le(s[0], x);
      assert le(s[0], tail[0]) by {
        if tail[0] != x { assert s[1..] != [] && tail[0] == s[1]; }
      }
    }
  }

  /** The sort's output is ordered by the comparator, whatever the input order. */
  lemma {:induction false} SortSorted<T(!new)>(s: seq<T>, le: (T, T) -> bool)
    requires Total(le)
    ensures Sorted(Sort(s, le), le)
    decreases |s|
  {
    if s != [] {
      SortSorted(s[1..], le);
      InsertSorted(s[0], Sort(s[1..], le), le);
    }
  }

  /** With a transitive comparator, neighbour order is order between any two. */
  lemma {:induction false} SortedIsPairwise<T(!new)>(s: seq<T>, le: (T, T) -> bool)
    requires Transitive(le)
    requires Sorted(s, le)
    ensures SortedPairwise(s, le)
    decreases |s|
  {
    if |s| > 1 {
      SortedIsPairwise(s[1..], le);
      forall j | 1 <= j < |s|
        ensures le(s[0], s[j])
      {
        if j > 1 { assert le(s[1..][0], s[1..][j - 1]); }
      }
    }
  }
}

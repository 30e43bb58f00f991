/** `ORDER BY`: an insertion sort on a lexicographic integer rank.
    SQL leaves the order of tied rows unspecified, so the contracts promise sortedness and a
    permutation of the input, not a particular order among ties. */
module Sorting {

  /** A sort key compared lexicographically: first `major`, then `minor`, both ascending.
      A descending column is ranked by its negation. */
  datatype Rank = Rank(major: int, minor: int)

  predicate RankLe(a: Rank, b: Rank) {
    a.major < b.major || (a.major == b.major && a.minor <= b.minor)
  }

  ghost predicate SortedBy<T>(s: seq<T>, rank: T -> Rank) {
    forall i, j :: 0 <= i < j < |s| ==> RankLe(rank(s[i]), rank(s[j]))
  }

  /** An element that ranks no higher than every element of a sorted sequence can lead it. */
  lemma SortedCons<T>(x: T, s: seq<T>, rank: T -> Rank)
    requires SortedBy(s, rank)
    requires forall k :: 0 <= k < |s| ==> RankLe(rank(x), rank(s[k]))
    ensures SortedBy([x] + s, rank)
  {
    var r := [x] + s;
    forall i, j | 0 <= i < j < |r| ensures RankLe(rank(r[i]), rank(r[j])) {
      assert r[j] == s[j - 1];
      if i > 0 { assert r[i] == s[i - 1]; }
    }
  }

  /** The head of a sorted sequence ranks no higher than anything made of its tail and an
      element ranking above it. */
  lemma LeadsPermutation<T>(h: T, tail: seq<T>, x: T, rest: seq<T>, rank: T -> Rank)
    requires SortedBy([h] + tail, rank)
    requires RankLe(rank(h), rank(x))
    requires multiset(rest) == multiset(tail) + multiset{x}
    ensures forall k :: 0 <= k < |rest| ==> RankLe(rank(h), rank(rest[k]))
  {
    forall k | 0 <= k < |rest| ensures RankLe(rank(h), rank(rest[k])) {
      assert rest[k] in multiset(rest);
      if rest[k] != x {
        assert rest[k] in multiset(tail);
        var m :| 0 <= m < |tail| && tail[m] == rest[k];
        var s := [h] + tail;
        assert s[0] == h && s[m + 1] == tail[m];
        assert RankLe(rank(s[0]), rank(s[m + 1]));
      }
    }
  }

  /** Inserts `x` into the sorted `s` before the first element it does not rank after. */
  function InsertByRank<T>(x: T, s: seq<T>, rank: T -> Rank): (r: seq<T>)
    requires SortedBy(s, rank)
    ensures SortedBy(r, rank)
    ensures multiset(r) == multiset(s) + multiset{x}
    decreases |s|
  {
    if |s| == 0 then [x]
    else
      assert s == [s[0]] + s[1..];
      if RankLe(rank(x), rank(s[0])) then
        SortedCons(x, s, rank);
        [x] + s
      else
        var rest := InsertByRank(x, s[1..], rank);
        LeadsPermutation(s[0], s[1..], x, rest, rank);
        SortedCons(s[0], rest, rank);
        [s[0]] + rest
  }

  /** The elements of `s` reordered so that ranks never decrease. */
  function SortByRank<T>(s: seq<T>, rank: T -> Rank): (r: seq<T>)
    ensures SortedBy(r, rank)
    ensures multiset(r) == multiset(s)
    decreases |s|
  {
    if |s| == 0 then []
    else
      assert s == [s[0]] + s[1..];
      InsertByRank(s[0], SortByRank(s[1..], rank), rank)
  }
}

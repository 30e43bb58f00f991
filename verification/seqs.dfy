/** Sequence helpers shared by the store and the reports: filtering, counting, summing. */
module Seqs {

  /** `a` can be obtained from `b` by deleting elements (order kept). */
  ghost predicate IsSubseq<T>(a: seq<T>, b: seq<T>)
    decreases |b|
  {
    |a| == 0 || (|b| > 0 && ((a[0] == b[0] && IsSubseq(a[1..], b[1..])) || IsSubseq(a, b[1..])))
  }

  /** Applies `f` to every element: a SQL projection. */
  function Map<A, B>(s: seq<A>, f: A -> B): (r: seq<B>)
    ensures |r| == |s|
    ensures forall i :: 0 <= i < |s| ==> r[i] == f(s[i])
  {
    seq(|s|, i requires 0 <= i < |s| => f(s[i]))
  }

  /** Number of occurrences of `x` in `s`. */
  function Count<T(==)>(s: seq<T>, x: T): (n: nat)
    ensures n <= |s|
    ensures n > 0 <==> x in s
    decreases |s|
  {
    if |s| == 0 then 0 else (if s[0] == x then 1 else 0) + Count(s[1..], x)
  }

  /** Sum of `f` over the elements of `s`. */
  function SumBy<T>(s: seq<T>, f: T -> int): int
    decreases |s|
  {
    if |s| == 0 then 0 else f(s[0]) + SumBy(s[1..], f)
  }

  /** No element occurs twice. */
  ghost predicate NoDup<T>(s: seq<T>) {
    forall i, j :: 0 <= i < j < |s| ==> s[i] != s[j]
  }

  lemma {:induction false} CountConcat<T>(a: seq<T>, b: seq<T>, x: T)
    ensures Count(a + b, x) == Count(a, x) + Count(b, x)
    decreases |a|
  {
    if |a| == 0 {
      assert a + b == b;
    } else {
      assert (a + b)[1..] == a[1..] + b;
      CountConcat(a[1..], b, x);
    }
  }

  lemma {:induction false} SumByConcat<T>(a: seq<T>, b: seq<T>, f: T -> int)
    ensures SumBy(a + b, f) == SumBy(a, f) + SumBy(b, f)
    decreases |a|
  {
    if |a| == 0 {
      assert a + b == b;
    } else {
      assert (a + b)[1..] == a[1..] + b;
      SumByConcat(a[1..], b, f);
    }
  }

  /** Taking out the element at `i` takes exactly that element out of the multiset. */
  lemma RemoveAtMultiset<T>(b: seq<T>, i: nat)
    requires i < |b|
    ensures multiset(b[..i] + b[i + 1..]) == multiset(b) - multiset{b[i]}
  {
    var front, back := b[..i], b[i + 1..];
    assert b == front + ([b[i]] + back);
    assert multiset(b) == multiset(front) + (multiset{b[i]} + multiset(back));
  }

  /** Taking out the element at `i` takes exactly its value out of the sum. */
  lemma RemoveAtSum<T>(b: seq<T>, i: nat, f: T -> int)
    requires i < |b|
    ensures SumBy(b, f) == f(b[i]) + SumBy(b[..i] + b[i + 1..], f)
  {
    var front, mid := b[..i], b[i..];
    assert b == front + mid;
    assert mid[0] == b[i] && mid[1..] == b[i + 1..];
    SumByConcat(front, mid, f);
    SumByConcat(front, b[i + 1..], f);
  }

  /** Reordering a sequence does not change a sum over it. */
  lemma {:induction false} SumByPermutation<T>(a: seq<T>, b: seq<T>, f: T -> int)
    requires multiset(a) == multiset(b)
    ensures SumBy(a, f) == SumBy(b, f)
    decreases |a|
  {
    if |a| == 0 {
      assert |multiset(b)| == 0;
    } else {
      var x := a[0];
      assert x in multiset(b);
      var i :| 0 <= i < |b| && b[i] == x;
      RemoveAtMultiset(b, i);
      RemoveAtSum(b, i, f);
      assert a == [x] + a[1..];
      assert multiset(a[1..]) == multiset(a) - multiset{x};
      SumByPermutation(a[1..], b[..i] + b[i + 1..], f);
    }
  }

  lemma MapAppend<A, B>(s: seq<A>, x: A, f: A -> B)
    ensures Map(s + [x], f) == Map(s, f) + [f(x)]
  {
    assert forall i :: 0 <= i < |s| ==> (s + [x])[i] == s[i];
  }

  /** In a sequence without duplicates every element occurs at most once in its multiset. */
  lemma {:induction false} NoDupMultiplicity<T>(s: seq<T>, x: T)
    requires NoDup(s)
    ensures multiset(s)[x] <= 1
    decreases |s|
  {
    if |s| > 0 {
      assert s == [s[0]] + s[1..];
      assert NoDup(s[1..]) by {
        forall i, j | 0 <= i < j < |s[1..]| ensures s[1..][i] != s[1..][j] {
          assert s[1..][i] == s[i + 1] && s[1..][j] == s[j + 1];
        }
      }
      NoDupMultiplicity(s[1..], x);
      if x == s[0] {
        assert x !in s[1..] by {
          forall j | 0 <= j < |s[1..]| ensures s[1..][j] != x {
            assert s[1..][j] == s[j + 1];
          }
        }
      }
    }
  }

  /** A permutation of a sequence without duplicates has none either. */
  lemma NoDupPermutation<T>(a: seq<T>, b: seq<T>)
    requires multiset(a) == multiset(b)
    requires NoDup(a)
    ensures NoDup(b)
  {
    forall i, j | 0 <= i < j < |b| ensures b[i] != b[j] {
      if b[i] == b[j] {
        var x := b[i];
        assert b == b[..j] + b[j..];
        assert x in b[..j] && x in b[j..];
        assert multiset(b)[x] == multiset(b[..j])[x] + multiset(b[j..])[x];
        NoDupMultiplicity(a, x);
        assert false;
      }
    }
  }

  /** Every element of a subsequence is an element of the sequence. */
  lemma {:induction false} SubseqMember<T>(a: seq<T>, b: seq<T>, i: nat)
    requires IsSubseq(a, b)
    requires i < |a|
    ensures exists m :: 0 <= m < |b| && b[m] == a[i]
    decreases |b|
  {
    if a[0] == b[0] && IsSubseq(a[1..], b[1..]) {
      if i == 0 {
        assert b[0] == a[0];
      } else {
        SubseqMember(a[1..], b[1..], i - 1);
        var m :| 0 <= m < |b[1..]| && b[1..][m] == a[1..][i - 1];
        assert b[m + 1] == a[i];
      }
    } else {
      SubseqMember(a, b[1..], i);
      var m :| 0 <= m < |b[1..]| && b[1..][m] == a[i];
      assert b[m + 1] == a[i];
    }
  }

  /** `n` copies of `x`. */
  function Repeat<T>(x: T, n: nat): (r: seq<T>)
    ensures |r| == n
    ensures forall i :: 0 <= i < n ==> r[i] == x
  {
    seq(n, _ => x)
  }

  lemma {:induction false} CountRepeat<T>(x: T, n: nat, k: T)
    ensures Count(Repeat(x, n), k) == if x == k then n else 0
    decreases n
  {
    if n > 0 {
      assert Repeat(x, n)[1..] == Repeat(x, n - 1);
      CountRepeat(x, n - 1, k);
    }
  }

  lemma MapTail<A, B>(s: seq<A>, f: A -> B)
    requires |s| > 0
    ensures Map(s, f)[1..] == Map(s[1..], f)
    ensures Map(s, f)[0] == f(s[0])
  {
  }

  /** In a sequence without duplicates an element that occurs, occurs once. */
  lemma {:induction false} CountNoDup<T>(s: seq<T>, x: T)
    requires NoDup(s)
    requires x in s
    ensures Count(s, x) == 1
    decreases |s|
  {
    assert NoDup(s[1..]) by {
      forall i, j | 0 <= i < j < |s[1..]| ensures s[1..][i] != s[1..][j] {
        assert s[1..][i] == s[i + 1] && s[1..][j] == s[j + 1];
      }
    }
    if s[0] == x {
      assert x !in s[1..] by {
        forall j | 0 <= j < |s[1..]| ensures s[1..][j] != x {
          assert s[1..][j] == s[j + 1];
        }
      }
    } else {
      var i :| 0 <= i < |s| && s[i] == x;
      assert s[1..][i - 1] == x;
      CountNoDup(s[1..], x);
    }
  }

  lemma Distribute(a: int, b: int, m: int)
    ensures (a + b) * m == a * m + b * m
  {
  }

  /** A reordering of `Map(s, f)` holds exactly the images of the elements of `s`. */
  lemma MapPermutationMembers<A, B>(s: seq<A>, f: A -> B, r: seq<B>)
    requires multiset(r) == multiset(Map(s, f))
    ensures forall i :: 0 <= i < |r| ==> exists p :: 0 <= p < |s| && r[i] == f(s[p])
    ensures forall p :: 0 <= p < |s| ==> f(s[p]) in r
  {
    var m := Map(s, f);
    forall i | 0 <= i < |r| ensures exists p :: 0 <= p < |s| && r[i] == f(s[p]) {
      assert r[i] in multiset(m);
      var p :| 0 <= p < |m| && m[p] == r[i];
    }
    forall p | 0 <= p < |s| ensures f(s[p]) in r {
      assert m[p] in multiset(m);
      assert f(s[p]) in multiset(r);
    }
  }
}

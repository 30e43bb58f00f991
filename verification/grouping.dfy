/** `GROUP BY … ORDER BY <aggregate> DESC`: the aggregation shared by the dashboard's reports.
    A report first lists the rows of its join as weighted entries, one entry per joined row;
    `GroupSum` folds them into one group per key (the sum of the weights) and `GroupCount`
    is the special case in which every joined row weighs one (`COUNT(*)`). */
module Grouping {
  import opened Seqs
  import opened Sorting

  /** One joined row, filed under `key`, contributing `weight` to its group's aggregate. */
  datatype Entry<K> = Entry(key: K, weight: int)

  /** One output row of a grouped query: the group's key and its aggregate. */
  datatype Group<K> = Group(key: K, total: int)

  /** Sum of the weights of the entries filed under `k`. */
  function WeightOf<K(==)>(es: seq<Entry<K>>, k: K): int
    decreases |es|
  {
    if |es| == 0 then 0 else (if es[0].key == k then es[0].weight else 0) + WeightOf(es[1..], k)
  }

  /** Sum of all weights. */
  function TotalWeight<K>(es: seq<Entry<K>>): int
    decreases |es|
  {
    if |es| == 0 then 0 else es[0].weight + TotalWeight(es[1..])
  }

  function GroupTotal<K>(g: Group<K>): int { g.total }

  /** Sum of the aggregates of all groups. */
  function SumTotals<K>(gs: seq<Group<K>>): int {
    SumBy(gs, GroupTotal)
  }

  /** The aggregate of the first group keyed `k`, or 0 when there is none. */
  function TotalOf<K(==)>(gs: seq<Group<K>>, k: K): int
    decreases |gs|
  {
    if |gs| == 0 then 0 else if gs[0].key == k then gs[0].total else TotalOf(gs[1..], k)
  }

  ghost predicate DistinctKeys<K>(gs: seq<Group<K>>) {
    forall i, j :: 0 <= i < j < |gs| ==> gs[i].key != gs[j].key
  }

  ghost function KeySet<K>(gs: seq<Group<K>>): set<K> {
    set i | 0 <= i < |gs| :: gs[i].key
  }

  ghost function EntryKeys<K>(es: seq<Entry<K>>): set<K> {
    set i | 0 <= i < |es| :: es[i].key
  }

  ghost function Elements<K>(s: seq<K>): set<K> {
    set i | 0 <= i < |s| :: s[i]
  }

  lemma KeySetCons<K>(g: Group<K>, gs: seq<Group<K>>)
    ensures KeySet([g] + gs) == {g.key} + KeySet(gs)
  {
    var r := [g] + gs;
    forall k | k in KeySet(r) ensures k in {g.key} + KeySet(gs) {
      var i :| 0 <= i < |r| && r[i].key == k;
      if i > 0 { assert r[i] == gs[i - 1]; }
    }
    forall k | k in KeySet(gs) ensures k in KeySet(r) {
      var i :| 0 <= i < |gs| && gs[i].key == k;
      assert r[i + 1] == gs[i];
    }
    assert r[0] == g;
  }

  lemma DistinctCons<K>(g: Group<K>, gs: seq<Group<K>>)
    ensures DistinctKeys([g] + gs) <==> g.key !in KeySet(gs) && DistinctKeys(gs)
  {
    var r := [g] + gs;
    assert forall i :: 0 <= i < |gs| ==> r[i + 1] == gs[i];
    if DistinctKeys(r) {
      forall k | k in KeySet(gs) ensures k != g.key {
        var i :| 0 <= i < |gs| && gs[i].key == k;
        assert r[0].key != r[i + 1].key;
      }
    }
    if g.key !in KeySet(gs) && DistinctKeys(gs) {
      forall i, j | 0 <= i < j < |r| ensures r[i].key != r[j].key {
        if i == 0 {
          assert gs[j - 1].key in KeySet(gs);
        }
      }
    }
  }

  lemma SumTotalsCons<K>(g: Group<K>, gs: seq<Group<K>>)
    ensures SumTotals([g] + gs) == g.total + SumTotals(gs)
  {
    assert ([g] + gs)[1..] == gs;
  }

  /** Files one more entry: adds its weight to the group of its key, opening the group if needed. */
  function Add<K(==)>(gs: seq<Group<K>>, e: Entry<K>): (r: seq<Group<K>>)
    ensures DistinctKeys(gs) ==> DistinctKeys(r)
    ensures KeySet(r) == KeySet(gs) + {e.key}
    ensures SumTotals(r) == SumTotals(gs) + e.weight
    decreases |gs|
  {
    if |gs| == 0 then
      var g := Group(e.key, e.weight);
      assert [g] + [] == [g];
      KeySetCons(g, []);
      DistinctCons(g, []);
      SumTotalsCons(g, []);
      [g]
    else
      assert gs == [gs[0]] + gs[1..];
      KeySetCons(gs[0], gs[1..]);
      DistinctCons(gs[0], gs[1..]);
      SumTotalsCons(gs[0], gs[1..]);
      if gs[0].key == e.key then
        var g := Group(e.key, gs[0].total + e.weight);
        KeySetCons(g, gs[1..]);
        DistinctCons(g, gs[1..]);
        SumTotalsCons(g, gs[1..]);
        [g] + gs[1..]
      else
        var rest := Add(gs[1..], e);
        KeySetCons(gs[0], rest);
        DistinctCons(gs[0], rest);
        SumTotalsCons(gs[0], rest);
        [gs[0]] + rest
  }

  lemma {:induction false} AddTotal<K>(gs: seq<Group<K>>, e: Entry<K>, k: K)
    ensures TotalOf(Add(gs, e), k) == TotalOf(gs, k) + (if k == e.key then e.weight else 0)
    decreases |gs|
  {
    if |gs| > 0 && gs[0].key != e.key {
      var r := Add(gs, e);
      assert r[1..] == Add(gs[1..], e);
      AddTotal(gs[1..], e, k);
    }
  }

  /** Folds the entries into groups, one per distinct key, in no particular order. */
  function Tally<K(==)>(es: seq<Entry<K>>): (r: seq<Group<K>>)
    ensures DistinctKeys(r)
    ensures KeySet(r) == EntryKeys(es)
    ensures SumTotals(r) == TotalWeight(es)
    decreases |es|
  {
    if |es| == 0 then []
    else
      var r := Add(Tally(es[1..]), es[0]);
      assert EntryKeys(es) == {es[0].key} + EntryKeys(es[1..]) by {
        forall k | k in EntryKeys(es) ensures k in {es[0].key} + EntryKeys(es[1..]) {
          var i :| 0 <= i < |es| && es[i].key == k;
          if i > 0 { assert es[1..][i - 1] == es[i]; }
        }
        forall k | k in EntryKeys(es[1..]) ensures k in EntryKeys(es) {
          var i :| 0 <= i < |es[1..]| && es[1..][i].key == k;
          assert es[i + 1] == es[1..][i];
        }
      }
      r
  }

  lemma {:induction false} TallyTotal<K>(es: seq<Entry<K>>, k: K)
    ensures TotalOf(Tally(es), k) == WeightOf(es, k)
    decreases |es|
  {
    if |es| > 0 {
      TallyTotal(es[1..], k);
      AddTotal(Tally(es[1..]), es[0], k);
    }
  }

  /** With distinct keys, a group's aggregate is the one `TotalOf` finds for its key. */
  lemma {:induction false} TotalOfMember<K>(gs: seq<Group<K>>, i: nat)
    requires DistinctKeys(gs)
    requires i < |gs|
    ensures TotalOf(gs, gs[i].key) == gs[i].total
    decreases i
  {
    if i > 0 {
      assert gs[0].key != gs[i].key;
      assert gs[1..][i - 1] == gs[i];
      assert DistinctKeys(gs[1..]) by {
        forall a, b | 0 <= a < b < |gs[1..]| ensures gs[1..][a].key != gs[1..][b].key {
          assert gs[1..][a] == gs[a + 1] && gs[1..][b] == gs[b + 1];
        }
      }
      TotalOfMember(gs[1..], i - 1);
    }
  }

  /** Every group of a reordering of `a` is a group of `a`. */
  lemma PermutedMembers<K>(a: seq<Group<K>>, b: seq<Group<K>>)
    requires multiset(a) == multiset(b)
    ensures forall i :: 0 <= i < |b| ==> b[i] in a
  {
    forall i | 0 <= i < |b| ensures b[i] in a {
      assert b[i] in multiset(a);
    }
  }

  /** Groups drawn from a list with distinct keys, without repeating any, have distinct keys. */
  lemma DistinctKeysOfMembers<K>(a: seq<Group<K>>, b: seq<Group<K>>)
    requires DistinctKeys(a)
    requires NoDup(b)
    requires forall i :: 0 <= i < |b| ==> b[i] in a
    ensures DistinctKeys(b)
  {
    forall i, j | 0 <= i < j < |b| ensures b[i].key != b[j].key {
      assert b[i] in a && b[j] in a;
      var p :| 0 <= p < |a| && a[p] == b[i];
      var q :| 0 <= q < |a| && a[q] == b[j];
      assert p != q;
    }
  }

  /** Every key of `b` is a key of `a` when every group of `b` is one of `a`. */
  lemma KeySetOfMembers<K>(a: seq<Group<K>>, b: seq<Group<K>>)
    requires forall i :: 0 <= i < |b| ==> b[i] in a
    ensures KeySet(b) <= KeySet(a)
  {
    forall k | k in KeySet(b) ensures k in KeySet(a) {
      var i :| 0 <= i < |b| && b[i].key == k;
      assert b[i] in a;
      var p :| 0 <= p < |a| && a[p] == b[i];
    }
  }

  lemma GroupsPermutation<K>(a: seq<Group<K>>, b: seq<Group<K>>)
    requires multiset(a) == multiset(b)
    requires DistinctKeys(a)
    ensures DistinctKeys(b)
    ensures KeySet(b) == KeySet(a)
    ensures SumTotals(b) == SumTotals(a)
    ensures forall i :: 0 <= i < |b| ==> b[i] in a
  {
    PermutedMembers(a, b);
    PermutedMembers(b, a);
    assert NoDup(a) by {
      forall i, j | 0 <= i < j < |a| ensures a[i] != a[j] {
        assert a[i].key != a[j].key;
      }
    }
    NoDupPermutation(a, b);
    DistinctKeysOfMembers(a, b);
    KeySetOfMembers(a, b);
    KeySetOfMembers(b, a);
    SumByPermutation(a, b, GroupTotal);
  }

  /** What a `SUM(weight) … GROUP BY key ORDER BY SUM DESC` result promises: one group per
      distinct key of the joined rows, each holding the sum of its rows' weights, the sums adding
      up to the total weight, listed with non-increasing sums. */
  ghost predicate IsSumOf<K>(r: seq<Group<K>>, es: seq<Entry<K>>) {
    && DistinctKeys(r)
    && KeySet(r) == EntryKeys(es)
    && (forall i :: 0 <= i < |r| ==> r[i].total == WeightOf(es, r[i].key))
    && SumTotals(r) == TotalWeight(es)
    && (forall i, j :: 0 <= i < j < |r| ==> r[i].total >= r[j].total)
  }

  /** What a `COUNT(*) … GROUP BY key ORDER BY COUNT DESC` result promises: every distinct key
      once, with the number of rows carrying it (so at least one), the counts adding up to the
      number of rows, listed with non-increasing counts. */
  ghost predicate IsCountOf<K>(r: seq<Group<K>>, keys: seq<K>) {
    && DistinctKeys(r)
    && KeySet(r) == Elements(keys)
    && (forall i :: 0 <= i < |r| ==> r[i].total == Count(keys, r[i].key) && r[i].total > 0)
    && SumTotals(r) == |keys|
    && (forall i, j :: 0 <= i < j < |r| ==> r[i].total >= r[j].total)
  }

  /** Any reordering of the tally of `es` is a grouping of `es`. */
  lemma PermutedTally<K>(es: seq<Entry<K>>, r: seq<Group<K>>)
    requires multiset(r) == multiset(Tally(es))
    ensures DistinctKeys(r)
    ensures KeySet(r) == EntryKeys(es)
    ensures SumTotals(r) == TotalWeight(es)
    ensures forall i :: 0 <= i < |r| ==> r[i].total == WeightOf(es, r[i].key)
  {
    var groups := Tally(es);
    GroupsPermutation(groups, r);
    forall i | 0 <= i < |r| ensures r[i].total == WeightOf(es, r[i].key) {
      var p :| 0 <= p < |groups| && groups[p] == r[i];
      TotalOfMember(groups, p);
      TallyTotal(es, r[i].key);
    }
  }

  /** `GROUP BY key`, aggregate `SUM(weight)`, `ORDER BY aggregate DESC, tie(key)`. */
  function GroupSum<K(==)>(es: seq<Entry<K>>, tie: K -> int): (r: seq<Group<K>>)
    ensures IsSumOf(r, es)
    ensures forall i, j :: 0 <= i < j < |r| ==>
              r[i].total > r[j].total || (r[i].total == r[j].total && tie(r[i].key) <= tie(r[j].key))
  {
    var r := SortByRank(Tally(es), (g: Group<K>) => Rank(-g.total, tie(g.key)));
    PermutedTally(es, r);
    r
  }

  /** One entry of weight one per key: the rows of a `COUNT(*)`. */
  function Ones<K>(keys: seq<K>): (es: seq<Entry<K>>)
    ensures |es| == |keys|
    decreases |keys|
  {
    if |keys| == 0 then [] else [Entry(keys[0], 1)] + Ones(keys[1..])
  }

  lemma {:induction false} OnesWeight<K>(keys: seq<K>, k: K)
    ensures WeightOf(Ones(keys), k) == Count(keys, k)
    decreases |keys|
  {
    if |keys| > 0 {
      assert Ones(keys)[1..] == Ones(keys[1..]);
      OnesWeight(keys[1..], k);
    }
  }

  lemma {:induction false} OnesShape<K>(keys: seq<K>)
    ensures TotalWeight(Ones(keys)) == |keys|
    ensures EntryKeys(Ones(keys)) == Elements(keys)
    decreases |keys|
  {
    if |keys| > 0 {
      OnesShape(keys[1..]);
      var es := Ones(keys);
      assert es[1..] == Ones(keys[1..]);
      forall x | x in EntryKeys(es) ensures x in Elements(keys) {
        var i :| 0 <= i < |es| && es[i].key == x;
        if i > 0 {
          assert es[i] == es[1..][i - 1];
          assert x in EntryKeys(es[1..]);
          var j :| 0 <= j < |keys[1..]| && keys[1..][j] == x;
          assert keys[j + 1] == x;
        }
      }
      forall x | x in Elements(keys) ensures x in EntryKeys(es) {
        var i :| 0 <= i < |keys| && keys[i] == x;
        if i == 0 {
          assert es[0].key == x;
        } else {
          assert keys[1..][i - 1] == x;
          assert x in Elements(keys[1..]);
          var j :| 0 <= j < |es[1..]| && es[1..][j].key == x;
          assert es[j + 1].key == x;
        }
      }
    }
  }

  /** `GROUP BY key`, `COUNT(*)`, `ORDER BY count DESC`: every distinct key once, with the
      number of its occurrences; the counts are positive and add up to the number of rows. */
  function GroupCount<K(==)>(keys: seq<K>): (r: seq<Group<K>>)
    ensures IsCountOf(r, keys)
  {
    var es := Ones(keys);
    OnesShape(keys);
    var r := GroupSum(es, _ => 0);
    assert forall i :: 0 <= i < |r| ==> r[i].total == Count(keys, r[i].key) && r[i].total > 0 by {
      forall i | 0 <= i < |r| ensures r[i].total == Count(keys, r[i].key) && r[i].total > 0 {
        OnesWeight(keys, r[i].key);
        assert r[i].key in KeySet(r);
        var j :| 0 <= j < |keys| && keys[j] == r[i].key;
        assert keys[j] in keys;
      }
    }
    r
  }

  lemma {:induction false} WeightOfConcat<K>(a: seq<Entry<K>>, b: seq<Entry<K>>, k: K)
    ensures WeightOf(a + b, k) == WeightOf(a, k) + WeightOf(b, k)
    decreases |a|
  {
    if |a| == 0 {
      assert a + b == b;
    } else {
      assert (a + b)[1..] == a[1..] + b;
      WeightOfConcat(a[1..], b, k);
    }
  }

  lemma EntryKeysConcat<K>(a: seq<Entry<K>>, b: seq<Entry<K>>)
    ensures EntryKeys(a + b) == EntryKeys(a) + EntryKeys(b)
  {
    var ab := a + b;
    forall k | k in EntryKeys(ab) ensures k in EntryKeys(a) + EntryKeys(b) {
      var i :| 0 <= i < |ab| && ab[i].key == k;
      if i >= |a| {
        assert b[i - |a|] == ab[i];
      }
    }
    forall k | k in EntryKeys(a) + EntryKeys(b) ensures k in EntryKeys(ab) {
      if k in EntryKeys(a) {
        var i :| 0 <= i < |a| && a[i].key == k;
        assert ab[i] == a[i];
      } else {
        var i :| 0 <= i < |b| && b[i].key == k;
        assert ab[|a| + i] == b[i];
      }
    }
  }

  /** Entries filed under other keys do not count towards `k`. */
  lemma {:induction false} WeightOfAbsent<K>(es: seq<Entry<K>>, k: K)
    requires k !in EntryKeys(es)
    ensures WeightOf(es, k) == 0
    decreases |es|
  {
    if |es| > 0 {
      assert es[0].key != k;
      assert k !in EntryKeys(es[1..]) by {
        forall i | 0 <= i < |es[1..]| ensures es[1..][i].key != k {
          assert es[1..][i] == es[i + 1];
        }
      }
      WeightOfAbsent(es[1..], k);
    }
  }

  /** A key with no group reads as 0. */
  lemma {:induction false} TotalOfAbsent<K>(gs: seq<Group<K>>, k: K)
    requires k !in KeySet(gs)
    ensures TotalOf(gs, k) == 0
    decreases |gs|
  {
    if |gs| > 0 {
      assert gs[0].key != k;
      assert k !in KeySet(gs[1..]) by {
        forall i | 0 <= i < |gs[1..]| ensures gs[1..][i].key != k {
          assert gs[1..][i] == gs[i + 1];
        }
      }
      TotalOfAbsent(gs[1..], k);
    }
  }

  /** Reading one cell of a `SUM` report: the group of `k` holds the weight filed under `k`. */
  lemma SumTotalOf<K>(r: seq<Group<K>>, es: seq<Entry<K>>, k: K)
    requires IsSumOf(r, es)
    ensures TotalOf(r, k) == WeightOf(es, k)
  {
    if k in KeySet(r) {
      var i :| 0 <= i < |r| && r[i].key == k;
      TotalOfMember(r, i);
    } else {
      TotalOfAbsent(r, k);
      WeightOfAbsent(es, k);
    }
  }

  /** Reading one cell of a `COUNT(*)` report: the group of `k` holds the number of rows
      carrying `k`, and `k` has a group exactly when that number is positive. */
  lemma CountTotalOf<K>(r: seq<Group<K>>, keys: seq<K>, k: K)
    requires IsCountOf(r, keys)
    ensures TotalOf(r, k) == Count(keys, k)
    ensures k in KeySet(r) <==> Count(keys, k) > 0
  {
    if k in KeySet(r) {
      var i :| 0 <= i < |r| && r[i].key == k;
      TotalOfMember(r, i);
    } else {
      TotalOfAbsent(r, k);
      assert k !in keys by {
        forall j | 0 <= j < |keys| ensures keys[j] != k {
          assert keys[j] in Elements(keys);
        }
      }
    }
  }

  lemma {:induction false} WeightOfRepeat<K>(e: Entry<K>, n: nat, k: K)
    ensures WeightOf(Repeat(e, n), k) == if e.key == k then n * e.weight else 0
    ensures n > 0 ==> EntryKeys(Repeat(e, n)) == {e.key}
    decreases n
  {
    if n > 0 {
      assert Repeat(e, n)[1..] == Repeat(e, n - 1);
      WeightOfRepeat(e, n - 1, k);
      assert Repeat(e, n)[0] == e;
    }
  }
}

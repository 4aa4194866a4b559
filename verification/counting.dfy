/**
 Frequency counting over columns of strings: pandas' `value_counts()` (a map
 from each value present to how often it occurs) and `reindex(labels,
 fill_value=0)` (the counts read off in a fixed label order, zero for a label
 that does not occur).
 */
module Counting {

  /** Number of entries of `xs` equal to `x`. */
  function Count<T(==)>(xs: seq<T>, x: T): (n: nat)
    ensures n <= |xs|
    ensures n == 0 <==> x !in xs
  {
    if |xs| == 0 then 0
    else (if xs[0] == x then 1 else 0) + Count(xs[1..], x)
  }

  lemma {:induction false} CountAppend<T>(a: seq<T>, b: seq<T>, x: T)
    ensures Count(a + b, x) == Count(a, x) + Count(b, x)
  {
    if |a| == 0 {
      assert a + b == b;
    } else {
      assert (a + b)[1..] == a[1..] + b;
      CountAppend(a[1..], b, x);
    }
  }

  /** Number of entries of `xs` that lie in `s`. */
  function CountIn(xs: seq<string>, s: set<string>): (n: nat)
    ensures n <= |xs|
    ensures n == |xs| <==> forall x <- xs :: x in s
  {
    if |xs| == 0 then 0
    else
      var n := (if xs[0] in s then 1 else 0) + CountIn(xs[1..], s);
      assert forall x <- xs :: x == xs[0] || x in xs[1..];
      n
  }

  /** Splitting one value off the set being counted. */
  lemma {:induction false} CountInSplit(xs: seq<string>, s: set<string>, a: string)
    requires a in s
    ensures CountIn(xs, s) == Count(xs, a) + CountIn(xs, s - {a})
  {
    if |xs| > 0 {
      CountInSplit(xs[1..], s, a);
    }
  }

  predicate Distinct(keys: seq<string>) {
    forall i, j :: 0 <= i < j < |keys| ==> keys[i] != keys[j]
  }

  function Sum(ns: seq<nat>): nat {
    if |ns| == 0 then 0 else ns[0] + Sum(ns[1..])
  }

  /** The counts of `keys` in `xs`, added up. */
  function SumCounts(keys: seq<string>, xs: seq<string>): nat {
    if |keys| == 0 then 0 else Count(xs, keys[0]) + SumCounts(keys[1..], xs)
  }

  /** Adding up the counts of distinct keys counts each entry of `xs` that is
      one of the keys exactly once. */
  lemma {:induction false} SumCountsIsCountIn(keys: seq<string>, xs: seq<string>)
    requires Distinct(keys)
    ensures SumCounts(keys, xs) == CountIn(xs, set k | k in keys)
  {
    var s := set k | k in keys;
    if |keys| == 0 {
      CountInNone(xs, s);
    } else {
      var rest := keys[1..];
      assert (set k | k in rest) == s - {keys[0]} by {
        forall k | k in s - {keys[0]} ensures k in rest {
          var i :| 0 <= i < |keys| && keys[i] == k;
          assert rest[i - 1] == k;
        }
      }
      SumCountsIsCountIn(rest, xs);
      CountInSplit(xs, s, keys[0]);
    }
  }

  lemma {:induction false} CountInNone(xs: seq<string>, s: set<string>)
    requires s == {}
    ensures CountIn(xs, s) == 0
  {
    if |xs| > 0 {
      CountInNone(xs[1..], s);
    }
  }

  /** `pd.Series(xs).value_counts()`: each value present, with its count. */
  function ValueCounts(xs: seq<string>): (m: map<string, nat>)
    ensures forall x :: x in m <==> x in xs
    ensures forall x <- m.Keys :: m[x] >= 1
  {
    map x | x in xs :: Count(xs, x)
  }

  /** The count a map reports for `x`: zero when `x` is not a key, as a bar
      chart shows no bar. */
  function Total(m: map<string, nat>, x: string): nat {
    if x in m then m[x] else 0
  }

  /** Reading any value off the value counts gives its count in the column,
      zero included. */
  lemma TotalValueCounts(xs: seq<string>, x: string)
    ensures Total(ValueCounts(xs), x) == Count(xs, x)
  {
  }

  /** One more entry adds one to the count of that value and none to others. */
  lemma CountSnoc(ys: seq<string>, x: string, y: string)
    ensures Count(ys + [x], y) == Count(ys, y) + (if y == x then 1 else 0)
  {
    CountAppend(ys, [x], y);
    assert [x][1..] == [];
  }

  /** One more entry changes the count of that value only. */
  lemma ValueCountsSnoc(ys: seq<string>, x: string)
    ensures ValueCounts(ys + [x]) == ValueCounts(ys)[x := Count(ys, x) + 1]
  {
    var l := ValueCounts(ys + [x]);
    var r := ValueCounts(ys)[x := Count(ys, x) + 1];
    forall y | y in l ensures y in r && l[y] == r[y] {
      CountSnoc(ys, x, y);
    }
    forall y | y in r ensures y in l {
      assert y in ys + [x] by { if y != x { assert y in ys; } }
    }
  }

  /** A single pass over the column, as `value_counts()` does it, builds the
      same map. */
  method Tally(xs: seq<string>) returns (m: map<string, nat>)
    ensures m == ValueCounts(xs)
    ensures forall x <- m.Keys :: m[x] == Count(xs, x)
  {
    m := map[];
    for i := 0 to |xs|
      invariant m == ValueCounts(xs[..i])
    {
      var x := xs[i];
      ValueCountsSnoc(xs[..i], x);
      TotalValueCounts(xs[..i], x);
      assert xs[..i + 1] == xs[..i] + [x];
      m := m[x := if x in m then m[x] + 1 else 1];
    }
    assert xs[..|xs|] == xs;
    forall x <- m.Keys ensures m[x] == Count(xs, x) {
      TotalValueCounts(xs, x);
    }
  }

  /** `counts.reindex(labels, fill_value=0)`: the count of each label, in the
      order of `labels`. */
  function Reindex(m: map<string, nat>, labels: seq<string>): (r: seq<nat>)
    ensures |r| == |labels|
    ensures forall c :: 0 <= c < |r| ==> (labels[c] in m ==> r[c] == m[labels[c]])
    ensures forall c :: 0 <= c < |r| ==> (labels[c] !in m ==> r[c] == 0)
  {
    seq(|labels|, c requires 0 <= c < |labels| => if labels[c] in m then m[labels[c]] else 0)
  }

  /** Reindexed value counts: entry `c` is how often `labels[c]` occurs, and
      no label is left out. */
  lemma DistributionCounts(xs: seq<string>, labels: seq<string>)
    ensures |Reindex(ValueCounts(xs), labels)| == |labels|
    ensures forall c :: 0 <= c < |labels| ==>
              Reindex(ValueCounts(xs), labels)[c] == Count(xs, labels[c])
  {
  }

  lemma {:induction false} SumReindex(xs: seq<string>, labels: seq<string>)
    ensures Sum(Reindex(ValueCounts(xs), labels)) == SumCounts(labels, xs)
  {
    if |labels| > 0 {
      var m := ValueCounts(xs);
      assert Reindex(m, labels)[1..] == Reindex(m, labels[1..]);
      SumReindex(xs, labels[1..]);
    }
  }

  /** The reindexed counts add up to the number of entries whose value is
      one of the labels: never more than the column's length, and exactly
      its length when every entry is a label. */
  lemma DistributionSum(xs: seq<string>, labels: seq<string>)
    requires Distinct(labels)
    ensures Sum(Reindex(ValueCounts(xs), labels)) == CountIn(xs, set l | l in labels)
    ensures Sum(Reindex(ValueCounts(xs), labels)) <= |xs|
    ensures Sum(Reindex(ValueCounts(xs), labels)) == |xs| <==> forall x <- xs :: x in labels
  {
    SumReindex(xs, labels);
    SumCountsIsCountIn(labels, xs);
  }
}

/**
 Python's ordering of `str` values (lexicographic by code point) and the
 `sorted(set(...))` idiom the dashboard uses to build its selector list.
 */
module Ordering {

  /** `a < b` on Python strings: the first differing character decides, and
      a proper prefix comes first. */
  predicate Below(a: string, b: string)
    ensures Below(a, b) ==> a != b
    decreases |a|
  {
    if |a| == 0 then |b| > 0
    else |b| > 0 && (a[0] < b[0] || (a[0] == b[0] && Below(a[1..], b[1..])))
  }

  lemma {:induction false} BelowIrreflexive(a: string)
    ensures !Below(a, a)
    decreases |a|
  {
    if |a| > 0 {
      BelowIrreflexive(a[1..]);
    }
  }

  lemma {:induction false} BelowTransitive(a: string, b: string, c: string)
    requires Below(a, b) && Below(b, c)
    ensures Below(a, c)
    decreases |a|
  {
    if |a| > 0 && a[0] == b[0] && b[0] == c[0] {
      BelowTransitive(a[1..], b[1..], c[1..]);
    }
  }

  lemma {:induction false} BelowTotal(a: string, b: string)
    ensures a == b || Below(a, b) || Below(b, a)
    decreases |a|
  {
    if |a| > 0 && |b| > 0 && a[0] == b[0] {
      BelowTotal(a[1..], b[1..]);
      if a[1..] == b[1..] {
        assert a == [a[0]] + a[1..] && b == [b[0]] + b[1..];
      }
    }
  }

  lemma BelowAsymmetric(a: string, b: string)
    requires Below(a, b)
    ensures !Below(b, a)
  {
    if Below(b, a) {
      BelowTransitive(a, b, a);
      BelowIrreflexive(a);
    }
  }

  /** Strictly increasing: sorted and free of duplicates. */
  predicate StrictlySorted(xs: seq<string>) {
    forall i, j :: 0 <= i < j < |xs| ==> Below(xs[i], xs[j])
  }

  /** Inserts `x` into a strictly sorted list, unless it is there already. */
  function Insert(x: string, xs: seq<string>): (r: seq<string>)
    requires StrictlySorted(xs)
    ensures StrictlySorted(r)
    ensures forall y :: y in r <==> y == x || y in xs
  {
    if |xs| == 0 then [x]
    else if x == xs[0] then xs
    else if Below(x, xs[0]) then
      var r := [x] + xs;
      assert forall j :: 0 < j < |r| ==> Below(x, r[j]) by {
        forall j | 0 < j < |r| ensures Below(x, r[j]) {
          if j > 1 { BelowTransitive(x, xs[0], xs[j - 1]); }
        }
      }
      r
    else
      var tail := Insert(x, xs[1..]);
      var r := [xs[0]] + tail;
      BelowTotal(x, xs[0]);
      assert forall j :: 0 < j < |r| ==> Below(xs[0], r[j]) by {
        forall j | 0 < j < |r| ensures Below(xs[0], r[j]) {
          assert r[j] in tail;
          if r[j] != x {
            var k :| 0 <= k < |xs[1..]| && xs[1..][k] == r[j];
            assert xs[k + 1] == r[j];
          }
        }
      }
      r
  }

  /** `sorted(set(xs))`: every value of `xs` once, in increasing order. */
  function SortedDistinct(xs: seq<string>): (r: seq<string>)
    ensures StrictlySorted(r)
    ensures forall y :: y in r <==> y in xs
  {
    if |xs| == 0 then [] else Insert(xs[0], SortedDistinct(xs[1..]))
  }

  /** A strictly sorted list holds no value twice. */
  lemma SortedNoDuplicates(xs: seq<string>, i: nat, j: nat)
    requires StrictlySorted(xs)
    requires i < j < |xs|
    ensures xs[i] != xs[j]
  {
    BelowIrreflexive(xs[i]);
  }

  /** In a strictly sorted list, the tail holds exactly the values other
      than the head. */
  lemma TailMember(xs: seq<string>, y: string)
    requires StrictlySorted(xs) && |xs| > 0
    ensures y in xs[1..] <==> y in xs && y != xs[0]
  {
    if y in xs[1..] {
      var k :| 0 <= k < |xs[1..]| && xs[1..][k] == y;
      assert Below(xs[0], xs[k + 1]);
      BelowIrreflexive(y);
    }
    if y in xs && y != xs[0] {
      var k :| 0 <= k < |xs| && xs[k] == y;
      assert xs[1..][k - 1] == y;
    }
  }

  /** A strictly sorted list is determined by its values: there is only one
      way to list a set of strings in increasing order. */
  lemma {:induction false} SortedUnique(a: seq<string>, b: seq<string>)
    requires StrictlySorted(a) && StrictlySorted(b)
    requires forall y :: y in a <==> y in b
    ensures a == b
    decreases |a|
  {
    if |a| > 0 { assert a[0] in b; }
    if |b| > 0 { assert b[0] in a; }
    if |a| > 0 && |b| > 0 {
      // a[0] and b[0] are each the least value of the same set
      assert a[0] in a && b[0] in b;
      if a[0] != b[0] {
        var i :| 0 <= i < |b| && b[i] == a[0];
        var j :| 0 <= j < |a| && a[j] == b[0];
        assert i > 0 && j > 0;
        BelowAsymmetric(b[0], a[0]);
      }
      forall y
        ensures y in a[1..] <==> y in b[1..]
      {
        if y in a[1..] {
          TailMember(a, y);
          TailMember(b, y);
        }
        if y in b[1..] {
          TailMember(b, y);
          TailMember(a, y);
        }
      }
      SortedUnique(a[1..], b[1..]);
      assert a == [a[0]] + a[1..] && b == [b[0]] + b[1..];
    }
  }
}

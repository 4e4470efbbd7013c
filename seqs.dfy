/** Generic sequence helpers: a row filter (a boolean mask) and a count of matching rows. */
module Seqs {

  /** The elements of `s` that satisfy `p`, in their original order. */
  function Filter<T>(s: seq<T>, p: T -> bool): (r: seq<T>)
    ensures |r| <= |s|
    ensures forall i :: 0 <= i < |r| ==> p(r[i])
    ensures forall i :: 0 <= i < |s| && p(s[i]) ==> s[i] in r
    ensures forall x :: x in r ==> x in s
    ensures multiset(r) <= multiset(s)
  {
    if s == [] then []
    else
      assert s == [s[0]] + s[1..];
      (if p(s[0]) then [s[0]] else []) + Filter(s[1..], p)
  }

  /** The number of elements of `s` that satisfy `p`: the sum of a boolean column. */
  function Count<T>(s: seq<T>, p: T -> bool): (n: nat)
    ensures n <= |s|
    ensures n == 0 <==> forall i :: 0 <= i < |s| ==> !p(s[i])
  {
    if s == [] then 0
    else (if p(s[0]) then 1 else 0) + Count(s[1..], p)
  }

  lemma {:induction false} CountAppend<T>(a: seq<T>, b: seq<T>, p: T -> bool)
    ensures Count(a + b, p) == Count(a, p) + Count(b, p)
  {
    if a == [] {
      assert a + b == b;
    } else {
      assert (a + b)[1..] == a[1..] + b;
      CountAppend(a[1..], b, p);
    }
  }

  /** Strictly ascending: sorted and without repetitions. */
  predicate Increasing(s: seq<int>)
  {
    forall i, j :: 0 <= i < j < |s| ==> s[i] < s[j]
  }

  /**
   * A strictly ascending sequence whose elements are exactly 1..n is the
   * sequence [1, 2, ..., n].
   */
  lemma {:induction false} IncreasingOneTo(s: seq<int>, n: int)
    requires Increasing(s)
    requires forall x :: x in s <==> 1 <= x <= n
    ensures |s| == (if n < 0 then 0 else n)
    ensures forall i :: 0 <= i < |s| ==> s[i] == i + 1
  {
    forall i | 0 <= i < |s|
      ensures s[i] == i + 1
    {
      IncreasingOneToAt(s, n, i);
    }
    if |s| > 0 {
      assert s[|s| - 1] in s;
    }
    if n >= 1 {
      assert n in s;
      var k :| 0 <= k < |s| && s[k] == n;
    }
  }

  lemma {:induction false} IncreasingOneToAt(s: seq<int>, n: int, i: nat)
    requires Increasing(s)
    requires forall x :: x in s <==> 1 <= x <= n
    requires i < |s|
    ensures s[i] == i + 1
    decreases i
  {
    assert s[i] in s;
    if i == 0 {
      assert 1 in s;
      var k :| 0 <= k < |s| && s[k] == 1;
    } else {
      IncreasingOneToAt(s, n, i - 1);
      assert i + 1 in s;
      var k :| 0 <= k < |s| && s[k] == i + 1;
      assert k >= i;
    }
  }

  /** A strictly ascending sequence has as many elements as its set of elements. */
  lemma {:induction false} IncreasingCardinality(s: seq<int>)
    requires Increasing(s)
    ensures |set x | x in s| == |s|
    decreases |s|
  {
    if s != [] {
      IncreasingCardinality(s[1..]);
      assert (set x | x in s) == {s[0]} + (set x | x in s[1..]);
      assert s[0] !in (set x | x in s[1..]);
    }
  }

  /** The length of a filtered table is the number of rows the mask selects. */
  lemma {:induction false} FilterCount<T>(s: seq<T>, p: T -> bool)
    ensures |Filter(s, p)| == Count(s, p)
    decreases |s|
  {
    if s != [] {
      FilterCount(s[1..], p);
    }
  }

  /** A mask that selects exactly one row yields that row alone. */
  lemma {:induction false} FilterSingle<T>(s: seq<T>, p: T -> bool, i: nat)
    requires i < |s| && p(s[i])
    requires forall j :: 0 <= j < |s| && j != i ==> !p(s[j])
    ensures Filter(s, p) == [s[i]]
    decreases |s|
  {
    if i == 0 {
      assert forall j :: 0 <= j < |s[1..]| ==> !p(s[1..][j]) by {
        forall j | 0 <= j < |s[1..]| ensures !p(s[1..][j]) {
          assert s[1..][j] == s[j + 1];
        }
      }
      FilterNone(s[1..], p);
    } else {
      assert forall j :: 0 <= j < |s[1..]| && j != i - 1 ==> !p(s[1..][j]) by {
        forall j | 0 <= j < |s[1..]| && j != i - 1 ensures !p(s[1..][j]) {
          assert s[1..][j] == s[j + 1];
        }
      }
      FilterSingle(s[1..], p, i - 1);
    }
  }

  /** A mask that selects nothing yields an empty table. */
  lemma FilterNone<T>(s: seq<T>, p: T -> bool)
    requires forall j :: 0 <= j < |s| ==> !p(s[j])
    ensures Filter(s, p) == []
  {
  }
}

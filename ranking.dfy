/** Descending sorts and "top n" selections (`sort_values(ascending=False)`, `head`, `nlargest`). */
module Ranking {
  import opened Tables

  /** Rows ordered non-increasing by `key`; nothing is said about the order of ties. */
  ghost predicate NonIncreasing<T>(s: seq<T>, key: T -> real) {
    forall i, j :: 0 <= i < j < |s| ==> key(s[i]) >= key(s[j])
  }

  /** Inserts `x` into a non-increasing sequence, keeping it non-increasing. */
  function InsertDesc<T>(x: T, s: seq<T>, key: T -> real): (r: seq<T>)
    requires NonIncreasing(s, key)
    ensures |r| == |s| + 1
    ensures r[0] == x || (|s| > 0 && r[0] == s[0])
    ensures NonIncreasing(r, key)
    ensures multiset(r) == multiset(s) + multiset{x}
  {
    if s == [] || key(x) >= key(s[0]) then [x] + s
    else
      assert s == [s[0]] + s[1..];
      [s[0]] + InsertDesc(x, s[1..], key)
  }

  /** A non-increasing permutation of `s` (insertion sort). */
  function SortDesc<T>(s: seq<T>, key: T -> real): (r: seq<T>)
    ensures |r| == |s|
    ensures NonIncreasing(r, key)
    ensures multiset(r) == multiset(s)
  {
    if s == [] then []
    else
      assert s == [s[0]] + s[1..];
      InsertDesc(s[0], SortDesc(s[1..], key), key)
  }

  /** `head(n)`: the first `n` rows, or all of them when there are fewer. */
  function Take<T>(s: seq<T>, n: nat): (r: seq<T>)
    ensures |r| == if |s| <= n then |s| else n
    ensures r == s[..|r|]
  {
    if |s| <= n then s else s[..n]
  }

  /** In a non-increasing sequence every row past position n is no larger than any row before it. */
  lemma TailBelowHead<T>(s: seq<T>, n: nat, key: T -> real)
    requires NonIncreasing(s, key) && n <= |s|
    ensures forall x, y :: x in multiset(s[n..]) && y in s[..n] ==> key(x) <= key(y)
  {
    forall x, y | x in multiset(s[n..]) && y in s[..n]
      ensures key(x) <= key(y)
    {
      var i :| 0 <= i < |s[n..]| && s[n..][i] == x;
      var j :| 0 <= j < n && s[..n][j] == y;
      assert s[n + i] == x && s[j] == y;
    }
  }

  /** The first `n` rows of a non-increasing sequence are non-increasing and no row after them is larger. */
  lemma TakeOrdered<T>(s: seq<T>, n: nat, key: T -> real)
    requires NonIncreasing(s, key)
    ensures NonIncreasing(Take(s, n), key)
    ensures forall x, y :: x in s[|Take(s, n)|..] && y in Take(s, n) ==> key(x) <= key(y)
  {
    var r := Take(s, n);
    TailBelowHead(s, |r|, key);
    forall x, y | x in s[|r|..] && y in r ensures key(x) <= key(y) {
      assert x in multiset(s[|r|..]);
    }
  }

  /**
   * Sort descending then keep the first `n` rows: at most `n` rows, non-increasing,
   * drawn from the input, and no row left out ranks above a row kept.
   */
  function TopN<T>(s: seq<T>, n: nat, key: T -> real): (r: seq<T>)
    ensures |r| == if |s| <= n then |s| else n
    ensures NonIncreasing(r, key)
    ensures multiset(r) <= multiset(s)
    ensures |s| <= n ==> multiset(r) == multiset(s)
    ensures forall x, y :: x in multiset(s) - multiset(r) && y in r ==> key(x) <= key(y)
  {
    var sorted := SortDesc(s, key);
    var r := Take(sorted, n);
    TakeLeavesTail(s, sorted, n, key);
    r
  }

  /** What `head(n)` of a sorted copy of `s` leaves out is the sorted copy's tail. */
  lemma TakeLeavesTail<T>(s: seq<T>, sorted: seq<T>, n: nat, key: T -> real)
    requires NonIncreasing(sorted, key) && multiset(sorted) == multiset(s)
    ensures NonIncreasing(Take(sorted, n), key)
    ensures multiset(Take(sorted, n)) <= multiset(s)
    ensures forall x, y :: x in multiset(s) - multiset(Take(sorted, n)) && y in Take(sorted, n) ==> key(x) <= key(y)
  {
    var r := Take(sorted, n);
    assert sorted == r + sorted[|r|..];
    assert multiset(sorted) == multiset(r) + multiset(sorted[|r|..]);
    TailBelowHead(sorted, |r|, key);
    assert multiset(s) - multiset(r) == multiset(sorted[|r|..]);
  }

  /** Selecting rows keeps a non-increasing table non-increasing. */
  lemma {:induction false} SelectNonIncreasing<T(!new)>(s: seq<T>, p: T -> bool, key: T -> real)
    requires NonIncreasing(s, key)
    ensures NonIncreasing(Select(s, p), key)
  {
    if s != [] {
      SelectNonIncreasing(s[1..], p, key);
      var rest := Select(s[1..], p);
      forall y | y in rest ensures key(y) <= key(s[0]) {
        var j :| 0 <= j < |s[1..]| && s[1..][j] == y;
        assert s[j + 1] == y;
      }
    }
  }

  /** Removing the row at `i` removes one occurrence of it from the multiset. */
  lemma RemoveAtMultiset<T>(b: seq<T>, i: nat)
    requires i < |b|
    ensures multiset(b[..i] + b[i + 1..]) == multiset(b) - multiset{b[i]}
  {
    assert b == b[..i] + [b[i]] + b[i + 1..];
  }

  /** Removing the row at `i` removes its value from the column sum. */
  lemma RemoveAtSum<T>(b: seq<T>, i: nat, f: T -> real)
    requires i < |b|
    ensures SumOf(b, f) == f(b[i]) + SumOf(b[..i] + b[i + 1..], f)
  {
    var front, back := b[..i], b[i + 1..];
    var xs := [b[i]] + back;
    assert b == front + xs;
    SumAppend(front, xs, f);
    assert SumOf(xs, f) == f(b[i]) + SumOf(back, f) by {
      assert xs[1..] == back;
    }
    SumAppend(front, back, f);
  }

  /** Column sums do not depend on the order of the rows. */
  lemma {:induction false} SumPermutation<T>(a: seq<T>, b: seq<T>, f: T -> real)
    requires multiset(a) == multiset(b)
    ensures SumOf(a, f) == SumOf(b, f)
    decreases |a|
  {
    if a != [] {
      assert a[0] in multiset(b);
      var i :| 0 <= i < |b| && b[i] == a[0];
      var rest := b[..i] + b[i + 1..];
      RemoveAtMultiset(b, i);
      assert a == [a[0]] + a[1..];
      assert multiset(a[1..]) == multiset(rest);
      SumPermutation(a[1..], rest, f);
      RemoveAtSum(b, i, f);
    } else {
      assert |b| == |multiset(b)| == 0;
    }
  }

  /** A row of `s` that the top `n` leaves out ranks no higher than any row kept. */
  lemma TopNOmitted<T>(s: seq<T>, n: nat, key: T -> real, x: T)
    requires x in s && x !in TopN(s, n, key)
    ensures forall y :: y in TopN(s, n, key) ==> key(x) <= key(y)
  {
    var r := TopN(s, n, key);
    assert multiset(r)[x] == 0;
    assert x in multiset(s) - multiset(r);
  }

  /** `idxmax`: the position of the first row with the largest `key`. */
  function ArgMax<T>(s: seq<T>, key: T -> real): (i: nat)
    requires |s| > 0
    ensures i < |s|
    ensures forall j :: 0 <= j < |s| ==> key(s[j]) <= key(s[i])
    ensures forall j :: 0 <= j < i ==> key(s[j]) < key(s[i])
  {
    if |s| == 1 then 0
    else
      var k := ArgMax(s[..|s| - 1], key);
      assert forall j :: 0 <= j < |s| - 1 ==> s[..|s| - 1][j] == s[j];
      if key(s[k]) < key(s[|s| - 1]) then |s| - 1 else k
  }

  /** `idxmin`: the position of the first row with the smallest `key`. */
  function ArgMin<T>(s: seq<T>, key: T -> real): (i: nat)
    requires |s| > 0
    ensures i < |s|
    ensures forall j :: 0 <= j < |s| ==> key(s[i]) <= key(s[j])
    ensures forall j :: 0 <= j < i ==> key(s[i]) < key(s[j])
  {
    if |s| == 1 then 0
    else
      var k := ArgMin(s[..|s| - 1], key);
      assert forall j :: 0 <= j < |s| - 1 ==> s[..|s| - 1][j] == s[j];
      if key(s[|s| - 1]) < key(s[k]) then |s| - 1 else k
  }

  /** A mean lies between the least and the greatest of its values. */
  lemma MeanBetweenExtremes<T>(s: seq<T>, f: T -> real)
    requires |s| > 0
    ensures f(s[ArgMin(s, f)]) <= Mean(s, f) <= f(s[ArgMax(s, f)])
  {
    MeanBounds(s, f, f(s[ArgMin(s, f)]), f(s[ArgMax(s, f)]));
  }

  /** In a table sorted non-increasing by `key`, `idxmax` of `key` is the first row. */
  lemma ArgMaxOfSorted<T>(s: seq<T>, key: T -> real)
    requires |s| > 0 && NonIncreasing(s, key)
    ensures ArgMax(s, key) == 0
  {
  }
}

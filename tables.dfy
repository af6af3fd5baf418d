/** Row selection and column reductions over in-memory tables (sequences of rows). */
module Tables {

  /** Boolean-mask selection `df[mask]`: the rows satisfying `p`, in their original order. */
  function Select<T(!new)>(s: seq<T>, p: T -> bool): (r: seq<T>)
    ensures |r| <= |s|
    ensures forall x :: x in r <==> x in s && p(x)
  {
    if s == [] then []
    else
      assert s == [s[0]] + s[1..];
      (if p(s[0]) then [s[0]] else []) + Select(s[1..], p)
  }

  /** Selection keeps every copy of a selected row and no copy of any other. */
  lemma {:induction false} SelectCount<T(!new)>(s: seq<T>, p: T -> bool)
    ensures forall x :: multiset(Select(s, p))[x] == if p(x) then multiset(s)[x] else 0
  {
    if s != [] {
      SelectCount(s[1..], p);
      assert s == [s[0]] + s[1..];
    }
  }

  /** Selection distributes over concatenation, so it keeps the relative order of rows. */
  lemma {:induction false} SelectAppend<T(!new)>(a: seq<T>, b: seq<T>, p: T -> bool)
    ensures Select(a + b, p) == Select(a, p) + Select(b, p)
  {
    if a == [] {
      assert a + b == b;
    } else {
      assert (a + b)[0] == a[0];
      assert (a + b)[1..] == a[1..] + b;
      SelectAppend(a[1..], b, p);
    }
  }

  /** A mask that holds on every row selects the whole table. */
  lemma {:induction false} SelectAll<T(!new)>(s: seq<T>, p: T -> bool)
    requires forall i :: 0 <= i < |s| ==> p(s[i])
    ensures Select(s, p) == s
  {
    if s != [] {
      SelectAll(s[1..], p);
    }
  }

  /** Column sum `df[col].sum()` of the values `f` reads from each row. */
  function SumOf<T>(s: seq<T>, f: T -> real): real
  {
    if s == [] then 0.0 else f(s[0]) + SumOf(s[1..], f)
  }

  lemma {:induction false} SumAppend<T>(a: seq<T>, b: seq<T>, f: T -> real)
    ensures SumOf(a + b, f) == SumOf(a, f) + SumOf(b, f)
  {
    if a == [] {
      assert a + b == b;
    } else {
      assert (a + b)[1..] == a[1..] + b;
      SumAppend(a[1..], b, f);
    }
  }

  /** The sum of a column whose values all lie in [lo, hi] lies in [lo*n, hi*n]. */
  lemma {:induction false} SumBounds<T>(s: seq<T>, f: T -> real, lo: real, hi: real)
    requires forall i :: 0 <= i < |s| ==> lo <= f(s[i]) <= hi
    ensures lo * |s| as real <= SumOf(s, f) <= hi * |s| as real
  {
    if s != [] {
      SumBounds(s[1..], f, lo, hi);
    }
  }

  /** A sum of non-negative values is non-negative and no larger than a pointwise larger sum. */
  lemma {:induction false} SumMonotone<T>(s: seq<T>, f: T -> real, g: T -> real)
    requires forall i :: 0 <= i < |s| ==> f(s[i]) <= g(s[i])
    ensures SumOf(s, f) <= SumOf(s, g)
  {
    if s != [] {
      SumMonotone(s[1..], f, g);
    }
  }

  /** Column mean `df[col].mean()` over a non-empty table. */
  function Mean<T>(s: seq<T>, f: T -> real): real
    requires |s| > 0
  {
    SumOf(s, f) / |s| as real
  }

  /** A non-negative total gives a non-negative mean. */
  lemma MeanNonNegative<T>(s: seq<T>, f: T -> real)
    requires |s| > 0 && SumOf(s, f) >= 0.0
    ensures Mean(s, f) >= 0.0
  {
    var n := |s| as real;
    var q := SumOf(s, f) / n;
    assert q * n == SumOf(s, f);
    if q < 0.0 {
      assert (0.0 - q) * n > 0.0;
    }
  }

  /** The mean of values that all lie in [lo, hi] lies in [lo, hi]. */
  lemma MeanBounds<T>(s: seq<T>, f: T -> real, lo: real, hi: real)
    requires |s| > 0
    requires forall i :: 0 <= i < |s| ==> lo <= f(s[i]) <= hi
    ensures lo <= Mean(s, f) <= hi
  {
    SumBounds(s, f, lo, hi);
    var n := |s| as real;
    assert SumOf(s, f) / n >= lo by {
      assert SumOf(s, f) >= lo * n;
    }
    assert SumOf(s, f) / n <= hi by {
      assert SumOf(s, f) <= hi * n;
    }
  }

  /** `v` added to itself `n` times. */
  function Times(n: nat, v: real): real
  {
    if n == 0 then 0.0 else v + Times(n - 1, v)
  }

  lemma {:induction false} TimesAdd(p: nat, q: nat, v: real)
    ensures Times(p + q, v) == Times(p, v) + Times(q, v)
  {
    if p > 0 {
      TimesAdd(p - 1, q, v);
    }
  }

  lemma {:induction false} TimesUnit(n: nat)
    ensures Times(n, 1.0) == n as real
  {
    if n > 0 {
      TimesUnit(n - 1);
    }
  }

  /** A column holding the same value `v` in every row sums to `v` times the row count. */
  lemma {:induction false} SumConstant<T>(s: seq<T>, f: T -> real, v: real)
    requires forall i :: 0 <= i < |s| ==> f(s[i]) == v
    ensures SumOf(s, f) == Times(|s|, v)
  {
    if s != [] {
      SumConstant(s[1..], f, v);
    }
  }
}

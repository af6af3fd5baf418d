/**
 * Grouping by a key column: `dropna().unique()`, `groupby(col).size()` and
 * `value_counts()`. Keys are `Option`s; a missing key (NaN) is never a group.
 */
module Grouping {
  import opened Wrappers
  import opened Tables
  import opened Ranking

  ghost predicate NoDuplicates<K>(d: seq<K>) {
    forall i, j :: 0 <= i < j < |d| ==> d[i] != d[j]
  }

  /** In a sequence without duplicates every element occurs once. */
  lemma {:induction false} NoDuplicatesOnce<K>(d: seq<K>, x: K)
    requires NoDuplicates(d)
    ensures multiset(d)[x] <= 1
  {
    if d != [] {
      var p := d[..|d| - 1];
      assert d == p + [d[|d| - 1]];
      assert NoDuplicates(p);
      NoDuplicatesOnce(p, x);
      if x == d[|d| - 1] {
        assert x !in p;
      }
    }
  }

  /** Taking some of the rows of a sequence without duplicates gives none either. */
  lemma SubMultisetNoDuplicates<K>(t: seq<K>, d: seq<K>)
    requires NoDuplicates(d)
    requires multiset(t) <= multiset(d)
    ensures NoDuplicates(t)
  {
    forall i, j | 0 <= i < j < |t| ensures t[i] != t[j] {
      if t[i] == t[j] {
        var x := t[j];
        assert t == t[..j] + [x] + t[j + 1..];
        assert x in t[..j];
        NoDuplicatesOnce(d, x);
        assert false;
      }
    }
  }

  /** `dropna().unique()`: every present key once, in order of first appearance. */
  function Distinct<K(==,!new)>(ks: seq<Option<K>>): (d: seq<K>)
    ensures NoDuplicates(d)
    ensures forall k :: k in d <==> Some(k) in ks
  {
    if ks == [] then []
    else
      var d := Distinct(ks[..|ks| - 1]);
      var last := ks[|ks| - 1];
      assert ks == ks[..|ks| - 1] + [last];
      if last.Some? && last.value !in d then d + [last.value] else d
  }

  /** Number of entries equal to `Some(k)`: the size of group `k`. */
  function CountOf<K(==)>(ks: seq<Option<K>>, k: K): nat
  {
    if ks == [] then 0
    else CountOf(ks[..|ks| - 1], k) + (if ks[|ks| - 1] == Some(k) then 1 else 0)
  }

  /** Number of present entries whose key is one of `d`. */
  function CountIn<K(==)>(ks: seq<Option<K>>, d: seq<K>): nat
  {
    if ks == [] then 0
    else
      var last := ks[|ks| - 1];
      CountIn(ks[..|ks| - 1], d) + (if last.Some? && last.value in d then 1 else 0)
  }

  /** Number of present (non-missing) entries. */
  function CountPresent<K>(ks: seq<Option<K>>): nat
  {
    if ks == [] then 0
    else CountPresent(ks[..|ks| - 1]) + (if ks[|ks| - 1].Some? then 1 else 0)
  }

  /** Total of the group sizes of the keys `d`. */
  function SumCounts<K(==)>(d: seq<K>, ks: seq<Option<K>>): nat
  {
    if d == [] then 0 else CountOf(ks, d[0]) + SumCounts(d[1..], ks)
  }

  lemma {:induction false} CountOfPositive<K>(ks: seq<Option<K>>, k: K)
    requires Some(k) in ks
    ensures CountOf(ks, k) > 0
  {
    var p := ks[..|ks| - 1];
    assert ks == p + [ks[|ks| - 1]];
    if ks[|ks| - 1] != Some(k) {
      assert Some(k) in p;
      CountOfPositive(p, k);
    }
  }

  lemma {:induction false} SumCountsEmpty<K>(d: seq<K>)
    ensures SumCounts(d, []) == 0
  {
    if d != [] {
      SumCountsEmpty(d[1..]);
    }
  }

  /** Appending one entry adds one to the total exactly when its key is one of the (distinct) `d`. */
  lemma {:induction false} SumCountsStep<K>(d: seq<K>, p: seq<Option<K>>, x: Option<K>)
    requires NoDuplicates(d)
    ensures SumCounts(d, p + [x]) == SumCounts(d, p) + (if x.Some? && x.value in d then 1 else 0)
  {
    var ks := p + [x];
    assert ks[..|ks| - 1] == p;
    if d != [] {
      assert NoDuplicates(d[1..]);
      SumCountsStep(d[1..], p, x);
      assert x.Some? && x.value in d[1..] ==> x.value != d[0];
      assert x.Some? && x.value in d ==> x.value == d[0] || x.value in d[1..];
    }
  }

  /** The group sizes of distinct keys add up to the number of entries carrying one of those keys. */
  lemma {:induction false} SumCountsIsCountIn<K>(d: seq<K>, ks: seq<Option<K>>)
    requires NoDuplicates(d)
    ensures SumCounts(d, ks) == CountIn(ks, d)
  {
    if ks == [] {
      SumCountsEmpty(d);
    } else {
      var p := ks[..|ks| - 1];
      assert ks == p + [ks[|ks| - 1]];
      SumCountsIsCountIn(d, p);
      SumCountsStep(d, p, ks[|ks| - 1]);
    }
  }

  /** When `d` holds every present key, counting entries in `d` counts every present entry. */
  lemma {:induction false} CountInAll<K>(ks: seq<Option<K>>, d: seq<K>)
    requires forall i :: 0 <= i < |ks| && ks[i].Some? ==> ks[i].value in d
    ensures CountIn(ks, d) == CountPresent(ks)
  {
    if ks != [] {
      CountInAll(ks[..|ks| - 1], d);
    }
  }

  /** Group sizes add up across the two halves of a concatenated column. */
  lemma {:induction false} CountOfAppend<K>(a: seq<Option<K>>, b: seq<Option<K>>, k: K)
    ensures CountOf(a + b, k) == CountOf(a, k) + CountOf(b, k)
  {
    if b == [] {
      assert a + b == a;
    } else {
      var p := b[..|b| - 1];
      assert (a + b)[..|a + b| - 1] == a + p;
      CountOfAppend(a, p, k);
    }
  }

  /** Present entries add up across the two halves of a concatenated column. */
  lemma {:induction false} CountPresentAppend<K>(a: seq<Option<K>>, b: seq<Option<K>>)
    ensures CountPresent(a + b) == CountPresent(a) + CountPresent(b)
  {
    if b == [] {
      assert a + b == a;
    } else {
      var p := b[..|b| - 1];
      assert (a + b)[..|a + b| - 1] == a + p;
      CountPresentAppend(a, p);
    }
  }

  /** A column without missing entries has all of its entries present. */
  lemma {:induction false} CountPresentAll<K>(ks: seq<Option<K>>)
    requires forall i :: 0 <= i < |ks| ==> ks[i].Some?
    ensures CountPresent(ks) == |ks|
  {
    if ks != [] {
      CountPresentAll(ks[..|ks| - 1]);
    }
  }

  /** A column holding only `k` is one group of its full length. */
  lemma {:induction false} CountOfAll<K>(ks: seq<Option<K>>, k: K)
    requires forall i :: 0 <= i < |ks| ==> ks[i] == Some(k)
    ensures CountOf(ks, k) == |ks|
  {
    if ks != [] {
      CountOfAll(ks[..|ks| - 1], k);
    }
  }

  /** A key with a non-empty group occurs in the column. */
  lemma {:induction false} CountOfPresent<K>(ks: seq<Option<K>>, k: K)
    requires CountOf(ks, k) > 0
    ensures Some(k) in ks
  {
    var p := ks[..|ks| - 1];
    assert ks == p + [ks[|ks| - 1]];
    if ks[|ks| - 1] != Some(k) {
      CountOfPresent(p, k);
    }
  }

  /** A column holding only `k` has at most one distinct key, and that key is `k`. */
  lemma {:induction false} DistinctOfConstant<K(!new)>(ks: seq<Option<K>>, k: K)
    requires forall i :: 0 <= i < |ks| ==> ks[i] == Some(k)
    ensures Distinct(ks) == [] || Distinct(ks) == [k]
  {
    if ks != [] {
      DistinctOfConstant(ks[..|ks| - 1], k);
    }
  }

  ghost predicate StrictlyIncreasing(s: seq<int>) {
    forall i, j :: 0 <= i < j < |s| ==> s[i] < s[j]
  }

  /** Adds `y` to an ascending list of distinct years. */
  function InsertAsc(y: int, ys: seq<int>): (r: seq<int>)
    requires StrictlyIncreasing(ys)
    ensures StrictlyIncreasing(r)
    ensures forall z :: z in r <==> z == y || z in ys
    ensures |r| > 0 && (r[0] == y || (|ys| > 0 && r[0] == ys[0]))
  {
    if ys == [] || y < ys[0] then [y] + ys
    else if y == ys[0] then ys
    else
      assert ys == [ys[0]] + ys[1..];
      [ys[0]] + InsertAsc(y, ys[1..])
  }

  /** `sorted(col.dropna().unique())` for an integer column: ascending, each present value once. */
  function SortedDistinct(ks: seq<Option<int>>): (r: seq<int>)
    ensures StrictlyIncreasing(r)
    ensures NoDuplicates(r)
    ensures forall y :: y in r <==> Some(y) in ks
  {
    if ks == [] then []
    else
      assert ks == [ks[0]] + ks[1..];
      var r := SortedDistinct(ks[1..]);
      if ks[0].Some? then InsertAsc(ks[0].value, r) else r
  }

  /** One row of a `value_counts()` / `groupby().size()` result. */
  datatype Tally<K> = Tally(key: K, count: nat)

  function CountKey<K>(t: Tally<K>): real { t.count as real }

  /** The group size of each key of `d`, in the order of `d`. */
  function Tallies<K(==)>(d: seq<K>, ks: seq<Option<K>>): (r: seq<Tally<K>>)
    ensures |r| == |d|
    ensures forall i :: 0 <= i < |d| ==> r[i] == Tally(d[i], CountOf(ks, d[i]))
  {
    if d == [] then [] else [Tally(d[0], CountOf(ks, d[0]))] + Tallies(d[1..], ks)
  }

  lemma {:induction false} TalliesSum<K>(d: seq<K>, ks: seq<Option<K>>)
    ensures SumOf(Tallies(d, ks), CountKey) == SumCounts(d, ks) as real
  {
    if d != [] {
      TalliesSum(d[1..], ks);
      assert Tallies(d, ks)[1..] == Tallies(d[1..], ks);
    }
  }

  /** Every row of a reordering of `Tallies(Distinct(ks), ks)` is a non-empty group with its true size. */
  lemma TallyRowsAreGroups<K(!new)>(ks: seq<Option<K>>, r: seq<Tally<K>>)
    requires multiset(r) == multiset(Tallies(Distinct(ks), ks))
    ensures forall t :: t in r ==> t.count == CountOf(ks, t.key) && t.count > 0
  {
    var d := Distinct(ks);
    var tallies := Tallies(d, ks);
    forall t | t in r ensures t.count == CountOf(ks, t.key) && t.count > 0 {
      assert t in multiset(tallies);
      var i :| 0 <= i < |tallies| && tallies[i] == t;
      CountOfPositive(ks, d[i]);
    }
  }

  /** A reordering of `Tallies(Distinct(ks), ks)` has a row for exactly the present keys. */
  lemma TallyKeysArePresent<K(!new)>(ks: seq<Option<K>>, r: seq<Tally<K>>)
    requires multiset(r) == multiset(Tallies(Distinct(ks), ks))
    ensures forall k :: Some(k) in ks <==> exists t :: t in r && t.key == k
  {
    var d := Distinct(ks);
    var tallies := Tallies(d, ks);
    forall k | Some(k) in ks ensures exists t :: t in r && t.key == k {
      var i :| 0 <= i < |d| && d[i] == k;
      assert tallies[i] in multiset(r);
    }
    forall k | (exists t :: t in r && t.key == k) ensures Some(k) in ks {
      var t :| t in r && t.key == k;
      assert t in multiset(tallies);
      var i :| 0 <= i < |tallies| && tallies[i] == t;
    }
  }

  /** The counts of a reordering of `Tallies(Distinct(ks), ks)` add up to the present entries. */
  lemma TallySumIsPresent<K(!new)>(ks: seq<Option<K>>, r: seq<Tally<K>>)
    requires multiset(r) == multiset(Tallies(Distinct(ks), ks))
    ensures SumOf(r, CountKey) == CountPresent(ks) as real
  {
    var d := Distinct(ks);
    SumPermutation(r, Tallies(d, ks), CountKey);
    TalliesSum(d, ks);
    SumCountsIsCountIn(d, ks);
    CountInAll(ks, d);
  }

  /**
   * `value_counts()`: one row per present key with its number of occurrences, most
   * frequent first; missing keys are dropped, and the counts add up to the number
   * of present entries.
   */
  function ValueCounts<K(==,!new)>(ks: seq<Option<K>>): (r: seq<Tally<K>>)
    ensures |r| == |Distinct(ks)|
    ensures NonIncreasing(r, CountKey)
    ensures forall t :: t in r ==> t.count == CountOf(ks, t.key) && t.count > 0
    ensures forall k :: Some(k) in ks <==> exists t :: t in r && t.key == k
    ensures SumOf(r, CountKey) == CountPresent(ks) as real
  {
    var r := SortDesc(Tallies(Distinct(ks), ks), CountKey);
    TallyRowsAreGroups(ks, r);
    TallyKeysArePresent(ks, r);
    TallySumIsPresent(ks, r);
    r
  }

  /** A key with no entry is counted zero times. */
  lemma {:induction false} CountOfAbsent<K>(ks: seq<Option<K>>, k: K)
    requires Some(k) !in ks
    ensures CountOf(ks, k) == 0
  {
    if ks != [] {
      var p := ks[..|ks| - 1];
      assert ks == p + [ks[|ks| - 1]];
      CountOfAbsent(p, k);
    }
  }

  /** A reordering of `Tallies(d, ks)` has one row per key of `d`, each with that key's count. */
  lemma TalliesMembers<K(!new)>(d: seq<K>, ks: seq<Option<K>>, r: seq<Tally<K>>)
    requires multiset(r) == multiset(Tallies(d, ks))
    ensures forall t :: t in r ==> t.key in d && t.count == CountOf(ks, t.key)
    ensures forall k :: k in d ==> exists t :: t in r && t.key == k
  {
    var tallies := Tallies(d, ks);
    forall t | t in r ensures t.key in d && t.count == CountOf(ks, t.key) {
      assert t in multiset(tallies);
      var i :| 0 <= i < |tallies| && tallies[i] == t;
    }
    forall k | k in d ensures exists t :: t in r && t.key == k {
      var i :| 0 <= i < |d| && d[i] == k;
      assert tallies[i] in multiset(r);
    }
  }

  /**
   * `value_counts()` of a categorical column with categories `cats`: one row per
   * category, categories without an entry included with count 0, most frequent
   * first; missing entries are dropped.
   */
  function CategoryCounts<K(==,!new)>(cats: seq<K>, ks: seq<Option<K>>): (r: seq<Tally<K>>)
    ensures |r| == |cats|
    ensures NonIncreasing(r, CountKey)
    ensures forall t :: t in r ==> t.key in cats && t.count == CountOf(ks, t.key)
    ensures forall k :: k in cats <==> exists t :: t in r && t.key == k
  {
    var r := SortDesc(Tallies(cats, ks), CountKey);
    TalliesMembers(cats, ks, r);
    r
  }
}

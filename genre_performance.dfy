/**
 * Genre-level statistics: the exploded marketing table grouped by genre (means,
 * and a sum of users), ranked by mean engagement score, and the genre the
 * dashboard reports as the top one.
 */
module GenrePerformance {
  import opened Wrappers
  import opened Tables
  import opened Ranking
  import opened Grouping
  import opened Games
  import opened Metrics

  /** The rows of an exploded table that `groupby('genres')` puts in group `a`, in table order. */
  function GenreGroup(exploded: seq<MRow>, a: string): (r: seq<MRow>)
    ensures |r| <= |exploded|
    ensures forall x :: x in r <==> x in exploded && TagIs(x.game.genres, a)
  {
    if exploded == [] then []
    else
      assert exploded == [exploded[0]] + exploded[1..];
      (if TagIs(exploded[0].game.genres, a) then [exploded[0]] else []) + GenreGroup(exploded[1..], a)
  }

  lemma {:induction false} GenreGroupAppend(s: seq<MRow>, t: seq<MRow>, a: string)
    ensures GenreGroup(s + t, a) == GenreGroup(s, a) + GenreGroup(t, a)
  {
    if s == [] {
      assert s + t == t;
    } else {
      assert (s + t)[1..] == s[1..] + t;
      GenreGroupAppend(s[1..], t, a);
    }
  }

  /** The genre key of every exploded row (missing for rows exploded from an empty list). */
  function GenreKeys(exploded: seq<MRow>): (ks: seq<Option<string>>)
    ensures |ks| == |exploded|
    ensures forall i :: 0 <= i < |ks| ==> ks[i] == TagOf(exploded[i].game.genres)
  {
    seq(|exploded|, i requires 0 <= i < |exploded| => TagOf(exploded[i].game.genres))
  }

  /** `unique_genres`: `exploded['genres'].dropna().unique()`. */
  function UniqueGenres(exploded: seq<MRow>): (d: seq<string>)
    ensures NoDuplicates(d)
    ensures forall a :: a in d <==> |GenreGroup(exploded, a)| > 0
  {
    var d := Distinct(GenreKeys(exploded));
    forall a ensures a in d <==> |GenreGroup(exploded, a)| > 0 {
      if a in d {
        var i :| 0 <= i < |exploded| && GenreKeys(exploded)[i] == Some(a);
        assert exploded[i] in GenreGroup(exploded, a);
      }
      if |GenreGroup(exploded, a)| > 0 {
        var x := GenreGroup(exploded, a)[0];
        assert x in exploded;
        var i :| 0 <= i < |exploded| && exploded[i] == x;
        assert GenreKeys(exploded)[i] == Some(a);
      }
    }
    d
  }

  function HasMetacritic(r: MRow): bool { r.game.metacritic.Some? }
  function MetacriticOf(r: MRow): real { r.game.metacritic.GetOr(0.0) }

  /** `mean()` of the metacritic column, NaN (None) skipped; None when no row has a score. */
  function MeanMetacritic(group: seq<MRow>): (m: Option<real>)
    ensures m.Some? <==> exists x :: x in group && HasMetacritic(x)
  {
    var rated := Select(group, HasMetacritic);
    if rated == [] then None
    else
      assert rated[0] in rated;
      Some(Mean(rated, MetacriticOf))
  }

  /** One row of the genre performance table. */
  datatype GenreRow = GenreRow(
    genre: string,
    engagementScore: real,
    ownershipRate: real,
    completionRate: real,
    churnRate: real,
    clvProxy: real,
    totalUsers: real,
    metacritic: Option<real>)

  function RowEngagement(r: GenreRow): real { r.engagementScore }

  /** The aggregate of group `a`: means of the rates, score and CLV, sum of users. */
  function GenreRowFor(exploded: seq<MRow>, a: string): (r: GenreRow)
    requires |GenreGroup(exploded, a)| > 0
    ensures r.genre == a
    ensures r.metacritic.Some? <==> exists x :: x in GenreGroup(exploded, a) && HasMetacritic(x)
  {
    var g := GenreGroup(exploded, a);
    GenreRow(a, Mean(g, EngagementOf), Mean(g, OwnershipOf), Mean(g, CompletionOf), Mean(g, ChurnOf),
             Mean(g, ClvOf), SumOf(g, Lifted(Users)), MeanMetacritic(g))
  }

  /** The aggregates of the genres `genres`, in that order. */
  function GenreRows(exploded: seq<MRow>, genres: seq<string>): (r: seq<GenreRow>)
    requires forall i :: 0 <= i < |genres| ==> |GenreGroup(exploded, genres[i])| > 0
    ensures |r| == |genres|
    ensures forall i :: 0 <= i < |r| ==> r[i] == GenreRowFor(exploded, genres[i])
  {
    seq(|genres|, i requires 0 <= i < |genres| => GenreRowFor(exploded, genres[i]))
  }

  /** Every row of a reordering of `GenreRows(exploded, genres)` is the aggregate of its own genre. */
  lemma ReorderedGenreRows(exploded: seq<MRow>, genres: seq<string>, r: seq<GenreRow>)
    requires forall i :: 0 <= i < |genres| ==> |GenreGroup(exploded, genres[i])| > 0
    requires multiset(r) == multiset(GenreRows(exploded, genres))
    ensures forall x :: x in r ==> |GenreGroup(exploded, x.genre)| > 0 && x == GenreRowFor(exploded, x.genre)
    ensures forall a :: a in genres ==> exists x :: x in r && x.genre == a
    ensures forall x :: x in r ==> x.genre in genres
  {
    var perGenre := GenreRows(exploded, genres);
    forall x | x in r
      ensures |GenreGroup(exploded, x.genre)| > 0 && x == GenreRowFor(exploded, x.genre) && x.genre in genres
    {
      assert x in multiset(perGenre);
      var i :| 0 <= i < |perGenre| && perGenre[i] == x;
      assert x == GenreRowFor(exploded, genres[i]) && x.genre == genres[i];
    }
    forall a | a in genres ensures exists x :: x in r && x.genre == a {
      var i :| 0 <= i < |genres| && genres[i] == a;
      assert perGenre[i] in multiset(r) && perGenre[i].genre == a;
    }
  }

  /**
   * `analyze_genre_performance`: one row per genre some game lists, each the
   * aggregate of exactly that genre's exploded rows, ranked non-increasing by
   * mean engagement score. Games without genres never form or join a group.
   */
  function AnalyzeGenrePerformance(rows: seq<MRow>): (r: seq<GenreRow>)
    ensures |r| == |UniqueGenres(ExplodeRows(rows))|
    ensures NonIncreasing(r, RowEngagement)
    ensures forall x :: x in r ==>
              |GenreGroup(ExplodeRows(rows), x.genre)| > 0 && x == GenreRowFor(ExplodeRows(rows), x.genre)
    ensures forall a :: (exists x :: x in r && x.genre == a) <==> |GenreGroup(ExplodeRows(rows), a)| > 0
  {
    var exploded := ExplodeRows(rows);
    var genres := UniqueGenres(exploded);
    var r := SortDesc(GenreRows(exploded, genres), RowEngagement);
    ReorderedGenreRows(exploded, genres, r);
    r
  }

  function RowChurn(r: GenreRow): real { r.churnRate }

  /**
   * The genres the recommendations name: the first row (`top_genre`), the row
   * with the lowest mean churn (`idxmin`) and the row with the highest mean
   * engagement score (`idxmax`). None when no game has a genre, where the
   * source's `iloc[0]` raises IndexError instead.
   */
  datatype Recommendation = Recommendation(top: GenreRow, worstChurn: GenreRow, bestEngagement: GenreRow)

  function Recommend(table: seq<GenreRow>): (r: Option<Recommendation>)
    requires NonIncreasing(table, RowEngagement)
    ensures r.None? <==> table == []
    ensures r.Some? ==> r.value.top == table[0] && r.value.bestEngagement == table[0]
    ensures r.Some? ==> r.value.worstChurn in table &&
                        forall x :: x in table ==> r.value.worstChurn.churnRate <= x.churnRate
    ensures r.Some? ==>
              exists i :: 0 <= i < |table| && table[i] == r.value.worstChurn &&
                          forall j :: 0 <= j < i ==> r.value.worstChurn.churnRate < table[j].churnRate
  {
    if table == [] then None
    else
      ArgMaxOfSorted(table, RowEngagement);
      var w := ArgMin(table, RowChurn);
      assert forall x :: x in table ==> exists j :: 0 <= j < |table| && table[j] == x;
      Some(Recommendation(table[0], table[w], table[ArgMax(table, RowEngagement)]))
  }

  /** Sum over the original rows of `h` of their metrics, counted once per occurrence of genre `a`. */
  function Weighted(rows: seq<MRow>, a: string, h: Metrics -> real): real
  {
    if rows == [] then 0.0
    else Times(Occ(rows[0].game.genres, a), h(rows[0].metrics)) + Weighted(rows[1..], a, h)
  }

  /** Group `a` of the rows exploded from a list of tags has one row per occurrence of `a`. */
  lemma {:induction false} TaggedGroupSize(g: Game, m: Metrics, tags: seq<string>, a: string)
    ensures |GenreGroup(WithMetrics(Tagged(g, tags), m), a)| == Occurrences(tags, a)
  {
    var w := WithMetrics(Tagged(g, tags), m);
    if tags != [] {
      assert w[0].game.genres == Single(Some(tags[0]));
      assert w[1..] == WithMetrics(Tagged(g, tags[1..]), m);
      TaggedGroupSize(g, m, tags[1..], a);
    } else {
      assert w == [];
    }
  }

  lemma TaggedGroupSum(g: Game, m: Metrics, tags: seq<string>, a: string, h: Metrics -> real)
    ensures SumOf(GenreGroup(WithMetrics(Tagged(g, tags), m), a), Lifted(h)) == Times(Occurrences(tags, a), h(m))
  {
    var w := WithMetrics(Tagged(g, tags), m);
    var group := GenreGroup(w, a);
    forall i | 0 <= i < |group| ensures Lifted(h)(group[i]) == h(m) {
      assert group[i] in w;
    }
    SumConstant(group, Lifted(h), h(m));
    TaggedGroupSize(g, m, tags, a);
  }

  /** The exploded rows of one game put one row in group `a` per occurrence of `a` in its genres. */
  lemma ExplodeRowGroupSize(r: MRow, a: string)
    ensures |GenreGroup(ExplodeRow(r), a)| == Occ(r.game.genres, a)
  {
    var g := r.game;
    match g.genres
    case Listed(tags) =>
      if tags == [] {
        assert ExplodeRow(r) == [MRow(g.(genres := Single(None)), r.metrics)];
      } else {
        TaggedGroupSize(g, r.metrics, tags, a);
      }
    case Raw(t) =>
      assert ExplodeRow(r) == [MRow(g.(genres := Single(t)), r.metrics)];
    case Single(t) =>
      assert ExplodeRow(r) == [r];
  }

  lemma ExplodeRowGroupSum(r: MRow, a: string, h: Metrics -> real)
    ensures SumOf(GenreGroup(ExplodeRow(r), a), Lifted(h)) == Times(Occ(r.game.genres, a), h(r.metrics))
  {
    var group := GenreGroup(ExplodeRow(r), a);
    forall i | 0 <= i < |group| ensures Lifted(h)(group[i]) == h(r.metrics) {
      assert group[i] in ExplodeRow(r);
    }
    SumConstant(group, Lifted(h), h(r.metrics));
    ExplodeRowGroupSize(r, a);
  }

  /**
   * Group `a` of the exploded table totals the metric `h` over the original rows,
   * each weighted by how often it lists `a`: a game listing A and B counts in full
   * in both groups, and a game with no genres in none.
   */
  lemma {:induction false} GenreGroupSum(rows: seq<MRow>, a: string, h: Metrics -> real)
    ensures SumOf(GenreGroup(ExplodeRows(rows), a), Lifted(h)) == Weighted(rows, a, h)
  {
    if rows != [] {
      GenreGroupAppend(ExplodeRow(rows[0]), ExplodeRows(rows[1..]), a);
      SumAppend(GenreGroup(ExplodeRow(rows[0]), a), GenreGroup(ExplodeRows(rows[1..]), a), Lifted(h));
      ExplodeRowGroupSum(rows[0], a, h);
      GenreGroupSum(rows[1..], a, h);
    }
  }

  lemma {:induction false} SumOfUnit(s: seq<MRow>)
    ensures SumOf(s, Lifted(Unit)) == |s| as real
  {
    if s != [] {
      SumOfUnit(s[1..]);
    }
  }

  lemma {:induction false} WeightedUnitNonNegative(rows: seq<MRow>, a: string)
    ensures Weighted(rows, a, Unit) >= 0.0
  {
    if rows != [] {
      TimesUnit(Occ(rows[0].game.genres, a));
      WeightedUnitNonNegative(rows[1..], a);
    }
  }

  lemma {:induction false} WeightedUnitPositive(rows: seq<MRow>, a: string)
    ensures Weighted(rows, a, Unit) > 0.0 <==> exists i :: 0 <= i < |rows| && Occ(rows[i].game.genres, a) > 0
  {
    if rows != [] {
      TimesUnit(Occ(rows[0].game.genres, a));
      WeightedUnitPositive(rows[1..], a);
      WeightedUnitNonNegative(rows[1..], a);
      if exists i :: 0 <= i < |rows[1..]| && Occ(rows[1..][i].game.genres, a) > 0 {
        var i :| 0 <= i < |rows[1..]| && Occ(rows[1..][i].game.genres, a) > 0;
        assert rows[i + 1] == rows[1..][i];
      }
      if exists i :: 0 <= i < |rows| && Occ(rows[i].game.genres, a) > 0 {
        var i :| 0 <= i < |rows| && Occ(rows[i].game.genres, a) > 0;
        if i > 0 {
          assert rows[1..][i - 1] == rows[i];
        }
      }
    }
  }

  /**
   * The genre performance table has a row for genre `a` exactly when some game's
   * genre cell holds `a`, and that row's user total is the total over the games
   * listing `a`, counted once per listing.
   */
  lemma GenrePerformanceRows(rows: seq<MRow>, a: string)
    ensures (exists x :: x in AnalyzeGenrePerformance(rows) && x.genre == a)
            <==> exists i :: 0 <= i < |rows| && Occ(rows[i].game.genres, a) > 0
    ensures forall x :: x in AnalyzeGenrePerformance(rows) && x.genre == a ==> x.totalUsers == Weighted(rows, a, Users)
  {
    var ex := ExplodeRows(rows);
    GenreGroupSum(rows, a, Unit);
    SumOfUnit(GenreGroup(ex, a));
    WeightedUnitPositive(rows, a);
    GenreGroupSum(rows, a, Users);
    var table := AnalyzeGenrePerformance(rows);
    if |GenreGroup(ex, a)| > 0 {
      assert exists x :: x in table && x.genre == a;
    }
    if exists x :: x in table && x.genre == a {
      var x :| x in table && x.genre == a;
      assert |GenreGroup(ex, x.genre)| > 0;
    }
  }

  /** Worked case: games [A, B] with 10 users and [A] with 5 give A a total of 15 and B a total of 10. */
  lemma TwoGenreExample(m10: Metrics, m5: Metrics)
    requires m10.totalUsers == 10 && m5.totalUsers == 5
    ensures var rows := [MRow(Blank(Listed(["A", "B"])), m10), MRow(Blank(Listed(["A"])), m5)];
            Weighted(rows, "A", Users) == 15.0 && Weighted(rows, "B", Users) == 10.0
  {
    var rows := [MRow(Blank(Listed(["A", "B"])), m10), MRow(Blank(Listed(["A"])), m5)];
    assert rows[1..] == [MRow(Blank(Listed(["A"])), m5)];
    assert rows[1..][1..] == [];
    assert ["A", "B"][1..] == ["B"];
    assert ["B"][1..] == [];
    assert ["A"][1..] == [];
    assert Occurrences(["A", "B"], "A") == 1 && Occurrences(["A", "B"], "B") == 1;
    assert Occurrences(["A"], "A") == 1 && Occurrences(["A"], "B") == 0;
    assert Times(1, 10.0) == 10.0 && Times(1, 5.0) == 5.0 && Times(0, 5.0) == 0.0;
    assert Users(m10) == 10.0 && Users(m5) == 5.0;
    assert Occ(rows[0].game.genres, "A") == 1 && Occ(rows[1].game.genres, "A") == 1;
    assert Occ(rows[0].game.genres, "B") == 1 && Occ(rows[1].game.genres, "B") == 0;
    assert Weighted(rows[1..][1..], "A", Users) == 0.0;
    assert Weighted(rows[1..], "A", Users) == 5.0;
    assert Weighted(rows[1..], "B", Users) == 0.0;
  }
}

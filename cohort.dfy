/**
 * Cohort analysis by release year: one row per distinct release year in
 * [2000, 2020], ascending, holding the mean funnel rates of that year's games
 * and how many games were released in it.
 */
module Cohort {
  import opened Wrappers
  import opened Tables
  import opened Grouping
  import opened Games
  import opened Metrics

  const FirstYear := 2000
  const LastYear := 2020

  /** One row of the cohort table. */
  datatype CohortRow = CohortRow(
    year: int,
    avgOwnershipRate: real,
    avgEngagementRate: real,
    avgCompletionRate: real,
    avgChurnRate: real,
    gamesReleased: nat)

  function EngagementRateOf(r: MRow): real { r.metrics.engagementRate }

  /** `df[df['year'] == year]`: the games released in `y`, in table order. */
  function YearGames(rows: seq<MRow>, y: int): (r: seq<MRow>)
    ensures forall x :: x in r <==> x in rows && x.game.year == Some(y)
  {
    Select(rows, (x: MRow) => x.game.year == Some(y))
  }

  /** The year column, missing years included. */
  function YearKeys(rows: seq<MRow>): (ks: seq<Option<int>>)
    ensures |ks| == |rows|
    ensures forall i :: 0 <= i < |rows| ==> ks[i] == rows[i].game.year
  {
    seq(|rows|, i requires 0 <= i < |rows| => rows[i].game.year)
  }

  /** `sorted(df['year'].dropna().unique())`. */
  function Years(rows: seq<MRow>): (ys: seq<int>)
    ensures StrictlyIncreasing(ys)
    ensures forall y :: y in ys <==> |YearGames(rows, y)| > 0
  {
    var ys := SortedDistinct(YearKeys(rows));
    forall y ensures y in ys <==> |YearGames(rows, y)| > 0 {
      if y in ys {
        var i :| 0 <= i < |rows| && YearKeys(rows)[i] == Some(y);
        assert rows[i] in YearGames(rows, y);
      }
      if |YearGames(rows, y)| > 0 {
        var x := YearGames(rows, y)[0];
        var i :| 0 <= i < |rows| && rows[i] == x;
        assert YearKeys(rows)[i] == Some(y);
      }
    }
    ys
  }

  /** The cohort row of year `y`: the four mean rates and the game count of that year. */
  function CohortRowFor(rows: seq<MRow>, y: int): (c: CohortRow)
    requires |YearGames(rows, y)| > 0
    ensures c.year == y && c.gamesReleased == |YearGames(rows, y)| > 0
  {
    var g := YearGames(rows, y);
    CohortRow(y, Mean(g, OwnershipOf), Mean(g, EngagementRateOf), Mean(g, CompletionOf), Mean(g, ChurnOf), |g|)
  }

  predicate InRange(y: int) { FirstYear <= y <= LastYear }

  /** The cohort rows of the years `ys` that lie in range, in the order of `ys`. */
  function CohortRows(rows: seq<MRow>, ys: seq<int>): (r: seq<CohortRow>)
    requires forall i :: 0 <= i < |ys| ==> |YearGames(rows, ys[i])| > 0
    ensures |r| <= |ys|
  {
    if ys == [] then []
    else
      var last := ys[|ys| - 1];
      CohortRows(rows, ys[..|ys| - 1]) + (if InRange(last) then [CohortRowFor(rows, last)] else [])
  }

  /** The cohort table `create_cohort_data` builds. */
  function CohortTable(rows: seq<MRow>): (r: seq<CohortRow>)
    ensures |r| <= |Years(rows)|
  {
    CohortRows(rows, Years(rows))
  }

  /** `create_cohort_data`: walks the sorted distinct years, appending a row for each year in range. */
  method CreateCohortData(rows: seq<MRow>) returns (cohort: seq<CohortRow>)
    ensures cohort == CohortTable(rows)
  {
    var years := Years(rows);
    cohort := [];
    var i := 0;
    while i < |years|
      invariant 0 <= i <= |years|
      invariant cohort == CohortRows(rows, years[..i])
    {
      var year := years[i];
      assert years[..i + 1][..i] == years[..i];
      if year >= FirstYear && year <= LastYear {
        var yearGames := YearGames(rows, year);
        cohort := cohort + [CohortRow(year, Mean(yearGames, OwnershipOf), Mean(yearGames, EngagementRateOf),
                                      Mean(yearGames, CompletionOf), Mean(yearGames, ChurnOf), |yearGames|)];
      }
      i := i + 1;
    }
    assert years[..i] == years;
  }

  /** Every row of `CohortRows(rows, ys)` is the aggregate of its own year. */
  lemma {:induction false} CohortRowsAggregate(rows: seq<MRow>, ys: seq<int>)
    requires forall i :: 0 <= i < |ys| ==> |YearGames(rows, ys[i])| > 0
    ensures forall x :: x in CohortRows(rows, ys) ==>
              |YearGames(rows, x.year)| > 0 && x == CohortRowFor(rows, x.year)
  {
    if ys != [] {
      CohortRowsAggregate(rows, ys[..|ys| - 1]);
    }
  }

  /** The years of `CohortRows(rows, ys)` are exactly the in-range members of `ys`. */
  lemma {:induction false} CohortRowsYears(rows: seq<MRow>, ys: seq<int>)
    requires forall i :: 0 <= i < |ys| ==> |YearGames(rows, ys[i])| > 0
    ensures forall y :: (exists x :: x in CohortRows(rows, ys) && x.year == y) <==> y in ys && InRange(y)
  {
    if ys != [] {
      var init := ys[..|ys| - 1];
      var last := ys[|ys| - 1];
      CohortRowsYears(rows, init);
      var r := CohortRows(rows, ys);
      assert ys == init + [last];
      forall y | y in ys && InRange(y) ensures exists x :: x in r && x.year == y {
        if y == last {
          assert CohortRowFor(rows, last) in r;
        } else {
          var x :| x in CohortRows(rows, init) && x.year == y;
          assert x in r;
        }
      }
    }
  }

  /** Cohort rows in strictly ascending year order. */
  ghost predicate AscendingYears(t: seq<CohortRow>) {
    forall i, j :: 0 <= i < j < |t| ==> t[i].year < t[j].year
  }

  /** Built from ascending years, the cohort rows are in ascending year order. */
  lemma {:induction false} CohortRowsAscending(rows: seq<MRow>, ys: seq<int>)
    requires forall i :: 0 <= i < |ys| ==> |YearGames(rows, ys[i])| > 0
    requires StrictlyIncreasing(ys)
    ensures AscendingYears(CohortRows(rows, ys))
  {
    if ys != [] {
      var init := ys[..|ys| - 1];
      var last := ys[|ys| - 1];
      CohortRowsAscending(rows, init);
      CohortRowsYears(rows, init);
      var t0 := CohortRows(rows, init);
      if InRange(last) {
        var t := CohortRows(rows, ys);
        assert t == t0 + [CohortRowFor(rows, last)];
        forall i | 0 <= i < |t0| ensures t0[i].year < last {
          assert t0[i] in t0 && t0[i].year == t0[i].year;
          assert t0[i].year in init;
          var k :| 0 <= k < |init| && init[k] == t0[i].year;
          assert ys[k] < ys[|ys| - 1];
        }
      }
    }
  }

  /**
   * The cohort table has exactly one row per distinct release year in
   * [2000, 2020], ascending; each row's count is the number of games released
   * that year and its averages are the means over exactly those games.
   */
  lemma CohortTableShape(rows: seq<MRow>)
    ensures AscendingYears(CohortTable(rows))
    ensures forall y :: (exists x :: x in CohortTable(rows) && x.year == y) <==>
                        InRange(y) && exists g :: g in rows && g.game.year == Some(y)
    ensures forall x :: x in CohortTable(rows) ==>
              x.gamesReleased == |YearGames(rows, x.year)| > 0 && x == CohortRowFor(rows, x.year)
  {
    var ys := Years(rows);
    CohortRowsAggregate(rows, ys);
    CohortRowsYears(rows, ys);
    CohortRowsAscending(rows, ys);
    forall y ensures |YearGames(rows, y)| > 0 <==> exists g :: g in rows && g.game.year == Some(y) {
      if |YearGames(rows, y)| > 0 {
        assert YearGames(rows, y)[0] in YearGames(rows, y);
      }
    }
  }

  /** Over marketing rows, every year's mean ownership rate lies in [0, 1]. */
  lemma CohortOwnershipBounds(df: seq<Game>)
    ensures forall x :: x in CohortTable(CalculateMarketingMetrics(df)) ==> 0.0 <= x.avgOwnershipRate <= 1.0
  {
    var rows := CalculateMarketingMetrics(df);
    CohortTableShape(rows);
    forall x | x in CohortTable(rows) ensures 0.0 <= x.avgOwnershipRate <= 1.0 {
      var g := YearGames(rows, x.year);
      forall i | 0 <= i < |g| ensures 0.0 <= OwnershipOf(g[i]) <= 1.0 {
        assert g[i] in rows;
      }
      MeanBounds(g, OwnershipOf, 0.0, 1.0);
    }
  }
}

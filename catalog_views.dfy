/**
 * The catalog views of the second dashboard: the scored catalog exploded by
 * genre, the two genre filters over it and over the split catalog, the prize
 * table of the most recent year, the releases-per-year series, the top-twenty
 * selections and the genre and platform counts.
 */
module CatalogViews {
  import opened Wrappers
  import opened Tables
  import opened Ranking
  import opened Grouping
  import opened Text
  import opened Games

  /** Last release year the time series counts. */
  const LastReleaseYear := 2020
  /** Rows kept by each `nlargest` chart. */
  const TopGames: nat := 20
  /** Rows of the prize table and bar chart (`head(10)`). */
  const TopCountries: nat := 10

  // ----- The exploded table of scored games -----

  /** `metacritic.notna() & (metacritic > 0)`. */
  predicate Scored(g: Game) {
    g.metacritic.Some? && g.metacritic.value > 0.0
  }

  /** The split catalog restricted to scored games, before exploding. */
  function ScoredGames(df: seq<Game>): (r: seq<Game>)
    ensures AllListed(r)
    ensures forall x :: x in r <==> x in SplitGenreColumn(df) && Scored(x)
  {
    var s := SplitGenreColumn(df);
    var r := Select(s, Scored);
    forall i | 0 <= i < |r| ensures r[i].genres.Listed? {
      assert r[i] in s;
    }
    r
  }

  /** Every exploded row is a row of the table with only its genre cell replaced, by one of its own tags when present. */
  lemma {:induction false} ExplodedFrom(t: seq<Game>, x: Game)
    requires x in Explode(t)
    ensures exists g :: g in t && x.(genres := g.genres) == g &&
                        (g.genres.Listed? && x.genres.tag.Some? ==> x.genres.tag.value in g.genres.tags)
  {
    assert t != [];
    var head := ExplodeOne(t[0]);
    if x in head {
      var i :| 0 <= i < |head| && head[i] == x;
      assert t[0] in t && x.(genres := t[0].genres) == t[0];
      if t[0].genres.Listed? && x.genres.tag.Some? {
        assert |t[0].genres.tags| > 0;
        assert x.genres.tag.value == t[0].genres.tags[i];
      }
    } else {
      ExplodedFrom(t[1..], x);
      var g :| g in t[1..] && x.(genres := g.genres) == g &&
               (g.genres.Listed? && x.genres.tag.Some? ==> x.genres.tag.value in g.genres.tags);
      assert g in t;
    }
  }

  /** A listed row holding the tag `a` gives the exploded row tagged `a`. */
  lemma {:induction false} ExplodedHas(t: seq<Game>, g: Game, a: string)
    requires g in t && g.genres.Listed? && a in g.genres.tags
    ensures g.(genres := Single(Some(a))) in Explode(t)
  {
    if t[0] == g {
      var i :| 0 <= i < |g.genres.tags| && g.genres.tags[i] == a;
      assert ExplodeOne(g) == Tagged(g, g.genres.tags);
      assert ExplodeOne(g)[i] == g.(genres := Single(Some(a)));
    } else {
      ExplodedHas(t[1..], g, a);
    }
  }

  /** `df_metacritic`: the scored games exploded by genre; every row is scored and carries one genre cell. */
  function MetacriticTable(df: seq<Game>): (r: seq<Game>)
    ensures |r| >= |ScoredGames(df)|
    ensures forall x :: x in r ==> Scored(x) && x.genres.Single?
  {
    var scored := ScoredGames(df);
    forall x | x in Explode(scored) ensures Scored(x) {
      ExplodedFrom(scored, x);
    }
    Explode(scored)
  }

  /** The table is built row by row: it distributes over concatenation of catalogs. */
  lemma MetacriticTableAppend(a: seq<Game>, b: seq<Game>)
    ensures MetacriticTable(a + b) == MetacriticTable(a) + MetacriticTable(b)
  {
    assert SplitGenreColumn(a + b) == SplitGenreColumn(a) + SplitGenreColumn(b);
    SelectAppend(SplitGenreColumn(a), SplitGenreColumn(b), Scored);
    ExplodeAppend(ScoredGames(a), ScoredGames(b));
  }

  /**
   * What one catalog row contributes: nothing when unscored; one row with a
   * missing genre when its genre text is missing; otherwise one row per
   * `||`-token of its genre text, in order, each identical to the game apart
   * from its genre.
   */
  lemma MetacriticTableOfGame(g: Game)
    ensures !Scored(g) ==> MetacriticTable([g]) == []
    ensures Scored(g) && g.genres == Raw(None) ==> MetacriticTable([g]) == [g.(genres := Single(None))]
    ensures Scored(g) && g.genres.Raw? && g.genres.text.Some? ==>
              |MetacriticTable([g])| == |Split(g.genres.text.value)| &&
              forall i :: 0 <= i < |MetacriticTable([g])| ==>
                MetacriticTable([g])[i] == g.(genres := Single(Some(Split(g.genres.text.value)[i])))
  {
    var h := g.(genres := SplitGenres(g.genres));
    assert SplitGenreColumn([g]) == [h];
    assert [h][1..] == [];
    assert Select([h], Scored) == if Scored(g) then [h] else [];
    if Scored(g) {
      assert MetacriticTable([g]) == ExplodeOne(h) + Explode([]);
      if g.genres.Raw? && g.genres.text.Some? {
        var tags := Split(g.genres.text.value);
        assert h.genres == Listed(tags);
        assert ExplodeOne(h) == Tagged(h, tags);
      }
    }
  }

  /** The genre column of an exploded table. */
  function TagColumn(rows: seq<Game>): (ks: seq<Option<string>>)
    ensures |ks| == |rows|
    ensures forall i :: 0 <= i < |rows| ==> ks[i] == TagOf(rows[i].genres)
  {
    seq(|rows|, i requires 0 <= i < |rows| => TagOf(rows[i].genres))
  }

  /** A genre is a key of the tag column exactly when some row carries it. */
  lemma TagKeys(rows: seq<Game>)
    ensures forall a :: Some(a) in TagColumn(rows) <==> exists g :: g in rows && g.genres == Single(Some(a))
  {
    var ks := TagColumn(rows);
    forall a ensures Some(a) in ks <==> exists g :: g in rows && g.genres == Single(Some(a)) {
      if Some(a) in ks {
        var i :| 0 <= i < |ks| && ks[i] == Some(a);
        assert rows[i] in rows;
      }
      if exists g :: g in rows && g.genres == Single(Some(a)) {
        var g :| g in rows && g.genres == Single(Some(a));
        var i :| 0 <= i < |rows| && rows[i] == g;
        assert ks[i] == Some(a);
      }
    }
  }

  /** `unique_genres`: each genre listed by some scored game, once. */
  function CatalogGenres(df: seq<Game>): (r: seq<string>)
    ensures NoDuplicates(r)
    ensures forall a :: a in r <==> exists g :: g in ScoredGames(df) && ListHas(g.genres, a)
    ensures forall a :: a in r <==> exists x :: x in MetacriticTable(df) && x.genres == Single(Some(a))
  {
    var scored := ScoredGames(df);
    var table := MetacriticTable(df);
    TagKeys(table);
    forall a ensures (exists x :: x in table && x.genres == Single(Some(a))) <==>
                     exists g :: g in scored && ListHas(g.genres, a)
    {
      if exists x :: x in table && x.genres == Single(Some(a)) {
        var x :| x in table && x.genres == Single(Some(a));
        ExplodedFrom(scored, x);
        var g :| g in scored && x.(genres := g.genres) == g &&
                 (g.genres.Listed? && x.genres.tag.Some? ==> x.genres.tag.value in g.genres.tags);
        var i :| 0 <= i < |scored| && scored[i] == g;
        assert ListHas(g.genres, a);
      }
      if exists g :: g in scored && ListHas(g.genres, a) {
        var g :| g in scored && ListHas(g.genres, a);
        ExplodedHas(scored, g, a);
      }
    }
    Distinct(TagColumn(table))
  }

  // ----- The genre filters -----

  /** The exploded-table filter of the scatter, box, pie, histogram, correlation and trend charts. */
  function GenreView(df: seq<Game>, sel: string): (r: seq<Game>)
    ensures sel == AllGames ==> r == MetacriticTable(df)
    ensures sel != AllGames ==> forall x :: x in r <==> x in MetacriticTable(df) && x.genres == Single(Some(sel))
  {
    FilterExploded(MetacriticTable(df), sel, GenresOf)
  }

  /** The list filter of the time series, ESRB, platform and top-twenty charts, over the split catalog. */
  function ListedView(df: seq<Game>, sel: string): (r: seq<Game>)
    ensures sel == AllGames ==> r == SplitGenreColumn(df)
    ensures sel != AllGames ==> forall x :: x in r <==> x in SplitGenreColumn(df) && ListHas(x.genres, sel)
  {
    FilterListed(SplitGenreColumn(df), sel, GenresOf)
  }

  /**
   * On a split table the two filters agree: the exploded rows equal to `sel`
   * are exactly the rows whose genre list holds `sel`, each with its genre
   * cell replaced by `sel`.
   */
  lemma ExplodedFilterMatchesListed(t: seq<Game>, sel: string)
    requires AllListed(t) && sel != AllGames
    ensures forall x :: x in FilterExploded(Explode(t), sel, GenresOf) <==>
                        exists g :: g in FilterListed(t, sel, GenresOf) && x == g.(genres := Single(Some(sel)))
  {
    forall x | x in FilterExploded(Explode(t), sel, GenresOf)
      ensures exists g :: g in FilterListed(t, sel, GenresOf) && x == g.(genres := Single(Some(sel)))
    {
      ExplodedFrom(t, x);
      var g :| g in t && x.(genres := g.genres) == g &&
               (g.genres.Listed? && x.genres.tag.Some? ==> x.genres.tag.value in g.genres.tags);
      var i :| 0 <= i < |t| && t[i] == g;
      assert g.genres.Listed?;
      assert g in FilterListed(t, sel, GenresOf);
    }
    forall g | g in FilterListed(t, sel, GenresOf)
      ensures g.(genres := Single(Some(sel))) in FilterExploded(Explode(t), sel, GenresOf)
    {
      ExplodedHas(t, g, sel);
    }
  }

  /** Over the scored catalog: a genre's exploded view holds exactly the scored games listing it. */
  lemma GenreViewOfScored(df: seq<Game>, sel: string)
    requires sel != AllGames
    ensures forall x :: x in GenreView(df, sel) <==>
                        exists g :: g in ScoredGames(df) && ListHas(g.genres, sel) && x == g.(genres := Single(Some(sel)))
  {
    ExplodedFilterMatchesListed(ScoredGames(df), sel);
  }

  // ----- The prize table -----

  /** A row of the country prize table, its prize money already cleaned and parsed. */
  datatype Country = Country(name: string, year: Option<int>, prizeMoney: real)

  function PrizeOf(c: Country): real { c.prizeMoney }

  /** `df_countries['Year'].max()`: the largest present year, None (NaN) when no row has one. */
  function MostRecentYear(cs: seq<Country>): (m: Option<int>)
    ensures m.None? <==> forall i :: 0 <= i < |cs| ==> cs[i].year.None?
    ensures m.Some? ==> exists i :: 0 <= i < |cs| && cs[i].year == m
    ensures m.Some? ==> forall i :: 0 <= i < |cs| && cs[i].year.Some? ==> cs[i].year.value <= m.value
  {
    if cs == [] then None
    else
      var init := cs[..|cs| - 1];
      var m0 := MostRecentYear(init);
      var y := cs[|cs| - 1].year;
      assert forall i :: 0 <= i < |init| ==> init[i] == cs[i];
      if y.None? then m0
      else if m0.Some? && m0.value >= y.value then m0
      else y
  }

  /** `Year == most_recent_year`: never true when the maximum is NaN. */
  predicate InYear(c: Country, m: Option<int>) {
    m.Some? && c.year == m
  }

  /** `df_recent_year`: the rows of the most recent year, largest prize first. */
  function RecentYearTable(cs: seq<Country>): (r: seq<Country>)
    ensures NonIncreasing(r, PrizeOf)
    ensures forall c :: multiset(r)[c] == if InYear(c, MostRecentYear(cs)) then multiset(cs)[c] else 0
  {
    var m := MostRecentYear(cs);
    var p := (c: Country) => InYear(c, m);
    SelectCount(cs, p);
    SortDesc(Select(cs, p), PrizeOf)
  }

  /** `c` carries a year no other row exceeds. */
  ghost predicate LatestYear(cs: seq<Country>, c: Country) {
    c.year.Some? && forall i :: 0 <= i < |cs| && cs[i].year.Some? ==> cs[i].year.value <= c.year.value
  }

  /** The recent-year table holds exactly the rows carrying the largest present year. */
  lemma RecentYearRows(cs: seq<Country>)
    ensures forall c :: c in RecentYearTable(cs) <==> c in cs && LatestYear(cs, c)
  {
    var m := MostRecentYear(cs);
    var r := RecentYearTable(cs);
    forall c ensures c in r <==> c in cs && LatestYear(cs, c) {
      assert c in r <==> multiset(r)[c] > 0;
      assert c in cs <==> multiset(cs)[c] > 0;
      if c in cs && LatestYear(cs, c) {
        var i :| 0 <= i < |cs| && cs[i].year == m;
        var k :| 0 <= k < |cs| && cs[k] == c;
        assert c.year.value <= m.value;
        assert m.value <= c.year.value;
        assert InYear(c, m);
      }
    }
  }

  /** `df_recent_year.head(10)`: at most ten rows, a prefix of the table; no row left out has a larger prize. */
  function PrizeLeaders(cs: seq<Country>): (r: seq<Country>)
    ensures |r| == if |RecentYearTable(cs)| <= TopCountries then |RecentYearTable(cs)| else TopCountries
    ensures r == RecentYearTable(cs)[..|r|]
    ensures NonIncreasing(r, PrizeOf)
    ensures forall c, d :: c in RecentYearTable(cs)[|r|..] && d in r ==> c.prizeMoney <= d.prizeMoney
  {
    var t := RecentYearTable(cs);
    TakeOrdered(t, TopCountries, PrizeOf);
    Take(t, TopCountries)
  }

  // ----- Releases per year -----

  /** `year <= 2020`: a missing year compares false and is dropped. */
  predicate ReleasedBy(g: Game) {
    g.year.Some? && g.year.value <= LastReleaseYear
  }

  /** The rows the time series counts: the list view released by 2020. */
  function CountedReleases(df: seq<Game>, sel: string): (r: seq<Game>)
    ensures forall g :: g in r <==> g in ListedView(df, sel) && ReleasedBy(g)
  {
    Select(ListedView(df, sel), ReleasedBy)
  }

  /** The year column. */
  function YearsOf(rows: seq<Game>): (ks: seq<Option<int>>)
    ensures |ks| == |rows|
    ensures forall i :: 0 <= i < |rows| ==> ks[i] == rows[i].year
  {
    seq(|rows|, i requires 0 <= i < |rows| => rows[i].year)
  }

  /** The rows released in year `y`. */
  function ReleasedIn(rows: seq<Game>, y: int): (r: seq<Game>)
    ensures forall g :: g in r <==> g in rows && g.year == Some(y)
  {
    Select(rows, (g: Game) => g.year == Some(y))
  }

  /** The group size of year `y` is the number of rows released in `y`. */
  lemma {:induction false} YearCount(rows: seq<Game>, y: int)
    ensures CountOf(YearsOf(rows), y) == |ReleasedIn(rows, y)|
  {
    if rows != [] {
      YearCount(rows[1..], y);
      assert YearsOf(rows) == [rows[0].year] + YearsOf(rows[1..]);
      CountOfAppend([rows[0].year], YearsOf(rows[1..]), y);
      assert [rows[0].year][..0] == [];
    }
  }

  /** `groupby('year').size()`: one tally per present year, years ascending. */
  function YearTallies(rows: seq<Game>): seq<Tally<int>>
  {
    var ks := YearsOf(rows);
    Tallies(SortedDistinct(ks), ks)
  }

  /** A year is a key of the year column exactly when some row was released in it. */
  lemma YearKeys(rows: seq<Game>)
    ensures forall y :: Some(y) in YearsOf(rows) <==> exists g :: g in rows && g.year == Some(y)
  {
    var ks := YearsOf(rows);
    forall y ensures Some(y) in ks <==> exists g :: g in rows && g.year == Some(y) {
      if Some(y) in ks {
        var i :| 0 <= i < |ks| && ks[i] == Some(y);
        assert rows[i] in rows;
      }
      if exists g :: g in rows && g.year == Some(y) {
        var g :| g in rows && g.year == Some(y);
        var i :| 0 <= i < |rows| && rows[i] == g;
        assert ks[i] == Some(y);
      }
    }
  }

  /**
   * The year tallies are in ascending year order, hold exactly the years in
   * which some row was released, and count the rows of their year.
   */
  lemma YearTalliesShape(rows: seq<Game>)
    ensures forall i, j :: 0 <= i < j < |YearTallies(rows)| ==> YearTallies(rows)[i].key < YearTallies(rows)[j].key
    ensures forall y :: (exists t :: t in YearTallies(rows) && t.key == y) <==> exists g :: g in rows && g.year == Some(y)
    ensures forall t :: t in YearTallies(rows) ==> t.count == |ReleasedIn(rows, t.key)| > 0
  {
    var ks := YearsOf(rows);
    var d := SortedDistinct(ks);
    var r := YearTallies(rows);
    YearKeys(rows);
    forall t | t in r ensures t.count == |ReleasedIn(rows, t.key)| > 0 {
      var i :| 0 <= i < |r| && r[i] == t;
      assert t.key == d[i] && d[i] in d;
      YearCount(rows, t.key);
      CountOfPositive(ks, t.key);
    }
    forall y | (exists t :: t in r && t.key == y) ensures y in d {
      var t :| t in r && t.key == y;
      var i :| 0 <= i < |r| && r[i] == t;
    }
    forall y | y in d ensures exists t :: t in r && t.key == y {
      var i :| 0 <= i < |d| && d[i] == y;
      assert r[i] in r;
    }
  }

  /** The year tallies add up to the number of rows with a year. */
  lemma YearTalliesTotal(rows: seq<Game>)
    requires forall g :: g in rows ==> g.year.Some?
    ensures SumOf(YearTallies(rows), CountKey) == |rows| as real
  {
    var ks := YearsOf(rows);
    var d := SortedDistinct(ks);
    forall i | 0 <= i < |ks| ensures ks[i].Some? {
      assert rows[i] in rows;
    }
    TalliesSum(d, ks);
    SumCountsIsCountIn(d, ks);
    CountInAll(ks, d);
    CountPresentAll(ks);
  }

  /**
   * `update_time_series`: the release counts per year of the counted rows. The series
   * has one point per year up to 2020 in which some selected game was released, in
   * ascending year order; each count is the number of those games released that
   * year, and the counts add up to the number of counted games.
   */
  function ReleasesPerYear(df: seq<Game>, sel: string): (r: seq<Tally<int>>)
    ensures forall i, j :: 0 <= i < j < |r| ==> r[i].key < r[j].key
    ensures forall y :: (exists t :: t in r && t.key == y) <==> exists g :: g in CountedReleases(df, sel) && g.year == Some(y)
    ensures forall t :: t in r ==> t.key <= LastReleaseYear && t.count == |ReleasedIn(CountedReleases(df, sel), t.key)| > 0
    ensures SumOf(r, CountKey) == |CountedReleases(df, sel)| as real
  {
    var kept := CountedReleases(df, sel);
    YearTalliesShape(kept);
    YearTalliesTotal(kept);
    forall t | t in YearTallies(kept) ensures t.key <= LastReleaseYear {
      var g :| g in kept && g.year == Some(t.key);
    }
    YearTallies(kept)
  }

  // ----- Top-twenty selections -----

  /** The numeric columns the top-twenty charts rank by. */
  datatype Column = Metacritic | Owned | Beaten

  /** A row's value in column `c`; None is NaN. */
  function ValueIn(c: Column, g: Game): Option<real> {
    match c
    case Metacritic => g.metacritic
    case Owned => if g.owned.Some? then Some(g.owned.value as real) else None
    case Beaten => if g.beaten.Some? then Some(g.beaten.value as real) else None
  }

  /** The ranking key of column `c`; only present values are ever ranked. */
  function RankBy(c: Column): (f: Game -> real)
    ensures forall g :: f(g) == ValueIn(c, g).GetOr(0.0)
  {
    (g: Game) => ValueIn(c, g).GetOr(0.0)
  }

  /** The rows with a value in column `c`: `nlargest` passes over NaN. */
  function Ranked(rows: seq<Game>, c: Column): (r: seq<Game>)
    ensures forall g :: g in r <==> g in rows && ValueIn(c, g).Some?
  {
    Select(rows, (g: Game) => ValueIn(c, g).Some?)
  }

  /** `nlargest(20, c)`: twenty rows with a value (all of them when there are fewer), largest first. */
  function NLargest(rows: seq<Game>, c: Column): (r: seq<Game>)
    ensures |r| == if |Ranked(rows, c)| <= TopGames then |Ranked(rows, c)| else TopGames
    ensures NonIncreasing(r, RankBy(c))
    ensures forall g :: g in r ==> g in rows && ValueIn(c, g).Some?
    ensures multiset(r) <= multiset(Ranked(rows, c))
    ensures |Ranked(rows, c)| <= TopGames ==> multiset(r) == multiset(Ranked(rows, c))
  {
    var present := Ranked(rows, c);
    var r := TopN(present, TopGames, RankBy(c));
    forall g | g in r ensures g in present {
      assert g in multiset(r);
    }
    r
  }

  /** No row with a value that `nlargest` leaves out has a larger value than a row it keeps. */
  lemma NLargestOmitted(rows: seq<Game>, c: Column)
    ensures forall g, h :: g in rows && ValueIn(c, g).Some? && g !in NLargest(rows, c) && h in NLargest(rows, c) ==>
                           ValueIn(c, h).Some? && ValueIn(c, g).value <= ValueIn(c, h).value
  {
    var present := Ranked(rows, c);
    var r := NLargest(rows, c);
    forall g, h | g in rows && ValueIn(c, g).Some? && g !in r && h in r
      ensures ValueIn(c, h).Some? && ValueIn(c, g).value <= ValueIn(c, h).value
    {
      TopNOmitted(present, TopGames, RankBy(c), g);
    }
  }

  /** The kept rows in value order: each row's value is at least that of every later row. */
  lemma NLargestOrdered(rows: seq<Game>, c: Column)
    ensures forall i, j :: 0 <= i < j < |NLargest(rows, c)| ==>
              ValueIn(c, NLargest(rows, c)[i]).Some? && ValueIn(c, NLargest(rows, c)[j]).Some? &&
              ValueIn(c, NLargest(rows, c)[j]).value <= ValueIn(c, NLargest(rows, c)[i]).value
  {
    var r := NLargest(rows, c);
    forall i, j | 0 <= i < j < |r|
      ensures ValueIn(c, r[i]).Some? && ValueIn(c, r[j]).Some? && ValueIn(c, r[j]).value <= ValueIn(c, r[i]).value
    {
      assert r[i] in r && r[j] in r;
      assert RankBy(c)(r[j]) <= RankBy(c)(r[i]);
    }
  }

  /** `update_scatter`: the genre view's twenty best scores, unnamed games dropped afterwards. */
  function ScatterTop(df: seq<Game>, sel: string): (r: seq<Game>)
    ensures |r| <= TopGames
    ensures NonIncreasing(r, RankBy(Metacritic))
    ensures forall g :: g in r ==> g in GenreView(df, sel) && g.name.Some? && Scored(g)
    ensures forall g :: multiset(r)[g] == if g.name.Some? then multiset(NLargest(GenreView(df, sel), Metacritic))[g] else 0
  {
    var top := NLargest(GenreView(df, sel), Metacritic);
    SelectNonIncreasing(top, (g: Game) => g.name.Some?, RankBy(Metacritic));
    SelectCount(top, (g: Game) => g.name.Some?);
    Select(top, (g: Game) => g.name.Some?)
  }

  /** A selection of rows with a value, ordered by column Owned, is ordered by owned count. */
  lemma OwnedTransfer(rows: seq<Game>, r: seq<Game>)
    requires forall g :: g in r ==> g in rows && ValueIn(Owned, g).Some?
    requires forall i, j :: 0 <= i < j < |r| ==>
               ValueIn(Owned, r[i]).Some? && ValueIn(Owned, r[j]).Some? && ValueIn(Owned, r[j]).value <= ValueIn(Owned, r[i]).value
    ensures forall g :: g in r ==> g in rows && g.owned.Some?
    ensures forall i, j :: 0 <= i < j < |r| ==> r[i].owned.Some? && r[j].owned.Some? && r[j].owned.value <= r[i].owned.value
  {
    forall i, j | 0 <= i < j < |r| ensures r[i].owned.Some? && r[j].owned.Some? && r[j].owned.value <= r[i].owned.value {
      assert ValueIn(Owned, r[i]).Some? && ValueIn(Owned, r[j]).Some?;
    }
  }

  /** In column Owned the kept rows are ordered by owned count. */
  lemma OwnedOrder(rows: seq<Game>)
    ensures forall g :: g in NLargest(rows, Owned) ==> g in rows && g.owned.Some?
    ensures forall i, j :: 0 <= i < j < |NLargest(rows, Owned)| ==>
              NLargest(rows, Owned)[i].owned.Some? && NLargest(rows, Owned)[j].owned.Some? &&
              NLargest(rows, Owned)[j].owned.value <= NLargest(rows, Owned)[i].owned.value
  {
    NLargestOrdered(rows, Owned);
    OwnedTransfer(rows, NLargest(rows, Owned));
  }

  /** No row with an owned count outside selection `r` has a larger count than a row in it. */
  lemma OwnedOmittedTransfer(rows: seq<Game>, r: seq<Game>)
    requires forall g, h :: g in rows && ValueIn(Owned, g).Some? && g !in r && h in r ==>
               ValueIn(Owned, h).Some? && ValueIn(Owned, g).value <= ValueIn(Owned, h).value
    ensures forall g, h :: g in rows && g.owned.Some? && g !in r && h in r ==> h.owned.Some? && g.owned.value <= h.owned.value
  {
    forall g, h | g in rows && g.owned.Some? && g !in r && h in r ensures h.owned.Some? && g.owned.value <= h.owned.value {
      assert ValueIn(Owned, g).Some? && ValueIn(Owned, h).Some?;
    }
  }

  /** No row with an owned count that `nlargest` leaves out has a larger count than a row it keeps. */
  lemma OwnedOmitted(rows: seq<Game>)
    ensures forall g, h :: g in rows && g.owned.Some? && g !in NLargest(rows, Owned) && h in NLargest(rows, Owned) ==>
              h.owned.Some? && g.owned.value <= h.owned.value
  {
    NLargestOmitted(rows, Owned);
    OwnedOmittedTransfer(rows, NLargest(rows, Owned));
  }

  /** `update_ownership_bar`: the twenty most-owned games of the list view. */
  function MostOwned(df: seq<Game>, sel: string): (r: seq<Game>)
    ensures |r| == if |Ranked(ListedView(df, sel), Owned)| <= TopGames then |Ranked(ListedView(df, sel), Owned)| else TopGames
    ensures forall g :: g in r ==> g in ListedView(df, sel) && g.owned.Some?
    ensures multiset(r) <= multiset(Ranked(ListedView(df, sel), Owned))
    ensures |Ranked(ListedView(df, sel), Owned)| <= TopGames ==> multiset(r) == multiset(Ranked(ListedView(df, sel), Owned))
    ensures forall i, j :: 0 <= i < j < |r| ==> r[i].owned.Some? && r[j].owned.Some? && r[j].owned.value <= r[i].owned.value
    ensures forall g, h :: g in ListedView(df, sel) && g.owned.Some? && g !in r && h in r ==>
                           h.owned.Some? && g.owned.value <= h.owned.value
  {
    var view := ListedView(df, sel);
    var r := NLargest(view, Owned);
    assert |r| == if |Ranked(view, Owned)| <= TopGames then |Ranked(view, Owned)| else TopGames;
    OwnedOrder(view);
    OwnedOmitted(view);
    r
  }

  /** A selection of rows with a value, ordered by column Beaten, is ordered by beaten count. */
  lemma BeatenTransfer(rows: seq<Game>, r: seq<Game>)
    requires forall g :: g in r ==> g in rows && ValueIn(Beaten, g).Some?
    requires forall i, j :: 0 <= i < j < |r| ==>
               ValueIn(Beaten, r[i]).Some? && ValueIn(Beaten, r[j]).Some? && ValueIn(Beaten, r[j]).value <= ValueIn(Beaten, r[i]).value
    ensures forall g :: g in r ==> g in rows && g.beaten.Some?
    ensures forall i, j :: 0 <= i < j < |r| ==> r[i].beaten.Some? && r[j].beaten.Some? && r[j].beaten.value <= r[i].beaten.value
  {
    forall i, j | 0 <= i < j < |r| ensures r[i].beaten.Some? && r[j].beaten.Some? && r[j].beaten.value <= r[i].beaten.value {
      assert ValueIn(Beaten, r[i]).Some? && ValueIn(Beaten, r[j]).Some?;
    }
  }

  /** In column Beaten the kept rows are ordered by beaten count. */
  lemma BeatenOrder(rows: seq<Game>)
    ensures forall g :: g in NLargest(rows, Beaten) ==> g in rows && g.beaten.Some?
    ensures forall i, j :: 0 <= i < j < |NLargest(rows, Beaten)| ==>
              NLargest(rows, Beaten)[i].beaten.Some? && NLargest(rows, Beaten)[j].beaten.Some? &&
              NLargest(rows, Beaten)[j].beaten.value <= NLargest(rows, Beaten)[i].beaten.value
  {
    NLargestOrdered(rows, Beaten);
    BeatenTransfer(rows, NLargest(rows, Beaten));
  }

  /** No row with a beaten count outside selection `r` has a larger count than a row in it. */
  lemma BeatenOmittedTransfer(rows: seq<Game>, r: seq<Game>)
    requires forall g, h :: g in rows && ValueIn(Beaten, g).Some? && g !in r && h in r ==>
               ValueIn(Beaten, h).Some? && ValueIn(Beaten, g).value <= ValueIn(Beaten, h).value
    ensures forall g, h :: g in rows && g.beaten.Some? && g !in r && h in r ==> h.beaten.Some? && g.beaten.value <= h.beaten.value
  {
    forall g, h | g in rows && g.beaten.Some? && g !in r && h in r ensures h.beaten.Some? && g.beaten.value <= h.beaten.value {
      assert ValueIn(Beaten, g).Some? && ValueIn(Beaten, h).Some?;
    }
  }

  /** No row with a beaten count that `nlargest` leaves out has a larger count than a row it keeps. */
  lemma BeatenOmitted(rows: seq<Game>)
    ensures forall g, h :: g in rows && g.beaten.Some? && g !in NLargest(rows, Beaten) && h in NLargest(rows, Beaten) ==>
              h.beaten.Some? && g.beaten.value <= h.beaten.value
  {
    NLargestOmitted(rows, Beaten);
    BeatenOmittedTransfer(rows, NLargest(rows, Beaten));
  }

  /** `update_completion_bar`: the twenty most-beaten games of the list view. */
  function MostBeaten(df: seq<Game>, sel: string): (r: seq<Game>)
    ensures |r| == if |Ranked(ListedView(df, sel), Beaten)| <= TopGames then |Ranked(ListedView(df, sel), Beaten)| else TopGames
    ensures forall g :: g in r ==> g in ListedView(df, sel) && g.beaten.Some?
    ensures multiset(r) <= multiset(Ranked(ListedView(df, sel), Beaten))
    ensures |Ranked(ListedView(df, sel), Beaten)| <= TopGames ==> multiset(r) == multiset(Ranked(ListedView(df, sel), Beaten))
    ensures forall i, j :: 0 <= i < j < |r| ==> r[i].beaten.Some? && r[j].beaten.Some? && r[j].beaten.value <= r[i].beaten.value
    ensures forall g, h :: g in ListedView(df, sel) && g.beaten.Some? && g !in r && h in r ==>
                           h.beaten.Some? && g.beaten.value <= h.beaten.value
  {
    var view := ListedView(df, sel);
    var r := NLargest(view, Beaten);
    assert |r| == if |Ranked(view, Beaten)| <= TopGames then |Ranked(view, Beaten)| else TopGames;
    BeatenOrder(view);
    BeatenOmitted(view);
    r
  }

  // ----- Value counts -----

  /** When every row carries the genre `a`, the tag column is one group: `a`, of the table's length. */
  lemma TagColumnOfOneGenre(rows: seq<Game>, a: string)
    requires forall g :: g in rows ==> g.genres == Single(Some(a))
    ensures |Distinct(TagColumn(rows))| <= 1
    ensures CountOf(TagColumn(rows), a) == |rows|
  {
    var ks := TagColumn(rows);
    forall i | 0 <= i < |ks| ensures ks[i] == Some(a) {
      assert rows[i] in rows;
    }
    CountOfAll(ks, a);
    DistinctOfConstant(ks, a);
  }

  /**
   * `update_pie_chart`: the genre counts of the genre view. Each slice counts the
   * rows of its genre and the slices add up to the rows with a genre. For one
   * selected genre the pie has at most one slice: that genre, counting every row
   * of the view.
   */
  function GenreCounts(df: seq<Game>, sel: string): (r: seq<Tally<string>>)
    ensures NonIncreasing(r, CountKey)
    ensures forall a :: (exists t :: t in r && t.key == a) <==> exists g :: g in GenreView(df, sel) && g.genres == Single(Some(a))
    ensures sel != AllGames ==> |r| <= 1 && forall t :: t in r ==> t.key == sel && t.count == |GenreView(df, sel)|
    ensures forall t :: t in r ==> t.count == CountOf(TagColumn(GenreView(df, sel)), t.key)
    ensures SumOf(r, CountKey) == CountPresent(TagColumn(GenreView(df, sel))) as real
  {
    var view := GenreView(df, sel);
    TagKeys(view);
    OneGenreView(df, sel);
    ValueCounts(TagColumn(view))
  }

  /** A selected genre's view is one group: that genre, counting every row of the view. */
  lemma OneGenreView(df: seq<Game>, sel: string)
    ensures sel != AllGames ==>
              |Distinct(TagColumn(GenreView(df, sel)))| <= 1 &&
              CountOf(TagColumn(GenreView(df, sel)), sel) == |GenreView(df, sel)|
  {
    if sel != AllGames {
      TagColumnOfOneGenre(GenreView(df, sel), sel);
    }
  }

  /**
   * `update_pie_chart` once `update_boxplot('All Games')` has run. That callback makes the
   * genre column of `df_metacritic` itself a categorical over the table's genres, and
   * `value_counts` of a categorical column lists every category, with count 0 for a
   * category the view lacks. Its in-place re-sort of the table changes no count.
   */
  function GenreCountsCategorical(df: seq<Game>, sel: string): (r: seq<Tally<string>>)
    ensures |r| == |CatalogGenres(df)|
    ensures NonIncreasing(r, CountKey)
    ensures forall a :: (exists t :: t in r && t.key == a) <==> a in CatalogGenres(df)
    ensures sel == AllGames ==> forall t :: t in r ==> t.count > 0
    ensures sel != AllGames ==> forall t :: t in r ==> t.count == if t.key == sel then |GenreView(df, sel)| else 0
    ensures forall t :: t in r ==> t.count == CountOf(TagColumn(GenreView(df, sel)), t.key)
  {
    var view := GenreView(df, sel);
    var ks := TagColumn(view);
    var r := CategoryCounts(CatalogGenres(df), ks);
    TagKeys(view);
    forall t | t in r
      ensures sel == AllGames ==> t.count > 0
      ensures sel != AllGames ==> t.count == if t.key == sel then |view| else 0
    {
      if sel == AllGames {
        CountOfPositive(ks, t.key);
      } else if t.key == sel {
        TagColumnOfOneGenre(view, sel);
      } else {
        CountOfAbsent(ks, t.key);
      }
    }
    r
  }

  /** The non-zero slices of the categorical pie are exactly the slices of the pie over the table as loaded. */
  lemma CategoricalPieNonZero(df: seq<Game>, sel: string)
    ensures forall t :: t in GenreCounts(df, sel) <==> t in GenreCountsCategorical(df, sel) && t.count > 0
  {
    var view := GenreView(df, sel);
    var ks := TagColumn(view);
    var before := GenreCounts(df, sel);
    var after := GenreCountsCategorical(df, sel);
    assert before == ValueCounts(ks);
    assert after == CategoryCounts(CatalogGenres(df), ks);
    TagKeys(view);
    forall t | t in before ensures t in after && t.count > 0 {
      assert Some(t.key) in ks;
      var x :| x in view && x.genres == Single(Some(t.key));
      assert x in MetacriticTable(df);
      var u :| u in after && u.key == t.key;
      assert u == t;
    }
    forall t | t in after && t.count > 0 ensures t in before {
      if Some(t.key) !in ks {
        CountOfAbsent(ks, t.key);
      }
      var u :| u in before && u.key == t.key;
      assert u == t;
    }
  }

  /** The platform column after `split_platforms` and `explode`: one entry per token, one NaN for no token. */
  function PlatformCells(g: Game): (ks: seq<Option<string>>)
    ensures |ks| >= 1
  {
    var toks := SplitField(g.platforms);
    if toks == [] then [None] else seq(|toks|, i requires 0 <= i < |toks| => Some(toks[i]))
  }

  /** The exploded platform column of a table. */
  function PlatformColumn(rows: seq<Game>): seq<Option<string>>
  {
    if rows == [] then [] else PlatformColumn(rows[..|rows| - 1]) + PlatformCells(rows[|rows| - 1])
  }

  /** The number of platform tokens of a table, untrimmed, duplicates included. */
  function TokenTotal(rows: seq<Game>): nat
  {
    if rows == [] then 0 else TokenTotal(rows[..|rows| - 1]) + |SplitField(rows[|rows| - 1].platforms)|
  }

  /** How many times the token `p` occurs across a table's platform fields. */
  function TokenCount(rows: seq<Game>, p: string): nat
  {
    if rows == [] then 0 else TokenCount(rows[..|rows| - 1], p) + Occurrences(SplitField(rows[|rows| - 1].platforms), p)
  }

  /** The cells of a token list count each token as often as it occurs. */
  lemma {:induction false} TokenCellsCount(toks: seq<string>, p: string)
    ensures CountOf(seq(|toks|, i requires 0 <= i < |toks| => Some(toks[i])), p) == Occurrences(toks, p)
    ensures CountPresent(seq(|toks|, i requires 0 <= i < |toks| => Some(toks[i]))) == |toks|
  {
    var ks := seq(|toks|, i requires 0 <= i < |toks| => Some(toks[i]));
    CountPresentAll(ks);
    if toks != [] {
      var rest := seq(|toks| - 1, i requires 0 <= i < |toks| - 1 => Some(toks[1..][i]));
      TokenCellsCount(toks[1..], p);
      assert ks == [Some(toks[0])] + rest;
      CountOfAppend([Some(toks[0])], rest, p);
      assert [Some(toks[0])][..0] == [];
    }
  }

  /** The platform column counts each token once per occurrence, and holds one present entry per token. */
  lemma {:induction false} PlatformColumnCounts(rows: seq<Game>, p: string)
    ensures CountOf(PlatformColumn(rows), p) == TokenCount(rows, p)
    ensures CountPresent(PlatformColumn(rows)) == TokenTotal(rows)
  {
    if rows != [] {
      var init := rows[..|rows| - 1];
      var g := rows[|rows| - 1];
      PlatformColumnCounts(init, p);
      CountOfAppend(PlatformColumn(init), PlatformCells(g), p);
      CountPresentAppend(PlatformColumn(init), PlatformCells(g));
      var toks := SplitField(g.platforms);
      if toks == [] {
        var none: seq<Option<string>> := [None];
        assert none[..0] == [];
      } else {
        TokenCellsCount(toks, p);
      }
    }
  }

  /** A token is counted exactly when some row's platform field holds it. */
  lemma {:induction false} TokenCountPositive(rows: seq<Game>, p: string)
    ensures TokenCount(rows, p) > 0 <==> exists g :: g in rows && p in SplitField(g.platforms)
  {
    if rows != [] {
      var init := rows[..|rows| - 1];
      var g := rows[|rows| - 1];
      TokenCountPositive(init, p);
      OccurrencesPositive(SplitField(g.platforms), p);
      assert rows == init + [g];
    }
  }

  /**
   * `update_platform_chart`: the platform counts of the list view. Tokens are
   * not trimmed; a row without a platform field adds nothing; each count is
   * the number of occurrences of its token, and the counts add up to the
   * number of tokens.
   */
  function PlatformCounts(df: seq<Game>, sel: string): (r: seq<Tally<string>>)
    ensures NonIncreasing(r, CountKey)
    ensures forall t :: t in r ==> t.count == TokenCount(ListedView(df, sel), t.key) > 0
    ensures forall p :: TokenCount(ListedView(df, sel), p) > 0 ==> exists t :: t in r && t.key == p
    ensures SumOf(r, CountKey) == TokenTotal(ListedView(df, sel)) as real
  {
    var view := ListedView(df, sel);
    var ks := PlatformColumn(view);
    forall p ensures CountOf(ks, p) == TokenCount(view, p) {
      PlatformColumnCounts(view, p);
    }
    forall p | TokenCount(view, p) > 0 ensures Some(p) in ks {
      CountOfPresent(ks, p);
    }
    PlatformColumnCounts(view, "");
    ValueCounts(ks)
  }
}

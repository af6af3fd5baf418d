/**
 * The arithmetic behind the marketing dashboard's genre-filtered charts: the
 * customer lifecycle funnel, the engagement-score average, the churn scatter's
 * rows and the market penetration by platform.
 */
module MarketingCallbacks {
  import opened Wrappers
  import opened Tables
  import opened Ranking
  import opened Grouping
  import opened Text
  import opened Games
  import opened Metrics

  /** Rows whose metrics are the ones `calculate_marketing_metrics` gives their game. */
  ghost predicate Computed(rows: seq<MRow>) {
    forall i :: 0 <= i < |rows| ==> rows[i].metrics == ComputeMetrics(rows[i].game)
  }

  lemma CalculatedRowsAreComputed(df: seq<Game>)
    ensures Computed(CalculateMarketingMetrics(df))
  {
  }

  /** The genre filter on the unexploded marketing table (list membership, or everything). */
  function ListedRows(rows: seq<MRow>, sel: string): (r: seq<MRow>)
    ensures sel == AllGames ==> r == rows
    ensures sel != AllGames ==> forall x :: x in r <==> x in rows && ListHas(x.game.genres, sel)
  {
    FilterListed(rows, sel, RowGenres)
  }

  lemma {:induction false} ComputedSelect(rows: seq<MRow>, p: MRow -> bool)
    requires Computed(rows)
    ensures Computed(Select(rows, p))
  {
    var s := Select(rows, p);
    forall i | 0 <= i < |s| ensures s[i].metrics == ComputeMetrics(s[i].game) {
      assert s[i] in rows;
    }
  }

  lemma ComputedListedRows(rows: seq<MRow>, sel: string)
    requires Computed(rows)
    ensures Computed(ListedRows(rows, sel))
  {
    var s := ListedRows(rows, sel);
    forall i | 0 <= i < |s| ensures s[i].metrics == ComputeMetrics(s[i].game) {
      assert s[i] in rows;
    }
  }

  // ---------------------------------------------------------------------------
  // Customer lifecycle funnel
  // ---------------------------------------------------------------------------

  function OwnedOf(r: MRow): real { Filled(r.game.owned) as real }
  function PlayingOf(r: MRow): real { Filled(r.game.playing) as real }
  function BeatenOf(r: MRow): real { Filled(r.game.beaten) as real }
  function UsersOf(r: MRow): real { r.metrics.totalUsers as real }

  /**
   * The four funnel stage totals (awareness, ownership, active use, completion):
   * the column sums over the filtered rows, a missing counter adding nothing.
   */
  function FunnelValues(filtered: seq<MRow>): (v: seq<real>)
    ensures |v| == 4
    ensures v[0] == SumOf(filtered, UsersOf) && v[1] == SumOf(filtered, OwnedOf)
    ensures v[2] == SumOf(filtered, PlayingOf) && v[3] == SumOf(filtered, BeatenOf)
    ensures Computed(filtered) ==> forall i :: 1 <= i < 4 ==> 0.0 <= v[i] <= v[0]
  {
    FunnelStagesBounded(filtered);
    [SumOf(filtered, UsersOf), SumOf(filtered, OwnedOf), SumOf(filtered, PlayingOf), SumOf(filtered, BeatenOf)]
  }

  /** The conversion of one stage: percent of the awareness total, or 0 when that total is 0. */
  function Conversion(awareness: real, value: real): (c: real)
    ensures awareness > 0.0 ==> c * awareness == value * 100.0
    ensures awareness <= 0.0 ==> c == 0.0
    ensures 0.0 <= value <= awareness ==> 0.0 <= c <= 100.0
  {
    if awareness > 0.0 then
      PercentOf(awareness, value);
      (value / awareness) * 100.0
    else 0.0
  }

  lemma PercentOf(awareness: real, value: real)
    requires awareness > 0.0
    ensures (value / awareness) * 100.0 * awareness == value * 100.0
    ensures 0.0 <= value <= awareness ==> 0.0 <= (value / awareness) * 100.0 <= 100.0
  {
    var q := value / awareness;
    assert q * awareness == value;
    assert (1.0 - q) * awareness == awareness - value;
  }

  /**
   * `update_lifecycle_funnel`'s loop: 100 for the first stage, then the
   * conversion of each later stage against the first.
   */
  method ConversionRates(values: seq<real>) returns (rates: seq<real>)
    requires |values| >= 1
    ensures |rates| == |values|
    ensures rates[0] == 100.0
    ensures forall i :: 1 <= i < |values| ==> rates[i] == Conversion(values[0], values[i])
  {
    rates := [100.0];
    var i := 1;
    while i < |values|
      invariant 1 <= i <= |values|
      invariant |rates| == i && rates[0] == 100.0
      invariant forall k :: 1 <= k < i ==> rates[k] == Conversion(values[0], values[k])
    {
      if values[0] > 0.0 {
        rates := rates + [(values[i] / values[0]) * 100.0];
      } else {
        rates := rates + [0.0];
      }
      i := i + 1;
    }
  }

  /** The funnel of the rows the genre `sel` selects: stage totals and conversion rates. */
  method UpdateLifecycleFunnel(rows: seq<MRow>, sel: string) returns (values: seq<real>, rates: seq<real>)
    ensures values == FunnelValues(ListedRows(rows, sel))
    ensures |rates| == 4 && rates[0] == 100.0
    ensures forall i :: 1 <= i < 4 ==> rates[i] == Conversion(values[0], values[i])
  {
    var filtered := ListedRows(rows, sel);
    values := FunnelValues(filtered);
    rates := ConversionRates(values);
  }

  /** Each stage total of computed rows is between 0 and the awareness total. */
  lemma FunnelStagesBounded(filtered: seq<MRow>)
    ensures Computed(filtered) ==>
              0.0 <= SumOf(filtered, OwnedOf) <= SumOf(filtered, UsersOf) &&
              0.0 <= SumOf(filtered, PlayingOf) <= SumOf(filtered, UsersOf) &&
              0.0 <= SumOf(filtered, BeatenOf) <= SumOf(filtered, UsersOf)
  {
    if Computed(filtered) {
      forall i | 0 <= i < |filtered|
        ensures 0.0 <= OwnedOf(filtered[i]) <= UsersOf(filtered[i])
        ensures 0.0 <= PlayingOf(filtered[i]) <= UsersOf(filtered[i])
        ensures 0.0 <= BeatenOf(filtered[i]) <= UsersOf(filtered[i])
      {
        RowStagesBounded(filtered[i]);
      }
      SumMonotone(filtered, OwnedOf, UsersOf);
      SumMonotone(filtered, PlayingOf, UsersOf);
      SumMonotone(filtered, BeatenOf, UsersOf);
      SumNonNegative(filtered, OwnedOf);
      SumNonNegative(filtered, PlayingOf);
      SumNonNegative(filtered, BeatenOf);
    }
  }

  /** A game's owned, playing and beaten counters never exceed its total users. */
  lemma RowStagesBounded(r: MRow)
    requires r.metrics == ComputeMetrics(r.game)
    ensures 0.0 <= OwnedOf(r) <= UsersOf(r)
    ensures 0.0 <= PlayingOf(r) <= UsersOf(r)
    ensures 0.0 <= BeatenOf(r) <= UsersOf(r)
  {
    assert r.metrics.totalUsers == TotalUsers(r.game);
  }

  lemma {:induction false} SumNonNegative(s: seq<MRow>, f: MRow -> real)
    requires forall i :: 0 <= i < |s| ==> f(s[i]) >= 0.0
    ensures SumOf(s, f) >= 0.0
  {
    if s != [] {
      SumNonNegative(s[1..], f);
    }
  }

  /** Over computed rows every conversion rate of the funnel lies in [0, 100]. */
  lemma FunnelRatesArePercentages(rows: seq<MRow>, sel: string)
    requires Computed(rows)
    ensures var v := FunnelValues(ListedRows(rows, sel));
            forall i :: 1 <= i < 4 ==> 0.0 <= Conversion(v[0], v[i]) <= 100.0
  {
    ComputedListedRows(rows, sel);
  }

  // ---------------------------------------------------------------------------
  // Engagement distribution and churn analysis
  // ---------------------------------------------------------------------------

  /**
   * The dashed average line: the mean engagement score of the selected games, None
   * (NaN) if there are none. The line lies between the lowest and the highest score
   * of the selection.
   */
  function AverageEngagement(rows: seq<MRow>, sel: string): (avg: Option<real>)
    ensures avg.None? <==> ListedRows(rows, sel) == []
    ensures avg.Some? ==> avg.value == Mean(ListedRows(rows, sel), EngagementOf)
    ensures avg.Some? ==> exists x :: x in ListedRows(rows, sel) && EngagementOf(x) <= avg.value
    ensures avg.Some? ==> exists x :: x in ListedRows(rows, sel) && avg.value <= EngagementOf(x)
  {
    var filtered := ListedRows(rows, sel);
    if filtered == [] then None
    else
      MeanBetweenExtremes(filtered, EngagementOf);
      assert filtered[ArgMin(filtered, EngagementOf)] in filtered;
      assert filtered[ArgMax(filtered, EngagementOf)] in filtered;
      Some(Mean(filtered, EngagementOf))
  }

  /** Over computed rows the average engagement score is never negative. */
  lemma AverageEngagementNonNegative(rows: seq<MRow>, sel: string)
    requires Computed(rows)
    ensures AverageEngagement(rows, sel).Some? ==> AverageEngagement(rows, sel).value >= 0.0
  {
    var filtered := ListedRows(rows, sel);
    ComputedListedRows(rows, sel);
    if filtered != [] {
      forall i | 0 <= i < |filtered| ensures EngagementOf(filtered[i]) >= 0.0 {
      }
      SumNonNegative(filtered, EngagementOf);
      MeanNonNegative(filtered, EngagementOf);
    }
  }

  /** The churn scatter's rows: the exploded marketing table filtered by genre equality. */
  function ChurnRows(rows: seq<MRow>, sel: string): (r: seq<MRow>)
    ensures sel == AllGames ==> r == ExplodeRows(rows)
    ensures sel != AllGames ==> forall x :: x in r <==> x in ExplodeRows(rows) && x.game.genres == Single(Some(sel))
  {
    FilterExploded(ExplodeRows(rows), sel, RowGenres)
  }

  // ---------------------------------------------------------------------------
  // Market penetration by platform
  // ---------------------------------------------------------------------------

  /** One `platform_data` entry: a trimmed platform name and its game's metrics. */
  datatype PlatformEntry = PlatformEntry(platform: string, totalUsers: nat, ownershipRate: real, engagementScore: real)

  /** The entry of one game for one platform token: the token trimmed, with the game's metrics. */
  function Entry(r: MRow, tok: string): PlatformEntry
  {
    PlatformEntry(Strip(tok), r.metrics.totalUsers, r.metrics.ownershipRate, r.metrics.engagementScore)
  }

  /** The entries of one game for the platform tokens `toks`, in token order. */
  function EntriesFor(r: MRow, toks: seq<string>): (e: seq<PlatformEntry>)
    ensures |e| == |toks|
    ensures forall k :: 0 <= k < |toks| ==> e[k] == Entry(r, toks[k])
  {
    if toks == [] then [] else EntriesFor(r, toks[..|toks| - 1]) + [Entry(r, toks[|toks| - 1])]
  }

  /** One more token appends its entry to the entries of the tokens before it. */
  lemma EntriesForSnoc(r: MRow, toks: seq<string>, j: nat)
    requires j < |toks|
    ensures EntriesFor(r, toks[..j + 1]) == EntriesFor(r, toks[..j]) + [Entry(r, toks[j])]
  {
    assert toks[..j + 1][..j] == toks[..j];
  }

  lemma SnocAssoc<T>(a: seq<T>, b: seq<T>, x: T)
    ensures (a + b) + [x] == a + (b + [x])
  {
  }

  /** The inner loop's step: appending the entry of token `j` extends the entries of the tokens before it. */
  lemma AppendEntryStep(r: MRow, toks: seq<string>, j: nat, data0: seq<PlatformEntry>, data: seq<PlatformEntry>)
    requires j < |toks| && data == data0 + EntriesFor(r, toks[..j])
    ensures data + [Entry(r, toks[j])] == data0 + EntriesFor(r, toks[..j + 1])
  {
    EntriesForSnoc(r, toks, j);
    SnocAssoc(data0, EntriesFor(r, toks[..j]), Entry(r, toks[j]));
  }

  /** Entry `e` carries the metrics of row `x`. */
  predicate CarriesMetrics(e: PlatformEntry, x: MRow) {
    e.totalUsers == x.metrics.totalUsers && e.ownershipRate == x.metrics.ownershipRate &&
    e.engagementScore == x.metrics.engagementScore
  }

  /**
   * The entries of the rows `rows`: one per `||` token of each present platform field,
   * each carrying the metrics of the row it comes from.
   */

  function PlatformData(rows: seq<MRow>): (d: seq<PlatformEntry>)
    ensures forall e :: e in d ==> exists x :: x in rows && CarriesMetrics(e, x)
  {
    if rows == [] then []
    else
      var r := rows[|rows| - 1];
      var init := PlatformData(rows[..|rows| - 1]);
      var more := EntriesFor(r, SplitField(r.game.platforms));
      forall e | e in init ensures exists x :: x in rows && CarriesMetrics(e, x) {
        var x :| x in rows[..|rows| - 1] && CarriesMetrics(e, x);
        assert x in rows;
      }
      forall e | e in more ensures CarriesMetrics(e, r) {
        var k :| 0 <= k < |more| && more[k] == e;
      }
      init + more
  }

  /** `update_market_penetration`'s inner loop: appends one entry per platform token of `row`. */
  method AppendEntries(data0: seq<PlatformEntry>, row: MRow, platforms: seq<string>) returns (data: seq<PlatformEntry>)
    ensures data == data0 + EntriesFor(row, platforms)
  {
    data := data0;
    var j := 0;
    while j < |platforms|
      invariant 0 <= j <= |platforms|
      invariant data == data0 + EntriesFor(row, platforms[..j])
    {
      AppendEntryStep(row, platforms, j, data0, data);
      data := data + [PlatformEntry(Strip(platforms[j]), row.metrics.totalUsers,
                                    row.metrics.ownershipRate, row.metrics.engagementScore)];
      j := j + 1;
    }
    assert platforms[..j] == platforms;
  }

  lemma PlatformDataStep(rows: seq<MRow>, i: nat)
    requires i < |rows|
    ensures rows[i].game.platforms.None? ==> PlatformData(rows[..i + 1]) == PlatformData(rows[..i])
    ensures rows[i].game.platforms.Some? ==>
              PlatformData(rows[..i + 1]) == PlatformData(rows[..i]) + EntriesFor(rows[i], Split(rows[i].game.platforms.value))
  {
    assert rows[..i + 1][..i] == rows[..i];
  }

  /** `update_market_penetration`'s outer loop building `platform_data`. */
  method CollectPlatformData(filtered: seq<MRow>) returns (data: seq<PlatformEntry>)
    ensures data == PlatformData(filtered)
  {
    data := [];
    var i := 0;
    while i < |filtered|
      invariant 0 <= i <= |filtered|
      invariant data == PlatformData(filtered[..i])
    {
      var row := filtered[i];
      PlatformDataStep(filtered, i);
      if row.game.platforms.Some? {
        var platforms := Split(row.game.platforms.value);
        data := AppendEntries(data, row, platforms);
      }
      i := i + 1;
    }
    assert filtered[..i] == filtered;
  }

  /** Every platform name in `platform_data` is trimmed. */
  lemma {:induction false} PlatformDataStripped(rows: seq<MRow>)
    ensures forall e :: e in PlatformData(rows) ==> IsStripped(e.platform)
  {
    if rows != [] {
      PlatformDataStripped(rows[..|rows| - 1]);
      var r := rows[|rows| - 1];
      var toks := SplitField(r.game.platforms);
      forall e | e in EntriesFor(r, toks) ensures IsStripped(e.platform) {
        var k :| 0 <= k < |toks| && EntriesFor(r, toks)[k] == e;
        assert e == Entry(r, toks[k]);
      }
    }
  }

  /** Rows without a platform field contribute no entry. */
  lemma {:induction false} PlatformDataSize(rows: seq<MRow>)
    ensures |PlatformData(rows)| == PlatformTokenCount(rows)
  {
    if rows != [] {
      PlatformDataSize(rows[..|rows| - 1]);
    }
  }

  /** The number of `||` tokens over the present platform fields of `rows`. */
  function PlatformTokenCount(rows: seq<MRow>): nat
  {
    if rows == [] then 0
    else PlatformTokenCount(rows[..|rows| - 1]) + |SplitField(rows[|rows| - 1].game.platforms)|
  }

  /** One row of the platform summary: summed users, mean ownership rate and mean engagement score. */
  datatype PlatformRow = PlatformRow(platform: string, totalUsers: real, ownershipRate: real, engagementScore: real)

  function PlatformUsers(r: PlatformRow): real { r.totalUsers }
  function EntryUsers(e: PlatformEntry): real { e.totalUsers as real }
  function EntryOwnership(e: PlatformEntry): real { e.ownershipRate }
  function EntryEngagement(e: PlatformEntry): real { e.engagementScore }

  /** The entries grouped under platform `p`. */
  function PlatformGroup(data: seq<PlatformEntry>, p: string): (g: seq<PlatformEntry>)
    ensures forall e :: e in g <==> e in data && e.platform == p
  {
    if data == [] then []
    else
      assert data == [data[0]] + data[1..];
      (if data[0].platform == p then [data[0]] else []) + PlatformGroup(data[1..], p)
  }

  function PlatformRowFor(data: seq<PlatformEntry>, p: string): (r: PlatformRow)
    requires |PlatformGroup(data, p)| > 0
    ensures r.platform == p
  {
    var g := PlatformGroup(data, p);
    PlatformRow(p, SumOf(g, EntryUsers), Mean(g, EntryOwnership), Mean(g, EntryEngagement))
  }

  function PlatformKeys(data: seq<PlatformEntry>): (ks: seq<Option<string>>)
    ensures |ks| == |data|
    ensures forall i :: 0 <= i < |data| ==> ks[i] == Some(data[i].platform)
  {
    seq(|data|, i requires 0 <= i < |data| => Some(data[i].platform))
  }

  /** The distinct platform names of `platform_data`, each with a non-empty group. */
  function Platforms(data: seq<PlatformEntry>): (ps: seq<string>)
    ensures NoDuplicates(ps)
    ensures forall p :: p in ps <==> |PlatformGroup(data, p)| > 0
  {
    var ps := Distinct(PlatformKeys(data));
    forall p ensures p in ps <==> |PlatformGroup(data, p)| > 0 {
      if p in ps {
        var i :| 0 <= i < |data| && PlatformKeys(data)[i] == Some(p);
        assert data[i] in PlatformGroup(data, p);
      }
      if |PlatformGroup(data, p)| > 0 {
        var e := PlatformGroup(data, p)[0];
        var i :| 0 <= i < |data| && data[i] == e;
        assert PlatformKeys(data)[i] == Some(p);
      }
    }
    ps
  }

  function PlatformRows(data: seq<PlatformEntry>, ps: seq<string>): (r: seq<PlatformRow>)
    requires forall i :: 0 <= i < |ps| ==> |PlatformGroup(data, ps[i])| > 0
    ensures |r| == |ps|
    ensures forall i :: 0 <= i < |ps| ==> r[i] == PlatformRowFor(data, ps[i])
  {
    seq(|ps|, i requires 0 <= i < |ps| => PlatformRowFor(data, ps[i]))
  }

  /** The top `PlatformLimit` platforms by summed users. */
  const PlatformLimit := 10

  /**
   * `platform_summary`: grouped by platform, sorted non-increasing by summed
   * users, first ten rows; None when `platform_data` is empty (the empty figure).
   */
  function PlatformSummary(data: seq<PlatformEntry>): (r: Option<seq<PlatformRow>>)
    ensures r.None? <==> data == []
  {
    if data == [] then None
    else Some(TopN(PlatformRows(data, Platforms(data)), PlatformLimit, PlatformUsers))
  }

  /**
   * The summary of non-empty data has one row per platform, ten at most (every
   * platform when there are no more than ten), non-increasing in summed users, and
   * each row is the aggregate of its own platform's entries.
   */
  lemma PlatformSummaryShape(data: seq<PlatformEntry>)
    requires data != []
    ensures PlatformSummary(data).Some?
    ensures var top := PlatformSummary(data).value;
            0 < |top| == (if |Platforms(data)| <= PlatformLimit then |Platforms(data)| else PlatformLimit) &&
            NonIncreasing(top, PlatformUsers) &&
            forall x :: x in top ==> |PlatformGroup(data, x.platform)| > 0 && x == PlatformRowFor(data, x.platform)
    ensures var top := PlatformSummary(data).value;
            forall i, j :: 0 <= i < j < |top| ==> top[i].platform != top[j].platform
    ensures var top := PlatformSummary(data).value;
            |Platforms(data)| <= PlatformLimit ==> forall p :: p in Platforms(data) ==> exists x :: x in top && x.platform == p
  {
    var ps := Platforms(data);
    assert data[0] in PlatformGroup(data, data[0].platform);
    var all := PlatformRows(data, ps);
    var top := TopN(all, PlatformLimit, PlatformUsers);
    assert PlatformSummary(data).value == top;
    PlatformRowsAreAggregates(data, ps, all, top);
    PlatformRowsDistinct(data, ps, all, top);
    if |ps| <= PlatformLimit {
      PlatformRowsCover(data, ps, all, top);
    }
  }

  /** A reordering of the aggregates of `ps` has a row for every platform of `ps`. */
  lemma PlatformRowsCover(data: seq<PlatformEntry>, ps: seq<string>, all: seq<PlatformRow>, top: seq<PlatformRow>)
    requires forall i :: 0 <= i < |ps| ==> |PlatformGroup(data, ps[i])| > 0
    requires all == PlatformRows(data, ps)
    requires multiset(top) == multiset(all)
    ensures forall p :: p in ps ==> exists x :: x in top && x.platform == p
  {
    forall p | p in ps ensures exists x :: x in top && x.platform == p {
      var i :| 0 <= i < |ps| && ps[i] == p;
      assert all[i] in multiset(top);
    }
  }

  /** Rows taken from the aggregates of distinct platforms name each platform at most once. */
  lemma PlatformRowsDistinct(data: seq<PlatformEntry>, ps: seq<string>, all: seq<PlatformRow>, top: seq<PlatformRow>)
    requires forall i :: 0 <= i < |ps| ==> |PlatformGroup(data, ps[i])| > 0
    requires NoDuplicates(ps)
    requires all == PlatformRows(data, ps)
    requires multiset(top) <= multiset(all)
    ensures forall i, j :: 0 <= i < j < |top| ==> top[i].platform != top[j].platform
  {
    assert NoDuplicates(all) by {
      forall i, j | 0 <= i < j < |all| ensures all[i] != all[j] {
        assert all[i].platform == ps[i] && all[j].platform == ps[j];
      }
    }
    SubMultisetNoDuplicates(top, all);
    PlatformRowsAreAggregates(data, ps, all, top);
    forall i, j | 0 <= i < j < |top| ensures top[i].platform != top[j].platform {
      assert top[i] in top && top[j] in top;
    }
  }

  lemma PlatformRowsAreAggregates(data: seq<PlatformEntry>, ps: seq<string>, all: seq<PlatformRow>, top: seq<PlatformRow>)
    requires forall i :: 0 <= i < |ps| ==> |PlatformGroup(data, ps[i])| > 0
    requires all == PlatformRows(data, ps)
    requires multiset(top) <= multiset(all)
    ensures forall x :: x in top ==> |PlatformGroup(data, x.platform)| > 0 && x == PlatformRowFor(data, x.platform)
  {
    forall x | x in top ensures |PlatformGroup(data, x.platform)| > 0 && x == PlatformRowFor(data, x.platform) {
      assert x in multiset(all);
      var i :| 0 <= i < |all| && all[i] == x;
    }
  }

  /**
   * A platform left out of the summary has no more summed users than any
   * platform kept: the summary is a top ten, whatever order ties take.
   */
  lemma PlatformSummaryOmitted(data: seq<PlatformEntry>, p: string)
    requires |PlatformGroup(data, p)| > 0
    ensures PlatformSummary(data).Some?
    ensures var top := PlatformSummary(data).value;
            (forall x :: x in top ==> x.platform != p) ==>
              forall y :: y in top ==> PlatformRowFor(data, p).totalUsers <= y.totalUsers
  {
    assert data != [];
    var ps := Platforms(data);
    var all := PlatformRows(data, ps);
    var top := PlatformSummary(data).value;
    assert top == TopN(all, PlatformLimit, PlatformUsers);
    if forall x :: x in top ==> x.platform != p {
      var i :| 0 <= i < |ps| && ps[i] == p;
      var row := all[i];
      assert row == PlatformRowFor(data, p);
      assert row !in top;
      TopNOmitted(all, PlatformLimit, PlatformUsers, row);
    }
  }

  /** Every platform named in the summary is trimmed. */
  lemma PlatformSummaryTrimmed(rows: seq<MRow>)
    ensures var s := PlatformSummary(PlatformData(rows));
            s.Some? ==> forall x :: x in s.value ==> IsStripped(x.platform)
  {
    var data := PlatformData(rows);
    PlatformDataStripped(rows);
    var s := PlatformSummary(data);
    if s.Some? {
      PlatformSummaryShape(data);
      forall x | x in s.value ensures IsStripped(x.platform) {
        var e := PlatformGroup(data, x.platform)[0];
        assert e in PlatformGroup(data, x.platform);
      }
    }
  }

  /** `update_market_penetration`: the platform summary of the rows the genre `sel` selects. */
  method UpdateMarketPenetration(rows: seq<MRow>, sel: string) returns (summary: Option<seq<PlatformRow>>)
    ensures summary == PlatformSummary(PlatformData(ListedRows(rows, sel)))
  {
    var filtered := ListedRows(rows, sel);
    var data := CollectPlatformData(filtered);
    summary := PlatformSummary(data);
  }
}

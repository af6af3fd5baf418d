# Video-game dashboard tables, modelled in Dafny

Two Dash dashboards draw charts over one video-game catalog (`game_info.csv`) and a
table of esports prize money per country (`countries_table.csv`). Underneath the plots
sits a small table pipeline, and this project models that pipeline:

- **The multi-valued columns.** `genres` is split on `||` into a token list, and a
  missing or non-text cell becomes the empty list. `platforms` is split the same way,
  trimmed in one dashboard and left untrimmed in the other.
- **The per-game marketing metrics.** `calculate_marketing_metrics` adds the user
  total, four funnel rates, the engagement score and the lifetime-value proxy.
  - Missing counters count as 0.
  - A missing or zero owner count becomes 1 when it is a divisor.
- **The aggregations.**
  - The cohort table by release year.
  - The genre-performance table.
  - The lifecycle funnel and its conversion rates.
  - The market penetration by platform.
  - The most-recent-year prize table.
  - The releases per year.
  - The top-twenty selections.
  - The genre and platform counts.
- **The genre filters.** The dropdown value `All Games` selects the whole table.
  Any other genre selects the rows whose genre list holds it (unexploded tables) or
  whose single genre equals it (exploded tables).
- **The prize-money cleaning.** Commas and dollar signs are removed before parsing.

Tables are sequences of row datatypes. A NaN cell is `None` of an `Option`. Rates,
means and scores are exact `real`s. pandas behaviour that matters is written out:

- `explode` turns an empty list into one row with a missing genre.
- `groupby`, `value_counts` and `dropna` drop missing keys.
- `nlargest` passes over NaN.
- `year <= 2020` is false for a missing year.
- A sort promises only a non-increasing order, never the order of ties.

Modules:

| module | file | contents |
|---|---|---|
| `Wrappers` | wrappers.dfy | `Option` (NaN) |
| `Tables` | tables.dfy | boolean-mask selection, column sum and mean |
| `Ranking` | ranking.dfy | descending sort, `head`, top n, `idxmax`/`idxmin` |
| `Grouping` | grouping.dfy | `dropna().unique()`, group sizes, `value_counts()` |
| `Text` | text.dfy | `split('\|\|')`, `strip()`, the prize-money cleaning |
| `Games` | games.dfy | the catalog row, the genre cell in its three shapes, `explode`, the two genre filters |
| `Metrics` | metrics.dfy | `calculate_marketing_metrics` and the exploded marketing table |
| `Cohort` | cohort.dfy | `create_cohort_data`, a loop proved against the cohort table function |
| `GenrePerformance` | genre_performance.dfy | `analyze_genre_performance`, `unique_genres`, the recommendations |
| `MarketingCallbacks` | marketing_callbacks.dfy | the funnel loop, the engagement average, the churn rows, the platform loop and summary |
| `CatalogViews` | catalog_views.dfy | the second dashboard's views |

The three loops of the marketing dashboard are methods with loop invariants, proved
equal to a specification function: `Cohort.CreateCohortData`,
`MarketingCallbacks.ConversionRates` and `MarketingCallbacks.CollectPlatformData`
(the last one with its inner loop `AppendEntries`). The properties are proved about
those functions.

## Model

| member | source | states |
|---|---|---|
| Text.Split | datvis_marketing.py:21 | `str.split('\|\|')` always yields at least one token |
| Text.JoinSplit | datvis_marketing.py:21 | re-joining the tokens of a split with `\|\|` gives back the original string |
| Text.FirstTokenIsPrefix | datvis2.py:16 | the first token of a split is a prefix of the string |
| Text.TokensHaveNoDelimiter | datvis2.py:16 | no token of a split contains `\|\|` |
| Text.SplitField | datvis2.py:263-267 | a missing or non-text field gives no token; a text field gives at least one token, and they re-join to the field |
| Games.SplitGenres | datvis2.py:16 | every genre cell becomes a list; text becomes tokens that re-join to it; NaN and non-text values become the empty list (a cell already holding a list, which the CSV load never yields, is mapped to the empty list by an arbitrary choice) |
| Games.SplitGenreColumn | datvis_marketing.py:21 | the genre rewrite keeps every row and every other column, turns every cell into a list, turns text into tokens that re-join to it and turns NaN into `[]` |
| Games.Tagged | datvis2.py:19 | exploding a tag list gives one row per tag, in order, each the game with that single tag |
| Games.ExplodeOne | datvis2.py:19 | one row per list element, duplicates included; one missing-genre row for an empty list; other columns unchanged |
| Games.Explode | datvis_marketing.py:63 | the exploded table has at least as many rows as the input, each with one genre cell |
| Games.ExplodeAppend | datvis2.py:19 | explode works row by row: it distributes over concatenation |
| Games.FilterListed | datvis_marketing.py:243-246 | `All Games` returns the table; any other genre selects exactly the rows whose list holds that exact token |
| Games.FilterListedCount | datvis_marketing.py:361-364 | the list filter keeps every copy of a matching row and no copy of any other |
| Games.FilterListedAppend | datvis_marketing.py:416-419 | the list filter keeps row order: it distributes over concatenation |
| Games.FilterListedExample | datvis_marketing.py:246 | on `[["RPG"], ["Action","RPG"], []]`, filtering on `RPG` keeps exactly the first two rows |
| Games.FilterExploded | datvis_marketing.py:387-390 | `All Games` returns the table; any other genre selects exactly the rows whose single genre equals it |
| Games.FilterExplodedCount | datvis2.py:139-142 | the equality filter keeps every copy of a matching row and no copy of any other |
| Games.FilterExplodedAppend | datvis2.py:162-165 | the equality filter keeps row order: it distributes over concatenation |
| Games.OccurrencesPositive | datvis_marketing.py:95 | a genre occurs in a tag list a positive number of times exactly when it is listed |
| Games.OccPositive | datvis_marketing.py:246 | a list cell yields exploded rows of genre `a` exactly when the list filter would select it for `a` |
| Metrics.TotalUsers | datvis_marketing.py:33-38 | the user total is 0 exactly when every counter is missing or 0, and it bounds each of the six counters |
| Metrics.NonZero | datvis_marketing.py:42 | `replace(0, 1)` never yields 0 and keeps positive values |
| Metrics.OwnedDivisor | datvis_marketing.py:43-45 | `fillna(1).replace(0, 1)` of owned is at least 1: the owned count when positive, 1 otherwise |
| Metrics.OwnershipRate | datvis_marketing.py:42 | the rate lies in [0, 1], is 0 for a game with no users, and times the non-zero total gives the owned count |
| Metrics.EngagementRate | datvis_marketing.py:43 | the rate is non-negative, times the owner divisor gives the players, and is at most 1 when players do not outnumber that divisor |
| Metrics.CompletionRate | datvis_marketing.py:44 | the rate is non-negative, times the owner divisor gives the finishers, and is at most 1 when finishers do not outnumber that divisor; it is not clamped |
| Metrics.ChurnRate | datvis_marketing.py:45 | the rate is non-negative, and times the owner divisor gives the drop-outs |
| Metrics.EngagementScoreMonotone | datvis_marketing.py:48-52 | the score is monotone non-decreasing in each of the three rates |
| Metrics.EngagementScore | datvis_marketing.py:48-52 | non-negative for non-negative rates; the weights add up to one, so when all three rates are equal the score is that rate times 100 |
| Metrics.EngagementScoreBounds | datvis_marketing.py:47-52 | with each rate in [0, 1] the score lies in [0, 100] |
| Metrics.ScoreBoundedWhenNotOutnumbered | datvis_marketing.py:42-52 | when players and finishers do not outnumber the owner divisor, the score of a game is at most 100 |
| Metrics.ClvProxy | datvis_marketing.py:55-57 | the proxy is 0 when playtime or rating is missing or nobody finished the game, and non-negative for non-negative inputs |
| Metrics.ComputeMetrics | datvis_marketing.py:28-59 | total on every row; total users 0 iff all counters are empty; ownership in [0, 1]; other rates and the score non-negative; score at most 100 when players and finishers do not outnumber the owner divisor; an all-empty record scores 0 everywhere |
| Metrics.CalculateMarketingMetrics | datvis_marketing.py:62 | the same rows in the same order, each paired with the metrics of its own game |
| Metrics.CompletionOverflowExample | datvis_marketing.py:44 | 0 owners and 5 finishers give a completion rate of exactly 5 and a score of 150 |
| Metrics.ExplodeRow | datvis_marketing.py:63 | every exploded copy of a marketing row keeps the row's metrics and all columns but the genre |
| Metrics.WithMetrics | datvis_marketing.py:63 | the exploded copies of a game each carry the game's metrics |
| Metrics.ExplodeRows | datvis_marketing.py:63 | the exploded marketing table has at least as many rows as the table |
| Cohort.YearGames | datvis_marketing.py:73 | `df[df['year'] == year]` selects exactly the rows of that year |
| Cohort.Years | datvis_marketing.py:69 | the sorted distinct years are strictly ascending and are exactly the years with a game |
| Cohort.CreateCohortData | datvis_marketing.py:66-88 | the loop over the sorted years builds exactly the cohort table |
| Cohort.CohortRowFor | datvis_marketing.py:73-86 | the cohort row of a year carries that year and the number of games released in it, which is positive |
| Cohort.CohortTable | datvis_marketing.py:66-88 | at most one cohort row per distinct year |
| Cohort.CohortRowsAggregate | datvis_marketing.py:73-86 | each cohort row is the aggregate of the games of its own year |
| Cohort.CohortRowsYears | datvis_marketing.py:71-72 | a cohort row exists for a year exactly when the year is among the walked years and lies in [2000, 2020] |
| Cohort.CohortRowsAscending | datvis_marketing.py:69-71 | walking ascending years gives cohort rows in ascending year order |
| Cohort.CohortTableShape | datvis_marketing.py:66-88 | one row per distinct present year in [2000, 2020], ascending; `games_released` is the number of games of that year, and the averages are means over exactly those games |
| Cohort.CohortOwnershipBounds | datvis_marketing.py:74 | over marketing rows each year's mean ownership rate lies in [0, 1] |
| GenrePerformance.GenreGroup | datvis_marketing.py:95 | group `a` holds exactly the exploded rows whose genre equals `a` |
| GenrePerformance.GenreGroupAppend | datvis_marketing.py:95 | grouping distributes over concatenation of the exploded table |
| GenrePerformance.UniqueGenres | datvis_marketing.py:111 | `unique_genres` lists each genre with a non-empty group, once |
| GenrePerformance.MeanMetacritic | datvis_marketing.py:102 | the mean metacritic of a group is NaN exactly when no row of the group has a score |
| GenrePerformance.GenreRowFor | datvis_marketing.py:95-103 | a genre's aggregate row is labelled with that genre, and its mean metacritic is NaN exactly when no row of the group has a score |
| GenrePerformance.GenreRows | datvis_marketing.py:95-103 | one aggregate row per genre, in the given order |
| GenrePerformance.ReorderedGenreRows | datvis_marketing.py:105 | reordering the aggregates keeps every row the aggregate of its own genre, and keeps every genre |
| GenrePerformance.AnalyzeGenrePerformance | datvis_marketing.py:93-106 | one row per genre some game lists, each the aggregate of that genre's exploded rows, ranked non-increasing by mean engagement score |
| GenrePerformance.TaggedGroupSize | datvis_marketing.py:95 | a game's exploded rows put one row in group `a` per listing of `a` |
| GenrePerformance.TaggedGroupSum | datvis_marketing.py:101 | those rows add the game's metric once per listing of `a` |
| GenrePerformance.ExplodeRowGroupSize | datvis_marketing.py:95 | the same for an exploded marketing row, empty genre lists adding nothing |
| GenrePerformance.ExplodeRowGroupSum | datvis_marketing.py:101 | the same for sums over an exploded marketing row |
| GenrePerformance.GenreGroupSum | datvis_marketing.py:95-101 | a group's column sum is the total over the games listing the genre, one count per listing; a game with no genre adds nothing |
| GenrePerformance.WeightedUnitPositive | datvis_marketing.py:95 | a genre's group is non-empty exactly when some game lists it |
| GenrePerformance.GenrePerformanceRows | datvis_marketing.py:95-106 | the table has a row for genre `a` exactly when some game lists `a`, and that row's user total is the total over those games |
| GenrePerformance.TwoGenreExample | datvis_marketing.py:101 | games `[A, B]` with 10 users and `[A]` with 5 users give A a total of 15 and B a total of 10 |
| GenrePerformance.Recommend | datvis_marketing.py:465-467 | `None` stands for the IndexError that `iloc[0]` raises on an empty table; otherwise the top genre and the `idxmax` of engagement are both row 0, and the `idxmin` row has the lowest churn and is the first row that has it |
| MarketingCallbacks.CalculatedRowsAreComputed | datvis_marketing.py:62 | every marketing row carries the metrics of its own game |
| MarketingCallbacks.ListedRows | datvis_marketing.py:243-246 | the funnel's genre filter: everything for `All Games`, otherwise exactly the rows listing the genre |
| MarketingCallbacks.ComputedListedRows | datvis_marketing.py:243-246 | filtering keeps the rows' metrics those of their games |
| MarketingCallbacks.FunnelValues | datvis_marketing.py:249-255 | four stage totals (users, owned, playing, beaten), missing counters adding nothing; over computed rows each later stage lies between 0 and the awareness total, so the funnel narrows |
| MarketingCallbacks.Conversion | datvis_marketing.py:260-263 | a stage's conversion is its percentage of the awareness total, or 0 when that total is 0, and lies in [0, 100] for a stage no larger than the total |
| MarketingCallbacks.PercentOf | datvis_marketing.py:261 | `value / awareness * 100` is the percentage of a positive total |
| MarketingCallbacks.ConversionRates | datvis_marketing.py:258-263 | the loop yields one rate per stage: 100 first, then each stage's conversion against the first |
| MarketingCallbacks.UpdateLifecycleFunnel | datvis_marketing.py:242-263 | four stage totals of the filtered rows and four rates, 100 first |
| MarketingCallbacks.RowStagesBounded | datvis_marketing.py:33-38 | a game's owned, playing and beaten counts lie between 0 and its user total |
| MarketingCallbacks.FunnelStagesBounded | datvis_marketing.py:249-252 | each later stage total lies between 0 and the awareness total |
| MarketingCallbacks.FunnelRatesArePercentages | datvis_marketing.py:258-263 | every conversion rate of the funnel lies in [0, 100] |
| MarketingCallbacks.AverageEngagement | datvis_marketing.py:360-376 | the average line is NaN exactly when the filter selects no game; otherwise it is the mean engagement score of the selected games and lies between the lowest and the highest of their scores |
| MarketingCallbacks.AverageEngagementNonNegative | datvis_marketing.py:376 | the average engagement score is never negative |
| MarketingCallbacks.ChurnRows | datvis_marketing.py:386-390 | the churn scatter uses the whole exploded table for `All Games`, otherwise exactly the exploded rows of that genre |
| MarketingCallbacks.EntriesFor | datvis_marketing.py:426-432 | one entry per platform token, in order, carrying the token trimmed and the game's metrics |
| MarketingCallbacks.AppendEntries | datvis_marketing.py:426-432 | the inner loop appends exactly the entries of the game's tokens |
| MarketingCallbacks.PlatformDataStep | datvis_marketing.py:423-425 | a row without platforms adds nothing; a row with platforms adds the entries of its tokens |
| MarketingCallbacks.PlatformData | datvis_marketing.py:422-432 | every entry of `platform_data` carries the total users, ownership rate and engagement score of a row it comes from |
| MarketingCallbacks.CollectPlatformData | datvis_marketing.py:422-432 | the nested loop builds exactly `platform_data` |
| MarketingCallbacks.PlatformDataStripped | datvis_marketing.py:428 | every platform name in `platform_data` is trimmed |
| MarketingCallbacks.PlatformDataSize | datvis_marketing.py:424-426 | `platform_data` has one entry per token of the present platform fields |
| MarketingCallbacks.PlatformGroup | datvis_marketing.py:436 | group `p` holds exactly the entries of platform `p` |
| MarketingCallbacks.Platforms | datvis_marketing.py:436 | the platforms grouped are distinct, and are exactly those with an entry |
| MarketingCallbacks.PlatformRowFor | datvis_marketing.py:436-440 | a platform's aggregate row is labelled with that platform |
| MarketingCallbacks.PlatformRows | datvis_marketing.py:436-440 | one aggregate row per platform, in the given order |
| MarketingCallbacks.PlatformSummary | datvis_marketing.py:434-442 | no summary exactly when `platform_data` is empty |
| MarketingCallbacks.PlatformSummaryShape | datvis_marketing.py:434-442 | for non-empty data the summary has exactly min(10, number of distinct platforms) rows, each platform at most once and every platform when there are at most 10, non-increasing in summed users, each the aggregate (summed users, mean ownership, mean engagement) of its own platform's entries |
| MarketingCallbacks.PlatformRowsAreAggregates | datvis_marketing.py:442 | a sub-multiset of the aggregates holds only true aggregates |
| MarketingCallbacks.PlatformSummaryOmitted | datvis_marketing.py:442 | a platform left out of the summary has no more summed users than any platform kept |
| MarketingCallbacks.PlatformSummaryTrimmed | datvis_marketing.py:428-442 | every platform named in the summary is trimmed |
| MarketingCallbacks.UpdateMarketPenetration | datvis_marketing.py:415-442 | the callback's summary is the platform summary of the filtered rows |
| Text.Strip | datvis_marketing.py:428 | the result neither starts nor ends with whitespace and is no longer than the input |
| Text.StripIsInfix | datvis_marketing.py:428 | the result is the infix of the input whose outside is all whitespace |
| Text.StripIdempotent | datvis_marketing.py:428 | stripping twice is stripping once |
| Text.CleanPrizeMoney | datvis2.py:20 | no comma or dollar is left, and every other character keeps its multiplicity |
| Text.CleanPrizeMoneyAppend | datvis2.py:20 | cleaning keeps character order: it distributes over concatenation |
| Text.CleanPrizeMoneyIdempotent | datvis2.py:20 | cleaning a cleaned string changes nothing |
| CatalogViews.ScoredGames | datvis2.py:18 | exactly the split rows whose metacritic is present and positive |
| CatalogViews.ExplodedFrom | datvis2.py:19 | every exploded row is a row of the table with only its genre replaced, by one of its own tags |
| CatalogViews.ExplodedHas | datvis2.py:19 | a row listing tag `a` gives the exploded row tagged `a` |
| CatalogViews.MetacriticTable | datvis2.py:18-19 | `df_metacritic`: at least one row per scored game, every row scored and carrying one genre |
| CatalogViews.MetacriticTableAppend | datvis2.py:18-19 | `df_metacritic` is built row by row: it distributes over concatenation |
| CatalogViews.MetacriticTableOfGame | datvis2.py:16-19 | an unscored game adds nothing; a scored game with NaN genres adds one missing-genre row; a scored game with genre text adds one row per token, in order, otherwise identical |
| CatalogViews.TagKeys | datvis2.py:211 | a genre is a key of the column exactly when some row carries it |
| CatalogViews.CatalogGenres | datvis2.py:32 | `unique_genres`: each genre some scored game lists, once, and a name is listed exactly when some row of the exploded table carries it |
| CatalogViews.GenreView | datvis2.py:139-142 | `df_metacritic` for `All Games`, otherwise exactly its rows of that genre |
| CatalogViews.ListedView | datvis2.py:322-326 | the split catalog for `All Games`, otherwise exactly its rows whose list holds the genre |
| CatalogViews.ExplodedFilterMatchesListed | datvis2.py:142 | on a split table the equality filter after explode selects exactly the rows the list filter selects, each with its genre cell replaced by the selected genre |
| CatalogViews.GenreViewOfScored | datvis2.py:18-19 | a genre's view holds exactly the scored games listing it, each tagged with that genre |
| CatalogViews.MostRecentYear | datvis2.py:22 | NaN exactly when no row has a year; otherwise a year some row has and no row exceeds |
| CatalogViews.RecentYearTable | datvis2.py:25-28 | every copy of each row of the most recent year, and nothing else, non-increasing in prize money |
| CatalogViews.RecentYearRows | datvis2.py:25 | a row is in the table exactly when its year is present and no row has a later year |
| CatalogViews.PrizeLeaders | datvis2.py:123 | `head(10)`: at most ten rows, a prefix of the table, non-increasing, with no row left out holding a larger prize |
| CatalogViews.CountedReleases | datvis2.py:186-193 | exactly the rows of the list view with a year no later than 2020 |
| CatalogViews.ReleasedIn | datvis2.py:195 | exactly the rows released in a year |
| CatalogViews.YearCount | datvis2.py:195 | the size of a year's group is the number of rows released that year |
| CatalogViews.YearKeys | datvis2.py:195 | a year is a key of the column exactly when some row was released in it |
| CatalogViews.YearTalliesShape | datvis2.py:195 | the tallies are in ascending year order, hold exactly the years with a release, and count those releases |
| CatalogViews.YearTalliesTotal | datvis2.py:195 | on rows that all have a year, the tallies add up to the number of rows |
| CatalogViews.ReleasesPerYear | datvis2.py:186-195 | ascending years, each at most 2020 and with at least one selected release; each count is that year's releases, and the counts add up to the counted rows |
| CatalogViews.Ranked | datvis2.py:145 | exactly the rows with a value in the column |
| CatalogViews.NLargest | datvis2.py:145 | `nlargest(20, col)`: 20 rows with a value (fewer when fewer exist), non-increasing; each row taken no more often than the table holds it, and every row with a value when there are at most 20 |
| CatalogViews.NLargestOmitted | datvis2.py:145 | no row with a value left out holds a larger value than a row kept |
| CatalogViews.NLargestOrdered | datvis2.py:145 | each kept row's value is at least that of every later kept row |
| CatalogViews.ScatterTop | datvis2.py:138-148 | at most 20 rows of the genre view, named and scored, non-increasing in metacritic; each named row of the top twenty is kept exactly as often as it occurs there, and nothing else is kept |
| CatalogViews.OwnedOrder | datvis2.py:329 | the top twenty by owned are rows with an owned count, ordered by that count |
| CatalogViews.OwnedOmitted | datvis2.py:329 | no row with an owned count that the top twenty leaves out has a larger count than a row kept |
| CatalogViews.MostOwned | datvis2.py:322-329 | exactly 20 rows of the list view that have an owned count, each taken no more often than the view holds it and all of them when there are fewer, ordered by it; none left out has a larger count |
| CatalogViews.BeatenOrder | datvis2.py:348 | the top twenty by beaten are rows with a beaten count, ordered by that count |
| CatalogViews.BeatenOmitted | datvis2.py:348 | no row with a beaten count that the top twenty leaves out has a larger count than a row kept |
| CatalogViews.MostBeaten | datvis2.py:341-348 | exactly 20 rows of the list view that have a beaten count, each taken no more often than the view holds it and all of them when there are fewer, ordered by it; none left out has a larger count |
| CatalogViews.TagColumnOfOneGenre | datvis2.py:209-211 | a view of one genre has a single genre key, counting every row |
| CatalogViews.GenreCounts | datvis2.py:205-211 | over the table as loaded: the pie's counts are non-increasing, with a slice for exactly the genres of the view, each counting that genre's rows, and the counts add up to the rows with a genre; for one selected genre there is at most one slice, counting the whole view |
| CatalogViews.OneGenreView | datvis2.py:208-211 | a selected genre's view forms a single group, that genre, counting every row of the view |
| CatalogViews.GenreCountsCategorical | datvis2.py:205-211 | once `update_boxplot('All Games')` (datvis2.py:161-174) has made the column categorical: one slice per genre of the table, each counting that genre's rows of the view, non-increasing; for `All Games` every count is positive; for a selected genre its own slice counts the whole view and every other slice is 0 |
| CatalogViews.CategoricalPieNonZero | datvis2.py:205-211 | the non-zero slices of the categorical pie are exactly the slices of the pie over the table as loaded |
| CatalogViews.PlatformCells | datvis2.py:263-272 | each game yields at least one platform cell after explode |
| CatalogViews.TokenCellsCount | datvis2.py:272-274 | the cells of a token list count each token once per occurrence |
| CatalogViews.PlatformColumnCounts | datvis2.py:263-274 | the exploded platform column counts each token once per occurrence and holds one present cell per token |
| CatalogViews.TokenCountPositive | datvis2.py:274 | a token is counted exactly when some row's platform field holds it |
| CatalogViews.PlatformCounts | datvis2.py:254-275 | counts non-increasing; each count is the untrimmed token's number of occurrences in the list view; every occurring token has a count; the counts add up to the number of tokens |
| Tables.Select | datvis_marketing.py:246 | a boolean mask keeps exactly the rows that satisfy it |
| Tables.SelectCount | datvis_marketing.py:246 | a mask keeps every copy of a selected row and no copy of any other |
| Tables.SelectAppend | datvis_marketing.py:246 | a mask keeps the relative order of rows |
| Tables.MeanBounds | datvis_marketing.py:74 | the mean of values in [lo, hi] lies in [lo, hi] |
| Ranking.SortDesc | datvis_marketing.py:105 | `sort_values(ascending=False)` yields a non-increasing permutation |
| Ranking.Take | datvis2.py:123 | `head(n)` is the first n rows, or all of them |
| Ranking.TopN | datvis_marketing.py:442 | sorting then `head(n)` gives at most n rows, non-increasing, drawn from the input, and none left out ranks above a row kept |
| Ranking.TopNOmitted | datvis2.py:145 | a row the top n leaves out ranks no higher than any row kept |
| Ranking.ArgMax | datvis_marketing.py:467 | `idxmax` is the first row with the largest key |
| Ranking.ArgMin | datvis_marketing.py:466 | `idxmin` is the first row with the smallest key |
| Ranking.ArgMaxOfSorted | datvis_marketing.py:465-467 | in a table sorted descending by a key, `idxmax` of that key is row 0 |
| Grouping.Distinct | datvis_marketing.py:111 | `dropna().unique()` lists every present key once |
| Grouping.SortedDistinct | datvis_marketing.py:69 | `sorted(dropna().unique())` lists the present years ascending, once each |
| Grouping.CategoryCounts | datvis2.py:211 | `value_counts()` of a categorical column: one row per category with its occurrence count, zero included, most frequent first |
| Grouping.ValueCounts | datvis2.py:211 | `value_counts()`: one row per present key with its occurrence count, most frequent first; missing keys dropped; counts add up to the present entries |

## Left out

- Dash layout, `dcc`/`html` components, dropdown option lists, page routing and the
  page CSS: presentation only.
- Every Plotly figure (`px.*`, `go.*`, `make_subplots`). These are library calls.
  Where a figure has an empty-data branch, the model keeps it as the `None` result of
  `PlatformSummary`.
- CSV loading and `pd.to_datetime(..., errors='coerce')`. This is I/O and a library
  parser. The release year is an already-parsed `Option<int>`.
- The `float` parse of prize money: IEEE parsing. `Country.prizeMoney` is an already
  parsed `real`, and the cleaning is modelled on strings.
- `.round(3)` of the genre-performance table (datvis_marketing.py:103): IEEE rounding.
  The aggregates are exact. The source sorts (line 105) and takes `idxmin`/`idxmax`
  (lines 466-467) on the ROUNDED values, so where two genres differ only past the
  third decimal, the source may order them or pick between them differently from the
  model.
- `awareness_rate` (datvis_marketing.py:41). It divides by a column maximum that can
  be 0, and nothing reads it.
- `update_boxplot`'s median ordering and `px.histogram` binning: float statistics
  computed by the library. Only their genre filter is modelled, as `GenreView`.
- CatalogViews.GenreView: takes `df_metacritic` as built at load time. For
  `All Games`, `update_boxplot` (datvis2.py:161-174) rewrites the global table in
  place. It turns the `genres` column into an ordered categorical and re-sorts the
  table by it, and this happens when the page loads, since `All Games` is the
  default (datvis2.py:54). After that, the view holds the same rows the same number
  of times, but in the categorical's order, which the model does not capture.
- CatalogViews.GenreCounts: the pie over the table as loaded. After the categorical
  rewrite, `value_counts` lists every category, so a selected genre's pie also has a
  zero slice for every other genre. That state is modelled as
  `GenreCountsCategorical`. `CategoricalPieNonZero` proves that its non-zero slices
  are exactly `GenreCounts`. Which of the two a request sees depends on whether
  `update_boxplot('All Games')` has run, and that callback order is not modelled.
  Whether the pie callback fires at all is not modelled either: its section is built
  without a dropdown (datvis2.py:115), so its one input, `pie-chart-dropdown`
  (datvis2.py:203), is not in the layout, and `suppress_callback_exceptions=True`
  (datvis2.py:8) keeps Dash from reporting that. Read as written, the callback may
  never run, and both pie models describe what it computes if it does.
- `update_trend_line`'s `groupby(['year', 'genres'])` and `update_esrb_chart`'s ESRB
  `value_counts`: chart data not among the modelled aggregations. Their genre filters
  are `GenreView` and `ListedView`.
- `update_correlation_scatter` and `update_metacritic_histogram`: only their filter
  is modelled (`GenreView`).
- `update_recommendations`' text formatting and its KPI line averaging
  `completion_rate`. Only the three rows it picks are modelled.
- main.py: deployment wiring with no logic.
- The in-place column rewrites are modelled as functions returning the rewritten
  table. This covers the load-time `genres` split, the prize-money column and the
  platform column of the copy.
- Concurrency between callbacks is not modelled.
- datvis2.py:257-260: the branch where `'genres'` is not a column is never taken,
  because the load step always creates the column. It is not modelled.
- datvis2.py:190: the filter has no `isinstance` guard. Every cell is a list at that
  point, so it is modelled like the guarded filter.
- Ranking.SortDesc: promises a non-increasing permutation, not pandas' order among
  ties.
- Metrics.TotalUsers: its contract states the zero case and the bound on each of
  the six counters. The sum itself is the definition and is not restated.
- Metrics.ExplodeRows: its own contract states only the row count. The per-genre
  content is stated by `GenrePerformance.GenreGroupSum` and `ExplodeRowGroupSize`.
- Metrics.ComputeMetrics: does not bound the score above in general, because
  `engagement_rate` and `completion_rate` exceed 1 when players or finishers
  outnumber owners. `CompletionOverflowExample` shows a score of 150.
- CatalogViews.ScatterTop: states which rows are kept, how often, and that they
  are non-increasing by score. It does not fix their order among equal scores,
  which follows pandas' `nlargest`.

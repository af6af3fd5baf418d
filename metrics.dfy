/**
 * The per-game marketing metrics added to every catalog row before any chart
 * is drawn, and the genre-exploded copy of that table.
 */
module Metrics {
  import opened Wrappers
  import opened Tables
  import opened Games

  /** Weights of the engagement score. */
  const OwnershipWeight: real := 0.3
  const EngagementWeight: real := 0.4
  const CompletionWeight: real := 0.3

  /** A counter with NaN read as 0 (`fillna(0)`). */
  function Filled(c: Option<nat>): nat { c.GetOr(0) }

  ghost predicate AllCountersZero(g: Game) {
    Filled(g.yet) == 0 && Filled(g.owned) == 0 && Filled(g.beaten) == 0 &&
    Filled(g.toplay) == 0 && Filled(g.dropped) == 0 && Filled(g.playing) == 0
  }

  /** `total_users`: all six status counters, missing ones counting 0. */
  function TotalUsers(g: Game): (n: nat)
    ensures n == 0 <==> AllCountersZero(g)
    ensures Filled(g.owned) <= n && Filled(g.playing) <= n && Filled(g.beaten) <= n
    ensures Filled(g.dropped) <= n && Filled(g.yet) <= n && Filled(g.toplay) <= n
  {
    Filled(g.yet) + Filled(g.owned) + Filled(g.beaten) + Filled(g.toplay) + Filled(g.dropped) + Filled(g.playing)
  }

  /** `replace(0, 1)` on a denominator column. */
  function NonZero(n: nat): (d: nat)
    ensures d >= 1
    ensures n > 0 ==> d == n
  {
    if n == 0 then 1 else n
  }

  /** The owner count used as denominator: `fillna(1).replace(0, 1)`; never 0. */
  function OwnedDivisor(g: Game): (d: nat)
    ensures d >= 1
    ensures Filled(g.owned) > 0 ==> d == Filled(g.owned)
    ensures Filled(g.owned) == 0 ==> d == 1
  {
    NonZero(g.owned.GetOr(1))
  }

  /** A count divided by a positive count: the quotient, non-negative, and at most 1 when the numerator is no larger. */
  function Ratio(num: nat, den: nat): (q: real)
    requires den > 0
    ensures q * den as real == num as real
    ensures q >= 0.0
    ensures num <= den ==> q <= 1.0
  {
    var n, d := num as real, den as real;
    assert (n / d) * d == n;
    n / d
  }

  /** `ownership_rate`: share of listed users who own the game; 0 for a game nobody listed. */
  function OwnershipRate(g: Game): (r: real)
    ensures 0.0 <= r <= 1.0
    ensures TotalUsers(g) == 0 ==> r == 0.0
    ensures r * NonZero(TotalUsers(g)) as real == Filled(g.owned) as real
  {
    Ratio(Filled(g.owned), NonZero(TotalUsers(g)))
  }

  /** `engagement_rate`: players per owner; can exceed 1. */
  function EngagementRate(g: Game): (r: real)
    ensures r >= 0.0
    ensures r * OwnedDivisor(g) as real == Filled(g.playing) as real
    ensures Filled(g.playing) <= OwnedDivisor(g) ==> r <= 1.0
  {
    Ratio(Filled(g.playing), OwnedDivisor(g))
  }

  /** `completion_rate`: finishers per owner; not clamped, so it can exceed 1. */
  function CompletionRate(g: Game): (r: real)
    ensures r >= 0.0
    ensures r * OwnedDivisor(g) as real == Filled(g.beaten) as real
    ensures Filled(g.beaten) <= OwnedDivisor(g) ==> r <= 1.0
  {
    Ratio(Filled(g.beaten), OwnedDivisor(g))
  }

  /** `churn_rate`: drop-outs per owner. */
  function ChurnRate(g: Game): (r: real)
    ensures r >= 0.0
    ensures r * OwnedDivisor(g) as real == Filled(g.dropped) as real
  {
    Ratio(Filled(g.dropped), OwnedDivisor(g))
  }

  /** `engagement_score`: the weighted rates scaled to a nominal 0..100. */
  function EngagementScore(ownership: real, engagement: real, completion: real): (s: real)
    ensures ownership >= 0.0 && engagement >= 0.0 && completion >= 0.0 ==> s >= 0.0
    ensures ownership == engagement == completion ==> s == ownership * 100.0
  {
    (ownership * OwnershipWeight + engagement * EngagementWeight + completion * CompletionWeight) * 100.0
  }

  /** The score is monotone non-decreasing in each of the three rates. */
  lemma EngagementScoreMonotone(o1: real, e1: real, c1: real, o2: real, e2: real, c2: real)
    requires o1 <= o2 && e1 <= e2 && c1 <= c2
    ensures EngagementScore(o1, e1, c1) <= EngagementScore(o2, e2, c2)
  {
  }

  /** With every rate in [0, 1] the score lies in [0, 100]. */
  lemma EngagementScoreBounds(o: real, e: real, c: real)
    requires 0.0 <= o <= 1.0 && 0.0 <= e <= 1.0 && 0.0 <= c <= 1.0
    ensures 0.0 <= EngagementScore(o, e, c) <= 100.0
  {
    EngagementScoreMonotone(0.0, 0.0, 0.0, o, e, c);
    EngagementScoreMonotone(o, e, c, 1.0, 1.0, 1.0);
  }

  /** `clv_proxy`: playtime times rating times completion, missing playtime or rating counting 0. */
  function ClvProxy(g: Game): (v: real)
    ensures g.playtime.None? || g.rating.None? ==> v == 0.0
    ensures Filled(g.beaten) == 0 ==> v == 0.0
    ensures g.playtime.GetOr(0.0) >= 0.0 && g.rating.GetOr(0.0) >= 0.0 ==> v >= 0.0
  {
    g.playtime.GetOr(0.0) * g.rating.GetOr(0.0) * CompletionRate(g)
  }

  /** The columns `calculate_marketing_metrics` adds to a row. */
  datatype Metrics = Metrics(
    totalUsers: nat,
    ownershipRate: real,
    engagementRate: real,
    completionRate: real,
    churnRate: real,
    engagementScore: real,
    clvProxy: real)

  /**
   * The derived metrics of one game. Defined for every row (no division by zero);
   * the ownership rate is a share, the other rates are non-negative but unbounded,
   * and the score stays in [0, 100] when players and finishers do not outnumber owners.
   */
  function ComputeMetrics(g: Game): (m: Metrics)
    ensures m.totalUsers == 0 <==> AllCountersZero(g)
    ensures 0.0 <= m.ownershipRate <= 1.0
    ensures m.engagementRate >= 0.0 && m.completionRate >= 0.0 && m.churnRate >= 0.0
    ensures m.engagementScore >= 0.0
    ensures Filled(g.playing) <= OwnedDivisor(g) && Filled(g.beaten) <= OwnedDivisor(g) ==>
              m.engagementScore <= 100.0
    ensures AllCountersZero(g) ==>
              m.ownershipRate == 0.0 && m.engagementScore == 0.0 && m.clvProxy == 0.0
  {
    var own, eng, comp := OwnershipRate(g), EngagementRate(g), CompletionRate(g);
    EngagementScoreMonotone(0.0, 0.0, 0.0, own, eng, comp);
    ScoreBoundedWhenNotOutnumbered(g);
    Metrics(TotalUsers(g), own, eng, comp, ChurnRate(g), EngagementScore(own, eng, comp), ClvProxy(g))
  }

  /** When players and finishers do not outnumber the owner divisor, every rate is a share and the score is at most 100. */
  lemma ScoreBoundedWhenNotOutnumbered(g: Game)
    ensures Filled(g.playing) <= OwnedDivisor(g) && Filled(g.beaten) <= OwnedDivisor(g) ==>
              EngagementScore(OwnershipRate(g), EngagementRate(g), CompletionRate(g)) <= 100.0
  {
    if Filled(g.playing) <= OwnedDivisor(g) && Filled(g.beaten) <= OwnedDivisor(g) {
      EngagementScoreBounds(OwnershipRate(g), EngagementRate(g), CompletionRate(g));
    }
  }

  /** A row of the marketing table: the catalog row and its metrics. */
  datatype MRow = MRow(game: Game, metrics: Metrics)

  function RowGenres(r: MRow): GenreCell { r.game.genres }

  /** `calculate_marketing_metrics`: the same rows, in order, each with its metrics attached. */
  function CalculateMarketingMetrics(df: seq<Game>): (r: seq<MRow>)
    ensures |r| == |df|
    ensures forall i :: 0 <= i < |df| ==> r[i].game == df[i] && r[i].metrics == ComputeMetrics(df[i])
  {
    seq(|df|, i requires 0 <= i < |df| => MRow(df[i], ComputeMetrics(df[i])))
  }

  /** Pairs each exploded copy of a game with the metrics of the original row. */
  function WithMetrics(gs: seq<Game>, m: Metrics): (r: seq<MRow>)
    ensures |r| == |gs|
    ensures forall i :: 0 <= i < |gs| ==> r[i] == MRow(gs[i], m)
  {
    if gs == [] then [] else [MRow(gs[0], m)] + WithMetrics(gs[1..], m)
  }

  /** A metric column read off a marketing row. */
  function Lifted(h: Metrics -> real): (f: MRow -> real)
    ensures forall r: MRow :: f(r) == h(r.metrics)
  {
    (r: MRow) => h(r.metrics)
  }

  function Users(m: Metrics): real { m.totalUsers as real }
  function Unit(m: Metrics): real { 1.0 }
  function EngagementOf(r: MRow): real { r.metrics.engagementScore }
  function OwnershipOf(r: MRow): real { r.metrics.ownershipRate }
  function CompletionOf(r: MRow): real { r.metrics.completionRate }
  function ChurnOf(r: MRow): real { r.metrics.churnRate }
  function ClvOf(r: MRow): real { r.metrics.clvProxy }

  /** `explode('genres')` of one marketing row: its metrics are copied to every genre row. */
  function ExplodeRow(r: MRow): (e: seq<MRow>)
    ensures |e| >= 1
    ensures forall i :: 0 <= i < |e| ==> e[i].metrics == r.metrics && e[i].game.(genres := r.game.genres) == r.game
  {
    WithMetrics(ExplodeOne(r.game), r.metrics)
  }

  /** `df_marketing.explode('genres')`. */
  function ExplodeRows(rows: seq<MRow>): (e: seq<MRow>)
    ensures |e| >= |rows|
  {
    if rows == [] then [] else ExplodeRow(rows[0]) + ExplodeRows(rows[1..])
  }

  /** Completion overflow: 0 owners and 5 finishers give a completion rate of exactly 5, and a score of 150. */
  lemma CompletionOverflowExample()
    ensures var g := Blank(Listed([])).(owned := Some(0), beaten := Some(5));
            CompletionRate(g) == 5.0 && OwnershipRate(g) == 0.0 && ComputeMetrics(g).engagementScore == 150.0
  {
  }
}

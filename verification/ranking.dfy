/**
 * The result table: stored rows paired with their scores, and the sidebar
 * filters that decide which of them are shown.
 */
module Ranking {
  import opened Wrappers
  import opened Store

  /** One row of the result table. */
  datatype Ranked = Ranked(ticker: string, row: Row, score: int)

  /**
   * The sidebar thresholds. A criterion a version does not offer is None;
   * `minDy` and `minScore` are offered by every version.
   */
  datatype Thresholds = Thresholds(
    maxPvp: Option<real>,
    minDy: real,
    minLiquidity: Option<real>,
    sectors: Option<set<string>>,
    minMarketCap: Option<real>,
    minScore: int)

  /** A pandas comparison against a missing value (NaN) is false. */
  predicate AtMost(x: Option<real>, bound: real)
  {
    x.Some? && x.value <= bound
  }

  predicate AtLeast(x: Option<real>, bound: real)
  {
    x.Some? && x.value >= bound
  }

  /** The row passes every offered criterion; a missing sector is never `isin` a selection. */
  predicate Shown(r: Ranked, th: Thresholds)
  {
    && (th.maxPvp.Some? ==> AtMost(r.row.pvp, th.maxPvp.value))
    && AtLeast(r.row.dy, th.minDy)
    && (th.minLiquidity.Some? ==> AtLeast(r.row.liquidity, th.minLiquidity.value))
    && (th.sectors.Some? ==> r.row.sector.Some? && r.row.sector.value in th.sectors.value)
    && (th.minMarketCap.Some? ==> AtLeast(r.row.marketCap, th.minMarketCap.value))
    && r.score >= th.minScore
  }

  /**
   * The filtered table: exactly the rows that pass, each as often as in the
   * input, in their original order.
   */
  function Select(rs: seq<Ranked>, th: Thresholds): (r: seq<Ranked>)
    ensures |r| <= |rs|
    ensures forall x :: x in r ==> Shown(x, th)
    ensures forall x :: multiset(r)[x] == if Shown(x, th) then multiset(rs)[x] else 0
  {
    if |rs| == 0 then []
    else
      var rest := Select(rs[..|rs| - 1], th);
      assert rs == rs[..|rs| - 1] + [rs[|rs| - 1]];
      if Shown(rs[|rs| - 1], th) then rest + [rs[|rs| - 1]] else rest
  }

  /** Tightening every threshold never shows more rows. */
  predicate Tighter(a: Thresholds, b: Thresholds)
  {
    && (b.maxPvp.Some? ==> a.maxPvp.Some? && a.maxPvp.value <= b.maxPvp.value)
    && a.minDy >= b.minDy
    && (b.minLiquidity.Some? ==> a.minLiquidity.Some? && a.minLiquidity.value >= b.minLiquidity.value)
    && (b.sectors.Some? ==> a.sectors.Some? && a.sectors.value <= b.sectors.value)
    && (b.minMarketCap.Some? ==> a.minMarketCap.Some? && a.minMarketCap.value >= b.minMarketCap.value)
    && a.minScore >= b.minScore
  }

  lemma TighterShowsLess(rs: seq<Ranked>, a: Thresholds, b: Thresholds)
    requires Tighter(a, b)
    ensures multiset(Select(rs, a)) <= multiset(Select(rs, b))
  {
    forall x
      ensures multiset(Select(rs, a))[x] <= multiset(Select(rs, b))[x]
    {
    }
  }

  /** Pairing stored rows with the score column, position by position. */
  function Rank(tickers: seq<string>, rows: seq<Row>, scores: seq<int>): (r: seq<Ranked>)
    requires |tickers| == |rows| == |scores|
    ensures |r| == |rows|
    ensures forall i :: 0 <= i < |r| ==> r[i] == Ranked(tickers[i], rows[i], scores[i])
  {
    seq(|rows|, i requires 0 <= i < |rows| => Ranked(tickers[i], rows[i], scores[i]))
  }

  /** The sectors offered by the multiselect: the stored sectors, missing ones dropped. */
  function OfferedSectors(rs: seq<Ranked>): (s: set<string>)
    ensures forall x :: x in s <==> exists i :: 0 <= i < |rs| && rs[i].row.sector == Some(x)
  {
    set i | 0 <= i < |rs| && rs[i].row.sector.Some? :: rs[i].row.sector.value
  }

  /** The default selection: every offered sector but the placeholder, when there are others. */
  function DefaultSectors(offered: set<string>, placeholder: string): (s: set<string>)
    ensures s <= offered
    ensures |offered| > 1 ==> s == offered - {placeholder}
    ensures |offered| <= 1 ==> s == offered
  {
    if |offered| > 1 then offered - {placeholder} else offered
  }

  /** The sidebar of the P/VP-and-yield versions: a P/VP ceiling, a minimum yield and a minimum score. */
  function PvpDyFilter(maxPvp: real, minDy: real, minScore: int): (th: Thresholds)
    ensures forall r :: Shown(r, th) <==> AtMost(r.row.pvp, maxPvp) && AtLeast(r.row.dy, minDy) && r.score >= minScore
  {
    Thresholds(Some(maxPvp), minDy, None, None, None, minScore)
  }
}

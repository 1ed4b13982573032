/**
 * Version 7 (the first cloud release): the browser collector over the fixed
 * fund list with up to three attempts per page, and the coupled two-metric
 * score gated on 0 < P/VP < 1.5 with a positive yield.
 */
module V7 {
  import opened Wrappers
  import opened Store
  import opened Scoring
  import Scrape
  import PvpDy

  const Variant := PvpDy.Variant(0.0, true, CoupledNeutral, false)

  /**
   * One collection: nothing when the browser does not start or when no fund
   * could be read in three attempts; otherwise one row per readable fund.
   */
  function Refresh(driverStarts: bool, load: (string, nat) -> Scrape.Page, parse: string -> Option<real>): (r: Refresh)
    ensures !driverStarts ==> r.Failed?
    ensures r.Collected? <==> driverStarts && exists c :: c in Scrape.FundList && Scrape.FirstReading(c, load, parse, Scrape.MaxAttempts, 0).Some?
    ensures r.Collected? ==> forall w :: w in r.writes ==>
              w.ticker in Scrape.FundList && Scrape.FirstReading(w.ticker, load, parse, Scrape.MaxAttempts, 0) == Some(w.row)
    ensures r.Collected? ==> forall c :: c in Scrape.FundList && Scrape.FirstReading(c, load, parse, Scrape.MaxAttempts, 0).Some? ==>
              Write(c, Scrape.FirstReading(c, load, parse, Scrape.MaxAttempts, 0).value) in r.writes
  {
    if !driverStarts then Failed
    else
      var ws := Scrape.Collect(Scrape.FundList, load, parse, Scrape.MaxAttempts);
      if |ws| == 0 then Failed else assert ws[0] in ws; Collected(ws)
  }

  /** `calcular_score_pro`: one score per row in 0..100; 0 outside 0 < P/VP < 1.5 or without a positive yield. */
  function Score(ws: seq<Write>): (r: seq<int>)
    ensures |r| == |ws|
    ensures forall i :: 0 <= i < |ws| ==> 0 <= r[i] <= 100
    ensures forall i :: 0 <= i < |ws| && !(ws[i].row.pvp.Some? && 0.0 < ws[i].row.pvp.value < 1.5 && Positive(ws[i].row.dy)) ==> r[i] == 0
  {
    PvpDy.Score(ws, Variant)
  }

  /** When the gated funds share the yield or share the P/VP, each of them scores 50. */
  lemma OneFlatMetricGivesFifty(ws: seq<Write>, c: real, i: nat)
    requires i < |ws| && PvpDy.Gated(ws[i].row, Variant)
    requires PvpDy.SharedYield(ws, Variant, c) || PvpDy.SharedPvp(ws, Variant, c)
    ensures Score(ws)[i] == 50
  {
    PvpDy.CoupledTieFifty(ws, Variant, c, i);
  }
}

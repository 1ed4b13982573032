/**
 * Version 2: the browser collector over the fixed fund list, one attempt per
 * page, a failed page skipped; and the unguarded two-metric score, whose
 * division by a zero spread leaves every gated fund at 0.
 */
module V2 {
  import opened Wrappers
  import opened Store
  import opened Scoring
  import Scrape
  import PvpDy

  /** Gate 0 < P/VP < 1.5 with a positive yield; no guard against a zero spread. */
  const Variant := PvpDy.Variant(0.0, true, Unguarded, false)

  /** A fund's rows, read from the single page load `load` gives for it. */
  function Collect(load: string -> Scrape.Page, parse: string -> Option<real>): (r: seq<Write>)
    ensures forall w :: w in r ==> w.ticker in Scrape.FundList && Scrape.Reading(load(w.ticker), parse) == Some(w.row)
    ensures forall c :: c in Scrape.FundList && Scrape.Reading(load(c), parse).Some? ==>
              Write(c, Scrape.Reading(load(c), parse).value) in r
  {
    var once := (c: string, k: nat) => load(c);
    var r := Scrape.Collect(Scrape.FundList, once, parse, 1);
    forall c: string
      ensures Scrape.FirstReading(c, once, parse, 1, 0) == Scrape.Reading(load(c), parse)
    {
      Scrape.SingleAttempt(c, once, parse);
    }
    r
  }

  /**
   * One collection: nothing when the browser does not start or no page could
   * be read; otherwise one row per readable fund.
   */
  function Refresh(driverStarts: bool, load: string -> Scrape.Page, parse: string -> Option<real>): (r: Refresh)
    ensures r.Collected? <==> driverStarts && exists c :: c in Scrape.FundList && Scrape.Reading(load(c), parse).Some?
    ensures r.Collected? ==> forall w :: w in r.writes ==>
              w.ticker in Scrape.FundList && Scrape.Reading(load(w.ticker), parse) == Some(w.row)
  {
    if !driverStarts then Failed
    else
      var ws := Collect(load, parse);
      if |ws| == 0 then Failed else assert ws[0] in ws; Collected(ws)
  }

  /** `calcular_score_pro`: one score per row in 0..100; 0 outside 0 < P/VP < 1.5 or without a positive yield. */
  function Score(ws: seq<Write>): (r: seq<int>)
    ensures |r| == |ws|
    ensures forall i :: 0 <= i < |ws| ==> 0 <= r[i] <= 100
    ensures forall i :: 0 <= i < |ws| && !(ws[i].row.pvp.Some? && 0.0 < ws[i].row.pvp.value < 1.5 && Positive(ws[i].row.dy)) ==> r[i] == 0
  {
    PvpDy.Score(ws, Variant)
  }

  /**
   * When the gated funds share the yield or share the P/VP (a single gated
   * fund, say), the division by zero gives every one of them 0.
   */
  lemma SharedMetricZeroesAll(ws: seq<Write>, c: real, i: nat)
    requires i < |ws| && PvpDy.Gated(ws[i].row, Variant)
    requires PvpDy.SharedYield(ws, Variant, c) || PvpDy.SharedPvp(ws, Variant, c)
    ensures Score(ws)[i] == 0
  {
    PvpDy.UnguardedTieZero(ws, Variant, c, i);
  }

  /**
   * With spread on both metrics, the fund with the highest yield and lowest
   * P/VP scores 100 and the one with the lowest yield and highest P/VP 0.
   */
  lemma BestAndWorst(ws: seq<Write>, b: nat, w: nat)
    requires b < |ws| && w < |ws| && PvpDy.Gated(ws[b].row, Variant) && PvpDy.Gated(ws[w].row, Variant)
    requires PvpDy.Brackets(ws, Variant, b, w)
    requires PvpDy.Yield(ws[b].row) > PvpDy.Yield(ws[w].row) && ws[w].row.pvp.value > ws[b].row.pvp.value
    ensures Score(ws)[b] == 100 && Score(ws)[w] == 0
  {
    PvpDy.TopAndBottom(ws, Variant, b, w);
  }
}

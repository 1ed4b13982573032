/**
 * Version 29: the quotation endpoint over plain HTTP with the key-statistics
 * module, records processed inside each batch's own `try`, P/VP and dividend
 * yield both read from the statistics dictionary. The score gates on
 * 0.1 < P/VP < 1.5 only and gives a metric without spread the neutral 50.
 */
module V29 {
  import opened Wrappers
  import opened PyValue
  import opened Batching
  import opened Store
  import opened Ranking
  import opened Scoring
  import Quotes
  import KeyStats
  import Acceptance
  import PvpDy

  /** Score choices: lower bound 0.1, no yield condition, per-metric neutral ties, no clipping. */
  const Variant := PvpDy.Variant(0.1, false, PerMetricNeutral, false)

  /**
   * One quotation record: `.get` on a record that is not a dictionary raises
   * (ending its batch); a row needs a truthy identifier and a statistics
   * dictionary whose `priceToBook` is a positive number. The yield is the
   * dictionary's `dividendYield` in percent, 0 when it is not a number; other
   * records are dropped silently.
   */
  function Accept(rec: Val): (r: Py<Option<Write>>)
    ensures r.Raise? <==> !rec.Dict?
    ensures r.Ok? && r.value.Some? <==>
              rec.Dict? && Attr(rec, "symbol").Str? && |Attr(rec, "symbol").s| > 0
              && KeyStats.BookRatio(Attr(rec, "defaultKeyStatistics")).Some?
    ensures r.Ok? && r.value.Some? ==>
              var stats := Attr(rec, "defaultKeyStatistics");
              r.value.value == Write(Attr(rec, "symbol").s,
                Acceptance.PvpDyRow(NumberOf(Attr(stats, "priceToBook")), KeyStats.YieldPercent(Attr(stats, "dividendYield"))))
  {
    if !rec.Dict? then Raise
    else
      var t := Attr(rec, "symbol");
      var stats := Attr(rec, "defaultKeyStatistics");
      if !(Truthy(t) && stats.Dict?) then Ok(None)
      else match KeyStats.BookRatio(stats)
        case None => Ok(None)
        case Some(pvp) => Ok(Acceptance.Emit(t, Acceptance.PvpDyRow(pvp, KeyStats.YieldPercent(Attr(stats, "dividendYield")))))
  }

  /**
   * One collection: nothing without a listed fund or when no batch yielded a
   * row; otherwise the rows of every batch, each an accepted record returned
   * for one of the requests, with a positive P/VP and a yield.
   */
  function Refresh(body: Option<Val>, fetch: seq<string> -> Response): (r: Refresh)
    ensures |Quotes.ListedCodes(body)| == 0 ==> r.Failed?
    ensures r.Collected? <==> |Quotes.ListedCodes(body)| > 0
                              && |Quotes.BatchRows(Quotes.Requests(Quotes.ListedCodes(body)), fetch, Accept).items| > 0
    ensures r.Collected? ==> r.writes == Quotes.BatchRows(Quotes.Requests(Quotes.ListedCodes(body)), fetch, Accept).items
    ensures r.Collected? ==> forall w :: w in r.writes ==>
              exists rec :: Quotes.Returned(Quotes.Requests(Quotes.ListedCodes(body)), fetch, rec) && Accept(rec) == Ok(Some(w))
    ensures r.Collected? ==> forall w :: w in r.writes ==> Positive(w.row.pvp) && w.row.dy.Some?
  {
    var r := Quotes.PerBatch(Quotes.ListedCodes(body), fetch, Accept);
    AcceptedRows(r);
    r
  }

  /** Rows this version's rule accepted carry a positive P/VP and a yield. */
  lemma AcceptedRows(r: Refresh)
    requires r.Collected? ==> forall w :: w in r.writes ==> exists rec :: Accept(rec) == Ok(Some(w))
    ensures r.Collected? ==> forall w :: w in r.writes ==> Positive(w.row.pvp) && w.row.dy.Some?
  {
    if r.Collected? {
      forall w | w in r.writes
        ensures Positive(w.row.pvp) && w.row.dy.Some?
      {
        var rec :| Accept(rec) == Ok(Some(w));
      }
    }
  }

  /**
   * A batch whose `results` key is present succeeds even when none of its
   * records qualifies; a missing key or an exception fails it.
   */
  lemma ResultsKeyDecides(rs: seq<Val>)
    requires forall i :: 0 <= i < |rs| ==> Accept(rs[i]) == Ok(None)
    ensures !Quotes.InBatch(Returned(Some(rs)), Accept).failed
    ensures Quotes.InBatch(Returned(Some(rs)), Accept).items == []
    ensures Quotes.InBatch(Returned(None), Accept).failed && Quotes.InBatch(Raised, Accept).failed
  {
    Quotes.InBatchNothing(rs, Accept);
  }

  /**
   * `calcular_score_pro`: one score per row, in 0..100; 0 outside
   * 0.1 < P/VP < 1.5 (so every score is 0 when no row passes).
   */
  function Score(ws: seq<Write>): (r: seq<int>)
    ensures |r| == |ws|
    ensures forall i :: 0 <= i < |ws| ==> 0 <= r[i] <= 100
    ensures forall i :: 0 <= i < |ws| && !(ws[i].row.pvp.Some? && 0.1 < ws[i].row.pvp.value < 1.5) ==> r[i] == 0
  {
    PvpDy.Score(ws, Variant)
  }

  /** Funds that all share the same yield and the same P/VP each score the neutral 50. */
  lemma IdenticalFundsScoreFifty(ws: seq<Write>, c: real, d: real, i: nat)
    requires i < |ws| && PvpDy.Gated(ws[i].row, Variant)
    requires PvpDy.SharedYield(ws, Variant, c) && PvpDy.SharedPvp(ws, Variant, d)
    ensures Score(ws)[i] == 50
  {
    PvpDy.PerMetricTieFifty(ws, Variant, c, d, i);
  }

  /** With spread on both metrics, the fund best on both scores 100 and the fund worst on both 0. */
  lemma BestAndWorst(ws: seq<Write>, b: nat, w: nat)
    requires b < |ws| && w < |ws| && PvpDy.Gated(ws[b].row, Variant) && PvpDy.Gated(ws[w].row, Variant)
    requires PvpDy.Brackets(ws, Variant, b, w)
    requires PvpDy.Yield(ws[b].row) > PvpDy.Yield(ws[w].row) && ws[w].row.pvp.value > ws[b].row.pvp.value
    ensures Score(ws)[b] == 100 && Score(ws)[w] == 0
  {
    PvpDy.TopAndBottom(ws, Variant, b, w);
  }
}

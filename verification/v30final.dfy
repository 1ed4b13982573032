/**
 * The "V30 final" collector and ranker: the quotation endpoint is called over
 * plain HTTP, each batch's records are processed inside the batch's own
 * `try`, P/VP comes from the key-statistics module and the dividend yield
 * from the record itself. The score gates on 0.1 < P/VP < 1.5 only, floors
 * every spread at 1e-6 and clips to 0..100.
 */
module V30Final {
  import opened Wrappers
  import opened PyValue
  import opened Tickers
  import opened Batching
  import opened Store
  import opened Ranking
  import opened Scoring
  import Quotes
  import KeyStats
  import Acceptance
  import PvpDy

  /** Score choices: lower bound 0.1, no yield condition, spreads floored at 1e-6, clipped. */
  const Variant := PvpDy.Variant(0.1, false, EpsilonFloor(0.000001), true)

  /**
   * One quotation record: `.get` on a record that is not a dictionary raises;
   * a row needs a truthy identifier, a statistics dictionary and a positive
   * numeric `priceToBook` in it. The yield is the record's own
   * `dividendYield` in percent, 0 when it is not a number.
   */
  function Accept(rec: Val): (r: Py<Option<Write>>)
    ensures r.Raise? <==> !rec.Dict?
    ensures r.Ok? && r.value.Some? <==>
              rec.Dict? && Attr(rec, "symbol").Str? && |Attr(rec, "symbol").s| > 0
              && KeyStats.BookRatio(Attr(rec, "defaultKeyStatistics")).Some?
    ensures r.Ok? && r.value.Some? ==>
              r.value.value == Write(Attr(rec, "symbol").s,
                Acceptance.PvpDyRow(NumberOf(Attr(Attr(rec, "defaultKeyStatistics"), "priceToBook")),
                                    KeyStats.YieldPercent(Attr(rec, "dividendYield"))))
  {
    if !rec.Dict? then Raise
    else
      var t := Attr(rec, "symbol");
      var stats := Attr(rec, "defaultKeyStatistics");
      if !(Truthy(t) && stats.Dict?) then Ok(None)
      else match KeyStats.BookRatio(stats)
        case None => Ok(None)
        case Some(pvp) => Ok(Acceptance.Emit(t, Acceptance.PvpDyRow(pvp, KeyStats.YieldPercent(Attr(rec, "dividendYield")))))
  }

  /**
   * One collection: nothing without a listed fund or when no batch yielded a
   * row; otherwise the rows of every batch, each an accepted record that the
   * endpoint returned for one of the requests, with a positive P/VP.
   */
  function Refresh(body: Option<Val>, fetch: seq<string> -> Response): (r: Refresh)
    ensures |Quotes.ListedCodes(body)| == 0 ==> r.Failed?
    ensures r.Collected? ==> |r.writes| > 0
    ensures r.Collected? <==> |Quotes.ListedCodes(body)| > 0
                              && |Quotes.BatchRows(Quotes.Requests(Quotes.ListedCodes(body)), fetch, Accept).items| > 0
    ensures r.Collected? ==> r.writes == Quotes.BatchRows(Quotes.Requests(Quotes.ListedCodes(body)), fetch, Accept).items
    ensures r.Collected? ==> forall w :: w in r.writes ==>
              exists rec :: Quotes.Returned(Quotes.Requests(Quotes.ListedCodes(body)), fetch, rec) && Accept(rec) == Ok(Some(w))
    ensures r.Collected? ==> forall w :: w in r.writes ==> Positive(w.row.pvp) && w.row.dy.Some?
  {
    var r := Quotes.PerBatch(Quotes.ListedCodes(body), fetch, Accept);
    AcceptedRows(r);
    r
  }

  /** Rows this version's rule accepted carry a positive P/VP and a yield. */
  lemma AcceptedRows(r: Refresh)
    requires r.Collected? ==> forall w :: w in r.writes ==> exists rec :: Accept(rec) == Ok(Some(w))
    ensures r.Collected? ==> forall w :: w in r.writes ==> Positive(w.row.pvp) && w.row.dy.Some?
  {
    if r.Collected? {
      forall w | w in r.writes
        ensures Positive(w.row.pvp) && w.row.dy.Some?
      {
        var rec :| Accept(rec) == Ok(Some(w));
      }
    }
  }

  /**
   * A record that raises ends its batch, which keeps exactly the rows of the
   * records before it; later batches are processed as usual.
   */
  lemma RaiseEndsBatch(rs: seq<Val>, k: nat)
    requires k < |rs| && !rs[k].Dict?
    requires forall j :: 0 <= j < k ==> rs[j].Dict?
    ensures Quotes.InBatch(Returned(Some(rs)), Accept).failed
    ensures forall w :: w in Quotes.InBatch(Returned(Some(rs)), Accept).items <==>
              exists j :: 0 <= j < k && Accept(rs[j]) == Ok(Some(w))
  {
    assert Accept(rs[k]).Raise?;
    assert forall j :: 0 <= j < k ==> Accept(rs[j]).Ok?;
    Quotes.InBatchRaisePrefix(rs, Accept, k);
  }

  /**
   * `calcular_score_pro`: one score per row in 0..100; 0 outside
   * 0.1 < P/VP < 1.5 (a missing yield counts as 0 inside it).
   */
  function Score(ws: seq<Write>): (r: seq<int>)
    ensures |r| == |ws|
    ensures forall i :: 0 <= i < |ws| ==> 0 <= r[i] <= 100
    ensures forall i :: 0 <= i < |ws| && !(ws[i].row.pvp.Some? && 0.1 < ws[i].row.pvp.value < 1.5) ==> r[i] == 0
  {
    PvpDy.Score(ws, Variant)
  }

  /**
   * With the spread floor, funds that all share the same yield and the same
   * P/VP (a lone gated fund among them) all score 0, not the neutral 50.
   */
  lemma IdenticalFundsScoreZero(ws: seq<Write>, c: real, d: real, i: nat)
    requires i < |ws| && PvpDy.Gated(ws[i].row, Variant)
    requires PvpDy.SharedYield(ws, Variant, c) && PvpDy.SharedPvp(ws, Variant, d)
    ensures Score(ws)[i] == 0
  {
    PvpDy.EpsilonTieZero(ws, Variant, c, d, i);
  }
}

/**
 * Versions 24 and 25: the client library lists the funds, the identifiers
 * matching the pattern are fetched in batches of ten (a failing batch is
 * counted and skipped), and all gathered records are then processed in the
 * collection's own `try` under the statistics-attributes rule. Version 24
 * lacks the nothing-gathered check, which changes nothing: with no record
 * there is no row either.
 */
module V25 {
  import opened Wrappers
  import opened PyValue
  import opened Batching
  import opened Store
  import Quotes
  import Acceptance

  /** The records gathered over the requests, a batch counting whenever `results` is a list. */
  function Records(body: Option<Val>, fetch: seq<string> -> Response): seq<Val>
  {
    Quotes.ResultRecords(Quotes.Requests(Quotes.SdkCodes(body)), fetch)
  }

  /** Every row a collection under this version's rule writes carries a positive P/VP and yield. */
  lemma CollectedRows(batches: seq<seq<string>>, fetch: seq<string> -> Response)
    ensures var r := Quotes.AllAtOnce(batches, fetch, Acceptance.VarsAccept);
            r.Collected? ==> forall w :: w in r.writes ==> Positive(w.row.pvp) && Positive(w.row.dy)
  {
    var r := Quotes.AllAtOnce(batches, fetch, Acceptance.VarsAccept);
    if r.Collected? {
      Acceptance.VarsRowsPositive();
      Quotes.AcceptedRowsSatisfy(r.writes, Acceptance.VarsAccept, Quotes.ResultRecords(batches, fetch), Acceptance.PositivePvpDy);
    }
  }

  /**
   * One collection: nothing without a listed fund, nothing when one gathered
   * record makes the processing raise, nothing when no record qualifies;
   * otherwise every qualifying record's row, each with a positive P/VP and a
   * positive yield.
   */
  function Refresh(body: Option<Val>, fetch: seq<string> -> Response): (r: Refresh)
    ensures |Quotes.SdkCodes(body)| == 0 ==> r.Failed?
    ensures r.Collected? <==> |Quotes.SdkCodes(body)| > 0 && Quotes.NoneRaise(Records(body, fetch), Acceptance.VarsAccept)
                              && Quotes.SomeAccepted(Records(body, fetch), Acceptance.VarsAccept)
    ensures r.Collected? ==> Quotes.ProcessAll(Records(body, fetch), Acceptance.VarsAccept) == Ok(r.writes)
    ensures (exists rec :: rec in Records(body, fetch) && Acceptance.VarsAccept(rec).Raise?) ==> r.Failed?
    ensures r.Collected? ==> forall w :: w in r.writes ==> exists rec :: rec in Records(body, fetch) && Acceptance.VarsAccept(rec) == Ok(Some(w))
    ensures r.Collected? ==> Quotes.KeepsAccepted(r.writes, Records(body, fetch), Acceptance.VarsAccept)
    ensures r.Collected? ==> forall w :: w in r.writes ==> Positive(w.row.pvp) && Positive(w.row.dy)
  {
    if |Quotes.SdkCodes(body)| == 0 then Failed
    else
      CollectedRows(Quotes.Requests(Quotes.SdkCodes(body)), fetch);
      Quotes.AllAtOnce(Quotes.Requests(Quotes.SdkCodes(body)), fetch, Acceptance.VarsAccept)
  }

}

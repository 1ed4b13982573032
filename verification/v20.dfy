/**
 * Version 20: as version 21, but P/VP and the dividend yield are read from
 * the record itself, and the yield is stored as given (not multiplied by 100).
 */
module V20 {
  import opened Wrappers
  import opened PyValue
  import opened Batching
  import opened Store
  import Quotes
  import Acceptance

  /** The records gathered over the requests, a batch counting whenever `results` is a list. */
  function Records(body: Option<Val>, fetch: seq<Val> -> Response): seq<Val>
  {
    Quotes.ResultRecords(Chunks(Quotes.RawListing(body), BatchSize), fetch)
  }

  /** Every row a collection under this version's rule writes carries a positive P/VP and yield. */
  lemma CollectedRows(batches: seq<seq<Val>>, fetch: seq<Val> -> Response)
    ensures var r := Quotes.AllAtOnce(batches, fetch, Acceptance.TopLevelAccept);
            r.Collected? ==> forall w :: w in r.writes ==> Positive(w.row.pvp) && Positive(w.row.dy)
  {
    var r := Quotes.AllAtOnce(batches, fetch, Acceptance.TopLevelAccept);
    if r.Collected? {
      Acceptance.TopLevelRowsPositive();
      Quotes.AcceptedRowsSatisfy(r.writes, Acceptance.TopLevelAccept, Quotes.ResultRecords(batches, fetch), Acceptance.PositivePvpDy);
    }
  }

  /**
   * One collection: nothing with an empty listing, nothing when one gathered
   * record makes the processing raise, nothing when no record qualifies;
   * otherwise every qualifying record's row, with the record's own positive
   * P/VP and positive yield.
   */
  function Refresh(body: Option<Val>, fetch: seq<Val> -> Response): (r: Refresh)
    ensures |Quotes.RawListing(body)| == 0 ==> r.Failed?
    ensures r.Collected? <==> |Quotes.RawListing(body)| > 0 && Quotes.NoneRaise(Records(body, fetch), Acceptance.TopLevelAccept)
                              && Quotes.SomeAccepted(Records(body, fetch), Acceptance.TopLevelAccept)
    ensures r.Collected? ==> Quotes.ProcessAll(Records(body, fetch), Acceptance.TopLevelAccept) == Ok(r.writes)
    ensures (exists rec :: rec in Records(body, fetch) && Acceptance.TopLevelAccept(rec).Raise?) ==> r.Failed?
    ensures r.Collected? ==> forall w :: w in r.writes ==> exists rec :: rec in Records(body, fetch) && Acceptance.TopLevelAccept(rec) == Ok(Some(w))
    ensures r.Collected? ==> Quotes.KeepsAccepted(r.writes, Records(body, fetch), Acceptance.TopLevelAccept)
    ensures r.Collected? ==> forall w :: w in r.writes ==> Positive(w.row.pvp) && Positive(w.row.dy)
  {
    if |Quotes.RawListing(body)| == 0 then Failed
    else
      CollectedRows(Chunks(Quotes.RawListing(body), BatchSize), fetch);
      Quotes.AllAtOnce(Chunks(Quotes.RawListing(body), BatchSize), fetch, Acceptance.TopLevelAccept)
  }

}

/**
 * Version 15: as version 21, but without the statistics module: P/VP is the
 * record's price over its book value, every attribute read strictly.
 */
module V15 {
  import opened Wrappers
  import opened PyValue
  import opened Batching
  import opened Store
  import Quotes
  import Acceptance

  /** The records gathered over the requests, a batch counting whenever `results` is a list. */
  function Records(body: Option<Val>, fetch: seq<Val> -> Response): seq<Val>
  {
    Quotes.ResultRecords(Chunks(Quotes.RawListing(body), BatchSize), fetch)
  }

  /** Every row a collection under this version's rule writes carries a positive P/VP and yield. */
  lemma CollectedRows(batches: seq<seq<Val>>, fetch: seq<Val> -> Response)
    ensures var r := Quotes.AllAtOnce(batches, fetch, Acceptance.DerivedAccept);
            r.Collected? ==> forall w :: w in r.writes ==> Positive(w.row.pvp) && Positive(w.row.dy)
  {
    var r := Quotes.AllAtOnce(batches, fetch, Acceptance.DerivedAccept);
    if r.Collected? {
      Acceptance.DerivedRowsPositive();
      Quotes.AcceptedRowsSatisfy(r.writes, Acceptance.DerivedAccept, Quotes.ResultRecords(batches, fetch), Acceptance.PositivePvpDy);
    }
  }

  /**
   * One collection: nothing with an empty listing, nothing when one gathered
   * record makes the processing raise (a record lacking one of the four
   * attributes does), nothing when no record qualifies; otherwise every
   * qualifying record's row, with a positive derived P/VP and positive yield.
   */
  function Refresh(body: Option<Val>, fetch: seq<Val> -> Response): (r: Refresh)
    ensures |Quotes.RawListing(body)| == 0 ==> r.Failed?
    ensures r.Collected? <==> |Quotes.RawListing(body)| > 0 && Quotes.NoneRaise(Records(body, fetch), Acceptance.DerivedAccept)
                              && Quotes.SomeAccepted(Records(body, fetch), Acceptance.DerivedAccept)
    ensures r.Collected? ==> Quotes.ProcessAll(Records(body, fetch), Acceptance.DerivedAccept) == Ok(r.writes)
    ensures (exists rec :: rec in Records(body, fetch) && Acceptance.DerivedAccept(rec).Raise?) ==> r.Failed?
    ensures r.Collected? ==> forall w :: w in r.writes ==> exists rec :: rec in Records(body, fetch) && Acceptance.DerivedAccept(rec) == Ok(Some(w))
    ensures r.Collected? ==> Quotes.KeepsAccepted(r.writes, Records(body, fetch), Acceptance.DerivedAccept)
    ensures r.Collected? ==> forall w :: w in r.writes ==> Positive(w.row.pvp) && Positive(w.row.dy)
  {
    if |Quotes.RawListing(body)| == 0 then Failed
    else
      CollectedRows(Chunks(Quotes.RawListing(body), BatchSize), fetch);
      Quotes.AllAtOnce(Chunks(Quotes.RawListing(body), BatchSize), fetch, Acceptance.DerivedAccept)
  }

}

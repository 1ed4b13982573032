/**
 * Version 21: every identifier of the client library's listing, with no
 * format filter, is fetched in batches of ten (a failing batch only warns),
 * and all gathered records are processed in the collection's own `try`
 * under the statistics-attributes rule.
 */
module V21 {
  import opened Wrappers
  import opened PyValue
  import opened Batching
  import opened Store
  import Seqs
  import Quotes
  import Acceptance

  /** The batches: the raw listing in slices of ten, which put back together give the listing. */
  function Batches(body: Option<Val>): (r: seq<seq<Val>>)
    ensures Seqs.Flatten(r) == Quotes.RawListing(body)
    ensures forall b :: b in r ==> 0 < |b| <= BatchSize
  {
    ChunksFlatten(Quotes.RawListing(body), BatchSize);
    Chunks(Quotes.RawListing(body), BatchSize)
  }

  /** The records gathered over the requests, a batch counting whenever `results` is a list. */
  function Records(body: Option<Val>, fetch: seq<Val> -> Response): seq<Val>
  {
    Quotes.ResultRecords(Batches(body), fetch)
  }

  /** Every row a collection under this version's rule writes carries a positive P/VP and yield. */
  lemma CollectedRows(batches: seq<seq<Val>>, fetch: seq<Val> -> Response)
    ensures var r := Quotes.AllAtOnce(batches, fetch, Acceptance.VarsAccept);
            r.Collected? ==> forall w :: w in r.writes ==> Positive(w.row.pvp) && Positive(w.row.dy)
  {
    var r := Quotes.AllAtOnce(batches, fetch, Acceptance.VarsAccept);
    if r.Collected? {
      Acceptance.VarsRowsPositive();
      Quotes.AcceptedRowsSatisfy(r.writes, Acceptance.VarsAccept, Quotes.ResultRecords(batches, fetch), Acceptance.PositivePvpDy);
    }
  }

  /**
   * One collection: nothing with an empty listing, nothing when one gathered
   * record makes the processing raise, nothing when no record qualifies;
   * otherwise every qualifying record's row, with a positive P/VP and yield.
   */
  function Refresh(body: Option<Val>, fetch: seq<Val> -> Response): (r: Refresh)
    ensures |Quotes.RawListing(body)| == 0 ==> r.Failed?
    ensures r.Collected? <==> |Quotes.RawListing(body)| > 0 && Quotes.NoneRaise(Records(body, fetch), Acceptance.VarsAccept)
                              && Quotes.SomeAccepted(Records(body, fetch), Acceptance.VarsAccept)
    ensures r.Collected? ==> Quotes.ProcessAll(Records(body, fetch), Acceptance.VarsAccept) == Ok(r.writes)
    ensures (exists rec :: rec in Records(body, fetch) && Acceptance.VarsAccept(rec).Raise?) ==> r.Failed?
    ensures r.Collected? ==> forall w :: w in r.writes ==> exists rec :: rec in Records(body, fetch) && Acceptance.VarsAccept(rec) == Ok(Some(w))
    ensures r.Collected? ==> Quotes.KeepsAccepted(r.writes, Records(body, fetch), Acceptance.VarsAccept)
    ensures r.Collected? ==> forall w :: w in r.writes ==> Positive(w.row.pvp) && Positive(w.row.dy)
  {
    if |Quotes.RawListing(body)| == 0 then Failed
    else
      CollectedRows(Batches(body), fetch);
      Quotes.AllAtOnce(Batches(body), fetch, Acceptance.VarsAccept)
  }

}

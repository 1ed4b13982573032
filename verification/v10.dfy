/**
 * Version 10: the client library's `available()` identifiers containing
 * "11" are fetched in one library call, and every record is processed in the
 * collection's own `try` with P/VP derived as price over book value.
 */
module V10 {
  import opened Wrappers
  import opened PyValue
  import opened Tickers
  import opened Store
  import Quotes
  import Acceptance

  /**
   * The identifiers requested: `available().tickers` (which must be a list)
   * kept to those containing "11"; None when any step raises.
   */
  function Requested(available: Option<Val>): (r: Option<seq<Val>>)
    ensures r.Some? <==> available.Some? && AttrStrict(available.value, "tickers").Ok?
                         && AttrStrict(available.value, "tickers").value.List?
                         && forall v :: v in AttrStrict(available.value, "tickers").value.items ==> v.Str? || v.List? || v.Dict?
    ensures r.Some? ==> forall v :: v in r.value ==> v in AttrStrict(available.value, "tickers").value.items && HasEleven(v)
    ensures r.Some? ==> forall s :: Str(s) in AttrStrict(available.value, "tickers").value.items && Contains11(s) ==> Str(s) in r.value
  {
    if available.None? then None
    else match AttrStrict(available.value, "tickers")
      case Raise => None
      case Ok(ts) =>
        if !ts.List? then None
        else match ElevenCodes(ts.items)
          case Raise => None
          case Ok(codes) => Some(codes)
  }

  /**
   * One collection. `getStocks` stands for the library call fetching every
   * requested identifier (its batching is the library's); a raise anywhere,
   * or no qualifying record, collects nothing.
   */
  function Refresh(available: Option<Val>, getStocks: seq<Val> -> Py<seq<Val>>): (r: Refresh)
    ensures Requested(available).None? ==> r.Failed?
    ensures r.Collected? <==> Requested(available).Some? && getStocks(Requested(available).value).Ok?
                              && Quotes.NoneRaise(getStocks(Requested(available).value).value, Acceptance.DerivedAccept)
                              && Quotes.SomeAccepted(getStocks(Requested(available).value).value, Acceptance.DerivedAccept)
    ensures r.Collected? ==> Quotes.ProcessAll(getStocks(Requested(available).value).value, Acceptance.DerivedAccept) == Ok(r.writes)
    ensures r.Collected? ==> forall w :: w in r.writes ==>
              exists rec :: rec in getStocks(Requested(available).value).value && Acceptance.DerivedAccept(rec) == Ok(Some(w))
    ensures r.Collected? ==> Quotes.KeepsAccepted(r.writes, getStocks(Requested(available).value).value, Acceptance.DerivedAccept)
    ensures r.Collected? ==> forall w :: w in r.writes ==> Positive(w.row.pvp) && Positive(w.row.dy)
  {
    match Requested(available)
    case None => Failed
    case Some(codes) =>
      match getStocks(codes)
      case Raise => Failed
      case Ok(recs) =>
        var r := Quotes.Processed(recs, Acceptance.DerivedAccept);
        if r.Collected? then
          Acceptance.DerivedRowsPositive();
          Quotes.AcceptedRowsSatisfy(r.writes, Acceptance.DerivedAccept, recs, Acceptance.PositivePvpDy);
          r
        else r
  }

}

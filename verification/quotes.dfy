/**
 * The quotation round shared by the batched collectors: the identifier list
 * cut into requests of ten, what each request answered, the records gathered
 * over all requests, and the processing of the gathered records into rows.
 */
module Quotes {
  import opened Wrappers
  import opened PyValue
  import opened Tickers
  import opened Batching
  import opened Store
  import Seqs

  /** The cleaned identifier lists sent to the quotation endpoint, one per batch of ten. */
  function Requests(codes: seq<string>): (r: seq<seq<string>>)
    ensures |r| == |Chunks(codes, BatchSize)|
    ensures forall i :: 0 <= i < |r| ==> r[i] == CleanBatch(Chunks(codes, BatchSize)[i])
    ensures forall q :: q in r ==> 0 < |q| <= BatchSize
  {
    var batches := Chunks(codes, BatchSize);
    seq(|batches|, i requires 0 <= i < |batches| => CleanBatch(batches[i]))
  }

  /** Every listed fund is requested, by its bare six-character code. */
  lemma EveryFundRequested(codes: seq<string>, c: string)
    requires forall x :: x in codes ==> MatchesFundPattern(x)
    requires c in codes
    ensures IsFundCode(Strip(c))
    ensures exists q :: q in Requests(codes) && Strip(c) in q
  {
    var batches := Chunks(codes, BatchSize);
    ChunksFlatten(codes, BatchSize);
    var j :| 0 <= j < |codes| && codes[j] == c;
    assert Seqs.Flatten(batches)[j] == c;
    FlattenMember(batches, j);
    var b, p :| 0 <= b < |batches| && 0 <= p < |batches[b]| && batches[b][p] == c;
    var q := Requests(codes)[b];
    assert q[p] == Strip(c);
    assert q in Requests(codes);
    StripFundCode(c);
  }

  /** An element of a flattened sequence sits in one of the parts. */
  lemma {:induction false} FlattenMember<T>(xss: seq<seq<T>>, j: nat)
    requires j < |Seqs.Flatten(xss)|
    ensures exists b, p :: 0 <= b < |xss| && 0 <= p < |xss[b]| && xss[b][p] == Seqs.Flatten(xss)[j]
  {
    var front := xss[..|xss| - 1];
    assert Seqs.Flatten(xss) == Seqs.Flatten(front) + xss[|xss| - 1];
    if j < |Seqs.Flatten(front)| {
      FlattenMember(front, j);
      var b, p :| 0 <= b < |front| && 0 <= p < |front[b]| && front[b][p] == Seqs.Flatten(front)[j];
      assert xss[b] == front[b];
    } else {
      var p := j - |Seqs.Flatten(front)|;
      assert xss[|xss| - 1][p] == Seqs.Flatten(xss)[j];
    }
  }

  /**
   * What each request answered: an empty batch is skipped without a request
   * (`continue`), any other batch is what `fetch` answers for it.
   */
  function Responses<T>(qs: seq<seq<T>>, fetch: seq<T> -> Response): (r: seq<Response>)
    ensures |r| == |qs|
    ensures forall i :: 0 <= i < |qs| && |qs[i]| > 0 ==> r[i] == fetch(qs[i])
    ensures forall i :: 0 <= i < |qs| && |qs[i]| == 0 ==> r[i] == Skipped
  {
    seq(|qs|, i requires 0 <= i < |qs| => if |qs[i]| == 0 then Skipped else fetch(qs[i]))
  }

  /** The records gathered over all requests, under a version's batch success rule. */
  function Records(rs: seq<Response>, rule: Response -> BatchOutcome<Val>): Gathered<Val>
  {
    Gather(seq(|rs|, i requires 0 <= i < |rs| => rule(rs[i])))
  }

  /**
   * Processing every gathered record inside the collection's `try`: an
   * exception on any record aborts the collection; otherwise exactly the rows
   * of the accepted records, in order.
   */
  function ProcessAll(recs: seq<Val>, accept: Val -> Py<Option<Write>>): (r: Py<seq<Write>>)
    ensures r.Raise? <==> exists i :: 0 <= i < |recs| && accept(recs[i]).Raise?
    ensures r.Ok? ==> forall w :: w in r.value ==> exists i :: 0 <= i < |recs| && accept(recs[i]) == Ok(Some(w))
    ensures r.Ok? ==> forall i :: 0 <= i < |recs| && accept(recs[i]).Ok? && accept(recs[i]).value.Some? ==>
                        accept(recs[i]).value.value in r.value
  {
    var outs := seq(|recs|, i requires 0 <= i < |recs| => accept(recs[i]));
    var r := AllOrRaise(outs);
    assert forall i :: 0 <= i < |recs| ==> outs[i] == accept(recs[i]);
    SurvivorsFrom(outs);
    forall j | 0 <= j < |outs| && outs[j].Ok? && outs[j].value.Some? {
      SurvivorsHas(outs, j);
    }
    r
  }

  /** No record of `recs` raises under the rule. */
  ghost predicate NoneRaise(recs: seq<Val>, accept: Val -> Py<Option<Write>>)
  {
    forall rec :: rec in recs ==> !accept(rec).Raise?
  }

  /** Some record of `recs` is accepted as a row. */
  ghost predicate SomeAccepted(recs: seq<Val>, accept: Val -> Py<Option<Write>>)
  {
    exists rec :: rec in recs && accept(rec).Ok? && accept(rec).value.Some?
  }

  /** Every row that a record of `recs` is accepted as is among `ws`. */
  ghost predicate KeepsAccepted(ws: seq<Write>, recs: seq<Val>, accept: Val -> Py<Option<Write>>)
  {
    forall rec :: rec in recs && accept(rec).Ok? && accept(rec).value.Some? ==> accept(rec).value.value in ws
  }

  /**
   * Processing succeeds exactly when no record raises, and then yields a row
   * exactly when some record is accepted, every accepted row among them.
   */
  lemma ProcessAllCollects(recs: seq<Val>, accept: Val -> Py<Option<Write>>)
    ensures ProcessAll(recs, accept).Ok? <==> NoneRaise(recs, accept)
    ensures ProcessAll(recs, accept).Ok? ==> (|ProcessAll(recs, accept).value| > 0 <==> SomeAccepted(recs, accept))
    ensures ProcessAll(recs, accept).Ok? ==>
              forall rec :: rec in recs && accept(rec).Ok? && accept(rec).value.Some? ==> accept(rec).value.value in ProcessAll(recs, accept).value
  {
    var p := ProcessAll(recs, accept);
    if !NoneRaise(recs, accept) {
      var rec :| rec in recs && accept(rec).Raise?;
      var i :| 0 <= i < |recs| && recs[i] == rec;
      assert p.Raise?;
    }
    if p.Ok? {
      forall rec | rec in recs && accept(rec).Ok? && accept(rec).value.Some?
        ensures accept(rec).value.value in p.value
      {
        var i :| 0 <= i < |recs| && recs[i] == rec;
      }
      if |p.value| > 0 {
        var i :| 0 <= i < |recs| && accept(recs[i]) == Ok(Some(p.value[0]));
        assert recs[i] in recs;
      }
    }
  }

  /**
   * Processing every record inside the collection's `try` and ending the
   * collection: it collects exactly when no record raises and some record is
   * accepted, and then writes the processed rows, every accepted row and
   * nothing else.
   */
  function Processed(recs: seq<Val>, accept: Val -> Py<Option<Write>>): (r: Refresh)
    ensures r.Collected? <==> NoneRaise(recs, accept) && SomeAccepted(recs, accept)
    ensures r.Collected? ==> ProcessAll(recs, accept) == Ok(r.writes)
    ensures r.Collected? ==> forall w :: w in r.writes ==> exists rec :: rec in recs && accept(rec) == Ok(Some(w))
    ensures r.Collected? ==> forall rec :: rec in recs && accept(rec).Ok? && accept(rec).value.Some? ==>
                               accept(rec).value.value in r.writes
  {
    ProcessAllFrom(recs, accept);
    ProcessAllCollects(recs, accept);
    Outcome(ProcessAll(recs, accept))
  }

  /** The end of a collection: nothing to write after an exception or when no row qualified. */
  function Outcome(p: Py<seq<Write>>): (r: Refresh)
    ensures r.Collected? <==> p.Ok? && |p.value| > 0
    ensures r.Collected? ==> r.writes == p.value
  {
    if p.Ok? && |p.value| > 0 then Collected(p.value) else Failed
  }

  /**
   * One batch of the collectors that process each batch inside its own `try`:
   * a missing `results` key or a raising request fails the batch, and a record
   * that raises fails it too, keeping the rows accepted before it.
   */
  function InBatch(r: Response, accept: Val -> Py<Option<Write>>): BatchOutcome<Write>
  {
    match r
    case Skipped => BatchOutcome([], false)
    case Raised => BatchOutcome([], true)
    case Returned(None) => BatchOutcome([], true)
    case Returned(Some(rs)) => UntilRaise(seq(|rs|, i requires 0 <= i < |rs| => accept(rs[i])))
  }

  /** A batch none of whose records is accepted or raises succeeds with no row. */
  lemma InBatchNothing(rs: seq<Val>, accept: Val -> Py<Option<Write>>)
    requires forall i :: 0 <= i < |rs| ==> accept(rs[i]) == Ok(None)
    ensures InBatch(Response.Returned(Some(rs)), accept) == BatchOutcome([], false)
  {
    var outs := seq(|rs|, i requires 0 <= i < |rs| => accept(rs[i]));
    assert InBatch(Response.Returned(Some(rs)), accept) == UntilRaise(outs);
    UntilRaiseNothing(outs);
  }

  /**
   * A record that raises ends its batch: the batch fails and keeps exactly
   * the rows accepted from the records before it.
   */
  lemma InBatchRaisePrefix(rs: seq<Val>, accept: Val -> Py<Option<Write>>, k: nat)
    requires k < |rs| && accept(rs[k]).Raise?
    requires forall j :: 0 <= j < k ==> accept(rs[j]).Ok?
    ensures InBatch(Response.Returned(Some(rs)), accept).failed
    ensures forall w :: w in InBatch(Response.Returned(Some(rs)), accept).items <==>
              exists j :: 0 <= j < k && accept(rs[j]) == Ok(Some(w))
  {
    var outs := seq(|rs|, i requires 0 <= i < |rs| => accept(rs[i]));
    assert outs[k].Raise?;
    assert forall j :: 0 <= j < k ==> outs[j].Ok?;
    UntilRaisePrefix(outs, k);
    var front := outs[..k];
    var items := InBatch(Response.Returned(Some(rs)), accept).items;
    assert items == Survivors(front);
    assert forall j :: 0 <= j < k ==> front[j] == accept(rs[j]);
    SurvivorsFrom(front);
    forall w | exists j :: 0 <= j < k && accept(rs[j]) == Ok(Some(w))
      ensures w in items
    {
      var j :| 0 <= j < k && accept(rs[j]) == Ok(Some(w));
      SurvivorsHas(front, j);
    }
  }

  /** The per-batch loop of those collectors over the requests `qs`. */
  function BatchRows(qs: seq<seq<string>>, fetch: seq<string> -> Response, accept: Val -> Py<Option<Write>>): Gathered<Write>
  {
    var rs := Responses(qs, fetch);
    Gather(seq(|rs|, i requires 0 <= i < |rs| => InBatch(rs[i], accept)))
  }

  /** The record `rec` was returned in answer to one of the requests. */
  ghost predicate Returned(qs: seq<seq<string>>, fetch: seq<string> -> Response, rec: Val)
  {
    exists b :: 0 <= b < |qs| && |qs[b]| > 0 && fetch(qs[b]).Returned? && fetch(qs[b]).results.Some?
                && rec in fetch(qs[b]).results.value
  }

  /** Every row of the per-batch loop is an accepted record returned for one of the requests. */
  lemma BatchRowsFrom(qs: seq<seq<string>>, fetch: seq<string> -> Response, accept: Val -> Py<Option<Write>>)
    ensures forall w :: w in BatchRows(qs, fetch, accept).items ==>
              exists rec :: Returned(qs, fetch, rec) && accept(rec) == Ok(Some(w))
  {
    var rs := Responses(qs, fetch);
    var outs := seq(|rs|, i requires 0 <= i < |rs| => InBatch(rs[i], accept));
    GatherFrom(outs);
    forall w | w in BatchRows(qs, fetch, accept).items
      ensures exists rec :: Returned(qs, fetch, rec) && accept(rec) == Ok(Some(w))
    {
      var b :| 0 <= b < |outs| && w in outs[b].items;
      var xs := rs[b].results.value;
      var recs := seq(|xs|, i requires 0 <= i < |xs| => accept(xs[i]));
      assert outs[b] == UntilRaise(recs);
      var j :| 0 <= j < |recs| && recs[j] == Ok(Some(w));
      assert xs[j] in xs;
      assert Returned(qs, fetch, xs[j]);
    }
  }

  /**
   * The fund identifiers of a decoded listing body (`item.get('stock')` over
   * `stocks`, text matching the pattern); a body that is missing or whose
   * listing raises yields none.
   */
  function ListedCodes(body: Option<Val>): (r: seq<string>)
    ensures forall c :: c in r ==> MatchesFundPattern(c)
    ensures ListedFunds(StocksOf(body), Null).Ok? ==>
              forall i :: 0 <= i < |StocksOf(body)| && Attr(StocksOf(body)[i], "stock").Str?
                          && MatchesFundPattern(Attr(StocksOf(body)[i], "stock").s)
                          ==> Attr(StocksOf(body)[i], "stock").s in r
    ensures ListedFunds(StocksOf(body), Null).Raise? ==> r == []
  {
    match ListedFunds(StocksOf(body), Null)
    case Raise => []
    case Ok(ls) => Codes(ls)
  }

  /**
   * A collection of the collectors that process each batch inside its own
   * `try`: nothing without an identifier or when no batch yielded a row;
   * otherwise every row any batch yielded, each an accepted record returned
   * in answer to one of the requests.
   */
  function PerBatch(codes: seq<string>, fetch: seq<string> -> Response, accept: Val -> Py<Option<Write>>): (r: Refresh)
    ensures |codes| == 0 ==> r.Failed?
    ensures r.Collected? <==> |codes| > 0 && |BatchRows(Requests(codes), fetch, accept).items| > 0
    ensures r.Collected? ==> r.writes == BatchRows(Requests(codes), fetch, accept).items
    ensures r.Collected? ==> forall w :: w in r.writes ==>
              exists rec :: Returned(Requests(codes), fetch, rec) && accept(rec) == Ok(Some(w))
  {
    if |codes| == 0 then Failed
    else
      var qs := Requests(codes);
      BatchRowsFrom(qs, fetch, accept);
      Outcome(Ok(BatchRows(qs, fetch, accept).items))
  }

  /**
   * The fund identifiers of the client library's listing
   * (`[fii.stock for fii in response.stocks]`), kept to text matching the
   * pattern; a listing that raises yields none.
   */
  function SdkCodes(body: Option<Val>): (r: seq<string>)
    ensures forall c :: c in r ==> MatchesFundPattern(c)
    ensures SdkListing(body).Ok? ==> forall c :: c in r <==> Str(c) in SdkListing(body).value && MatchesFundPattern(c)
    ensures SdkListing(body).Raise? ==> r == []
  {
    match SdkListing(body)
    case Raise => []
    case Ok(raw) => FundCodes(raw)
  }

  /** The client library's listing, unfiltered; a listing that raises yields nothing. */
  function RawListing(body: Option<Val>): (r: seq<Val>)
    ensures SdkListing(body).Ok? ==> r == SdkListing(body).value
    ensures SdkListing(body).Raise? ==> r == []
  {
    match SdkListing(body)
    case Raise => []
    case Ok(raw) => raw
  }

  /** The records gathered over the batches when a batch counts whenever `results` is a list. */
  function ResultRecords<T>(batches: seq<seq<T>>, fetch: seq<T> -> Response): seq<Val>
  {
    Records(Responses(batches, fetch), ResultsPresent).items
  }

  /**
   * A collection of the collectors that process every gathered record in the
   * collection's own `try`: one record that raises voids the whole
   * collection; otherwise the accepted rows, nothing when there are none.
   */
  function AllAtOnce<T>(batches: seq<seq<T>>, fetch: seq<T> -> Response, accept: Val -> Py<Option<Write>>): (r: Refresh)
    ensures r.Collected? <==> NoneRaise(ResultRecords(batches, fetch), accept) && SomeAccepted(ResultRecords(batches, fetch), accept)
    ensures r.Collected? ==> ProcessAll(ResultRecords(batches, fetch), accept) == Ok(r.writes)
    ensures (exists rec :: rec in ResultRecords(batches, fetch) && accept(rec).Raise?) ==> r.Failed?
    ensures |ResultRecords(batches, fetch)| == 0 ==> r.Failed?
    ensures r.Collected? ==> |r.writes| > 0
    ensures r.Collected? ==> forall w :: w in r.writes ==> exists rec :: rec in ResultRecords(batches, fetch) && accept(rec) == Ok(Some(w))
    ensures r.Collected? ==> forall rec :: rec in ResultRecords(batches, fetch) && accept(rec).Ok? && accept(rec).value.Some? ==>
                               accept(rec).value.value in r.writes
  {
    Processed(ResultRecords(batches, fetch), accept)
  }

  /** Every row of a processing that did not raise is a record of `recs` that the rule accepted. */
  lemma ProcessAllFrom(recs: seq<Val>, accept: Val -> Py<Option<Write>>)
    ensures ProcessAll(recs, accept).Ok? ==>
              forall w :: w in ProcessAll(recs, accept).value ==> exists rec :: rec in recs && accept(rec) == Ok(Some(w))
  {
    var p := ProcessAll(recs, accept);
    if p.Ok? {
      forall w | w in p.value
        ensures exists rec :: rec in recs && accept(rec) == Ok(Some(w))
      {
        var i :| 0 <= i < |recs| && accept(recs[i]) == Ok(Some(w));
        assert recs[i] in recs;
      }
    }
  }

  /** Rows that some record was accepted as share every property the rule guarantees of its rows. */
  lemma AcceptedRowsSatisfy(ws: seq<Write>, accept: Val -> Py<Option<Write>>, recs: seq<Val>, p: Row -> bool)
    requires forall rec :: accept(rec).Ok? && accept(rec).value.Some? ==> p(accept(rec).value.value.row)
    requires forall w :: w in ws ==> exists rec :: rec in recs && accept(rec) == Ok(Some(w))
    ensures forall w :: w in ws ==> p(w.row)
  {
    forall w | w in ws
      ensures p(w.row)
    {
      var rec :| rec in recs && accept(rec) == Ok(Some(w));
    }
  }
}

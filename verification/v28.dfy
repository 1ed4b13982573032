/**
 * Version 28: the provider's client library lists the funds and fetches the
 * quotations in batches; the statistics module arrives as the text of a
 * Python dictionary and is read back with `ast.literal_eval`, one fund at a
 * time inside its own `try`, so a fund whose statistics cannot be read is
 * dropped alone. The score is the per-metric neutral one of version 29.
 */
module V28 {
  import opened Wrappers
  import opened PyValue
  import opened Tickers
  import opened Batching
  import opened Store
  import opened Scoring
  import Quotes
  import KeyStats
  import Acceptance
  import PvpDy
  import Seqs

  const Variant := PvpDy.Variant(0.1, false, PerMetricNeutral, false)

  /**
   * One record. The identifier and the statistics text are read with
   * `getattr(..., None)` and must both be truthy; `literal_eval` (a parameter:
   * the statistics text to the value it denotes, or an error) must give a
   * dictionary whose `priceToBook` is a positive number. Any failure inside
   * the per-fund `try` only drops the fund. The yield is the dictionary's
   * `dividendYield` in percent, 0 when it is not a number, and is kept even
   * when it is 0.
   */
  function Accept(rec: Val, literalEval: Val -> Py<Val>): (r: Option<Write>)
    ensures var t, raw := Attr(rec, "stock"), Attr(rec, "default_key_statistics");
            r.Some? <==> t.Str? && |t.s| > 0 && Truthy(raw) && literalEval(raw).Ok?
                         && KeyStats.BookRatio(literalEval(raw).value).Some?
    ensures r.Some? ==>
              var stats := literalEval(Attr(rec, "default_key_statistics")).value;
              r.value == Write(Attr(rec, "stock").s,
                Acceptance.PvpDyRow(NumberOf(Attr(stats, "priceToBook")), KeyStats.YieldPercent(Attr(stats, "dividendYield"))))
  {
    var t := Attr(rec, "stock");
    var raw := Attr(rec, "default_key_statistics");
    if !(Truthy(t) && Truthy(raw)) then None
    else match literalEval(raw)
      case Raise => None
      case Ok(stats) =>
        match KeyStats.BookRatio(stats)
        case None => None
        case Some(pvp) => Acceptance.Emit(t, Acceptance.PvpDyRow(pvp, KeyStats.YieldPercent(Attr(stats, "dividendYield"))))
  }

  /** The processing loop: the accepted rows, in record order; nothing escapes it. */
  function Process(recs: seq<Val>, literalEval: Val -> Py<Val>): seq<Write>
  {
    if |recs| == 0 then []
    else
      var last := Accept(recs[|recs| - 1], literalEval);
      Process(recs[..|recs| - 1], literalEval) + (if last.Some? then [last.value] else [])
  }

  /** The rows processed are exactly the rows the records are accepted as. */
  lemma {:induction false} ProcessRows(recs: seq<Val>, literalEval: Val -> Py<Val>)
    ensures forall w :: w in Process(recs, literalEval) ==> exists i :: 0 <= i < |recs| && Accept(recs[i], literalEval) == Some(w)
    ensures forall i :: 0 <= i < |recs| && Accept(recs[i], literalEval).Some? ==> Accept(recs[i], literalEval).value in Process(recs, literalEval)
  {
    if |recs| > 0 {
      var front := recs[..|recs| - 1];
      ProcessRows(front, literalEval);
      assert forall i :: 0 <= i < |front| ==> front[i] == recs[i];
    }
  }

  /** Processing two runs of records one after the other. */
  lemma {:induction false} ProcessAppend(a: seq<Val>, b: seq<Val>, literalEval: Val -> Py<Val>)
    ensures Process(a + b, literalEval) == Process(a, literalEval) + Process(b, literalEval)
    decreases |b|
  {
    if |b| == 0 {
      assert a + b == a;
    } else {
      var b' := b[..|b| - 1];
      assert (a + b)[..|a + b| - 1] == a + b';
      ProcessAppend(a, b', literalEval);
    }
  }

  /**
   * A fund whose statistics text cannot be read is dropped, and only it: the
   * rows are those of the records before it followed by those after it.
   */
  lemma UnreadableFundDroppedAlone(recs: seq<Val>, literalEval: Val -> Py<Val>, k: nat)
    requires k < |recs| && literalEval(Attr(recs[k], "default_key_statistics")).Raise?
    ensures Process(recs, literalEval) == Process(recs[..k], literalEval) + Process(recs[k + 1..], literalEval)
  {
    ProcessOne(recs[k], literalEval);
    SplitAround(recs, k, literalEval);
  }

  /** A record whose statistics text cannot be read yields no row. */
  lemma ProcessOne(x: Val, literalEval: Val -> Py<Val>)
    requires literalEval(Attr(x, "default_key_statistics")).Raise?
    ensures Process([x], literalEval) == []
  {
    assert Accept(x, literalEval).None?;
    assert [x][..0] == [];
  }

  /** Processing splits around any one record. */
  lemma SplitAround(recs: seq<Val>, k: nat, literalEval: Val -> Py<Val>)
    requires k < |recs|
    ensures Process(recs, literalEval) == Process(recs[..k], literalEval) + Process([recs[k]], literalEval) + Process(recs[k + 1..], literalEval)
  {
    var a, b := recs[..k], recs[k + 1..];
    Seqs.SplitAt(recs, k);
    ProcessAppend(a + [recs[k]], b, literalEval);
    ProcessAppend(a, [recs[k]], literalEval);
  }

  /**
   * The processed rows by membership: each is a positive-P/VP row some record
   * of `recs` is accepted as, every accepted record's row is among them, and
   * there is one exactly when some record is accepted.
   */
  lemma ProcessMembers(recs: seq<Val>, literalEval: Val -> Py<Val>)
    ensures forall w :: w in Process(recs, literalEval) ==>
              Positive(w.row.pvp) && exists rec :: rec in recs && Accept(rec, literalEval) == Some(w)
    ensures forall rec :: rec in recs && Accept(rec, literalEval).Some? ==> Accept(rec, literalEval).value in Process(recs, literalEval)
    ensures |Process(recs, literalEval)| > 0 <==> exists rec :: rec in recs && Accept(rec, literalEval).Some?
  {
    var ws := Process(recs, literalEval);
    ProcessRows(recs, literalEval);
    forall w | w in ws
      ensures Positive(w.row.pvp) && exists rec :: rec in recs && Accept(rec, literalEval) == Some(w)
    {
      var i :| 0 <= i < |recs| && Accept(recs[i], literalEval) == Some(w);
      assert recs[i] in recs;
    }
    forall rec | rec in recs && Accept(rec, literalEval).Some?
      ensures Accept(rec, literalEval).value in ws
    {
      var i :| 0 <= i < |recs| && recs[i] == rec;
    }
    if |ws| > 0 {
      assert ws[0] in ws;
    }
  }

  /** The records gathered over all batches: a batch counts whenever `results` is a list. */
  function Records(codes: seq<string>, fetch: seq<string> -> Response): seq<Val>
  {
    Quotes.ResultRecords(Quotes.Requests(codes), fetch)
  }

  /**
   * One collection: nothing without a listed fund, nothing without a gathered
   * record, nothing when no fund was accepted; otherwise the accepted rows,
   * each from a gathered record and with a positive P/VP.
   */
  function Refresh(body: Option<Val>, fetch: seq<string> -> Response, literalEval: Val -> Py<Val>): (r: Refresh)
    ensures |Quotes.SdkCodes(body)| == 0 ==> r.Failed?
    ensures |Records(Quotes.SdkCodes(body), fetch)| == 0 ==> r.Failed?
    ensures r.Collected? <==> |Quotes.SdkCodes(body)| > 0 && |Process(Records(Quotes.SdkCodes(body), fetch), literalEval)| > 0
    ensures r.Collected? <==> |Quotes.SdkCodes(body)| > 0
                              && exists rec :: rec in Records(Quotes.SdkCodes(body), fetch) && Accept(rec, literalEval).Some?
    ensures r.Collected? ==> r.writes == Process(Records(Quotes.SdkCodes(body), fetch), literalEval)
    ensures r.Collected? ==> forall w :: w in r.writes ==>
              Positive(w.row.pvp) && exists rec :: rec in Records(Quotes.SdkCodes(body), fetch) && Accept(rec, literalEval) == Some(w)
    ensures r.Collected? ==> forall rec :: rec in Records(Quotes.SdkCodes(body), fetch) && Accept(rec, literalEval).Some? ==>
                               Accept(rec, literalEval).value in r.writes
  {
    var codes := Quotes.SdkCodes(body);
    if |codes| == 0 then Failed
    else
      var recs := Records(codes, fetch);
      if |recs| == 0 then Failed
      else
        var ws := Process(recs, literalEval);
        ProcessMembers(recs, literalEval);
        Quotes.Outcome(Ok(ws))
  }

  /** `calcular_score_pro`: one score per row, in 0..100; 0 outside 0.1 < P/VP < 1.5. */
  function Score(ws: seq<Write>): (r: seq<int>)
    ensures |r| == |ws|
    ensures forall i :: 0 <= i < |ws| ==> 0 <= r[i] <= 100
    ensures forall i :: 0 <= i < |ws| && !(ws[i].row.pvp.Some? && 0.1 < ws[i].row.pvp.value < 1.5) ==> r[i] == 0
  {
    PvpDy.Score(ws, Variant)
  }

  /** Funds that all share the same yield and the same P/VP each score the neutral 50. */
  lemma IdenticalFundsScoreFifty(ws: seq<Write>, c: real, d: real, i: nat)
    requires i < |ws| && PvpDy.Gated(ws[i].row, Variant)
    requires PvpDy.SharedYield(ws, Variant, c) && PvpDy.SharedPvp(ws, Variant, d)
    ensures Score(ws)[i] == 50
  {
    PvpDy.PerMetricTieFifty(ws, Variant, c, d, i);
  }
}

/**
 * Version 18: no statistics module; a row needs a positive market cap, the
 * yield may be 0. The score ranks yield and market cap (both more is
 * better, weights 0.6 and 0.4) over the rows with a positive yield, and the
 * sidebar filters on market cap instead of P/VP.
 */
module V18 {
  import opened Wrappers
  import opened PyValue
  import opened Batching
  import opened Store
  import opened Scoring
  import opened Ranking
  import Quotes
  import Acceptance

  /** The records gathered over the requests, a batch counting whenever `results` is a list. */
  function Records(body: Option<Val>, fetch: seq<Val> -> Response): seq<Val>
  {
    Quotes.ResultRecords(Chunks(Quotes.RawListing(body), BatchSize), fetch)
  }

  /** Every row a collection under this version's rule writes carries a positive market cap. */
  lemma CollectedRows(batches: seq<seq<Val>>, fetch: seq<Val> -> Response)
    ensures var r := Quotes.AllAtOnce(batches, fetch, Acceptance.MarketCapAccept);
            r.Collected? ==> forall w :: w in r.writes ==> Positive(w.row.marketCap)
  {
    var r := Quotes.AllAtOnce(batches, fetch, Acceptance.MarketCapAccept);
    if r.Collected? {
      Acceptance.MarketCapRowsPositive();
      Quotes.AcceptedRowsSatisfy(r.writes, Acceptance.MarketCapAccept, Quotes.ResultRecords(batches, fetch), (row: Row) => Positive(row.marketCap));
    }
  }

  /**
   * One collection: nothing with an empty listing, nothing when one gathered
   * record makes the processing raise, nothing when no record qualifies;
   * otherwise every qualifying record's row, each with a positive market cap.
   */
  function Refresh(body: Option<Val>, fetch: seq<Val> -> Response): (r: Refresh)
    ensures |Quotes.RawListing(body)| == 0 ==> r.Failed?
    ensures r.Collected? <==> |Quotes.RawListing(body)| > 0 && Quotes.NoneRaise(Records(body, fetch), Acceptance.MarketCapAccept)
                              && Quotes.SomeAccepted(Records(body, fetch), Acceptance.MarketCapAccept)
    ensures r.Collected? ==> Quotes.ProcessAll(Records(body, fetch), Acceptance.MarketCapAccept) == Ok(r.writes)
    ensures (exists rec :: rec in Records(body, fetch) && Acceptance.MarketCapAccept(rec).Raise?) ==> r.Failed?
    ensures r.Collected? ==> forall w :: w in r.writes ==> exists rec :: rec in Records(body, fetch) && Acceptance.MarketCapAccept(rec) == Ok(Some(w))
    ensures r.Collected? ==> Quotes.KeepsAccepted(r.writes, Records(body, fetch), Acceptance.MarketCapAccept)
    ensures r.Collected? ==> forall w :: w in r.writes ==> Positive(w.row.marketCap)
  {
    if |Quotes.RawListing(body)| == 0 then Failed
    else
      CollectedRows(Chunks(Quotes.RawListing(body), BatchSize), fetch);
      Quotes.AllAtOnce(Chunks(Quotes.RawListing(body), BatchSize), fetch, Acceptance.MarketCapAccept)
  }


  /** The gate (`DY_12M > 0`) and the two metrics: yield and market cap. */
  function ToEntry(w: Write): (e: Entry)
    ensures e.passes <==> Positive(w.row.dy)
    ensures |e.values| == 2
  {
    Entry(Positive(w.row.dy), [w.row.dy.GetOr(0.0), w.row.marketCap.GetOr(0.0)])
  }

  /** Weights 0.6 yield and 0.4 market cap, both more is better; coupled ties; no clipping. */
  const Cfg := Config([Metric(HigherIsBetter, 0.6), Metric(HigherIsBetter, 0.4)], CoupledNeutral, false)

  lemma CfgValid()
    ensures ValidConfig(Cfg)
  {
    var ms := Cfg.metrics;
    assert ms[..1][..0] == [];
    assert ms[..1] == [ms[0]];
  }

  function Entries(ws: seq<Write>): (es: seq<Entry>)
    ensures |es| == |ws| && Shaped(es, Cfg)
    ensures forall i :: 0 <= i < |ws| ==> es[i] == ToEntry(ws[i])
  {
    seq(|ws|, i requires 0 <= i < |ws| => ToEntry(ws[i]))
  }

  /**
   * `calcular_score_pro`: one score per row, in 0..100; 0 for every row
   * whose yield is missing or not positive (so for every row when none has one).
   */
  function Score(ws: seq<Write>): (r: seq<int>)
    ensures |r| == |ws|
    ensures forall i :: 0 <= i < |ws| ==> 0 <= r[i] <= 100
    ensures forall i :: 0 <= i < |ws| && !Positive(ws[i].row.dy) ==> r[i] == 0
  {
    CfgValid();
    ScoreAll(Entries(ws), Cfg)
  }

  /** Of two funds with a positive yield, one with at least the yield and the market cap never scores lower. */
  lemma BiggerPayerRanksHigher(ws: seq<Write>, i: nat, j: nat)
    requires i < |ws| && j < |ws| && Positive(ws[i].row.dy) && Positive(ws[j].row.dy)
    requires ws[i].row.dy.value >= ws[j].row.dy.value
    requires ws[i].row.marketCap.GetOr(0.0) >= ws[j].row.marketCap.GetOr(0.0)
    ensures Score(ws)[i] >= Score(ws)[j]
  {
    CfgValid();
    var es := Entries(ws);
    assert es[i] in es && es[j] in es;
    Dominance(es[i], es[j], es, Cfg);
  }

  /**
   * Coupled rule: when every fund with a positive yield has the same market
   * cap, each of them scores 50, whatever its yield.
   */
  lemma SameMarketCapGivesFifty(ws: seq<Write>, c: real, i: nat)
    requires i < |ws| && Positive(ws[i].row.dy)
    requires forall j :: 0 <= j < |ws| && Positive(ws[j].row.dy) ==> ws[j].row.marketCap.GetOr(0.0) == c
    ensures Score(ws)[i] == 50
  {
    CfgValid();
    var es := Entries(ws);
    assert es[i] in Passing(es);
    FlatWhenShared(es, 1, c);
    assert es[i] in es;
    CoupledTieNeutral(es, Cfg, es[i]);
  }

  /**
   * The sidebar: minimum market cap in millions (scaled by 1,000,000),
   * minimum yield and minimum score; a row is shown exactly when it meets all three.
   */
  function Filters(minCapMillions: int, minDy: real, minScore: int): (th: Thresholds)
    ensures forall x :: Shown(x, th) <==>
              AtLeast(x.row.marketCap, (minCapMillions * 1000000) as real) && AtLeast(x.row.dy, minDy) && x.score >= minScore
  {
    Thresholds(None, minDy, None, None, Some((minCapMillions * 1000000) as real), minScore)
  }
}

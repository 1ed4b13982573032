/**
 * Version 30: the listing keeps each fund's sector, the quotation records
 * bring the daily volume as liquidity, and the score weighs yield, P/VP and
 * liquidity (0.5, 0.3, 0.2) with a per-metric neutral tie rule.
 */
module V30 {
  import opened Wrappers
  import opened PyValue
  import opened Tickers
  import opened Batching
  import opened Store
  import opened Scoring
  import opened Ranking
  import Quotes
  import KeyStats
  import V31

  /** The listing as pairs (identifier, sector), a missing sector read as null. */
  function Listing(body: Option<Val>): (r: seq<Listed>)
    ensures forall l :: l in r ==> MatchesFundPattern(l.code)
    ensures forall l :: l in r ==>
              exists i :: 0 <= i < |StocksOf(body)| && Attr(StocksOf(body)[i], "stock") == Str(l.code)
                          && GetDefault(StocksOf(body)[i], "sector", Null) == Ok(l.sector)
    ensures ListedFunds(StocksOf(body), Null).Ok? ==>
              forall i :: 0 <= i < |StocksOf(body)| && Attr(StocksOf(body)[i], "stock").Str?
                          && MatchesFundPattern(Attr(StocksOf(body)[i], "stock").s)
                          ==> Listed(Attr(StocksOf(body)[i], "stock").s, GetDefault(StocksOf(body)[i], "sector", Null).value) in r
    ensures ListedFunds(StocksOf(body), Null).Ok? ==> ListedFunds(StocksOf(body), Null) == Ok(r)
    ensures ListedFunds(StocksOf(body), Null).Raise? ==> r == []
  {
    match ListedFunds(StocksOf(body), Null)
    case Raise => []
    case Ok(ls) => ls
  }

  /**
   * One quotation record. `.get` on a non-dictionary raises, and so does the
   * sector lookup with an identifier that cannot be a key. A row needs a
   * truthy identifier, a statistics dictionary, a volume that is not null and
   * a positive numeric `priceToBook`; `float()` of the volume may then raise.
   * The sector is the last truthy listed one, or the placeholder.
   */
  function Accept(rec: Val, pairs: seq<Listed>, parse: string -> Option<real>): (r: Py<Option<Write>>)
    ensures !rec.Dict? ==> r.Raise?
    ensures rec.Dict? && (Attr(rec, "symbol").List? || Attr(rec, "symbol").Dict?) ==> r.Raise?
    ensures var t, stats, volume := Attr(rec, "symbol"), Attr(rec, "defaultKeyStatistics"), Attr(rec, "regularMarketVolume");
            r.Raise? <==> !rec.Dict? || t.List? || t.Dict?
                          || (Truthy(t) && stats.Dict? && !volume.Null? && KeyStats.BookRatio(stats).Some?
                              && Float(volume, parse).Raise?)
    ensures var stats, volume := Attr(rec, "defaultKeyStatistics"), Attr(rec, "regularMarketVolume");
            r.Ok? && r.value.Some? <==>
              rec.Dict? && Attr(rec, "symbol").Str? && |Attr(rec, "symbol").s| > 0 && stats.Dict? && !volume.Null?
              && KeyStats.BookRatio(stats).Some? && Float(volume, parse).Ok?
    ensures var stats, volume := Attr(rec, "defaultKeyStatistics"), Attr(rec, "regularMarketVolume");
            (rec.Dict? && Attr(rec, "symbol").Str? && |Attr(rec, "symbol").s| > 0 && stats.Dict? && !volume.Null?
             && KeyStats.BookRatio(stats).Some? && Float(volume, parse).Raise?) ==> r.Raise?
    ensures r.Ok? && r.value.Some? ==>
              var t, stats := Attr(rec, "symbol").s, Attr(rec, "defaultKeyStatistics");
              r.value.value == Write(t, Blank.(pvp := KeyStats.BookRatio(stats),
                                                dy := Some(KeyStats.YieldPercent(Attr(stats, "dividendYield"))),
                                                liquidity := Some(Float(Attr(rec, "regularMarketVolume"), parse).value),
                                                sector := V31.Sector(pairs, t)))
  {
    if !rec.Dict? then Raise
    else
      var t := Attr(rec, "symbol");
      var stats := Attr(rec, "defaultKeyStatistics");
      var volume := Attr(rec, "regularMarketVolume");
      if t.List? || t.Dict? then Raise
      else if !(Truthy(t) && stats.Dict? && !volume.Null?) then Ok(None)
      else match KeyStats.BookRatio(stats)
        case None => Ok(None)
        case Some(pvp) =>
          var dy := KeyStats.YieldPercent(Attr(stats, "dividendYield"));
          match Float(volume, parse)
          case Raise => Raise
          case Ok(liq) =>
            if t.Str? then Ok(Some(Write(t.s, Blank.(pvp := Some(pvp), dy := Some(dy), liquidity := Some(liq),
                                                     sector := V31.Sector(pairs, t.s)))))
            else Ok(None)
  }

  /** The acceptance rule of one collection, over its listing. */
  function Rule(pairs: seq<Listed>, parse: string -> Option<real>): Val -> Py<Option<Write>>
  {
    rec => Accept(rec, pairs, parse)
  }

  /** The records gathered over all batches (a batch counts when `results` is present). */
  function Records(pairs: seq<Listed>, fetch: seq<string> -> Response): (r: seq<Val>)
  {
    Quotes.ResultRecords(Quotes.Requests(Codes(pairs)), fetch)
  }

  /** Rows this version's rule accepted carry a positive P/VP, a yield and a liquidity. */
  lemma AcceptedRows(ws: seq<Write>, recs: seq<Val>, pairs: seq<Listed>, parse: string -> Option<real>)
    requires forall w :: w in ws ==> exists rec :: rec in recs && Accept(rec, pairs, parse) == Ok(Some(w))
    ensures forall w :: w in ws ==> Positive(w.row.pvp) && w.row.dy.Some? && w.row.liquidity.Some?
  {
    forall w | w in ws
      ensures Positive(w.row.pvp) && w.row.dy.Some? && w.row.liquidity.Some?
    {
      var rec :| rec in recs && Accept(rec, pairs, parse) == Ok(Some(w));
    }
  }

  /**
   * A collection over the listing `pairs`, in terms of this version's rule:
   * a record that raises voids it, and every row it writes is a record's
   * accepted row, with a positive P/VP, a yield and a liquidity.
   */
  lemma Collection(pairs: seq<Listed>, fetch: seq<string> -> Response, parse: string -> Option<real>)
    ensures var r := Quotes.AllAtOnce(Quotes.Requests(Codes(pairs)), fetch, Rule(pairs, parse));
            (exists rec :: rec in Records(pairs, fetch) && Accept(rec, pairs, parse).Raise?) ==> r.Failed?
    ensures var r := Quotes.AllAtOnce(Quotes.Requests(Codes(pairs)), fetch, Rule(pairs, parse));
            r.Collected? ==> forall w :: w in r.writes ==> exists rec :: rec in Records(pairs, fetch) && Accept(rec, pairs, parse) == Ok(Some(w))
    ensures var r := Quotes.AllAtOnce(Quotes.Requests(Codes(pairs)), fetch, Rule(pairs, parse));
            r.Collected? ==> forall w :: w in r.writes ==> Positive(w.row.pvp) && w.row.dy.Some? && w.row.liquidity.Some?
  {
    var recs := Records(pairs, fetch);
    var r := Quotes.AllAtOnce(Quotes.Requests(Codes(pairs)), fetch, Rule(pairs, parse));
    if exists rec :: rec in recs && Accept(rec, pairs, parse).Raise? {
      var rec :| rec in recs && Accept(rec, pairs, parse).Raise?;
      assert Rule(pairs, parse)(rec).Raise?;
    }
    if r.Collected? {
      forall w | w in r.writes
        ensures exists rec :: rec in recs && Accept(rec, pairs, parse) == Ok(Some(w))
      {
        var rec :| rec in recs && Rule(pairs, parse)(rec) == Ok(Some(w));
        assert Accept(rec, pairs, parse) == Ok(Some(w));
      }
      AcceptedRows(r.writes, recs, pairs, parse);
    }
  }

  /**
   * One collection: nothing without a listed fund, without a gathered record,
   * when a record makes the processing raise, or when no record qualifies;
   * otherwise the accepted rows, each with a positive P/VP, a yield and a liquidity.
   */
  function Refresh(body: Option<Val>, fetch: seq<string> -> Response, parse: string -> Option<real>): (r: Refresh)
    ensures |Listing(body)| == 0 ==> r.Failed?
    ensures |Records(Listing(body), fetch)| == 0 ==> r.Failed?
    ensures r.Collected? <==> |Listing(body)| > 0 && Quotes.NoneRaise(Records(Listing(body), fetch), Rule(Listing(body), parse))
                              && Quotes.SomeAccepted(Records(Listing(body), fetch), Rule(Listing(body), parse))
    ensures r.Collected? ==> Quotes.ProcessAll(Records(Listing(body), fetch), Rule(Listing(body), parse)) == Ok(r.writes)
    ensures r.Collected? ==> Quotes.KeepsAccepted(r.writes, Records(Listing(body), fetch), Rule(Listing(body), parse))
    ensures (exists rec :: rec in Records(Listing(body), fetch) && Accept(rec, Listing(body), parse).Raise?) ==> r.Failed?
    ensures r.Collected? ==> |r.writes| > 0
    ensures r.Collected? ==> forall w :: w in r.writes ==>
              exists rec :: rec in Records(Listing(body), fetch) && Accept(rec, Listing(body), parse) == Ok(Some(w))
    ensures r.Collected? ==> forall w :: w in r.writes ==> Positive(w.row.pvp) && w.row.dy.Some? && w.row.liquidity.Some?
  {
    var pairs := Listing(body);
    if |pairs| == 0 then Failed
    else
      Collection(pairs, fetch, parse);
      Quotes.AllAtOnce(Quotes.Requests(Codes(pairs)), fetch, Rule(pairs, parse))
  }


  /** The gate `0.1 < P/VP < 1.5` and the three metrics: yield, P/VP, liquidity. */
  function ToEntry(w: Write): (e: Entry)
    ensures e.passes <==> w.row.pvp.Some? && 0.1 < w.row.pvp.value < 1.5
    ensures |e.values| == 3
  {
    var row := w.row;
    Entry(row.pvp.Some? && 0.1 < row.pvp.value < 1.5,
          [row.dy.GetOr(0.0), row.pvp.GetOr(0.0), row.liquidity.GetOr(0.0)])
  }

  /** Weights 0.5 yield, 0.3 P/VP (less is better), 0.2 liquidity; per-metric ties; no clipping. */
  const Cfg := Config([Metric(HigherIsBetter, 0.5), Metric(LowerIsBetter, 0.3), Metric(HigherIsBetter, 0.2)],
                      PerMetricNeutral, false)

  lemma CfgValid()
    ensures ValidConfig(Cfg)
  {
    var ms := Cfg.metrics;
    assert TotalWeight(ms[..1]) == 0.5 by {
      assert ms[..1][..0] == [];
    }
    assert ms[..2][..1] == ms[..1];
    assert ms[..3] == ms;
    assert ms[..3][..2] == ms[..2];
  }

  function Entries(ws: seq<Write>): (es: seq<Entry>)
    ensures |es| == |ws| && Shaped(es, Cfg)
    ensures forall i :: 0 <= i < |ws| ==> es[i] == ToEntry(ws[i])
    ensures forall e :: e in es ==> |e.values| == 3
  {
    seq(|ws|, i requires 0 <= i < |ws| => ToEntry(ws[i]))
  }

  /** `calcular_score_pro`: one score per row in 0..100; 0 outside 0.1 < P/VP < 1.5. */
  function Score(ws: seq<Write>): (r: seq<int>)
    ensures |r| == |ws|
    ensures forall i :: 0 <= i < |ws| ==> 0 <= r[i] <= 100
    ensures forall i :: 0 <= i < |ws| && !(ws[i].row.pvp.Some? && 0.1 < ws[i].row.pvp.value < 1.5) ==> r[i] == 0
  {
    CfgValid();
    ScoreAll(Entries(ws), Cfg)
  }

  /**
   * Of two gated funds, one with at least the yield, at most the P/VP and at
   * least the liquidity never scores lower.
   */
  lemma BetterFundRanksHigher(ws: seq<Write>, i: nat, j: nat)
    requires i < |ws| && j < |ws| && ToEntry(ws[i]).passes && ToEntry(ws[j]).passes
    requires ws[i].row.dy.GetOr(0.0) >= ws[j].row.dy.GetOr(0.0)
    requires ws[i].row.pvp.value <= ws[j].row.pvp.value
    requires ws[i].row.liquidity.GetOr(0.0) >= ws[j].row.liquidity.GetOr(0.0)
    ensures Score(ws)[i] >= Score(ws)[j]
  {
    CfgValid();
    var es := Entries(ws);
    assert es[i] in es && es[j] in es;
    Dominance(es[i], es[j], es, Cfg);
  }

  /** When every gated fund has the same yield, P/VP and liquidity, each of them scores 50. */
  lemma IdenticalFundsScoreFifty(ws: seq<Write>, dy: real, pvp: real, liq: real, i: nat)
    requires i < |ws| && ToEntry(ws[i]).passes
    requires forall j :: 0 <= j < |ws| && ToEntry(ws[j]).passes ==>
               ws[j].row.dy.GetOr(0.0) == dy && ws[j].row.pvp == Some(pvp) && ws[j].row.liquidity.GetOr(0.0) == liq
    ensures Score(ws)[i] == 50
  {
    CfgValid();
    var es := Entries(ws);
    NoSpread(ws, dy, pvp, liq, i);
    assert es[i] in es && es[i].passes;
    PerMetricAllFlat(es, Cfg, es[i]);
  }

  lemma NoSpread(ws: seq<Write>, dy: real, pvp: real, liq: real, i: nat)
    requires i < |ws| && ToEntry(ws[i]).passes
    requires forall j :: 0 <= j < |ws| && ToEntry(ws[j]).passes ==>
               ws[j].row.dy.GetOr(0.0) == dy && ws[j].row.pvp == Some(pvp) && ws[j].row.liquidity.GetOr(0.0) == liq
    ensures |Passing(Entries(ws))| > 0
    ensures forall k :: 0 <= k < |Cfg.metrics| ==> Flat(Column(Passing(Entries(ws)), k))
  {
    forall j | 0 <= j < |ws| && ToEntry(ws[j]).passes
      ensures ToEntry(ws[j]).values[0] == dy && ToEntry(ws[j]).values[1] == pvp && ToEntry(ws[j]).values[2] == liq
    {
    }
    SharedColumn(ws, 0, dy, i);
    SharedColumn(ws, 1, pvp, i);
    SharedColumn(ws, 2, liq, i);
    ThreeFlat(Passing(Entries(ws)));
  }

  lemma ThreeFlat(ps: seq<Entry>)
    requires |ps| > 0 && forall e :: e in ps ==> |e.values| == 3
    requires Flat(Column(ps, 0)) && Flat(Column(ps, 1)) && Flat(Column(ps, 2))
    ensures forall k :: 0 <= k < |Cfg.metrics| ==> Flat(Column(ps, k))
  {
    forall k | 0 <= k < |Cfg.metrics|
      ensures Flat(Column(ps, k))
    {
      if k == 0 {
      } else if k == 1 {
      } else {
        assert k == 2;
      }
    }
  }

  /** A metric on which every gated fund carries `c` has no spread. */
  lemma SharedColumn(ws: seq<Write>, k: nat, c: real, i: nat)
    requires k < 3 && i < |ws| && ToEntry(ws[i]).passes
    requires forall j :: 0 <= j < |ws| && ToEntry(ws[j]).passes ==> ToEntry(ws[j]).values[k] == c
    ensures Flat(Column(Passing(Entries(ws)), k))
  {
    var es := Entries(ws);
    assert es[i] in Passing(es);
    FlatWhenShared(es, k, c);
  }

  /**
   * The sidebar: P/VP ceiling, minimum yield, minimum liquidity, selected
   * sectors and minimum score; a row is shown exactly when it meets all five.
   */
  function Filters(maxPvp: real, minDy: real, minLiquidity: real, sectors: set<string>, minScore: int): (th: Thresholds)
    ensures forall x :: Shown(x, th) <==>
              && AtMost(x.row.pvp, maxPvp) && AtLeast(x.row.dy, minDy) && AtLeast(x.row.liquidity, minLiquidity)
              && x.row.sector.Some? && x.row.sector.value in sectors && x.score >= minScore
  {
    Thresholds(Some(maxPvp), minDy, Some(minLiquidity), Some(sectors), None, minScore)
  }
}

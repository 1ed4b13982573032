/**
 * The latest collector and ranker ("AutoRadar"): fund listing with sectors,
 * batched quotations with the key-statistics module, rows carrying dividend
 * yield, liquidity, price, 52-week low, day change and an optional P/VP, and
 * a four-metric score (yield, liquidity, distance from the 52-week low, day
 * change) with a per-metric neutral tie rule.
 */
module V31 {
  import opened Wrappers
  import opened PyValue
  import opened Tickers
  import opened Batching
  import opened Store
  import opened Scoring
  import opened Ranking
  import Seqs
  import Quotes
  import KeyStats

  /** The listing as pairs (identifier, sector), the sector defaulting to the placeholder when absent. */
  function Listing(body: Option<Val>): (r: seq<Listed>)
    ensures forall l :: l in r ==> MatchesFundPattern(l.code)
    ensures forall l :: l in r ==>
              exists i :: 0 <= i < |StocksOf(body)| && Attr(StocksOf(body)[i], "stock") == Str(l.code)
                          && GetDefault(StocksOf(body)[i], "sector", Str(UnknownSector)) == Ok(l.sector)
    ensures ListedFunds(StocksOf(body), Str(UnknownSector)).Ok? ==>
              forall i :: 0 <= i < |StocksOf(body)| && Attr(StocksOf(body)[i], "stock").Str?
                          && MatchesFundPattern(Attr(StocksOf(body)[i], "stock").s)
                          ==> Listed(Attr(StocksOf(body)[i], "stock").s, GetDefault(StocksOf(body)[i], "sector", Str(UnknownSector)).value) in r
    ensures ListedFunds(StocksOf(body), Str(UnknownSector)).Ok? ==> ListedFunds(StocksOf(body), Str(UnknownSector)) == Ok(r)
    ensures ListedFunds(StocksOf(body), Str(UnknownSector)).Raise? ==> r == []
  {
    match ListedFunds(StocksOf(body), Str(UnknownSector))
    case Raise => []
    case Ok(ls) => ls
  }

  /**
   * The sector a row records, as the source computes it: the listed value even
   * when the listing carries an explicit null.
   */
  function SectorAsWritten(pairs: seq<Listed>, ticker: string): (r: Option<string>)
    ensures LastSector(pairs, ticker, false).None? ==> r == Some(UnknownSector)
    ensures LastSector(pairs, ticker, false).Some? ==> r == TextOf(LastSector(pairs, ticker, false).value)
    ensures LastSector(pairs, ticker, false) == Some(Null) ==> r.None?
  {
    SectorMapIsLastPair(pairs, ticker, false);
    TextOf(SectorFor(SectorMap(pairs, false), ticker))
  }

  /**
   * The sector a row records: the last truthy listed value, or the placeholder
   * when the fund has none (absent, null or empty).
   */
  function Sector(pairs: seq<Listed>, ticker: string): (r: Option<string>)
    ensures LastSector(pairs, ticker, true).None? ==> r == Some(UnknownSector)
    ensures LastSector(pairs, ticker, true).Some? ==> r == TextOf(LastSector(pairs, ticker, true).value)
  {
    SectorMapIsLastPair(pairs, ticker, true);
    TextOf(SectorFor(SectorMap(pairs, true), ticker))
  }

  /** Which sector rule a collection applies: the source's, or the corrected one. */
  datatype SectorRule = AsWritten | Corrected

  /** The sector a row records under `rule`. */
  function SectorBy(rule: SectorRule, pairs: seq<Listed>, ticker: string): (r: Option<string>)
    ensures rule.AsWritten? ==> r == SectorAsWritten(pairs, ticker)
    ensures rule.Corrected? ==> r == Sector(pairs, ticker)
  {
    match rule
    case AsWritten => SectorAsWritten(pairs, ticker)
    case Corrected => Sector(pairs, ticker)
  }

  /** P/VP from the key-statistics module: kept only when it is a positive number. */
  function Pvp(rec: Val): Option<real>
  {
    KeyStats.BookRatio(Attr(rec, "defaultKeyStatistics"))
  }

  /** Price, liquidity, 52-week low and day change are present, the price truthy. */
  predicate HasEssentials(rec: Val)
  {
    Truthy(Attr(rec, "regularMarketPrice")) && !Attr(rec, "regularMarketVolume").Null?
    && !Attr(rec, "fiftyTwoWeekLow").Null? && !Attr(rec, "regularMarketChangePercent").Null?
  }

  /** The four essentials convert with `float()`. */
  predicate Converts(rec: Val, parse: string -> Option<real>)
  {
    Float(Attr(rec, "regularMarketVolume"), parse).Ok? && Float(Attr(rec, "regularMarketPrice"), parse).Ok?
    && Float(Attr(rec, "fiftyTwoWeekLow"), parse).Ok? && Float(Attr(rec, "regularMarketChangePercent"), parse).Ok?
  }

  /** A converted value as a column cell. */
  function Column(p: Py<real>): (r: Option<real>)
    ensures r.Some? <==> p.Ok?
    ensures r.Some? ==> r.value == p.value
  {
    if p.Ok? then Some(p.value) else None
  }

  /**
   * One quotation record: skipped without a truthy identifier or without the
   * essentials; an exception (a record that is not a dictionary, an identifier
   * that cannot be a key, an essential that `float()` rejects) aborts the
   * whole collection. A numeric non-text identifier whose essentials convert
   * is taken as absent. The sector is looked up under `rule`; the source's own
   * is `AsWritten`.
   */
  function Accept(rec: Val, pairs: seq<Listed>, parse: string -> Option<real>, rule: SectorRule): (r: Py<Option<Write>>)
    ensures !rec.Dict? ==> r.Raise?
    ensures r.Ok? && r.value.Some? <==>
              rec.Dict? && Attr(rec, "symbol").Str? && |Attr(rec, "symbol").s| > 0
              && HasEssentials(rec) && Converts(rec, parse)
    ensures var symbol := Attr(rec, "symbol");
            r.Raise? <==> !rec.Dict? || (Truthy(symbol) && (symbol.List? || symbol.Dict?))
                          || (Truthy(symbol) && HasEssentials(rec) && !Converts(rec, parse))
    ensures rec.Dict? && !Truthy(Attr(rec, "symbol")) ==> r == Ok(None)
    ensures var symbol := Attr(rec, "symbol");
            rec.Dict? && !symbol.List? && !symbol.Dict? && !HasEssentials(rec) ==> r == Ok(None)
    ensures r.Ok? && r.value.Some? ==>
              var w := r.value.value;
              && w.ticker == Attr(rec, "symbol").s
              && w.row.dy == Some(KeyStats.YieldPercent(Attr(rec, "dividendYield")))
              && w.row.liquidity == Column(Float(Attr(rec, "regularMarketVolume"), parse))
              && w.row.price == Column(Float(Attr(rec, "regularMarketPrice"), parse))
              && w.row.low52 == Column(Float(Attr(rec, "fiftyTwoWeekLow"), parse))
              && w.row.dayChange == Column(Float(Attr(rec, "regularMarketChangePercent"), parse))
              && w.row.pvp == Pvp(rec)
              && w.row.marketCap.None?
              && w.row.sector == SectorBy(rule, pairs, w.ticker)
  {
    if !rec.Dict? then Raise
    else
      var symbol := Attr(rec, "symbol");
      if !Truthy(symbol) then Ok(None)
      else if symbol.List? || symbol.Dict? then Raise
      else if !HasEssentials(rec) then Ok(None)
      else
        var liq := Float(Attr(rec, "regularMarketVolume"), parse);
        var price := Float(Attr(rec, "regularMarketPrice"), parse);
        var low := Float(Attr(rec, "fiftyTwoWeekLow"), parse);
        var change := Float(Attr(rec, "regularMarketChangePercent"), parse);
        if liq.Raise? || price.Raise? || low.Raise? || change.Raise? then Raise
        else if !symbol.Str? then Ok(None)
        else
          Ok(Some(Write(symbol.s, Row(Pvp(rec), Some(KeyStats.YieldPercent(Attr(rec, "dividendYield"))), Some(liq.value),
                                      Some(price.value), Some(low.value), Some(change.value), None,
                                      SectorBy(rule, pairs, symbol.s)))))
  }

  /** The records gathered over all batches, and the number of failed batches. */
  function Records(pairs: seq<Listed>, fetch: seq<string> -> Response): Gathered<Val>
  {
    Quotes.Records(Quotes.Responses(Quotes.Requests(Codes(pairs)), fetch), NonEmptyResults)
  }

  /** Processing all gathered records in one `try`. */
  function Process(recs: seq<Val>, pairs: seq<Listed>, parse: string -> Option<real>, rule: SectorRule): (r: Py<seq<Write>>)
    ensures r.Raise? <==> exists i :: 0 <= i < |recs| && Accept(recs[i], pairs, parse, rule).Raise?
    ensures r.Ok? ==> forall w :: w in r.value ==> Essential(w.row) && w.row.marketCap.None?
    ensures r.Ok? ==> forall w :: w in r.value ==> w.row.sector == SectorBy(rule, pairs, w.ticker)
    ensures r.Ok? ==> forall w :: w in r.value ==> exists i :: 0 <= i < |recs| && Accept(recs[i], pairs, parse, rule) == Ok(Some(w))
    ensures r.Ok? ==> forall i :: 0 <= i < |recs| && Accept(recs[i], pairs, parse, rule).Ok? && Accept(recs[i], pairs, parse, rule).value.Some?
                        ==> Accept(recs[i], pairs, parse, rule).value.value in r.value
  {
    Quotes.ProcessAll(recs, rec => Accept(rec, pairs, parse, rule))
  }

  /**
   * One collection: nothing without a listed fund, nothing without a gathered
   * record, nothing when processing raised, nothing when no record qualified;
   * otherwise the processed rows, each carrying the sector `rule` gives.
   */
  function Refresh(body: Option<Val>, fetch: seq<string> -> Response, parse: string -> Option<real>, rule: SectorRule): (r: Refresh)
    ensures |Listing(body)| == 0 ==> r.Failed?
    ensures |Records(Listing(body), fetch).items| == 0 ==> r.Failed?
    ensures r.Collected? <==> |Listing(body)| > 0 && Process(Records(Listing(body), fetch).items, Listing(body), parse, rule).Ok?
                              && |Process(Records(Listing(body), fetch).items, Listing(body), parse, rule).value| > 0
    ensures r.Collected? ==> Process(Records(Listing(body), fetch).items, Listing(body), parse, rule) == Ok(r.writes)
    ensures r.Collected? ==> |r.writes| > 0
    ensures r.Collected? ==> forall w :: w in r.writes ==> Essential(w.row) && w.row.marketCap.None?
    ensures r.Collected? ==> forall w :: w in r.writes ==> w.row.sector == SectorBy(rule, Listing(body), w.ticker)
    ensures r.Collected? ==> Quotes.KeepsAccepted(r.writes, Records(Listing(body), fetch).items, rec => Accept(rec, Listing(body), parse, rule))
  {
    var pairs := Listing(body);
    if |pairs| == 0 then Failed
    else
      var recs := Records(pairs, fetch).items;
      if |recs| == 0 then Failed
      else
        Quotes.ProcessAllCollects(recs, rec => Accept(rec, pairs, parse, rule));
        Quotes.Outcome(Process(recs, pairs, parse, rule))
  }

  /** The columns the load step requires (`dropna` on the essentials). */
  predicate Essential(row: Row)
  {
    row.dy.Some? && row.liquidity.Some? && row.price.Some? && row.low52.Some? && row.dayChange.Some?
  }

  /** `carregar_dados_do_db`: the table in order, rows missing an essential dropped. */
  function Load(t: Table): (r: seq<Write>)
    requires Valid(t)
    ensures forall w :: w in r ==> Essential(w.row)
    ensures forall w :: w in r ==> w.ticker in t.rows && t.rows[w.ticker].row == w.row
    ensures forall k :: k in t.rows && Essential(t.rows[k].row) ==> Write(k, t.rows[k].row) in r
  {
    var all := Scan(t);
    var kept := Seqs.Filter(all, (w: Write) => Essential(w.row));
    Seqs.FilterMembers(all, (w: Write) => Essential(w.row));
    kept
  }

  /** Every row a successful collection writes is loaded back unchanged. */
  lemma CollectedRowsLoad(t: Table, body: Option<Val>, fetch: seq<string> -> Response,
                          parse: string -> Option<real>, rule: SectorRule, now: int, k: string)
    requires Valid(t)
    requires Refresh(body, fetch, parse, rule).Collected?
    requires LastFor(Refresh(body, fetch, parse, rule).writes, k).Some?
    ensures Write(k, LastFor(Refresh(body, fetch, parse, rule).writes, k).value) in Load(Commit(t, Refresh(body, fetch, parse, rule), now))
  {
    var ws := Refresh(body, fetch, parse, rule).writes;
    var row := LastFor(ws, k).value;
    var i :| 0 <= i < |ws| && ws[i] == Write(k, row);
    assert ws[i] in ws;
  }

  /** Distance of the price above the 52-week low, relative to the low. */
  function DistanceFromLow(price: real, low: real): (r: real)
    requires low > 0.0
    ensures r == 0.0 <==> price == low
    ensures price >= low ==> r >= 0.0
  {
    (price - low) / low
  }

  /** The gate (`price > 0` and `low > 0`) and the four metrics of one row. */
  function ToEntry(w: Write): (e: Entry)
    ensures |e.values| == 4
    ensures e.passes <==> Positive(w.row.price) && Positive(w.row.low52)
  {
    var row := w.row;
    var passes := Positive(row.price) && Positive(row.low52);
    var dist := if passes then DistanceFromLow(row.price.value, row.low52.value) else 0.0;
    Entry(passes, [row.dy.GetOr(0.0), row.liquidity.GetOr(0.0), dist, row.dayChange.GetOr(0.0)])
  }

  /** Weights 0.4 yield, 0.2 liquidity, 0.3 distance from the low (less is better), 0.1 day change. */
  const Cfg := Config([Metric(HigherIsBetter, 0.4), Metric(HigherIsBetter, 0.2),
                       Metric(LowerIsBetter, 0.3), Metric(HigherIsBetter, 0.1)], PerMetricNeutral, true)

  lemma CfgValid()
    ensures ValidConfig(Cfg)
  {
    var ms := Cfg.metrics;
    assert TotalWeight(ms[..1]) == 0.4 by {
      assert ms[..1][..0] == [];
    }
    assert ms[..2][..1] == ms[..1];
    assert ms[..3][..2] == ms[..2];
    assert ms[..4] == ms;
    assert ms[..4][..3] == ms[..3];
  }

  function Entries(ws: seq<Write>): (es: seq<Entry>)
    ensures |es| == |ws| && Shaped(es, Cfg)
    ensures forall i :: 0 <= i < |ws| ==> es[i] == ToEntry(ws[i])
  {
    seq(|ws|, i requires 0 <= i < |ws| => ToEntry(ws[i]))
  }

  /**
   * `calcular_score_pro`: one score per loaded row, in 0..100; 0 for rows with a
   * missing or non-positive price or low, and for every row when none passes.
   */
  function Score(ws: seq<Write>): (r: seq<int>)
    ensures |r| == |ws|
    ensures forall i :: 0 <= i < |ws| ==> 0 <= r[i] <= 100
    ensures forall i :: 0 <= i < |ws| && !(Positive(ws[i].row.price) && Positive(ws[i].row.low52)) ==> r[i] == 0
  {
    CfgValid();
    ScoreAll(Entries(ws), Cfg)
  }

  /** P/VP, sector and market cap play no part in the score. */
  lemma ScoreIgnoresPvpAndSector(ws: seq<Write>, vs: seq<Write>)
    requires |ws| == |vs|
    requires forall i :: 0 <= i < |ws| ==> vs[i].row == ws[i].row.(pvp := vs[i].row.pvp, sector := vs[i].row.sector, marketCap := vs[i].row.marketCap)
    ensures Score(ws) == Score(vs)
  {
    assert Entries(ws) == Entries(vs);
  }

  /**
   * Among gated rows with the same yield, liquidity and day change, the one
   * trading closer (relatively) to its 52-week low never scores lower.
   */
  lemma CloserToLowRanksHigher(ws: seq<Write>, i: nat, j: nat)
    requires i < |ws| && j < |ws|
    requires ToEntry(ws[i]).passes && ToEntry(ws[j]).passes
    requires ws[i].row.dy == ws[j].row.dy && ws[i].row.liquidity == ws[j].row.liquidity
    requires ws[i].row.dayChange == ws[j].row.dayChange
    requires DistanceFromLow(ws[i].row.price.value, ws[i].row.low52.value)
             <= DistanceFromLow(ws[j].row.price.value, ws[j].row.low52.value)
    ensures Score(ws)[i] >= Score(ws)[j]
  {
    CfgValid();
    var es := Entries(ws);
    Dominance(es[i], es[j], es, Cfg);
  }

  /** The sidebar filters of this version: yield, liquidity, sectors and score. */
  function Filters(minDy: real, minLiquidity: real, sectors: set<string>, minScore: int): (th: Thresholds)
    ensures forall x :: Shown(x, th) <==>
              && AtLeast(x.row.dy, minDy) && AtLeast(x.row.liquidity, minLiquidity)
              && x.row.sector.Some? && x.row.sector.value in sectors && x.score >= minScore
  {
    Thresholds(None, minDy, Some(minLiquidity), Some(sectors), None, minScore)
  }

  /**
   * With the sector as written, a fund listed with an explicit null sector
   * records no sector, and no sector selection ever shows it.
   */
  lemma NullSectorNeverShown(pairs: seq<Listed>, code: string, row: Row, score: int,
                             minDy: real, minLiquidity: real, sectors: set<string>, minScore: int)
    requires |pairs| > 0 && pairs[|pairs| - 1] == Listed(code, Null)
    requires row.sector == SectorAsWritten(pairs, code)
    ensures row.sector.None?
    ensures !Shown(Ranked(code, row, score), Filters(minDy, minLiquidity, sectors, minScore))
  {
  }

  /**
   * With the corrected sector, the same fund records the placeholder, so it is
   * shown whenever the placeholder is selected and the other criteria pass.
   */
  lemma NullSectorShownAsUnknown(pairs: seq<Listed>, code: string, row: Row, score: int,
                                 minDy: real, minLiquidity: real, sectors: set<string>, minScore: int)
    requires |pairs| > 0 && pairs[|pairs| - 1] == Listed(code, Null)
    requires forall i :: 0 <= i < |pairs| && pairs[i].code == code ==> !Truthy(pairs[i].sector)
    requires row.sector == Sector(pairs, code)
    requires UnknownSector in sectors
    requires AtLeast(row.dy, minDy) && AtLeast(row.liquidity, minLiquidity) && score >= minScore
    ensures row.sector == Some(UnknownSector)
    ensures Shown(Ranked(code, row, score), Filters(minDy, minLiquidity, sectors, minScore))
  {
  }

  /**
   * A collection under the source's sector rule: a fund the listing ends with
   * a null sector is written without a sector and is never shown.
   */
  lemma CollectedNullSectorNeverShown(body: Option<Val>, fetch: seq<string> -> Response, parse: string -> Option<real>,
                                      w: Write, score: int, minDy: real, minLiquidity: real, sectors: set<string>, minScore: int)
    requires Refresh(body, fetch, parse, AsWritten).Collected? && w in Refresh(body, fetch, parse, AsWritten).writes
    requires |Listing(body)| > 0 && Listing(body)[|Listing(body)| - 1] == Listed(w.ticker, Null)
    ensures w.row.sector.None?
    ensures !Shown(Ranked(w.ticker, w.row, score), Filters(minDy, minLiquidity, sectors, minScore))
  {
    NullSectorNeverShown(Listing(body), w.ticker, w.row, score, minDy, minLiquidity, sectors, minScore);
  }
}

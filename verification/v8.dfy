/**
 * Version 8: one request to the Fundamentus listing page, whose result table
 * already lists every fund. All the table's rows are stored; the yield column
 * is text ("12,5%") that must convert, or the whole collection fails.
 */
module V8 {
  import opened Wrappers
  import opened PyValue
  import opened Store
  import Text

  /**
   * One row of the page's result table as `read_html` reads it: the
   * identifier, the P/VP (missing when the cell is not a number) and the
   * yield cell's text (missing when the cell is empty).
   */
  datatype PageRow = PageRow(ticker: string, pvp: Option<real>, dyText: Option<string>)

  /**
   * The yield of one row: `%` removed, decimal comma to point, then `float()`
   * (`parse`); text that does not convert raises, an empty cell stays missing.
   */
  function CellYield(r: PageRow, parse: string -> Option<real>): (y: Py<Option<real>>)
    ensures r.dyText.None? ==> y == Ok(None)
    ensures r.dyText.Some? ==> (y.Ok? <==> parse(Text.FundamentusYield(r.dyText.value)).Some?)
    ensures r.dyText.Some? && y.Ok? ==> y.value == parse(Text.FundamentusYield(r.dyText.value))
  {
    match r.dyText
    case None => Ok(None)
    case Some(s) =>
      var x := parse(Text.FundamentusYield(s));
      if x.Some? then Ok(x) else Raise
  }

  /**
   * The rows to write, one per table row in table order; the column
   * conversion fails as a whole when any single cell fails.
   */
  function Rows(page: seq<PageRow>, parse: string -> Option<real>): (r: Py<seq<Write>>)
    ensures r.Raise? <==> exists i :: 0 <= i < |page| && CellYield(page[i], parse).Raise?
    ensures r.Ok? ==> |r.value| == |page|
    ensures r.Ok? ==> forall i :: 0 <= i < |page| ==>
              r.value[i] == Write(page[i].ticker, Blank.(pvp := page[i].pvp, dy := CellYield(page[i], parse).value))
  {
    if |page| == 0 then Ok([])
    else
      var last := page[|page| - 1];
      var front := Rows(page[..|page| - 1], parse);
      var y := CellYield(last, parse);
      assert forall i :: 0 <= i < |page| - 1 ==> page[..|page| - 1][i] == page[i];
      if front.Raise? || y.Raise? then Raise
      else Ok(front.value + [Write(last.ticker, Blank.(pvp := last.pvp, dy := y.value))])
  }

  /**
   * One collection: nothing when the page could not be read (bad status, no
   * result table, any exception), when a yield cell does not convert, or when
   * the table is empty; otherwise every row of the table.
   */
  function Refresh(page: Option<seq<PageRow>>, parse: string -> Option<real>): (r: Refresh)
    ensures r.Collected? <==> page.Some? && |page.value| > 0 && forall i :: 0 <= i < |page.value| ==> CellYield(page.value[i], parse).Ok?
    ensures r.Collected? ==> |r.writes| == |page.value|
    ensures r.Collected? ==> forall i :: 0 <= i < |page.value| ==>
              r.writes[i].ticker == page.value[i].ticker && r.writes[i].row.pvp == page.value[i].pvp
              && r.writes[i].row.dy == CellYield(page.value[i], parse).value
  {
    if page.None? then Failed
    else
      match Rows(page.value, parse)
      case Raise => Failed
      case Ok(ws) => if |ws| == 0 then Failed else Collected(ws)
  }

  /** After a successful collection every fund of the page has a row stamped with the collection time. */
  lemma EveryFundStored(t: Table, page: Option<seq<PageRow>>, parse: string -> Option<real>, now: int, i: nat)
    requires Valid(t) && Refresh(page, parse).Collected? && i < |page.value|
    ensures page.value[i].ticker in Commit(t, Refresh(page, parse), now).rows
    ensures Commit(t, Refresh(page, parse), now).rows[page.value[i].ticker].collectedAt == now
  {
    var ws := Refresh(page, parse).writes;
    assert ws[i] in ws;
  }

  /**
   * A page's percentage with a decimal comma, such as "12,5%", reads as the
   * same digits with a decimal point once `%` and the comma are dealt with.
   */
  lemma PercentTextCleans(whole: string, frac: string)
    requires ',' !in whole && '%' !in whole && ',' !in frac && '%' !in frac
    ensures Text.FundamentusYield(whole + "," + frac + "%") == whole + "." + frac
  {
    var body := whole + "," + frac;
    assert '%' !in body;
    Text.ReplaceSkip(body, "%", '%', "");
    assert body + "%" == whole + "," + frac + "%";
    assert Text.Replace("%", "%", "") == "";
    assert body + "" == body;
    assert body == whole + ("," + frac);
    Text.ReplaceSkip(whole, "," + frac, ',', ".");
    assert ("," + frac)[..1] == ",";
    assert ("," + frac)[1..] == frac;
    Text.OccursChar(frac, ',');
    Text.ReplaceAbsent(frac, ",", ".");
    assert whole + ("." + frac) == whole + "." + frac;
  }

}

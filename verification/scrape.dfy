/**
 * The browser-driven collectors (versions 1, 2 and 7): a fixed list of funds,
 * one Status Invest page per fund, the P/VP and yield read from the page's
 * text. A fund whose page fails is skipped; version 7 tries each page up to
 * three times before giving up on it.
 */
module Scrape {
  import opened Wrappers
  import opened Store
  import Text
  import Acceptance

  /** The twenty funds these versions follow. */
  const FundList: seq<string> := [
    "MXRF11", "HGLG11", "BCFF11", "XPML11", "KNCR11",
    "VISC11", "IRDM11", "BTCI11", "CPTS11", "MCCI11",
    "RECR11", "XPLG11", "BRCO11", "PVBI11", "BTLG11",
    "RBRR11", "JSRE11", "VILG11", "GGRC11", "TGAR11"]

  /** Version 7's number of attempts per fund. */
  const MaxAttempts: nat := 3

  /**
   * What one load of a fund page shows: the text next to the P/VP heading
   * and next to the yield heading, None when the element is not found.
   */
  datatype Page = Page(pvpText: Option<string>, dyText: Option<string>)

  /**
   * The row read from a page: both elements present and both texts accepted
   * by `float()` (`parse`) after the clean-ups; anything else is an exception.
   */
  function Reading(p: Page, parse: string -> Option<real>): (r: Option<Row>)
    ensures r.Some? <==> p.pvpText.Some? && p.dyText.Some?
                         && parse(Text.StatusInvestRatio(p.pvpText.value)).Some?
                         && parse(Text.StatusInvestYield(p.dyText.value)).Some?
    ensures r.Some? ==> r.value.pvp == parse(Text.StatusInvestRatio(p.pvpText.value))
                        && r.value.dy == parse(Text.StatusInvestYield(p.dyText.value))
    ensures r.Some? ==> r.value.liquidity.None? && r.value.marketCap.None? && r.value.sector.None?
  {
    if p.pvpText.None? || p.dyText.None? then None
    else
      var pvp := parse(Text.StatusInvestRatio(p.pvpText.value));
      var dy := parse(Text.StatusInvestYield(p.dyText.value));
      if pvp.Some? && dy.Some? then Some(Acceptance.PvpDyRow(pvp.value, dy.value)) else None
  }

  /**
   * The row of fund `c` from attempt `k` on: the first of the remaining
   * attempts whose page reads, if any. `load(c, k)` is the page attempt `k` shows.
   */
  function FirstReading(c: string, load: (string, nat) -> Page, parse: string -> Option<real>, attempts: nat, k: nat): (r: Option<Row>)
    ensures r.Some? <==> exists j :: k <= j < attempts && Reading(load(c, j), parse).Some?
    decreases attempts - k
  {
    if k >= attempts then None
    else
      var here := Reading(load(c, k), parse);
      if here.Some? then here else FirstReading(c, load, parse, attempts, k + 1)
  }

  /** The reading kept is that of the first attempt that reads; every earlier attempt failed. */
  lemma {:induction false} FirstReadingIsFirst(c: string, load: (string, nat) -> Page, parse: string -> Option<real>,
                                               attempts: nat, k: nat, j: nat)
    requires k <= j < attempts && Reading(load(c, j), parse).Some?
    requires forall m :: k <= m < j ==> Reading(load(c, m), parse).None?
    ensures FirstReading(c, load, parse, attempts, k) == Reading(load(c, j), parse)
    decreases j - k
  {
    if k < j {
      FirstReadingIsFirst(c, load, parse, attempts, k + 1, j);
    }
  }

  /** The rows of a whole pass over `codes`, in order, the funds without a reading left out. */
  function Collect(codes: seq<string>, load: (string, nat) -> Page, parse: string -> Option<real>, attempts: nat): (r: seq<Write>)
    ensures |r| <= |codes|
    ensures forall w :: w in r ==> w.ticker in codes && FirstReading(w.ticker, load, parse, attempts, 0) == Some(w.row)
    ensures forall c :: c in codes && FirstReading(c, load, parse, attempts, 0).Some? ==>
              Write(c, FirstReading(c, load, parse, attempts, 0).value) in r
  {
    if |codes| == 0 then []
    else
      var c := codes[|codes| - 1];
      var front := Collect(codes[..|codes| - 1], load, parse, attempts);
      assert codes == codes[..|codes| - 1] + [c];
      match FirstReading(c, load, parse, attempts, 0)
      case None => front
      case Some(row) => front + [Write(c, row)]
  }

  /**
   * The collection loop as the source runs it: for each fund, attempts in
   * order until one page reads, then the next fund. It produces exactly `Collect`.
   */
  method CollectWithRetries(codes: seq<string>, load: (string, nat) -> Page, parse: string -> Option<real>, attempts: nat)
    returns (ws: seq<Write>)
    ensures ws == Collect(codes, load, parse, attempts)
    ensures forall w :: w in ws ==> w.ticker in codes
  {
    ws := [];
    var i := 0;
    while i < |codes|
      invariant 0 <= i <= |codes|
      invariant ws == Collect(codes[..i], load, parse, attempts)
    {
      var c := codes[i];
      var found: Option<Row> := None;
      var k := 0;
      while k < attempts && found.None?
        invariant 0 <= k <= attempts
        invariant found.None? ==> FirstReading(c, load, parse, attempts, 0) == FirstReading(c, load, parse, attempts, k)
        invariant found.Some? ==> found == FirstReading(c, load, parse, attempts, 0)
        decreases attempts - k
      {
        found := Reading(load(c, k), parse);
        k := k + 1;
      }
      assert codes[..i + 1][..i] == codes[..i];
      if found.Some? {
        ws := ws + [Write(c, found.value)];
      }
      i := i + 1;
    }
    assert codes[..|codes|] == codes;
  }

  /** Without retries, a fund is collected exactly when its one page reads. */
  lemma SingleAttempt(c: string, load: (string, nat) -> Page, parse: string -> Option<real>)
    ensures FirstReading(c, load, parse, 1, 0) == Reading(load(c, 0), parse)
  {
    assert FirstReading(c, load, parse, 1, 1).None?;
  }

  /** A page showing "N/A" for the yield reads as a yield of 0. */
  lemma NotApplicableYield(pvpText: string, parse: string -> Option<real>)
    requires parse(Text.StatusInvestRatio(pvpText)).Some? && parse("0") == Some(0.0)
    ensures Reading(Page(Some(pvpText), Some("N/A")), parse).Some?
    ensures Reading(Page(Some(pvpText), Some("N/A")), parse).value.dy == Some(0.0)
  {
    Text.NotApplicableReadsZero();
  }
}

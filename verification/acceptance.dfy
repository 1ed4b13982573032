/**
 * The per-record rules of the client-library collectors: what a quotation
 * record must carry to become a row, which values make the processing raise,
 * and the row it becomes. Each rule is shared by the versions named on it.
 *
 * Convention for all rules: a truthy identifier that is not text is carried
 * through the checks (so it raises where the source raises) but yields no row.
 */
module Acceptance {
  import opened Wrappers
  import opened PyValue
  import opened Store
  import KeyStats

  /** A row carrying only P/VP and dividend yield. */
  function PvpDyRow(pvp: real, dy: real): (row: Row)
    ensures row.pvp == Some(pvp) && row.dy == Some(dy)
    ensures row.liquidity.None? && row.marketCap.None? && row.sector.None?
  {
    Blank.(pvp := Some(pvp), dy := Some(dy))
  }

  /** Both scored values present and positive. */
  predicate PositivePvpDy(row: Row)
  {
    Positive(row.pvp) && Positive(row.dy)
  }

  /** Every row the rule of versions 21, 24 and 25 accepts has a positive P/VP and yield. */
  lemma VarsRowsPositive()
    ensures forall rec :: VarsAccept(rec).Ok? && VarsAccept(rec).value.Some? ==> PositivePvpDy(VarsAccept(rec).value.value.row)
  {
  }

  /** Every row the rule of version 20 accepts has a positive P/VP and yield. */
  lemma TopLevelRowsPositive()
    ensures forall rec :: TopLevelAccept(rec).Ok? && TopLevelAccept(rec).value.Some? ==> PositivePvpDy(TopLevelAccept(rec).value.value.row)
  {
  }

  /** Every row the rule of versions 10 and 15 accepts has a positive P/VP and yield. */
  lemma DerivedRowsPositive()
    ensures forall rec :: DerivedAccept(rec).Ok? && DerivedAccept(rec).value.Some? ==> PositivePvpDy(DerivedAccept(rec).value.value.row)
  {
  }

  /** Every row the rule of version 18 accepts has a positive market cap. */
  lemma MarketCapRowsPositive()
    ensures forall rec :: MarketCapAccept(rec).Ok? && MarketCapAccept(rec).value.Some? ==> Positive(MarketCapAccept(rec).value.value.row.marketCap)
  {
  }

  /** The row written for identifier `t`, when `t` is text. */
  function Emit(t: Val, row: Row): (r: Option<Write>)
    ensures r.Some? <==> t.Str?
    ensures r.Some? ==> r.value == Write(t.s, row)
  {
    if t.Str? then Some(Write(t.s, row)) else None
  }

  /** `dy_decimal * 100 if dy_decimal else 0`. */
  function ScaledOrZero(v: Val): (r: Py<Val>)
    ensures !Truthy(v) ==> r == Ok(Num(0.0))
    ensures Truthy(v) && IsNumber(v) ==> r == Ok(Num(100.0 * NumberOf(v)))
    ensures Truthy(v) ==> r == TimesHundred(v)
  {
    if Truthy(v) then TimesHundred(v) else Ok(Num(0.0))
  }

  /** The statistics attributes of a record: `vars(stats)`, or `{}` when `vars` fails. */
  function VarsStats(rec: Val): Val
  {
    KeyStats.VarsOf(Attr(rec, "defaultKeyStatistics"))
  }

  /**
   * Versions 21, 24 and 25: with a truthy identifier and a truthy statistics
   * module, a truthy `priceToBook` must compare with 0 (else the collection
   * raises); when positive, the yield is scaled by 100 (0 when falsy) and must
   * compare with 0 as well; the row is kept when the yield is positive.
   */
  function VarsAccept(rec: Val): (r: Py<Option<Write>>)
    ensures var t, stats := Attr(rec, "stock"), Attr(rec, "defaultKeyStatistics");
            var pvp, dy := Attr(VarsStats(rec), "priceToBook"), Attr(VarsStats(rec), "dividendYield");
            && (r.Raise? <==> Truthy(t) && Truthy(stats) && Truthy(pvp)
                              && (!IsNumber(pvp) || (NumberOf(pvp) > 0.0 && Truthy(dy) && !IsNumber(dy))))
            && (r.Ok? && r.value.Some? <==> t.Str? && |t.s| > 0 && Truthy(stats) && IsNumber(pvp) && NumberOf(pvp) > 0.0
                                            && IsNumber(dy) && NumberOf(dy) > 0.0)
            && (r.Ok? && r.value.Some? ==> r.value.value == Write(t.s, PvpDyRow(NumberOf(pvp), 100.0 * NumberOf(dy))))
  {
    var t := Attr(rec, "stock");
    var stats := Attr(rec, "defaultKeyStatistics");
    if !(Truthy(t) && Truthy(stats)) then Ok(None)
    else
      var d := VarsStats(rec);
      var pvp := Attr(d, "priceToBook");
      if !Truthy(pvp) then Ok(None)
      else match IsPositive(pvp)
        case Raise => Raise
        case Ok(positive) =>
          if !positive then Ok(None)
          else match ScaledOrZero(Attr(d, "dividendYield"))
            case Raise => Raise
            case Ok(dy) =>
              match IsPositive(dy)
              case Raise => Raise
              case Ok(dyPositive) =>
                if dyPositive then Ok(Emit(t, PvpDyRow(NumberOf(pvp), NumberOf(dy)))) else Ok(None)
  }

  /**
   * Version 20: the record's own `priceToBook` and `dividendYield` (already a
   * percentage). A truthy P/VP must compare with 0; when positive, the yield
   * (0 when falsy) must compare with 0, and the row is kept when it is positive.
   */
  function TopLevelAccept(rec: Val): (r: Py<Option<Write>>)
    ensures var t, pvp, dy := Attr(rec, "stock"), Attr(rec, "priceToBook"), Attr(rec, "dividendYield");
            && (r.Raise? <==> Truthy(t) && Truthy(pvp) && (!IsNumber(pvp) || (NumberOf(pvp) > 0.0 && Truthy(dy) && !IsNumber(dy))))
            && (r.Ok? && r.value.Some? <==> t.Str? && |t.s| > 0 && IsNumber(pvp) && NumberOf(pvp) > 0.0
                                            && IsNumber(dy) && NumberOf(dy) > 0.0)
            && (r.Ok? && r.value.Some? ==> r.value.value == Write(t.s, PvpDyRow(NumberOf(pvp), NumberOf(dy))))
  {
    var t := Attr(rec, "stock");
    var pvp := Attr(rec, "priceToBook");
    if !(Truthy(t) && Truthy(pvp)) then Ok(None)
    else match IsPositive(pvp)
      case Raise => Raise
      case Ok(positive) =>
        if !positive then Ok(None)
        else
          var dyVal := Attr(rec, "dividendYield");
          var dy := if Truthy(dyVal) then dyVal else Num(0.0);
          match IsPositive(dy)
          case Raise => Raise
          case Ok(dyPositive) =>
            if dyPositive then Ok(Emit(t, PvpDyRow(NumberOf(pvp), NumberOf(dy)))) else Ok(None)
  }

  /**
   * Version 18: a truthy market cap must compare with 0; when positive the row
   * is kept whatever the yield, which is scaled by 100 (0 when falsy). A yield
   * that cannot be multiplied raises; one whose product is not a number is
   * recorded as missing.
   */
  function MarketCapAccept(rec: Val): (r: Py<Option<Write>>)
    ensures var t, cap, dy := Attr(rec, "stock"), Attr(rec, "marketCap"), Attr(rec, "dividend_yield");
            && (r.Raise? <==> Truthy(t) && Truthy(cap) && (!IsNumber(cap) || (NumberOf(cap) > 0.0 && (dy.Dict? && |dy.fields| > 0))))
            && (r.Ok? && r.value.Some? <==> t.Str? && |t.s| > 0 && IsNumber(cap) && NumberOf(cap) > 0.0 && !(dy.Dict? && |dy.fields| > 0))
            && (r.Ok? && r.value.Some? ==>
                  && r.value.value.ticker == t.s
                  && r.value.value.row.marketCap == Some(NumberOf(cap))
                  && r.value.value.row.pvp.None? && r.value.value.row.sector.None?
                  && (IsNumber(dy) ==> r.value.value.row.dy == Some(100.0 * NumberOf(dy)))
                  && (!Truthy(dy) ==> r.value.value.row.dy == Some(0.0))
                  && (Truthy(dy) && !IsNumber(dy) ==> r.value.value.row.dy.None?))
  {
    var t := Attr(rec, "stock");
    var cap := Attr(rec, "marketCap");
    if !(Truthy(t) && Truthy(cap)) then Ok(None)
    else match IsPositive(cap)
      case Raise => Raise
      case Ok(positive) =>
        if !positive then Ok(None)
        else match ScaledOrZero(Attr(rec, "dividend_yield"))
          case Raise => Raise
          case Ok(dy) =>
            var dyCell := if dy.Num? then Some(dy.x) else None;
            Ok(Emit(t, Blank.(marketCap := Some(NumberOf(cap)), dy := dyCell)))
  }

  /**
   * Versions 10 and 15: every attribute is read strictly (a missing one
   * raises). P/VP is price over book value when the book value is truthy and
   * positive (a book value that cannot compare with 0, or a price that cannot
   * be divided, raises), 0 otherwise; the yield is scaled by 100 (0 when
   * falsy). The row is kept when P/VP is positive and then the yield is too.
   */
  function DerivedAccept(rec: Val): (r: Py<Option<Write>>)
    ensures !rec.Dict? ==> r.Raise?
    ensures (AttrStrict(rec, "book_value").Raise? || AttrStrict(rec, "dividend_yield").Raise?
             || AttrStrict(rec, "stock").Raise?) ==> r.Raise?
    ensures var pvp, dyRaw, t := DerivedPvp(rec), AttrStrict(rec, "dividend_yield"), AttrStrict(rec, "stock");
            r.Raise? <==> pvp.Raise? || dyRaw.Raise? || ScaledOrZero(dyRaw.value).Raise? || t.Raise?
                          || (pvp.value > 0.0 && IsPositive(ScaledOrZero(dyRaw.value).value).Raise?)
    ensures r.Ok? && r.value.Some? <==>
              && AttrStrict(rec, "book_value").Ok? && AttrStrict(rec, "regular_market_price").Ok?
              && AttrStrict(rec, "dividend_yield").Ok? && AttrStrict(rec, "stock").Ok?
              && var book, price := AttrStrict(rec, "book_value").value, AttrStrict(rec, "regular_market_price").value;
                 var dy, t := AttrStrict(rec, "dividend_yield").value, AttrStrict(rec, "stock").value;
                 && IsNumber(book) && NumberOf(book) > 0.0 && IsNumber(price) && NumberOf(price) / NumberOf(book) > 0.0
                 && IsNumber(dy) && NumberOf(dy) > 0.0 && t.Str?
    ensures r.Ok? && r.value.Some? ==>
              var book, price := AttrStrict(rec, "book_value").value, AttrStrict(rec, "regular_market_price").value;
              var dy, t := AttrStrict(rec, "dividend_yield").value, AttrStrict(rec, "stock").value;
              r.value.value == Write(t.s, PvpDyRow(NumberOf(price) / NumberOf(book), 100.0 * NumberOf(dy)))
  {
    match DerivedPvp(rec)
    case Raise => Raise
    case Ok(pvp) =>
      match AttrStrict(rec, "dividend_yield")
      case Raise => Raise
      case Ok(dyRaw) =>
        match ScaledOrZero(dyRaw)
        case Raise => Raise
        case Ok(dy) =>
          match AttrStrict(rec, "stock")
          case Raise => Raise
          case Ok(t) =>
            if !(pvp > 0.0) then Ok(None)
            else match IsPositive(dy)
              case Raise => Raise
              case Ok(dyPositive) =>
                if dyPositive then Ok(Emit(t, PvpDyRow(pvp, NumberOf(dy)))) else Ok(None)
  }

  /** `price / book if book and book > 0 else 0`, with strict attribute reads. */
  function DerivedPvp(rec: Val): (r: Py<real>)
    ensures AttrStrict(rec, "book_value").Raise? ==> r.Raise?
    ensures r.Ok? && r.value != 0.0 ==>
              var book, price := AttrStrict(rec, "book_value").value, AttrStrict(rec, "regular_market_price");
              IsNumber(book) && NumberOf(book) > 0.0 && price.Ok? && IsNumber(price.value)
              && r.value == NumberOf(price.value) / NumberOf(book)
    ensures AttrStrict(rec, "book_value").Ok? && IsNumber(AttrStrict(rec, "book_value").value)
            && NumberOf(AttrStrict(rec, "book_value").value) > 0.0 && AttrStrict(rec, "regular_market_price").Ok?
            && IsNumber(AttrStrict(rec, "regular_market_price").value) ==>
              r == Ok(NumberOf(AttrStrict(rec, "regular_market_price").value) / NumberOf(AttrStrict(rec, "book_value").value))
  {
    match AttrStrict(rec, "book_value")
    case Raise => Raise
    case Ok(book) =>
      if !Truthy(book) then Ok(0.0)
      else match IsPositive(book)
        case Raise => Raise
        case Ok(positive) =>
          if !positive then Ok(0.0)
          else match AttrStrict(rec, "regular_market_price")
            case Raise => Raise
            case Ok(price) => if IsNumber(price) then Ok(NumberOf(price) / NumberOf(book)) else Raise
  }
}

/**
 * Reading the key-statistics module the quotation endpoint attaches to a
 * record: the P/VP (`priceToBook`) and the dividend yield, a decimal the
 * collectors turn into a percentage.
 */
module KeyStats {
  import opened Wrappers
  import opened PyValue

  /**
   * `priceToBook` of a statistics dictionary, kept only when it is a number
   * (`isinstance(x, (int, float))`) greater than zero.
   */
  function BookRatio(stats: Val): (r: Option<real>)
    ensures r.Some? <==> stats.Dict? && IsNumber(Attr(stats, "priceToBook")) && NumberOf(Attr(stats, "priceToBook")) > 0.0
    ensures r.Some? ==> r.value == NumberOf(Attr(stats, "priceToBook")) && r.value > 0.0
  {
    var raw := Attr(stats, "priceToBook");
    if stats.Dict? && IsNumber(raw) && NumberOf(raw) > 0.0 then Some(NumberOf(raw)) else None
  }

  /** Dividend yield in percent: the decimal times 100 when it is a number, 0 otherwise. */
  function YieldPercent(v: Val): (r: real)
    ensures IsNumber(v) ==> r == 100.0 * NumberOf(v)
    ensures !IsNumber(v) ==> r == 0.0
  {
    if IsNumber(v) then NumberOf(v) * 100.0 else 0.0
  }

  /**
   * `vars(module)`: the attributes of a statistics object; a value without
   * attributes makes `vars` raise `TypeError`, which the collectors turn into `{}`.
   */
  function VarsOf(v: Val): (r: Val)
    ensures r.Dict?
    ensures v.Dict? ==> r == v
    ensures !v.Dict? ==> r.fields == map[]
  {
    if v.Dict? then v else Dict(map[])
  }
}

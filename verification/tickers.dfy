/**
 * Fund identifiers: the listing filter `^[A-Z]{4}11$` (as Python's `re.match`
 * applies it), the looser `"11" in t` filter of the earliest collector, the
 * batch clean-up `str(t).strip()`, and the identifier/sector pairs read from
 * the provider's fund listing.
 */
module Tickers {
  import opened Wrappers
  import opened PyValue
  import Seqs

  /** Sector recorded for a fund whose listing carries none. */
  const UnknownSector: string := "Desconhecido"

  predicate IsUpper(c: char)
  {
    'A' <= c <= 'Z'
  }

  /** Four upper-case ASCII letters followed by the digits "11". */
  predicate IsFundCode(s: string)
  {
    |s| == 6 && IsUpper(s[0]) && IsUpper(s[1]) && IsUpper(s[2]) && IsUpper(s[3])
    && s[4] == '1' && s[5] == '1'
  }

  /**
   * `re.match(r"^[A-Z]{4}11$", s)`. Python's `$` also matches right before a
   * newline that ends the string, so "ABCD11\n" passes as well.
   */
  predicate MatchesFundPattern(s: string)
  {
    IsFundCode(s) || (|s| == 7 && IsFundCode(s[..6]) && s[6] == '\n')
  }

  /** `"11" in s`: the two digits appear next to each other somewhere in `s`. */
  predicate Contains11(s: string)
  {
    exists i :: 0 <= i < |s| - 1 && s[i] == '1' && s[i + 1] == '1'
  }

  /** Every listing code is also accepted by the looser filter. */
  lemma FundCodeContains11(s: string)
    requires MatchesFundPattern(s)
    ensures Contains11(s)
  {
    assert s[4] == '1' && s[5] == '1';
  }

  /** The characters `str.isspace()` accepts. */
  predicate IsSpace(c: char)
  {
    ('\t' <= c <= '\r') || ('\U{1c}' <= c <= ' ') || c == '\U{85}' || c == '\U{a0}'
    || c == '\U{1680}' || ('\U{2000}' <= c <= '\U{200a}') || c == '\U{2028}' || c == '\U{2029}'
    || c == '\U{202f}' || c == '\U{205f}' || c == '\U{3000}'
  }

  function StripStart(s: string): (r: string)
    ensures |r| <= |s| && r == s[|s| - |r|..]
    ensures |r| > 0 ==> !IsSpace(r[0])
    ensures forall i :: 0 <= i < |s| - |r| ==> IsSpace(s[i])
  {
    if |s| > 0 && IsSpace(s[0]) then StripStart(s[1..]) else s
  }

  function StripEnd(s: string): (r: string)
    ensures |r| <= |s| && r == s[..|r|]
    ensures |r| > 0 ==> !IsSpace(r[|r| - 1])
    ensures forall i :: |r| <= i < |s| ==> IsSpace(s[i])
  {
    if |s| > 0 && IsSpace(s[|s| - 1]) then StripEnd(s[..|s| - 1]) else s
  }

  /** `s.strip()`: leading and trailing whitespace removed, the inside kept. */
  function Strip(s: string): (r: string)
    ensures |r| <= |s|
    ensures |r| > 0 ==> !IsSpace(r[0]) && !IsSpace(r[|r| - 1])
  {
    StripEnd(StripStart(s))
  }

  /** Stripping a listing code yields the bare six-character code. */
  lemma {:induction false} StripFundCode(s: string)
    requires MatchesFundPattern(s)
    ensures Strip(s) == s[..6]
    ensures IsFundCode(Strip(s))
  {
    assert !IsSpace(s[0]);
    assert StripStart(s) == s;
    if |s| == 7 {
      assert IsSpace(s[6]);
      assert s[..7][..6] == s[..6];
      assert StripEnd(s) == StripEnd(s[..6]);
    }
    assert StripEnd(s[..6]) == s[..6];
  }

  /** `[str(t).strip() for t in batch if isinstance(t, str)]` over a batch of identifiers. */
  function CleanBatch(batch: seq<string>): (r: seq<string>)
    ensures |r| == |batch|
    ensures forall i :: 0 <= i < |r| && MatchesFundPattern(batch[i]) ==> r[i] == batch[i][..6]
  {
    var r := seq(|batch|, i requires 0 <= i < |batch| => Strip(batch[i]));
    StripEach(batch, r);
    r
  }

  lemma StripEach(batch: seq<string>, r: seq<string>)
    requires |r| == |batch| && forall i :: 0 <= i < |r| ==> r[i] == Strip(batch[i])
    ensures forall i :: 0 <= i < |r| && MatchesFundPattern(batch[i]) ==> r[i] == batch[i][..6]
  {
    forall i | 0 <= i < |r| && MatchesFundPattern(batch[i])
      ensures r[i] == batch[i][..6]
    {
      StripFundCode(batch[i]);
    }
  }

  /** Lemma form of `CleanBatch`'s contract for one element. */
  lemma CleanBatchCodes(batch: seq<string>)
    requires forall t :: t in batch ==> MatchesFundPattern(t)
    ensures forall t :: t in CleanBatch(batch) ==> IsFundCode(t)
  {
    forall t | t in CleanBatch(batch)
      ensures IsFundCode(t)
    {
      var i :| 0 <= i < |batch| && CleanBatch(batch)[i] == t;
      StripFundCode(batch[i]);
    }
  }

  /**
   * The `stocks` list of the decoded listing body. A missing body (the request
   * raised), a body without `stocks`, or a `stocks` value that is not a list all
   * end with no fund at all, whichever way each version reaches that.
   */
  function StocksOf(body: Option<Val>): (r: seq<Val>)
    ensures |r| > 0 ==> body.Some? && Attr(body.value, "stocks") == List(r)
  {
    if body.Some? && Attr(body.value, "stocks").List? then Attr(body.value, "stocks").items else []
  }

  /** A fund found in the provider's listing: its identifier and the listed sector value. */
  datatype Listed = Listed(code: string, sector: Val)

  function IsListedFund(l: Listed): bool
  {
    MatchesFundPattern(l.code)
  }

  /**
   * `[(item.get('stock'), item.get('sector', d)) for item in stocks]`, keeping the
   * pairs whose identifier is a text matching the listing pattern. A listing
   * entry that is not a dictionary raises.
   */
  function ListedFunds(stocks: seq<Val>, d: Val): (r: Py<seq<Listed>>)
    ensures r.Raise? <==> exists i :: 0 <= i < |stocks| && !stocks[i].Dict?
    ensures r.Ok? ==> forall l :: l in r.value ==> MatchesFundPattern(l.code)
    ensures r.Ok? ==> forall l :: l in r.value ==>
                        exists i :: 0 <= i < |stocks| && Attr(stocks[i], "stock") == Str(l.code)
                                    && GetDefault(stocks[i], "sector", d) == Ok(l.sector)
    ensures r.Ok? ==> forall i :: 0 <= i < |stocks| && Attr(stocks[i], "stock").Str?
                        && MatchesFundPattern(Attr(stocks[i], "stock").s)
                        ==> Listed(Attr(stocks[i], "stock").s, GetDefault(stocks[i], "sector", d).value) in r.value
  {
    if |stocks| == 0 then Ok([])
    else
      var item := stocks[|stocks| - 1];
      var rest := ListedFunds(stocks[..|stocks| - 1], d);
      if rest.Raise? || !item.Dict? then Raise
      else
        var code := Attr(item, "stock");
        var sector := GetDefault(item, "sector", d).value;
        if code.Str? && MatchesFundPattern(code.s) then Ok(rest.value + [Listed(code.s, sector)])
        else Ok(rest.value)
  }

  /**
   * The comprehension keeps the listing's order: listing two runs of entries
   * one after the other lists the first run's pairs, then the second's, and
   * raises exactly when either run does.
   */
  lemma {:induction false} ListedFundsAppend(a: seq<Val>, b: seq<Val>, d: Val)
    ensures ListedFunds(a + b, d).Raise? <==> ListedFunds(a, d).Raise? || ListedFunds(b, d).Raise?
    ensures ListedFunds(a + b, d).Ok? ==> ListedFunds(a + b, d).value == ListedFunds(a, d).value + ListedFunds(b, d).value
    decreases |b|
  {
    if |b| > 0 {
      var b' := b[..|b| - 1];
      assert (a + b)[..|a + b| - 1] == a + b';
      assert (a + b)[|a + b| - 1] == b[|b| - 1];
      ListedFundsAppend(a, b', d);
    } else {
      assert a + b == a;
    }
  }

  function Codes(ls: seq<Listed>): (r: seq<string>)
    ensures |r| == |ls|
    ensures forall i :: 0 <= i < |r| ==> r[i] == ls[i].code
  {
    seq(|ls|, i requires 0 <= i < |ls| => ls[i].code)
  }

  /** Whether a listed pair enters the sector map: any pair, or only those with a truthy sector. */
  predicate Enters(l: Listed, truthyOnly: bool)
  {
    !truthyOnly || Truthy(l.sector)
  }

  /**
   * `{t: s for t, s in pairs}` (or with `if s` when `truthyOnly`): a later pair
   * for the same identifier replaces an earlier one.
   */
  function SectorMap(pairs: seq<Listed>, truthyOnly: bool): (m: map<string, Val>)
    ensures forall t :: t in m ==> t in Codes(pairs)
    ensures truthyOnly ==> forall t :: t in m ==> Truthy(m[t])
  {
    if |pairs| == 0 then map[]
    else
      var last := pairs[|pairs| - 1];
      var m' := SectorMap(pairs[..|pairs| - 1], truthyOnly);
      assert forall t :: t in Codes(pairs[..|pairs| - 1]) ==> t in Codes(pairs);
      if Enters(last, truthyOnly) then m'[last.code := last.sector] else m'
  }

  /** Reference reading of the map: the sector of the last pair for `t` that enters it. */
  function LastSector(pairs: seq<Listed>, t: string, truthyOnly: bool): (r: Option<Val>)
    ensures r.None? <==> forall i :: 0 <= i < |pairs| ==> !(pairs[i].code == t && Enters(pairs[i], truthyOnly))
    ensures r.Some? ==> exists i :: 0 <= i < |pairs| && pairs[i] == Listed(t, r.value) && Enters(pairs[i], truthyOnly)
                         && forall j :: i < j < |pairs| ==> !(pairs[j].code == t && Enters(pairs[j], truthyOnly))
  {
    if |pairs| == 0 then None
    else
      var last := pairs[|pairs| - 1];
      if last.code == t && Enters(last, truthyOnly) then Some(last.sector)
      else LastSector(pairs[..|pairs| - 1], t, truthyOnly)
  }

  /** The comprehension keeps, for each identifier, exactly the last entering pair's sector. */
  lemma {:induction false} SectorMapIsLastPair(pairs: seq<Listed>, t: string, truthyOnly: bool)
    ensures t in SectorMap(pairs, truthyOnly) <==> LastSector(pairs, t, truthyOnly).Some?
    ensures t in SectorMap(pairs, truthyOnly) ==> SectorMap(pairs, truthyOnly)[t] == LastSector(pairs, t, truthyOnly).value
    decreases |pairs|
  {
    if |pairs| > 0 {
      SectorMapIsLastPair(pairs[..|pairs| - 1], t, truthyOnly);
    }
  }

  /** `setor_map.get(ticker, "Desconhecido")`. */
  function SectorFor(m: map<string, Val>, ticker: string): (r: Val)
    ensures ticker in m ==> r == m[ticker]
    ensures ticker !in m ==> r == Str(UnknownSector)
  {
    if ticker in m then m[ticker] else Str(UnknownSector)
  }

  /** With a truthy-only map, every lookup yields a truthy sector. */
  lemma SectorForTruthy(pairs: seq<Listed>, ticker: string)
    ensures Truthy(SectorFor(SectorMap(pairs, true), ticker))
  {
  }

  /**
   * `[fii.stock for fii in response.stocks]` on the client's listing object:
   * the `stocks` attribute must be a list and each of its items must carry a
   * `stock` attribute, or the expression raises.
   */
  function SdkListing(body: Option<Val>): (r: Py<seq<Val>>)
    ensures r.Ok? <==> body.Some? && AttrStrict(body.value, "stocks").Ok? && AttrStrict(body.value, "stocks").value.List?
                       && forall i :: 0 <= i < |AttrStrict(body.value, "stocks").value.items| ==>
                            AttrStrict(AttrStrict(body.value, "stocks").value.items[i], "stock").Ok?
    ensures r.Ok? ==> |r.value| == |AttrStrict(body.value, "stocks").value.items|
    ensures r.Ok? ==> forall i :: 0 <= i < |r.value| ==>
                        r.value[i] == AttrStrict(AttrStrict(body.value, "stocks").value.items[i], "stock").value
  {
    if body.None? then Raise
    else
      var stocks := AttrStrict(body.value, "stocks");
      if stocks.Raise? || !stocks.value.List? then Raise
      else StockAttrs(stocks.value.items)
  }

  /** The `stock` attribute of every listing item, raising at the first item without one. */
  function StockAttrs(items: seq<Val>): (r: Py<seq<Val>>)
    ensures r.Ok? <==> forall i :: 0 <= i < |items| ==> AttrStrict(items[i], "stock").Ok?
    ensures r.Ok? ==> |r.value| == |items|
    ensures r.Ok? ==> forall i :: 0 <= i < |items| ==> r.value[i] == AttrStrict(items[i], "stock").value
  {
    if |items| == 0 then Ok([])
    else
      var rest := StockAttrs(items[..|items| - 1]);
      var last := AttrStrict(items[|items| - 1], "stock");
      if rest.Raise? || last.Raise? then Raise else Ok(rest.value + [last.value])
  }

  /**
   * `[t for t in raw if isinstance(t, str) and regex.match(t)]`: the text
   * identifiers matching the listing pattern, in listing order.
   */
  function FundCodes(raw: seq<Val>): (r: seq<string>)
    ensures |r| <= |raw|
    ensures forall c :: c in r <==> Str(c) in raw && MatchesFundPattern(c)
  {
    if |raw| == 0 then []
    else
      var rest := FundCodes(raw[..|raw| - 1]);
      var last := raw[|raw| - 1];
      assert raw == raw[..|raw| - 1] + [last];
      if last.Str? && MatchesFundPattern(last.s) then rest + [last.s] else rest
  }

  /**
   * `[t for t in raw if "11" in t]` over the client's `available().tickers`:
   * a substring test on text, a membership test on a list, a key test on a
   * dictionary; any other value makes `in` raise.
   */
  function ElevenCodes(raw: seq<Val>): (r: Py<seq<Val>>)
    ensures r.Ok? <==> forall i :: 0 <= i < |raw| ==> raw[i].Str? || raw[i].List? || raw[i].Dict?
    ensures r.Ok? ==> forall v :: v in r.value ==> v in raw && HasEleven(v)
    ensures r.Ok? ==> forall s :: Str(s) in raw && Contains11(s) ==> Str(s) in r.value
  {
    if |raw| == 0 then Ok([])
    else
      var rest := ElevenCodes(raw[..|raw| - 1]);
      var last := raw[|raw| - 1];
      assert raw == raw[..|raw| - 1] + [last];
      if rest.Raise? || !(last.Str? || last.List? || last.Dict?) then Raise
      else if HasEleven(last) then Ok(rest.value + [last])
      else rest
  }

  /** `"11" in v` for a text, a list or a dictionary. */
  predicate HasEleven(v: Val)
  {
    match v
    case Str(s) => Contains11(s)
    case List(items) => Str("11") in items
    case Dict(fields) => "11" in fields
    case _ => false
  }
}

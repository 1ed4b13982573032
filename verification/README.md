# Radar FII Pro — a Dafny model of the collector, the store and the score

Radar FII Pro is a Streamlit page that ranks Brazilian real-estate investment
funds (FIIs, tickers of the form `ABCD11`). Every version does the same three
things:

1. It **collects** one row per fund. The first versions scrape Status Invest
   with Selenium (`app_v1`, `app_v2`, `app_cloud`). `app_cloud_v8` reads the
   Fundamentus table. From `app_cloud_v10` on, the brapi quotation API is
   used, first through its SDK and later over plain HTTP, in batches of 10.
   The raw payloads are never trusted.
2. It **stores** the rows in SQLite with `INSERT OR REPLACE` and a collection
   time. It reloads them when the stored data have expired.
3. It **scores** the funds. Each score is a weighted sum of min–max rescaled
   metrics (yield, P/VP, liquidity, distance from the 52-week low, day change)
   over the funds that pass a gate. The result is truncated to an integer, and
   the page filters and sorts the ranking.

The model states each of those three steps once, as shared modules. One
module per version then fixes that version's choices: which fields it
accepts, how batches are judged, which gate, weights and tie rule it uses,
and how long data stay fresh.

- Shared modules:
  - `Wrappers`, `Seqs`: option type and sequence helpers.
  - `PyValue`: Python payload values (`None`, numbers, booleans, strings,
    lists, dicts) and the lookups the source does on them: `.get`,
    `getattr(..., None)`, strict attribute access, `float()`, `* 100`,
    truthiness.
  - `Text`, `Tickers`: text clean-up, the fund-code pattern `^[A-Z]{4}11$`,
    `strip()`, and the listing and sector maps.
  - `Batching`, `Quotes`: batches of 10 and the two ways a batch can succeed.
    Also one `try` around all records versus one per batch, and a record that
    raises.
  - `KeyStats`, `Acceptance`: the acceptance rule of each API generation.
  - `Store`, `Freshness`: the REPLACE table, its row order, and the
    staleness check.
  - `Scoring`, `PvpDy`, `CoupledScore`: the scoring engine and its tie rules.
  - `Ranking`: sidebar filters, sector choices and ranking rows.
  - `Scrape`: Selenium pages read with retries.
- Version modules:
  - `V1`, `V2`, `V7` (`app_cloud.py`), `V8`, `V10`, `V15`, `V18`, `V20`,
    `V21`, `V25` (also `app_cloud_v24.py`, whose core is identical), `V28`,
    `V29`, `V30`, `V30Final`, `V31`.

Parameters stand for the web, the browser, the clock, `float(str)` and
`ast.literal_eval`:

- `fetch` maps a batch to a `Response`: `Returned(results)`, `Raised` or
  `Skipped`.
- `load` maps a fund and an attempt number to a scraped page.
- `parse` stands for `float(str)`.
- `literalEval` stands for `ast.literal_eval`.
- `now` is the current time in seconds.

## Model

| member | source | states |
|---|---|---|
| Acceptance.PvpDyRow | app_cloud_v29.py:84-88 | A quotation row carries exactly the P/VP and yield it was built from; liquidity, market cap and sector stay empty. |
| Acceptance.ScaledOrZero | app_cloud_v25.py:113 | `(dy or 0) * 100`: a falsy yield becomes 0, a number is scaled to percent, and anything else follows Python's `*`, which can raise. |
| Acceptance.VarsAccept | app_cloud_v25.py:103-115 | SDK record read through `vars(default_key_statistics)`. It raises exactly when a truthy P/VP is not a number, or when a positive P/VP meets a truthy non-numeric yield. It yields a row exactly for a non-empty string code with a positive P/VP and a positive yield, and the row's yield is in percent. |
| Acceptance.TopLevelAccept | app_cloud_v20.py:78-96 | Same rule, but read from top-level `priceToBook`/`dividendYield`, with the yield kept unscaled. It raises and accepts under exactly the stated conditions. |
| Acceptance.MarketCapAccept | app_cloud_v18.py:71-81 | A row exactly for a positive numeric market cap. The yield is in percent when numeric, 0 when falsy, and absent when it is a non-numeric truthy value. Failure modes are stated both ways. |
| Acceptance.DerivedAccept | app_cloud_v15.py:80-86 | It raises exactly when one of the strict reads raises (a non-dict record, or a missing `book_value`, `dividend_yield` or `stock`), when the yield cannot be multiplied, or when a positive P/VP meets a non-numeric yield. A row exists exactly when book value, price, yield and code all exist, book > 0, price/book > 0, yield > 0 and the code is a string. The row holds price/book and the yield in percent. |
| Acceptance.DerivedPvp | app_cloud_v15.py:81 | `price / book if book > 0 else 0`: a missing book value raises; a non-zero result is exactly the quotient of a positive book value. |
| Acceptance.VarsRowsPositive | app_cloud_v25.py:111-115 | Every row the `vars` rule accepts has a positive P/VP and a positive yield. |
| Acceptance.TopLevelRowsPositive | app_cloud_v20.py:90-96 | Every row the top-level rule accepts has a positive P/VP and a positive yield. |
| Acceptance.DerivedRowsPositive | app_cloud_v15.py:85-86 | Every row the derived rule accepts has a positive P/VP and a positive yield. |
| Acceptance.MarketCapRowsPositive | app_cloud_v18.py:79-81 | Every row the market-cap rule accepts has a positive market cap. |
| Batching.Chunks | app_cloud_v31_autoradar.py:92 | Slicing into batches: every batch has between 1 and `n` elements, all batches but the last are full, and there are no batches exactly when the input is empty. |
| Batching.ChunksFlatten | app_cloud_v31_autoradar.py:92 | Concatenating the batches gives back the original list, so no fund is lost, duplicated or reordered. |
| Batching.Gather | app_cloud_v31_autoradar.py:94-121 | Errors counted never exceed the batches; no rows come out unless some batch produced rows. |
| Batching.GatherAppend | app_cloud_v31_autoradar.py:99-127 | Gathering is a homomorphism over concatenation of batch sequences, for both the rows and the error count. |
| Batching.FailureIsolated | app_cloud_v31_autoradar.py:94-127 | A failing batch contributes no rows and exactly one error; every other batch's rows are kept in order. |
| Batching.RunBatches | app_cloud_v31_autoradar.py:94-127 | The batch loop's accumulated rows and error counter equal the gathered result. |
| Batching.NonEmptyResults | app_cloud_v31_autoradar.py:112-115 | In v31 a batch succeeds exactly when it was skipped or returned a non-empty `results` list; a successful batch yields exactly those results. |
| Batching.ResultsPresent | app_cloud_v30.py:109-114 | In v30 a batch succeeds exactly when it was skipped or carried a `results` key, even an empty list; otherwise it yields nothing. |
| Batching.SuccessRulesDiffer | app_cloud_v31_autoradar.py:112-115 | On one response the two rules disagree exactly when `results` is empty: v31 counts that batch as failed, while v30 (app_cloud_v30.py:109-114) does not. |
| Batching.AllOrRaise | app_cloud_v31_autoradar.py:136-171 | One `try` around all records: the whole collection raises exactly when some record raises, and otherwise yields the accepted rows. |
| Batching.SurvivorsFrom | app_cloud_v31_autoradar.py:136-165 | Every kept row is the accepted row of some record. |
| Batching.SurvivorsHas | app_cloud_v31_autoradar.py:136-165 | Every record that yields a row has that row kept. |
| Batching.UntilRaise | app_cloud_v30_final.py:72-108 | One `try` per batch: the batch fails exactly when one of its records raises, keeps all accepted rows when none does, and never invents a row. |
| Batching.UntilRaiseNothing | app_cloud_v30_final.py:72-97 | A batch whose records are all rejected without raising succeeds with no rows. |
| Batching.UntilRaisePrefix | app_cloud_v30_final.py:73-108 | When record `k` is the first to raise, the batch fails and keeps exactly the rows of the records before `k`. |
| Batching.GatherFrom | app_cloud_v31_autoradar.py:94-121 | Every gathered row came from some batch. |
| Batching.GatherKeeps | app_cloud_v31_autoradar.py:94-121 | Every row of every batch is gathered. |
| Quotes.Requests | app_cloud_v31_autoradar.py:92-105 | One request per batch of at most 10 codes (`TAMANHO_DO_LOTE`), each request being its batch with the codes stripped. |
| Quotes.EveryFundRequested | app_cloud_v29.py:45-67 | Every listed code that matches the fund pattern is requested, stripped to a well-formed fund code, in some batch. |
| Quotes.Responses | app_cloud_v29.py:59-71 | Each non-empty batch is sent once, in order, and an empty one is skipped. |
| Quotes.ProcessAll | app_cloud_v31_autoradar.py:136-171 | All records in one `try`: raises exactly when one record raises; otherwise the rows are exactly the accepted rows (sound and complete). |
| Quotes.ProcessAllCollects | app_cloud_v31_autoradar.py:136-171 | The one-`try` pass succeeds exactly when no record raises, and then yields rows exactly when some record is accepted, keeping every accepted row. |
| Quotes.Processed | app_cloud_v31_autoradar.py:136-176 | The saved outcome of one `try` over all records: collected exactly when no record raises and some record is accepted; the rows are then exactly sound and complete for the accepted records. |
| Quotes.Outcome | app_cloud_v31_autoradar.py:175-176 | Only a non-empty result is saved; an exception or an empty list counts as a failed collection. |
| Quotes.InBatchNothing | app_cloud_v29.py:74-91 | A returned batch where every record is rejected is a success with no rows. |
| Quotes.InBatchRaisePrefix | app_cloud_v29.py:74-109 | A batch with a raising record fails, and keeps exactly the rows accepted before that record. |
| Quotes.BatchRowsFrom | app_cloud_v29.py:58-109 | Every row of a per-batch collection is the accepted row of a record returned for one of the requests. |
| Quotes.ListedCodes | app_cloud_v29.py:42-45 | Every code that leaves the listing matches `^[A-Z]{4}11$`, and every listed string `stock` that matches it leaves; when reading the listing raises, nothing leaves. |
| Quotes.PerBatch | app_cloud_v29.py:28-125 | No listed fund means a failed collection. Otherwise the collection succeeds exactly when the batches produced rows, and every row comes from a returned, accepted record. |
| Quotes.SdkCodes | app_cloud_v25.py:35-38 | The SDK listing keeps exactly the string codes matching the fund pattern, and nothing when reading the listing raises. |
| Quotes.RawListing | app_cloud_v21.py:42-43 | The unfiltered SDK listing: every `stock` attribute, or nothing when reading raises. |
| Quotes.AllAtOnce | app_cloud_v25.py:52-115 | All SDK results processed in one `try`. The collection succeeds exactly when no returned record raises and some record is accepted; then the rows are the one-`try` result, every row is an accepted record's and every accepted record's row is kept. |
| Ranking.Select | app_cloud_v30.py:346-352 | The table shown keeps exactly the funds that pass every threshold, each with its original multiplicity. |
| Ranking.TighterShowsLess | app_cloud_v30.py:346-352 | Tightening any threshold can only remove funds from the table. |
| Ranking.Rank | app_cloud_v30.py:256-259 | The ranking pairs each fund with its own row and its own score, position by position. |
| Ranking.OfferedSectors | app_cloud_v31_autoradar.py:295 | The sector choices are exactly the non-null sectors of the stored rows. |
| Ranking.DefaultSectors | app_cloud_v31_autoradar.py:297 | The default choice is every offered sector but the placeholder, unless the placeholder is the only choice. |
| Ranking.PvpDyFilter | app_v2.py:211-215 | A fund is shown exactly when P/VP ≤ max, yield ≥ min and score ≥ min; a missing P/VP or yield never passes. |
| Scoring.Passing | app_cloud_v30.py:229 | The gated sub-table holds exactly the rows that pass the gate. |
| Scoring.Lowest | app_cloud_v31_autoradar.py:233 | `min()` of a column is one of its values and no value is below it. |
| Scoring.Highest | app_cloud_v31_autoradar.py:233 | `max()` of a column is one of its values and no value is above it. |
| Scoring.RescaleBounds | app_cloud_v31_autoradar.py:236-237 | A value inside the column's range rescales into 0..100. |
| Scoring.RescaleMonotone | app_cloud_v31_autoradar.py:236-237 | Rescaling preserves order in the metric's "better" direction. |
| Scoring.RescaleEnds | app_cloud_v31_autoradar.py:236-237 | The best value of a spread column rescales to 100 and the worst to 0. |
| Scoring.Clip | app_cloud_v30_final.py:166 | `clip(0, 100)` always lands in 0..100 and leaves values already there unchanged. |
| Scoring.Trunc | app_cloud_v30_final.py:169 | `astype(int)` truncates toward zero (within 1 of the value, on the zero side). |
| Scoring.ScoreAll | app_cloud_v30.py:223-259 | One score per row, each in 0..100. Rows outside the gate score 0, and everyone scores 0 when no row passes. |
| Scoring.DotBounds | app_cloud_v31_autoradar.py:245-248 | A weighted sum of 0..100 parts lies between 0 and 100 × total weight. |
| Scoring.DotConstant | app_cloud_v31_autoradar.py:245-248 | A weighted sum of equal parts is that part times the total weight. |
| Scoring.DotMonotone | app_cloud_v31_autoradar.py:245-248 | A weighted sum with non-negative weights is monotone in every part. |
| Scoring.EntryScoreBounds | app_cloud_v30.py:236-259 | Every gated fund's score is in 0..100, under every tie rule. |
| Scoring.Dominance | app_cloud_v31_autoradar.py:232-248 | A gated fund at least as good as another on every metric scores at least as high. |
| Scoring.CoupledTieNeutral | app_cloud_v25.py:158-159 | With the coupled tie rule, one flat metric among the gated funds gives every gated fund exactly 50. |
| Scoring.PerMetricTieNeutral | app_cloud_v29.py:168-171 | With the per-metric tie rule, a flat metric contributes the neutral 50 to every gated fund. |
| Scoring.PerMetricAllFlat | app_cloud_v30.py:242-256 | With the per-metric tie rule, when every metric is flat every gated fund scores 50. |
| Scoring.EpsilonTieZero | app_cloud_v30_final.py:156-162 | With the 1e-6 spread floor, a flat metric contributes 0, not 50. |
| Scoring.EpsilonFlatMetric | app_cloud_v30_final.py:156-162 | Any value of a flat column scores 0 under the spread floor. |
| Scoring.EpsilonAllFlatZero | app_cloud_v30_final.py:156-169 | Under the spread floor, all-flat metrics give every gated fund 0. |
| Scoring.UnguardedTieZero | app_v2.py:143-151 | Without a guard, one flat metric divides 0 by 0: the NaN becomes 0 after the merge for every gated fund. |
| Scoring.UnguardedFlatIsNaN | app_v2.py:143-144 | Without a guard, rescaling a flat column yields no number (NaN). |
| Scoring.ExtremesScore | app_cloud_v31_autoradar.py:232-248 | When every metric is spread, the fund best on all metrics scores 100 and the one worst on all scores 0. |
| Scoring.PassingSameGated | app_cloud_v30.py:229-259 | Two tables with the same gated rows have the same gated sub-table. |
| Scoring.UngatedIrrelevant | app_cloud_v30.py:229-259 | Changing rows outside the gate never changes anyone's score. |
| PvpDy.ToEntry | app_cloud_v29.py:164 | A fund enters the scoring exactly when it passes this version's P/VP band (and yield condition). |
| PvpDy.Score | app_cloud_v29.py:161-175 | Yield-and-P/VP score: one 0..100 score per fund, and 0 outside the gate. |
| PvpDy.BetterOnBothRanksHigher | app_cloud_v29.py:168-172 | A gated fund with at least the yield and at most the P/VP of another scores at least as high. |
| PvpDy.CoupledTieFifty | app_cloud_v25.py:158-159 | Coupled rule: a shared yield or a shared P/VP among the gated funds gives every gated fund 50. |
| PvpDy.PerMetricTieFifty | app_cloud_v29.py:168-171 | Per-metric rule: identical gated funds all score 50. |
| PvpDy.EpsilonTieZero | app_cloud_v30_final.py:159-162 | Spread floor: identical gated funds all score 0. |
| PvpDy.UnguardedTieZero | app_v2.py:143-151 | No guard: a shared yield or P/VP gives every gated fund 0. |
| PvpDy.TopAndBottom | app_cloud_v29.py:168-172 | The fund with the highest yield and lowest P/VP scores 100; the one with the lowest yield and highest P/VP scores 0. |
| PvpDy.UngatedRowsIrrelevant | app_cloud_v29.py:164-175 | Scores depend only on the yield and P/VP of gated funds. |
| CoupledScore.Score | app_cloud_v25.py:153-165 | Score of v8–v25: 0..100 per fund, 0 unless 0.1 < P/VP < 1.5 and yield > 0. |
| CoupledScore.OneFlatMetricGivesFifty | app_cloud_v25.py:158-159 | When all gated funds share a yield, or all share a P/VP, every gated fund scores 50. |
| CoupledScore.BetterFundRanksHigher | app_cloud_v25.py:158-163 | Higher yield and lower P/VP never rank lower. |
| CoupledScore.BestAndWorst | app_cloud_v25.py:160-163 | The bracketing funds score 100 and 0. |
| Freshness.FirstStamp | app_cloud_v31_autoradar.py:266-270 | As written: the staleness check reads the collection time of the first row in table order, and has none on an empty table. |
| Freshness.NewestStamp | app_cloud_v31_autoradar.py:266-270 | Corrected: the latest collection time in the table, which bounds every row's time. |
| Freshness.FirstRowKeepsExpiring | app_cloud_v31_autoradar.py:266-270 | If the expired first row's fund is not rewritten, the first row stays expired after the save. |
| Freshness.FirstRowLoops | app_cloud_v31_autoradar.py:266-270 | A concrete table in which, after a successful refresh, the first-row check still reports expiry while the newest-stamp check does not. |
| Freshness.PageLoad | app_cloud_v31_autoradar.py:266-283 | Corrected (newest stamp): a page load keeps the table when data are fresh or the collection failed. Otherwise it saves the collection, so every written fund holds its last written row stamped now, and every other row is untouched. |
| Freshness.PageLoadAsWritten | app_cloud_v31_autoradar.py:266-283 | As written (first row's stamp): the same guarantees, with the staleness check on the first row in table order. |
| Freshness.AsWrittenCollectsAgain | app_cloud_v31_autoradar.py:266-283 | As written, when the expired first row's fund is not rewritten, the next load at the same time refreshes again. |
| Freshness.CorrectedCollectsLess | app_cloud_v31_autoradar.py:266-270 | Whenever the newest-stamp check asks for a refresh, so does the first-row check; when all stamps are equal the two agree. |
| Freshness.FirstNotNewer | app_cloud_v31_autoradar.py:266-270 | On a non-empty table the first row's stamp is never later than the newest stamp. |
| Freshness.ServedRowsAreFresh | app_cloud_v31_autoradar.py:266-283 | When no refresh happens, the table is non-empty, the load is not forced, and some row is within the window. |
| Freshness.RefreshSettles | app_cloud_v31_autoradar.py:266-281 | After a successful refresh, the next load at the same time does not refresh again. |
| KeyStats.BookRatio | app_cloud_v29.py:79-84 | P/VP is read exactly when the statistics are a dict with a positive numeric `priceToBook`. |
| KeyStats.YieldPercent | app_cloud_v29.py:85 | A numeric yield fraction becomes percent; anything else reads as 0. |
| KeyStats.VarsOf | app_cloud_v25.py:107-108 | `vars(stats)` on an object yields its attributes, and on anything else an empty dict. |
| PyValue.Attr | app_cloud_v25.py:104-105 | `getattr(x, k, None)`: the field when present, else `None`. |
| PyValue.Get | app_cloud_v31_autoradar.py:137 | `.get` raises exactly on a non-dict and otherwise returns the field or `None`. |
| PyValue.GetDefault | app_cloud_v31_autoradar.py:35 | `.get(k, d)` returns the stored value whenever the key is present, even `None`, and `d` only when it is absent. |
| PyValue.AttrStrict | app_cloud_v15.py:81-83 | `x.k` succeeds exactly when the attribute exists. |
| PyValue.Float | app_cloud_v31_autoradar.py:159-162 | `float()` returns numbers unchanged, parses strings (raising when they do not parse), and raises on anything else. |
| PyValue.IsPositive | app_cloud_v25.py:111 | `x > 0` is defined exactly on numbers and compares them with 0. |
| PyValue.TimesHundred | app_cloud_v25.py:113 | `x * 100`: numbers scale; strings and lists repeat 100 times; `None` and dicts raise. |
| Scrape.Reading | app_cloud.py:83-98 | A page gives a row exactly when both fields are present and parse after the site's text clean-up; the row holds those parsed values. |
| Scrape.FirstReading | app_cloud.py:75-108 | Retrying yields a row exactly when some remaining attempt reads one. |
| Scrape.FirstReadingIsFirst | app_cloud.py:75-103 | The row kept is that of the first attempt that succeeded. |
| Scrape.Collect | app_cloud.py:71-116 | Every collected fund is on the list with its first successful reading, and every fund with a successful reading is collected. |
| Scrape.CollectWithRetries | app_cloud.py:71-116 | The loop over funds and attempts computes exactly that collection. |
| Scrape.SingleAttempt | app_v2.py:63-86 | With one attempt, a fund's row is its single page reading. |
| Scrape.NotApplicableYield | app_cloud.py:95 | A page showing "N/A" as yield still gives a row, with yield 0. |
| Store.Replace | app_cloud_v31_autoradar.py:180-183 | `INSERT OR REPLACE` overwrites the fund's row with a fresh stamp and moves it to the end of the table. Every other row keeps its place. |
| Store.ReplaceAll | app_cloud_v31_autoradar.py:179-184 | After saving, a fund has a row exactly when it had one or was written. Written funds hold their last written row, stamped now; the others are untouched. |
| Store.ReplaceAllIdempotent | app_cloud_v31_autoradar.py:179-184 | Saving the same rows twice at the same time gives the same contents as saving once. |
| Store.ReplaceAllElsewhere | app_cloud_v31_autoradar.py:179-184 | A fund not written keeps its stored row and stamp. |
| Store.ReplaceAllStampsAdvance | app_cloud_v31_autoradar.py:179-184 | Saving never moves a stamp backwards, and stamps every written fund with now. |
| Store.Scan | app_cloud_v31_autoradar.py:197 | `SELECT *` returns each stored fund once, in table order, with its row. |
| Store.Commit | app_cloud_v31_autoradar.py:175-184 | A failed collection leaves the table unchanged. After a successful one, a fund has a row exactly when it had one or was written. A written fund holds its last written row, stamped now, and every other row is untouched. |
| Text.Replace | app_cloud.py:94-95 | `str.replace` of one character by a character-free text removes it. It keeps the length for 1-for-1 replacements and introduces nothing else. |
| Text.ReplaceAbsent | app_cloud.py:94-95 | Replacing a pattern that does not occur changes nothing. |
| Text.FundamentusYield | app_cloud_v8.py:76 | The yield cell loses `%` and decimal commas, and only gains dots. |
| Text.FundamentusYieldIdempotent | app_cloud_v8.py:76 | Cleaning an already clean yield cell changes nothing. |
| Text.StatusInvestRatio | app_cloud.py:94 | The P/VP text loses its decimal comma and keeps its length. |
| Text.StatusInvestYield | app_cloud.py:95 | The yield text loses commas and `%`. |
| Text.NotApplicableReadsZero | app_cloud.py:95 | "N/A" is read as "0". |
| Tickers.FundCodeContains11 | app_cloud_v29.py:44-45 | Every code matching `^[A-Z]{4}11$` also passes the older `"11" in code` test. |
| Tickers.StripStart | app_cloud_v29.py:62 | `lstrip` removes exactly the leading whitespace. |
| Tickers.StripEnd | app_cloud_v29.py:62 | `rstrip` removes exactly the trailing whitespace. |
| Tickers.Strip | app_cloud_v29.py:62 | `strip` never grows a text, and leaves no whitespace at either end. |
| Tickers.StripFundCode | app_cloud_v29.py:62 | A pattern-matching code (including `ABCD11\n`, which `$` admits) strips to its six-letter fund code. |
| Tickers.CleanBatch | app_cloud_v29.py:62 | Cleaning a batch keeps its size and turns each pattern-matching code into its fund code. |
| Tickers.CleanBatchCodes | app_cloud_v29.py:62 | A batch of matching codes cleans to well-formed fund codes only. |
| Tickers.StocksOf | app_cloud_v29.py:43 | The listed stocks are exactly the body's `stocks` list. |
| Tickers.ListedFunds | app_cloud_v30.py:33-35 | The listing raises exactly on a non-dict entry. Otherwise every pair is some entry's string `stock`, matching the fund pattern, with that entry's `sector` (or the default when absent), and every matching entry's pair is listed. |
| Tickers.ListedFundsAppend | app_cloud_v31_autoradar.py:35-37 | The comprehension keeps the listing's order: two runs of entries list the first run's pairs and then the second's, and raise exactly when either run does. |
| Tickers.SectorMap | app_cloud_v30.py:84 | The sector map only knows listed codes, and in its filtered form only truthy sectors. |
| Tickers.SectorMapIsLastPair | app_cloud_v30.py:84 | A dict comprehension keeps, per code, the last qualifying pair. |
| Tickers.SectorFor | app_cloud_v30.py:150 | A fund's sector is its mapped sector, or the placeholder when unmapped. |
| Tickers.SectorForTruthy | app_cloud_v30.py:84-150 | With the truthy-only map, every fund gets a truthy sector. |
| Tickers.SdkListing | app_cloud_v21.py:42-43 | The SDK listing succeeds exactly when every listed stock has a `stock` attribute, and returns them all in order. |
| Tickers.FundCodes | app_cloud_v25.py:36-38 | The kept codes are exactly the listed strings matching the fund pattern. |
| Tickers.ElevenCodes | app_cloud_v10.py:45 | `"11" in t` is defined exactly on strings, lists and dicts. Every string containing "11" is kept, and only such values are. |
| V1.Attempt | app_v1.py:43-88 | No driver means no attempt. Otherwise every row is a listed fund's own page reading. |
| V1.Save | app_v1.py:90-99 | An empty or missing attempt leaves the disk untouched. A non-empty one saves it: every written fund holds its last written row stamped now, every other row is untouched, and the file time becomes now. |
| V1.Opened | app_v1.py:28-41 | Opening the database creates the file (stamping it now) when absent, and changes no data. |
| V1.PageLoadAsWritten | app_v1.py:139-156 | As written: a first run (no file) keeps the empty table, and an old file triggers the save. |
| V1.FirstRunNeverCollects | app_v1.py:139-156 | As written, two page loads within the window on a fresh install both show an empty table. |
| V1.PageLoad | app_v1.py:139-156 | Corrected: an empty table always collects, an old file collects, and the table only changes through a non-empty attempt. |
| V1.FirstRunCollects | app_v1.py:139-156 | Corrected: the first run stores every collected fund. |
| V1.ServedWithinWindow | app_v1.py:150-158 | When a successful collection was available but not used, the table was non-empty and fresh. |
| V2.Collect | app_v2.py:63-86 | Every collected fund is listed with its own reading, and every readable fund is collected. |
| V2.Refresh | app_v2.py:41-109 | A collection succeeds exactly when the driver starts and some fund reads; its rows are those readings. |
| V2.Score | app_v2.py:126-151 | 0..100 per fund, 0 unless 0 < P/VP < 1.5 and yield > 0. |
| V2.SharedMetricZeroesAll | app_v2.py:143-151 | A yield or P/VP shared by all gated funds makes every gated fund score 0. |
| V2.BestAndWorst | app_v2.py:143-147 | The bracketing funds score 100 and 0. |
| V7.Refresh | app_cloud.py:57-125 | No driver fails. Otherwise it succeeds exactly when some fund reads within three attempts, with the rows being exactly the first successful readings. |
| V7.Score | app_cloud.py:153-170 | 0..100 per fund, 0 unless 0 < P/VP < 1.5 and yield > 0. |
| V7.OneFlatMetricGivesFifty | app_cloud.py:161-163 | A yield or P/VP shared by all gated funds gives every gated fund 50. |
| V8.CellYield | app_cloud_v8.py:76 | An empty yield cell is missing; otherwise the cleaned text is parsed, and a parse failure raises. |
| V8.Rows | app_cloud_v8.py:65-82 | The table converts as a whole: one bad yield cell raises; otherwise one row per page row, in order. |
| V8.Refresh | app_cloud_v8.py:38-92 | Succeeds exactly when the page has rows and every yield cell parses, giving one row per page row. |
| V8.EveryFundStored | app_cloud_v8.py:82-100 | After a successful collection every fund on the page is stored and stamped now. |
| V8.PercentTextCleans | app_cloud_v8.py:76 | A yield cell `whole,frac%` cleans to `whole.frac` for any comma- and percent-free parts. |
| V10.Requested | app_cloud_v10.py:42-45 | A ticker list is available exactly when the `tickers` attribute is a list whose entries all support `in` (strings, lists, dicts). The requested tickers are then exactly the available ones containing "11". |
| V10.Refresh | app_cloud_v10.py:31-73 | No ticker list fails. It succeeds exactly when the stocks call returns, no record raises and some record is accepted; the rows are then exactly the accepted derived-P/VP rows (sound and complete), with positive P/VP and yield. |
| V15.Refresh | app_cloud_v15.py:33-97 | An empty listing fails. Otherwise it succeeds exactly when no returned record raises and some is accepted; the rows are then exactly the accepted rows (sound and complete), with positive P/VP and yield. |
| V18.Refresh | app_cloud_v18.py:34-94 | An empty listing fails. Otherwise it succeeds exactly when no returned record raises and some is accepted; the rows are then exactly the accepted market-cap rows (sound and complete), each with a positive market cap. |
| V18.ToEntry | app_cloud_v18.py:130 | A fund is scored exactly when its yield is positive. |
| V18.Score | app_cloud_v18.py:124-151 | 0..100 per fund, 0 when the yield is not positive. |
| V18.BiggerPayerRanksHigher | app_cloud_v18.py:137-147 | Higher yield and higher market cap never rank lower. |
| V18.SameMarketCapGivesFifty | app_cloud_v18.py:137-139 | A market cap shared by all scored funds gives each of them 50. |
| V18.Filters | app_cloud_v18.py:210-214 | Shown exactly when market cap ≥ the minimum in millions, yield ≥ min and score ≥ min. |
| V20.Refresh | app_cloud_v20.py:34-110 | An empty listing fails. Otherwise it succeeds exactly when no returned record raises and some is accepted; the rows are then exactly the accepted top-level rows (sound and complete), with positive P/VP and yield. |
| V21.Batches | app_cloud_v21.py:52 | The listing batches concatenate back to the listing, each holding 1..10 entries. |
| V21.Refresh | app_cloud_v21.py:33-115 | An empty listing fails. Otherwise it succeeds exactly when no returned record raises and some is accepted; the rows are then exactly the accepted `vars` rows (sound and complete), with positive P/VP and yield. |
| V25.Refresh | app_cloud_v25.py:27-128 | No fund code fails. Otherwise it succeeds exactly when no record returned for the fund-code batches raises and some is accepted; the rows are then exactly the accepted rows (sound and complete), with positive P/VP and yield. |
| V28.Accept | app_cloud_v28.py:87-122 | A row exactly for a string code whose statistics text evaluates to a dict with a positive P/VP; it carries that P/VP and the yield in percent. |
| V28.ProcessRows | app_cloud_v28.py:87-130 | The processed rows are exactly the accepted rows. |
| V28.ProcessAppend | app_cloud_v28.py:87-130 | Processing distributes over concatenation of record lists. |
| V28.UnreadableFundDroppedAlone | app_cloud_v28.py:98-127 | A fund whose statistics text does not evaluate is dropped, and every other fund is kept as if it were absent. |
| V28.ProcessMembers | app_cloud_v28.py:87-130 | Every processed row has a positive P/VP and is an accepted record's; every accepted record's row is kept; rows exist exactly when some record is accepted. |
| V28.Refresh | app_cloud_v28.py:28-144 | Succeeds exactly when codes exist and some returned record is accepted. The rows are then exactly the per-record processing of the returned records: each has a positive P/VP and comes from an accepted record, and every accepted record's row is kept. |
| V28.Score | app_cloud_v28.py:169-192 | 0..100 per fund, 0 outside 0.1 < P/VP < 1.5. |
| V28.IdenticalFundsScoreFifty | app_cloud_v28.py:180-187 | Identical gated funds score 50. |
| V29.Accept | app_cloud_v29.py:75-88 | Raises exactly on a non-dict record. It yields a row exactly for a string symbol with a positive P/VP, holding P/VP and the yield in percent. |
| V29.Refresh | app_cloud_v29.py:28-125 | Succeeds exactly when fund codes are listed and the per-batch collection yields rows; the rows are then exactly those batch rows, each from a returned, accepted record, with a positive P/VP and a yield. |
| V29.AcceptedRows | app_cloud_v29.py:83-88 | Accepted rows have a positive P/VP and a yield. |
| V29.ResultsKeyDecides | app_cloud_v29.py:74-94 | A batch with a `results` list succeeds even when nothing is accepted; a missing `results` key or an exception fails the batch. |
| V29.Score | app_cloud_v29.py:161-175 | 0..100 per fund, 0 outside 0.1 < P/VP < 1.5. |
| V29.IdenticalFundsScoreFifty | app_cloud_v29.py:166-171 | Identical gated funds score 50. |
| V29.BestAndWorst | app_cloud_v29.py:166-172 | The bracketing funds score 100 and 0. |
| V30.Listing | app_cloud_v30.py:24-44 | Every listed pair is an entry's fund-pattern code with its own `sector` (null when absent), every matching entry is listed with its sector, in listing order; a listing that raises lists nothing. |
| V30.Accept | app_cloud_v30.py:142-168 | It raises exactly for a non-dict record, a list or dict symbol, or an unconvertible volume on a record that would otherwise give a row. A row is produced exactly for a string symbol with a statistics dict, a present volume, a positive P/VP and a convertible volume. |
| V30.AcceptedRows | app_cloud_v30.py:152-163 | Accepted rows have a positive P/VP, a yield and a liquidity. |
| V30.Collection | app_cloud_v30.py:69-185 | For the one-`try` collection under the v30 rule: a raising record fails it, and every collected row is an accepted record's, with P/VP, yield and liquidity. |
| V30.Refresh | app_cloud_v30.py:69-185 | Nothing listed or nothing returned fails. Otherwise it succeeds exactly when no returned record raises and some is accepted; the rows are then exactly the accepted rows (sound and complete), with P/VP, yield and liquidity. |
| V30.ToEntry | app_cloud_v30.py:229 | A fund is scored exactly when 0.1 < P/VP < 1.5. |
| V30.Score | app_cloud_v30.py:223-260 | 0..100 per fund, 0 outside the band. |
| V30.BetterFundRanksHigher | app_cloud_v30.py:237-256 | Higher yield, lower P/VP and higher liquidity never rank lower. |
| V30.IdenticalFundsScoreFifty | app_cloud_v30.py:242-256 | Identical gated funds score 50. |
| V30.NoSpread | app_cloud_v30.py:237-240 | Identical gated funds leave every metric flat. |
| V30.Filters | app_cloud_v30.py:346-352 | Shown exactly when P/VP ≤ max, yield ≥ min, liquidity ≥ min, sector chosen and score ≥ min. |
| V30Final.Accept | app_cloud_v30_final.py:73-92 | Raises exactly on a non-dict record. A row exactly for a string symbol with a positive P/VP; the yield is the record's own. |
| V30Final.Refresh | app_cloud_v30_final.py:28-123 | Nothing listed fails. Otherwise it succeeds exactly when the per-batch collection yields rows; the rows are then exactly those batch rows, each from a returned, accepted record with a positive P/VP and a yield. |
| V30Final.AcceptedRows | app_cloud_v30_final.py:81-92 | Accepted rows have a positive P/VP and a yield. |
| V30Final.RaiseEndsBatch | app_cloud_v30_final.py:72-108 | A non-dict record fails its batch, which keeps exactly the rows accepted before it. |
| V30Final.Score | app_cloud_v30_final.py:150-170 | 0..100 per fund, 0 outside 0.1 < P/VP < 1.5. |
| V30Final.IdenticalFundsScoreZero | app_cloud_v30_final.py:156-162 | With the spread floor, identical gated funds score 0. |
| V31.Listing | app_cloud_v31_autoradar.py:24-41 | Every listed pair is an entry's fund-pattern code with its own `sector` ("Desconhecido" when absent), every matching entry is listed with its sector, in listing order; a listing that raises lists nothing. |
| V31.SectorAsWritten | app_cloud_v31_autoradar.py:35-37 | As written: a fund gets the sector of its last listing pair as text (none when that value is null or not text), and "Desconhecido" when it is not listed. |
| V31.Sector | app_cloud_v31_autoradar.py:146 | Corrected: a fund with no truthy listed sector gets the placeholder; otherwise its last truthy sector. |
| V31.SectorBy | app_cloud_v31_autoradar.py:146 | The sector a row gets: the as-written lookup (the source's, `V31.SectorAsWritten`) or the corrected one (`V31.Sector`). |
| V31.Accept | app_cloud_v31_autoradar.py:136-165 | It raises exactly for a non-dict record, a truthy list or dict symbol, or a truthy symbol whose essentials are present but do not convert. A row exactly for a string symbol with the essential fields that convert. The row carries every column as converted, and its sector under the chosen rule; the source's rule is AsWritten. |
| V31.Process | app_cloud_v31_autoradar.py:136-171 | Raises exactly when one record raises. Otherwise the rows are exactly the accepted rows (sound and complete), with the essential columns present and the sector of the chosen rule. |
| V31.Refresh | app_cloud_v31_autoradar.py:75-176 | Nothing listed or nothing returned fails. Otherwise it succeeds exactly when processing does not raise and yields rows; the rows are then exactly the processed rows, keeping every accepted record's row, with the sector of the chosen rule. |
| V31.Load | app_cloud_v31_autoradar.py:192-208 | Loading keeps exactly the stored rows that have every essential column, each with its own ticker and row. |
| V31.CollectedRowsLoad | app_cloud_v31_autoradar.py:179-204 | Every fund written by a successful collection is loaded back with its last written row. |
| V31.DistanceFromLow | app_cloud_v31_autoradar.py:229 | The distance is 0 exactly at the 52-week low and non-negative above it. |
| V31.ToEntry | app_cloud_v31_autoradar.py:216-221 | A fund is scored exactly when price and 52-week low are positive. |
| V31.Score | app_cloud_v31_autoradar.py:211-255 | 0..100 per fund, 0 without a positive price and low. |
| V31.ScoreIgnoresPvpAndSector | app_cloud_v31_autoradar.py:239-248 | Changing P/VP, sector or market cap never changes a score. |
| V31.CloserToLowRanksHigher | app_cloud_v31_autoradar.py:239-248 | All else equal, the fund closer to its 52-week low ranks at least as high. |
| V31.Filters | app_cloud_v31_autoradar.py:302-307 | Shown exactly when yield ≥ min, liquidity ≥ min, sector chosen and score ≥ min. |
| V31.NullSectorNeverShown | app_cloud_v31_autoradar.py:295-307 | As written, a fund listed with a null sector is hidden under every filter setting. |
| V31.CollectedNullSectorNeverShown | app_cloud_v31_autoradar.py:35-37 | As written, a fund collected by the v31 refresh whose last listing entry has a null sector is stored with no sector and hidden under every filter setting. |
| V31.NullSectorShownAsUnknown | app_cloud_v31_autoradar.py:295-307 | Corrected, such a fund is shown under the placeholder whenever its other thresholds pass. |

## Left out

- I/O of every kind is left out: the Streamlit widgets, the SQLite engine, the
  HTTP and SDK calls, Selenium, `time.sleep`, progress bars and messages.
  Those results enter the model as parameters (`fetch`, `load`,
  `driverStarts`, `body`, `now`), and SQLite is reduced to the
  `INSERT OR REPLACE` table with its row order.
- `float(str)` and `ast.literal_eval` are uninterpreted parameters (`parse`,
  `literalEval`); text-to-number rules are not modelled beyond them.
- Floating point is modelled as exact reals. IEEE NaN from a 0/0 rescale is
  modelled as "no value", which the merge then turns into 0.
- Acceptance.Emit: an identifier that is not a string yields no row. In
  the source a number would be stored as the fund's ticker, and a list
  would make the `executemany` after the `try` raise, so that the page
  stops with an error and nothing is saved.
- Acceptance.DerivedAccept: v10 and v15 never test `ticker = fii.stock`
  (app_cloud_v10.py:59, app_cloud_v15.py:83). A record whose `stock` is
  `None` or another non-text value, with a positive P/VP and yield, yields
  no row in the model. The source appends it with that value as the ticker.
- V31.SectorAsWritten, V31.Sector: a listed sector that is neither text nor
  null (a number, say) is recorded as no sector; the source would store the
  value itself. Only text and null sectors are modelled as the source reads them.
- V30.Accept, V31.Accept: a truthy numeric or boolean `symbol` on a record
  that converts yields no row, where the source would store the number as
  the fund's ticker. When a conversion fails, both raise, as the source does.
  A list or dict `symbol` raises, as it does in the source (in V31 only a
  non-empty one).
- Acceptance.MarketCapAccept: a missing market cap on a scored row is read as
  0. A yield whose `* 100` is not numeric is kept as no yield. For a text
  yield the source would store the repeated text. For a list yield, the
  `executemany` at app_cloud_v18.py:100-103, which runs after the `try`,
  cannot bind the list and raises: the page stops with an error and nothing
  is saved, while `V18.Refresh` still collects the row.
- The table schema, its migrations between versions, and pandas `merge`
  with duplicate tickers are not modelled. Each version is modelled against
  a table only it wrote, keyed by ticker.
- V30: loading is `Store.Scan`. The `dropna` on ticker, P/VP, yield and
  liquidity at app_cloud_v30.py:214 is left out because it removes nothing
  from a table only V30 wrote: `V30.Accept` gives every row it writes a
  ticker, a P/VP, a yield and a liquidity (`V30.AcceptedRows`).
- V8: loading is `Store.Scan`; app_cloud_v8.py drops no rows on load.
- V1 scores with the same code as `app_v2`, so its score is `V2.Score`.
- V1.Save: an empty `executemany` is assumed to leave the file time
  unchanged.
- Freshness.PageLoad, Freshness.PageLoadAsWritten: all times are one
  integer clock `now`. In the source the stamp is SQLite's
  `CURRENT_TIMESTAMP`, which is UTC, while `pd.Timestamp.now()` is the
  host's local time without a zone. On a host at UTC offset `z` hours the
  real check therefore expires data `z` hours early (late when `z` is
  negative). The model assumes a host running on UTC.
- V1.PageLoadAsWritten: the file time is read as UTC
  (`pd.to_datetime(..., unit='s')`) and compared with local
  `pd.Timestamp.now()`, with the same offset `z`. The model assumes UTC.
  The "nothing collected for the first four hours" of the v1 finding holds
  on hosts at or west of UTC (longer there: 4 − `z` hours, fewer east of UTC); a host 4 or
  more hours east of UTC collects at once.
- Store.Scan: `SELECT *` without `ORDER BY` is taken to return rows in
  rowid order, which is what SQLite does for a plain table scan but does
  not promise. The first-row finding depends on that order.
- The freshness window is a parameter: 4 hours in `app_v1`, `app_v2`,
  `app_cloud` and v31, 1 hour from v8 to v30.
- The "force refresh" button is the `forced` flag of `Freshness.PageLoad`.
  It is not modelled per version.
- Batching.Chunks: slicing is characterised by batch sizes and
  `ChunksFlatten`. The position of each batch within the list is not stated
  index by index.
- `app_cloud_v24.py` is the same core as `app_cloud_v25.py` and is modelled
  by `V25`.
- The debug scripts (`app_cloud_v22_debug.py`, `app_cloud_v26_debug.py`),
  the `teste_dados*.py` scripts and `app_radar.py` are not part of this
  model.

## Findings

| source | as written | input that shows it | evidently intended | confidence | as-written member | corrected member |
|---|---|---|---|---|---|---|
| app_cloud_v31_autoradar.py:35-37 | `item.get('sector', "Desconhecido")` returns `None` when the listing carries the key with a null value. The fund is stored without a sector, is never offered as a sector choice, and fails the `isin` sector filter. | a listing entry `{"stock": "ABCD11", "sector": null}` | a fund without a sector is shown under the placeholder "Desconhecido", as `app_cloud_v30.py` does by keeping only truthy sectors | medium, not executed | V31.SectorAsWritten, V31.Accept and V31.Refresh with rule AsWritten, V31.CollectedNullSectorNeverShown | V31.Sector, V31.Accept and V31.Refresh with rule Corrected, V31.NullSectorShownAsUnknown |
| app_cloud_v31_autoradar.py:266-270 | Freshness is judged on `data_coleta.iloc[0]`, the first row in table order. `INSERT OR REPLACE` moves every rewritten row to the end, so a fund that is no longer returned stays first with its old stamp. | table `AAAA11` (stamp 0), `BBBB11` (stamp 0); a refresh at 5 h returns only `BBBB11`; assumes `SELECT *` returns rowid order | data count as fresh when the latest collection is within the window, so a successful refresh stops the reloads | medium, not executed | Freshness.PageLoadAsWritten, Freshness.AsWrittenCollectsAgain, Freshness.FirstRowLoops | Freshness.PageLoad, Freshness.RefreshSettles, Freshness.CorrectedCollectsLess |
| app_v1.py:139-156 | `inicializar_db()` creates the database file before `os.path.getmtime` is read, so the "file missing" branch never runs. On a fresh install the file time is now, and nothing is collected for the first four hours (on a host at or west of UTC; see V1.PageLoadAsWritten under Left out). | first launch with no database file | a missing or empty database triggers a collection | high, not executed | V1.PageLoadAsWritten, V1.FirstRunNeverCollects | V1.PageLoad, V1.FirstRunCollects |

/**
 * When a page load collects again instead of showing the stored rows: on a
 * forced update, when the table is empty, or when the stored data is older
 * than the version's window. A failed collection keeps the stored rows.
 */
module Freshness {
  import opened Wrappers
  import opened Store

  const Hour: int := 3600

  /** `df['data_coleta'].iloc[0]`: the stamp of the first row in table order. */
  function FirstStamp(t: Table): (r: Option<int>)
    requires Valid(t)
    ensures r.None? <==> |t.order| == 0
    ensures r.Some? ==> r.value == t.rows[t.order[0]].collectedAt
  {
    if |t.order| == 0 then None else Some(t.rows[t.order[0]].collectedAt)
  }

  /** The most recent stamp among the rows named in `order`. */
  function NewestOf(rows: map<string, Stored>, order: seq<string>): (r: Option<int>)
    requires forall k :: k in order ==> k in rows
    ensures r.None? <==> |order| == 0
    ensures r.Some? ==> exists k :: k in order && rows[k].collectedAt == r.value
    ensures r.Some? ==> forall k :: k in order ==> rows[k].collectedAt <= r.value
  {
    if |order| == 0 then None
    else
      var rest := NewestOf(rows, order[1..]);
      var s := rows[order[0]].collectedAt;
      assert forall k :: k in order ==> k == order[0] || k in order[1..];
      if rest.None? || s >= rest.value then Some(s) else rest
  }

  /** The stamp of the most recent collection found in the table. */
  function NewestStamp(t: Table): (r: Option<int>)
    requires Valid(t)
    ensures r.None? <==> |t.rows| == 0
    ensures r.Some? ==> forall k :: k in t.rows ==> t.rows[k].collectedAt <= r.value
  {
    assert |t.order| == 0 ==> t.rows.Keys == {};
    NewestOf(t.rows, t.order)
  }

  /** No stamp, or older than `window` seconds (strictly). */
  predicate Expired(stamp: Option<int>, now: int, window: int)
  {
    stamp.None? || now - stamp.value > window
  }

  /** The page-load rule: collect when forced, when the table is empty, or when expired. */
  predicate NeedsRefresh(forced: bool, t: Table, stamp: Option<int>, now: int, window: int)
  {
    forced || |t.rows| == 0 || Expired(stamp, now, window)
  }

  /**
   * One page load as the source writes it, judging freshness by the first
   * row's stamp. `attempt` is what a collection would produce at `now`; it is
   * used only when one runs.
   */
  function PageLoadAsWritten(t: Table, forced: bool, now: int, window: int, attempt: Refresh): (r: Table)
    requires Valid(t)
    ensures Valid(r)
    ensures !NeedsRefresh(forced, t, FirstStamp(t), now, window) ==> r == t
    ensures attempt.Failed? ==> r == t
    ensures forall k :: k in t.rows ==> k in r.rows
    ensures NeedsRefresh(forced, t, FirstStamp(t), now, window) && attempt.Collected? ==>
              forall w :: w in attempt.writes ==> w.ticker in r.rows && r.rows[w.ticker].collectedAt == now
    ensures NeedsRefresh(forced, t, FirstStamp(t), now, window) ==> r == Commit(t, attempt, now)
    ensures NeedsRefresh(forced, t, FirstStamp(t), now, window) && attempt.Collected? ==>
              forall k :: k in r.rows && LastFor(attempt.writes, k).Some? ==> r.rows[k] == Stored(LastFor(attempt.writes, k).value, now)
    ensures forall k :: k in t.rows && (attempt.Failed? || LastFor(attempt.writes, k).None?) ==> r.rows[k] == t.rows[k]
  {
    if NeedsRefresh(forced, t, FirstStamp(t), now, window) then Commit(t, attempt, now) else t
  }

  /**
   * With the first-row rule, a collection that does not rewrite an expired
   * first row leaves a table the next load, even unforced at the same time,
   * collects again.
   */
  lemma AsWrittenCollectsAgain(t: Table, forced: bool, now: int, window: int, ws: seq<Write>)
    requires Valid(t) && |t.order| > 0
    requires Expired(FirstStamp(t), now, window)
    requires forall w :: w in ws ==> w.ticker != t.order[0]
    ensures var r := PageLoadAsWritten(t, forced, now, window, Collected(ws));
            NeedsRefresh(false, r, FirstStamp(r), now, window)
  {
    FirstRowKeepsExpiring(t, now, window, ws);
  }

  /** The first row's stamp is never later than the newest one. */
  lemma FirstNotNewer(t: Table)
    requires Valid(t) && |t.order| > 0
    ensures FirstStamp(t).Some? && NewestStamp(t).Some? && FirstStamp(t).value <= NewestStamp(t).value
  {
    assert t.order[0] in t.rows;
  }

  /**
   * The corrected rule collects only where the first-row rule does too, and
   * the two agree whenever every row carries the same stamp.
   */
  lemma CorrectedCollectsLess(forced: bool, t: Table, now: int, window: int)
    requires Valid(t)
    ensures NeedsRefresh(forced, t, NewestStamp(t), now, window) ==> NeedsRefresh(forced, t, FirstStamp(t), now, window)
    ensures (forall j, k :: j in t.rows && k in t.rows ==> t.rows[j].collectedAt == t.rows[k].collectedAt) ==>
              (NeedsRefresh(forced, t, NewestStamp(t), now, window) <==> NeedsRefresh(forced, t, FirstStamp(t), now, window))
  {
    if |t.order| > 0 {
      FirstNotNewer(t);
      var n := NewestStamp(t).value;
      var k :| k in t.order && t.rows[k].collectedAt == n;
    } else {
      assert |t.rows| == 0 by {
        assert t.rows.Keys == {};
      }
    }
  }

  /**
   * One page load under the corrected rule, judging freshness by the newest
   * stamp. `attempt` is what a collection would produce at `now`; it is used
   * only when one runs.
   */
  function PageLoad(t: Table, forced: bool, now: int, window: int, attempt: Refresh): (r: Table)
    requires Valid(t)
    ensures Valid(r)
    ensures !NeedsRefresh(forced, t, NewestStamp(t), now, window) ==> r == t
    ensures attempt.Failed? ==> r == t
    ensures forall k :: k in t.rows ==> k in r.rows
    ensures NeedsRefresh(forced, t, NewestStamp(t), now, window) && attempt.Collected? ==>
              forall w :: w in attempt.writes ==> w.ticker in r.rows && r.rows[w.ticker].collectedAt == now
    ensures NeedsRefresh(forced, t, NewestStamp(t), now, window) ==> r == Commit(t, attempt, now)
    ensures NeedsRefresh(forced, t, NewestStamp(t), now, window) && attempt.Collected? ==>
              forall k :: k in r.rows && LastFor(attempt.writes, k).Some? ==> r.rows[k] == Stored(LastFor(attempt.writes, k).value, now)
    ensures forall k :: k in t.rows && (attempt.Failed? || LastFor(attempt.writes, k).None?) ==> r.rows[k] == t.rows[k]
  {
    if NeedsRefresh(forced, t, NewestStamp(t), now, window) then Commit(t, attempt, now) else t
  }

  /** Rows are served without collecting only when present and at most `window` old. */
  lemma ServedRowsAreFresh(forced: bool, t: Table, now: int, window: int)
    requires Valid(t)
    requires !NeedsRefresh(forced, t, NewestStamp(t), now, window)
    ensures |t.rows| > 0 && !forced
    ensures exists k :: k in t.rows && now - t.rows[k].collectedAt <= window
  {
    var s := NewestStamp(t).value;
    var k :| k in t.order && t.rows[k].collectedAt == s;
  }

  /**
   * After a successful collection at `now`, loading again at `now` (without a
   * forced update) serves the stored rows instead of collecting again.
   */
  lemma RefreshSettles(t: Table, forced: bool, now: int, window: int, ws: seq<Write>)
    requires Valid(t) && StampedBefore(t, now) && window >= 0 && |ws| > 0
    requires NeedsRefresh(forced, t, NewestStamp(t), now, window)
    ensures !NeedsRefresh(false, PageLoad(t, forced, now, window, Collected(ws)), NewestStamp(PageLoad(t, forced, now, window, Collected(ws))), now, window)
  {
    var r := PageLoad(t, forced, now, window, Collected(ws));
    assert ws[0] in ws;
    assert ws[0].ticker in r.rows;
    assert r.rows[ws[0].ticker].collectedAt == now;
    ReplaceAllStampsAdvance(t, ws, now);
  }

  /**
   * The first-row rule as the source writes it: a table whose first row was
   * collected more than `window` ago keeps that row first after any collection
   * that does not rewrite it, so it is judged expired again on the next load.
   */
  lemma FirstRowKeepsExpiring(t: Table, now: int, window: int, ws: seq<Write>)
    requires Valid(t) && |t.order| > 0
    requires Expired(FirstStamp(t), now, window)
    requires forall w :: w in ws ==> w.ticker != t.order[0]
    ensures Expired(FirstStamp(Commit(t, Collected(ws), now)), now, window)
  {
    assert LastFor(ws, t.order[0]).None?;
  }

  /**
   * Concretely: two funds stored at time 0; at five hours a collection returns
   * only the second. The table's first row is still the first fund's, stamped 0,
   * so the freshly refreshed table is expired under the four-hour window and the
   * next load collects again, and so does every load after it.
   */
  lemma FirstRowLoops()
    ensures var t := Table(map["AAAA11" := Stored(Blank, 0), "BBBB11" := Stored(Blank, 0)], ["AAAA11", "BBBB11"]);
            var r := Commit(t, Collected([Write("BBBB11", Blank)]), 5 * Hour);
            Expired(FirstStamp(r), 5 * Hour, 4 * Hour)
            && !Expired(NewestStamp(r), 5 * Hour, 4 * Hour)
  {
    var t := Table(map["AAAA11" := Stored(Blank, 0), "BBBB11" := Stored(Blank, 0)], ["AAAA11", "BBBB11"]);
    assert Valid(t);
    var ws := [Write("BBBB11", Blank)];
    FirstRowKeepsExpiring(t, 5 * Hour, 4 * Hour, ws);
    var r := Commit(t, Collected(ws), 5 * Hour);
    assert ws[0] in ws;
    assert r.rows["BBBB11"].collectedAt == 5 * Hour;
  }
}

/**
 * The local table `fiis`: one row per fund identifier (the primary key),
 * written with `REPLACE INTO`, which removes any earlier row for the same
 * identifier and inserts the new one, stamped with the collection time.
 */
module Store {
  import opened Wrappers

  /**
   * The columns a collector may write. Each collector writes only some of
   * them; a column it does not name is NULL (None) in the replaced row.
   */
  datatype Row = Row(
    pvp: Option<real>,
    dy: Option<real>,
    liquidity: Option<real>,
    price: Option<real>,
    low52: Option<real>,
    dayChange: Option<real>,
    marketCap: Option<real>,
    sector: Option<string>)

  const Blank := Row(None, None, None, None, None, None, None, None)

  /** One statement of the batched `REPLACE INTO`: the identifier and its row. */
  datatype Write = Write(ticker: string, row: Row)

  /** A stored row together with its `data_coleta` stamp. */
  datatype Stored = Stored(row: Row, collectedAt: int)

  /**
   * The table: its rows by identifier, and the identifiers in rowid order,
   * the order a plain `SELECT *` returns them in. `REPLACE` deletes the old
   * row and inserts a new one, which takes the next rowid, so a rewritten
   * identifier moves to the end.
   */
  datatype Table = Table(rows: map<string, Stored>, order: seq<string>)

  const Empty := Table(map[], [])

  /** The order lists each stored identifier exactly once. */
  ghost predicate Valid(t: Table)
  {
    && (forall k :: k in t.rows <==> k in t.order)
    && Distinct(t.order)
  }

  /** No identifier appears twice. */
  ghost predicate Distinct(s: seq<string>)
  {
    forall i, j :: 0 <= i < j < |s| ==> s[i] != s[j]
  }

  /** Prepending or appending an identifier not yet present keeps a sequence distinct. */
  lemma DistinctExtend(x: string, s: seq<string>)
    requires Distinct(s) && x !in s
    ensures Distinct([x] + s) && Distinct(s + [x])
  {
  }

  /** `order` without `k`, the others kept in order. */
  function Without(order: seq<string>, k: string): (r: seq<string>)
    ensures forall x :: x in r <==> x in order && x != k
    ensures |order| > 0 && order[0] != k ==> |r| > 0 && r[0] == order[0]
  {
    if |order| == 0 then []
    else if order[0] == k then Without(order[1..], k)
    else [order[0]] + Without(order[1..], k)
  }

  /** Removing an identifier keeps the others distinct. */
  lemma {:induction false} WithoutDistinct(order: seq<string>, k: string)
    requires Distinct(order)
    ensures Distinct(Without(order, k))
  {
    if |order| > 0 {
      assert Distinct(order[1..]);
      WithoutDistinct(order[1..], k);
      if order[0] != k {
        assert order[0] !in order[1..];
        DistinctExtend(order[0], Without(order[1..], k));
      }
    }
  }

  /** The row the last write for `k` carries, if any write is for `k`. */
  function LastFor(ws: seq<Write>, k: string): (r: Option<Row>)
    ensures r.None? <==> forall i :: 0 <= i < |ws| ==> ws[i].ticker != k
    ensures r.Some? ==> exists i :: 0 <= i < |ws| && ws[i] == Write(k, r.value)
                          && forall j :: i < j < |ws| ==> ws[j].ticker != k
  {
    if |ws| == 0 then None
    else if ws[|ws| - 1].ticker == k then Some(ws[|ws| - 1].row)
    else LastFor(ws[..|ws| - 1], k)
  }

  /** One `REPLACE INTO` statement at time `now`. */
  function Replace(t: Table, w: Write, now: int): (r: Table)
    requires Valid(t)
    ensures Valid(r)
    ensures r.rows == t.rows[w.ticker := Stored(w.row, now)]
    ensures |r.order| > 0 && r.order[|r.order| - 1] == w.ticker
    ensures |t.order| > 0 && t.order[0] != w.ticker ==> r.order[0] == t.order[0]
  {
    var o := Without(t.order, w.ticker) + [w.ticker];
    WithoutDistinct(t.order, w.ticker);
    DistinctExtend(w.ticker, Without(t.order, w.ticker));
    Table(t.rows[w.ticker := Stored(w.row, now)], o)
  }

  /**
   * `executemany("REPLACE INTO fiis ...", rows)` at time `now`: the writes are
   * applied in order, so the last row for an identifier is the one kept.
   */
  function ReplaceAll(t: Table, ws: seq<Write>, now: int): (r: Table)
    requires Valid(t)
    ensures Valid(r)
    ensures forall k :: k in r.rows <==> k in t.rows || LastFor(ws, k).Some?
    ensures forall k :: k in r.rows && LastFor(ws, k).Some? ==> r.rows[k] == Stored(LastFor(ws, k).value, now)
    ensures forall k :: k in t.rows && LastFor(ws, k).None? ==> r.rows[k] == t.rows[k]
    ensures |t.order| > 0 && LastFor(ws, t.order[0]).None? ==> r.order[0] == t.order[0]
  {
    if |ws| == 0 then t
    else
      Replace(ReplaceAll(t, ws[..|ws| - 1], now), ws[|ws| - 1], now)
  }

  /** Replaying the same writes at the same time leaves the same rows. */
  lemma ReplaceAllIdempotent(t: Table, ws: seq<Write>, now: int)
    requires Valid(t)
    ensures ReplaceAll(ReplaceAll(t, ws, now), ws, now).rows == ReplaceAll(t, ws, now).rows
  {
    var once := ReplaceAll(t, ws, now);
    var twice := ReplaceAll(once, ws, now);
    assert twice.rows.Keys == once.rows.Keys;
    forall k | k in once.rows
      ensures twice.rows[k] == once.rows[k]
    {
    }
  }

  /** Writes for other identifiers leave a row as it was. */
  lemma ReplaceAllElsewhere(t: Table, ws: seq<Write>, now: int, k: string)
    requires Valid(t) && k in t.rows
    requires forall w :: w in ws ==> w.ticker != k
    ensures k in ReplaceAll(t, ws, now).rows && ReplaceAll(t, ws, now).rows[k] == t.rows[k]
  {
    assert LastFor(ws, k).None?;
  }

  /** Every stamp lies at or before `now`. */
  ghost predicate StampedBefore(t: Table, now: int)
  {
    forall k :: k in t.rows ==> t.rows[k].collectedAt <= now
  }

  /**
   * Collection stamps never go backwards: a rewrite at a later time keeps every
   * row's stamp at least as recent, and every written row carries `now`.
   */
  lemma ReplaceAllStampsAdvance(t: Table, ws: seq<Write>, now: int)
    requires Valid(t) && StampedBefore(t, now)
    ensures StampedBefore(ReplaceAll(t, ws, now), now)
    ensures forall k :: k in t.rows ==> t.rows[k].collectedAt <= ReplaceAll(t, ws, now).rows[k].collectedAt
    ensures forall w :: w in ws ==> ReplaceAll(t, ws, now).rows[w.ticker].collectedAt == now
  {
    forall w | w in ws
      ensures LastFor(ws, w.ticker).Some?
    {
    }
  }

  /** `SELECT * FROM fiis`: every row with its identifier, in table order. */
  function Scan(t: Table): (r: seq<Write>)
    requires Valid(t)
    ensures |r| == |t.order|
    ensures forall i :: 0 <= i < |r| ==> r[i].ticker == t.order[i] && r[i].row == t.rows[t.order[i]].row
    ensures forall k :: k in t.rows ==> Write(k, t.rows[k].row) in r
  {
    var r := seq(|t.order|, i requires 0 <= i < |t.order| => Write(t.order[i], t.rows[t.order[i]].row));
    assert forall k :: k in t.rows ==> exists i :: 0 <= i < |t.order| && t.order[i] == k;
    r
  }

  /** `column > 0` in pandas: false for a missing value. */
  predicate Positive(x: Option<real>)
  {
    x.Some? && x.value > 0.0
  }

  /** Result of one refresh attempt: nothing to write, or the rows to write. */
  datatype Refresh = Failed | Collected(writes: seq<Write>)

  /**
   * The table after an attempt: unchanged on failure; otherwise no row is
   * lost and every written identifier carries the new stamp.
   */
  function Commit(t: Table, a: Refresh, now: int): (r: Table)
    requires Valid(t)
    ensures Valid(r)
    ensures a.Failed? ==> r == t
    ensures forall k :: k in t.rows ==> k in r.rows
    ensures a.Collected? ==> forall w :: w in a.writes ==> w.ticker in r.rows && r.rows[w.ticker].collectedAt == now
    ensures a.Collected? ==> forall k :: k in r.rows <==> k in t.rows || LastFor(a.writes, k).Some?
    ensures a.Collected? ==> forall k :: k in r.rows && LastFor(a.writes, k).Some? ==>
                               r.rows[k] == Stored(LastFor(a.writes, k).value, now)
    ensures a.Collected? ==> forall k :: k in t.rows && LastFor(a.writes, k).None? ==> r.rows[k] == t.rows[k]
  {
    match a
    case Failed => t
    case Collected(ws) =>
      assert forall w :: w in ws ==> LastFor(ws, w.ticker).Some?;
      ReplaceAll(t, ws, now)
  }
}

/**
 * Version 1: the first release. Each page load first creates the database
 * file when it is missing, then judges the data's age by the file's
 * modification time, and collects when that is more than four hours old.
 * A collection writes whatever rows it read, even none.
 */
module V1 {
  import opened Wrappers
  import opened Store
  import Freshness
  import Scrape
  import V2

  /** Collected data expire after four hours. */
  const Window: int := 4 * Freshness.Hour

  /** The database file: its modification time (None while it does not exist) and its table. */
  datatype Disk = Disk(mtime: Option<int>, table: Table)

  /**
   * What one collection hands to the database: nothing when the browser does
   * not start, otherwise the rows of the readable funds (possibly none).
   */
  function Attempt(driverStarts: bool, load: string -> Scrape.Page, parse: string -> Option<real>): (r: Option<seq<Write>>)
    ensures r.None? <==> !driverStarts
    ensures r.Some? ==> forall w :: w in r.value ==> w.ticker in Scrape.FundList && Scrape.Reading(load(w.ticker), parse) == Some(w.row)
  {
    if driverStarts then Some(V2.Collect(load, parse)) else None
  }

  /**
   * Saving an attempt at `now`: `REPLACE INTO` with every row read, the file
   * touched only when there was a row to write.
   */
  function Save(d: Disk, now: int, attempt: Option<seq<Write>>): (r: Disk)
    requires Valid(d.table)
    ensures Valid(r.table)
    ensures attempt.None? || attempt.value == [] ==> r == d
    ensures forall k :: k in d.table.rows ==> k in r.table.rows
    ensures attempt.Some? ==> forall w :: w in attempt.value ==> w.ticker in r.table.rows && r.table.rows[w.ticker].collectedAt == now
    ensures attempt.Some? && |attempt.value| > 0 ==> r.mtime == Some(now)
    ensures attempt.Some? && |attempt.value| > 0 ==> r.table == Commit(d.table, Collected(attempt.value), now)
    ensures attempt.Some? ==> forall k :: k in r.table.rows && LastFor(attempt.value, k).Some? ==>
                                r.table.rows[k] == Stored(LastFor(attempt.value, k).value, now)
    ensures forall k :: k in d.table.rows && (attempt.None? || LastFor(attempt.value, k).None?) ==> r.table.rows[k] == d.table.rows[k]
  {
    match attempt
    case None => d
    case Some(ws) =>
      if |ws| == 0 then d
      else Disk(Some(now), Commit(d.table, Collected(ws), now))
  }

  /** `inicializar_db`: the file exists afterwards, created at `now` when it was missing. */
  function Opened(d: Disk, now: int): (r: Disk)
    ensures r.table == d.table && r.mtime.Some?
    ensures d.mtime.Some? ==> r == d
    ensures d.mtime.None? ==> r.mtime == Some(now)
  {
    Disk(Some(d.mtime.GetOr(now)), d.table)
  }

  /**
   * A page load as the source orders it: the file is opened (created) before
   * its modification time is read, and only an age over the window collects.
   */
  function PageLoadAsWritten(d: Disk, now: int, attempt: Option<seq<Write>>): (r: Disk)
    requires Valid(d.table)
    ensures Valid(r.table)
    ensures r.mtime.Some?
    ensures d.mtime.None? ==> r.table == d.table
    ensures d.mtime.Some? && now - d.mtime.value > Window ==> r == Save(d, now, attempt)
  {
    var o := Opened(d, now);
    if now - o.mtime.value > Window then Save(o, now, attempt) else o
  }

  /**
   * On a fresh install the file is created just before its age is read, so
   * the first load does not collect and shows an empty table; neither does
   * any load within the following four hours.
   */
  lemma FirstRunNeverCollects(now: int, later: int, a1: Option<seq<Write>>, a2: Option<seq<Write>>)
    requires now <= later <= now + Window
    ensures PageLoadAsWritten(Disk(None, Empty), now, a1).table == Empty
    ensures PageLoadAsWritten(PageLoadAsWritten(Disk(None, Empty), now, a1), later, a2).table == Empty
  {
  }

  /** The intended rule: collect when the table is empty as well as when the data is older than the window. */
  function PageLoad(d: Disk, now: int, attempt: Option<seq<Write>>): (r: Disk)
    requires Valid(d.table)
    ensures Valid(r.table)
    ensures |d.table.rows| == 0 ==> r == Save(Opened(d, now), now, attempt)
    ensures d.mtime.Some? && now - d.mtime.value > Window ==> r == Save(d, now, attempt)
    ensures r.table != d.table ==> attempt.Some? && |attempt.value| > 0
  {
    var o := Opened(d, now);
    if |o.table.rows| == 0 || now - o.mtime.value > Window then Save(o, now, attempt) else o
  }

  /** With the intended rule, the first load collects and stores every fund it read. */
  lemma FirstRunCollects(now: int, ws: seq<Write>)
    ensures forall w :: w in ws ==> w.ticker in PageLoad(Disk(None, Empty), now, Some(ws)).table.rows
  {
  }

  /** With the intended rule, a load that does not collect finds rows no older than the window. */
  lemma ServedWithinWindow(d: Disk, now: int, attempt: Option<seq<Write>>)
    requires Valid(d.table) && d.mtime.Some?
    requires PageLoad(d, now, attempt) == d
    requires attempt.Some? && |attempt.value| > 0
    ensures |d.table.rows| > 0 && now - d.mtime.value <= Window
  {
    assert attempt.value[0] in attempt.value;
  }
}

/**
 * Splitting the identifier list into request batches of ten, and gathering
 * what each batch contributes, counting the batches that failed.
 */
module Batching {
  import opened Wrappers
  import opened PyValue
  import Seqs

  /** Number of identifiers per quotation request. */
  const BatchSize: nat := 10

  /** `[xs[i:i + n] for i in range(0, len(xs), n)]`. */
  function Chunks<T>(xs: seq<T>, n: nat): (r: seq<seq<T>>)
    requires n > 0
    ensures forall c :: c in r ==> 0 < |c| <= n
    ensures forall i :: 0 <= i < |r| - 1 ==> |r[i]| == n
    ensures |xs| == 0 <==> |r| == 0
    decreases |xs|
  {
    if |xs| == 0 then []
    else if |xs| <= n then [xs]
    else [xs[..n]] + Chunks(xs[n..], n)
  }

  /** Putting the batches back together gives the identifier list back, in order. */
  lemma {:induction false} ChunksFlatten<T>(xs: seq<T>, n: nat)
    requires n > 0
    ensures Seqs.Flatten(Chunks(xs, n)) == xs
    decreases |xs|
  {
    if |xs| == 0 {
    } else if |xs| <= n {
      Seqs.FlattenSingle(xs);
    } else {
      ChunksFlatten(xs[n..], n);
      Seqs.FlattenAppend([xs[..n]], Chunks(xs[n..], n));
      Seqs.FlattenSingle(xs[..n]);
      assert xs[..n] + xs[n..] == xs;
    }
  }

  /** What one batch contributed, and whether it counts as a failed batch. */
  datatype BatchOutcome<T> = BatchOutcome(items: seq<T>, failed: bool)

  /** Everything gathered over all batches, and how many failed. */
  datatype Gathered<T> = Gathered(items: seq<T>, errors: nat)

  /**
   * The per-batch loop: contributions are appended in batch order and every
   * failed batch adds one to the error count; a failure never stops the loop.
   */
  function Gather<T>(outs: seq<BatchOutcome<T>>): (g: Gathered<T>)
    ensures g.errors <= |outs|
    ensures (forall i :: 0 <= i < |outs| ==> |outs[i].items| == 0) ==> |g.items| == 0
  {
    if |outs| == 0 then Gathered([], 0)
    else
      var g := Gather(outs[..|outs| - 1]);
      var last := outs[|outs| - 1];
      Gathered(g.items + last.items, g.errors + if last.failed then 1 else 0)
  }

  /** Gathering two runs of batches one after the other adds up their contributions and errors. */
  lemma {:induction false} GatherAppend<T>(a: seq<BatchOutcome<T>>, b: seq<BatchOutcome<T>>)
    ensures Gather(a + b).items == Gather(a).items + Gather(b).items
    ensures Gather(a + b).errors == Gather(a).errors + Gather(b).errors
    decreases |b|
  {
    if |b| == 0 {
      assert a + b == a;
    } else {
      var b' := b[..|b| - 1];
      assert (a + b)[..|a + b| - 1] == a + b';
      GatherAppend(a, b');
    }
  }

  /**
   * A batch that fails contributes nothing and costs one error; every other
   * batch contributes exactly what it would have contributed anyway.
   */
  lemma FailureIsolated<T>(outs: seq<BatchOutcome<T>>, k: nat)
    requires k < |outs|
    ensures Gather(outs[k := BatchOutcome([], true)]).items
            == Gather(outs[..k]).items + Gather(outs[k + 1..]).items
    ensures Gather(outs[k := BatchOutcome([], true)]).errors
            == Gather(outs[..k]).errors + 1 + Gather(outs[k + 1..]).errors
  {
    var failed := BatchOutcome([], true);
    var before, after := outs[..k], outs[k + 1..];
    UpdateSplit(outs, k, failed);
    GatherAppend(before + [failed], after);
    GatherAppend(before, [failed]);
    assert Gather([failed]) == Gathered([], 1) by {
      assert [failed][..0] == [];
    }
  }

  /** Replacing element `k` is cutting the sequence around it and putting the new element in between. */
  lemma UpdateSplit<T>(xs: seq<T>, k: nat, x: T)
    requires k < |xs|
    ensures xs[k := x] == (xs[..k] + [x]) + xs[k + 1..]
  {
  }

  /** The same loop, written as the collector writes it. */
  method RunBatches<T>(outs: seq<BatchOutcome<T>>) returns (items: seq<T>, errors: nat)
    ensures items == Gather(outs).items && errors == Gather(outs).errors
  {
    items, errors := [], 0;
    var i := 0;
    while i < |outs|
      invariant 0 <= i <= |outs|
      invariant Gather(outs[..i]) == Gathered(items, errors)
    {
      assert outs[..i + 1][..i] == outs[..i];
      items := items + outs[i].items;
      if outs[i].failed {
        errors := errors + 1;
      }
      i := i + 1;
    }
    assert outs[..i] == outs;
  }

  /**
   * Answer of the quotation endpoint for one batch: not requested at all
   * (`continue`), an exception (HTTP error, timeout, undecodable body), or a
   * decoded body with or without a `results` list.
   */
  datatype Response = Skipped | Raised | Returned(results: Option<seq<Val>>)

  /** The latest collector: a batch succeeds only with a non-empty `results` list. */
  function NonEmptyResults(r: Response): (o: BatchOutcome<Val>)
    ensures !o.failed <==> r.Skipped? || (r.Returned? && r.results.Some? && |r.results.value| > 0)
    ensures |o.items| > 0 ==> r.Returned? && r.results.Some? && o.items == r.results.value
    ensures r.Returned? && r.results.Some? ==> o.items == r.results.value
  {
    match r
    case Skipped => BatchOutcome([], false)
    case Raised => BatchOutcome([], true)
    case Returned(rs) =>
      if rs.Some? && |rs.value| > 0 then BatchOutcome(rs.value, false) else BatchOutcome([], true)
  }

  /** The other collectors: a batch succeeds whenever `results` is present, even empty. */
  function ResultsPresent(r: Response): (o: BatchOutcome<Val>)
    ensures !o.failed <==> r.Skipped? || (r.Returned? && r.results.Some?)
    ensures r.Returned? && r.results.Some? ==> o.items == r.results.value
    ensures !(r.Returned? && r.results.Some?) ==> o.items == []
  {
    match r
    case Returned(Some(rs)) => BatchOutcome(rs, false)
    case Skipped => BatchOutcome([], false)
    case _ => BatchOutcome([], true)
  }

  /** The two success rules agree except on an empty `results` list. */
  lemma SuccessRulesDiffer(rs: seq<Val>)
    ensures NonEmptyResults(Returned(Some(rs))).failed <==> |rs| == 0
    ensures !ResultsPresent(Returned(Some(rs))).failed
  {
  }

  /**
   * Processing every collected record inside one `try`: the first record that
   * raises aborts the whole collection; otherwise the accepted records, in order.
   */
  function AllOrRaise<T>(outs: seq<Py<Option<T>>>): (r: Py<seq<T>>)
    ensures r.Raise? <==> exists i :: 0 <= i < |outs| && outs[i].Raise?
    ensures r.Ok? ==> r.value == Survivors(outs)
  {
    if |outs| == 0 then Ok([])
    else
      var rest := AllOrRaise(outs[..|outs| - 1]);
      var last := outs[|outs| - 1];
      if rest.Raise? || last.Raise? then Raise
      else Ok(rest.value + Kept(last))
  }

  /** The accepted records, in order; a record that raised is only dropped. */
  function Survivors<T>(outs: seq<Py<Option<T>>>): (r: seq<T>)
    ensures |r| <= |outs|
  {
    if |outs| == 0 then []
    else Survivors(outs[..|outs| - 1]) + Kept(outs[|outs| - 1])
  }

  /** Every survivor is the row some record was accepted as. */
  lemma {:induction false} SurvivorsFrom<T>(outs: seq<Py<Option<T>>>)
    ensures forall x :: x in Survivors(outs) ==> exists j :: 0 <= j < |outs| && outs[j] == Ok(Some(x))
  {
    if |outs| > 0 {
      var front := outs[..|outs| - 1];
      SurvivorsFrom(front);
      forall x | x in Survivors(outs)
        ensures exists j :: 0 <= j < |outs| && outs[j] == Ok(Some(x))
      {
        if x in Survivors(front) {
          var j :| 0 <= j < |front| && front[j] == Ok(Some(x));
          assert outs[j] == front[j];
        } else {
          assert x in Kept(outs[|outs| - 1]);
        }
      }
    }
  }

  /** Every accepted record's row survives. */
  lemma {:induction false} SurvivorsHas<T>(outs: seq<Py<Option<T>>>, j: nat)
    requires j < |outs| && outs[j].Ok? && outs[j].value.Some?
    ensures outs[j].value.value in Survivors(outs)
  {
    var front := outs[..|outs| - 1];
    if j < |outs| - 1 {
      SurvivorsHas(front, j);
    } else {
      assert Kept(outs[j]) == [outs[j].value.value];
    }
  }

  /** The row one record contributes: none when it raised or was not accepted. */
  function Kept<T>(o: Py<Option<T>>): (r: seq<T>)
    ensures |r| <= 1
    ensures |r| == 1 <==> o.Ok? && o.value.Some?
    ensures |r| == 1 ==> r[0] == o.value.value
  {
    if o.Ok? && o.value.Some? then [o.value.value] else []
  }

  /**
   * Processing a batch's records inside the batch's own `try`: records are
   * kept up to the first one that raises, and that batch then counts as failed.
   */
  function UntilRaise<T>(outs: seq<Py<Option<T>>>): (r: BatchOutcome<T>)
    ensures r.failed <==> exists i :: 0 <= i < |outs| && outs[i].Raise?
    ensures !r.failed ==> r.items == Survivors(outs)
    ensures forall x :: x in r.items ==> exists j :: 0 <= j < |outs| && outs[j] == Ok(Some(x))
  {
    if |outs| == 0 then BatchOutcome([], false)
    else if outs[0].Raise? then BatchOutcome([], true)
    else
      var rest := UntilRaise(outs[1..]);
      PrependKept(outs, rest);
      Prepend(outs[0], rest)
  }

  /** The first record's row, if any, in front of what the later records gave. */
  function Prepend<T>(first: Py<Option<T>>, rest: BatchOutcome<T>): BatchOutcome<T>
    requires first.Ok?
  {
    if first.value.Some? then BatchOutcome([first.value.value] + rest.items, rest.failed) else rest
  }

  lemma PrependKept<T>(outs: seq<Py<Option<T>>>, rest: BatchOutcome<T>)
    requires |outs| > 0 && outs[0].Ok?
    requires rest.failed <==> exists i :: 0 <= i < |outs[1..]| && outs[1..][i].Raise?
    requires !rest.failed ==> rest.items == Survivors(outs[1..])
    requires forall x :: x in rest.items ==> exists j :: 0 <= j < |outs[1..]| && outs[1..][j] == Ok(Some(x))
    ensures Prepend(outs[0], rest).failed <==> exists i :: 0 <= i < |outs| && outs[i].Raise?
    ensures !Prepend(outs[0], rest).failed ==> Prepend(outs[0], rest).items == Survivors(outs)
    ensures forall x :: x in Prepend(outs[0], rest).items ==> exists j :: 0 <= j < |outs| && outs[j] == Ok(Some(x))
  {
    SurvivorsCons(outs);
    assert forall i :: 0 <= i < |outs[1..]| ==> outs[1..][i] == outs[i + 1];
    var r := Prepend(outs[0], rest);
    assert forall x :: x in r.items ==> x in rest.items || (outs[0].value.Some? && x == outs[0].value.value);
  }

  /** A batch whose records are all skipped succeeds and contributes nothing. */
  lemma {:induction false} UntilRaiseNothing<T>(outs: seq<Py<Option<T>>>)
    requires forall i :: 0 <= i < |outs| ==> outs[i] == Ok(None)
    ensures UntilRaise(outs) == BatchOutcome([], false)
    decreases |outs|
  {
    if |outs| > 0 {
      assert forall i :: 0 <= i < |outs[1..]| ==> outs[1..][i] == outs[i + 1];
      UntilRaiseNothing(outs[1..]);
    }
  }

  lemma {:induction false} SurvivorsCons<T>(outs: seq<Py<Option<T>>>)
    requires |outs| > 0
    ensures Survivors(outs) == Kept(outs[0]) + Survivors(outs[1..])
  {
    if |outs| > 1 {
      var front, tail := outs[..|outs| - 1], outs[1..];
      SurvivorsCons(front);
      assert front[1..] == tail[..|tail| - 1];
      assert tail[|tail| - 1] == outs[|outs| - 1];
      calc {
        Survivors(outs);
        Survivors(front) + Kept(outs[|outs| - 1]);
        (Kept(outs[0]) + Survivors(front[1..])) + Kept(outs[|outs| - 1]);
        Kept(outs[0]) + (Survivors(tail[..|tail| - 1]) + Kept(tail[|tail| - 1]));
        Kept(outs[0]) + Survivors(tail);
      }
    } else {
      assert outs[..0] == [];
      assert outs[1..] == [];
    }
  }

  /** Everything gathered was contributed by some batch. */
  lemma {:induction false} GatherFrom<T>(outs: seq<BatchOutcome<T>>)
    ensures forall x :: x in Gather(outs).items ==> exists i :: 0 <= i < |outs| && x in outs[i].items
  {
    if |outs| > 0 {
      var front := outs[..|outs| - 1];
      GatherFrom(front);
      forall x | x in Gather(outs).items
        ensures exists i :: 0 <= i < |outs| && x in outs[i].items
      {
        if x in Gather(front).items {
          var i :| 0 <= i < |front| && x in front[i].items;
          assert outs[i] == front[i];
        } else {
          assert x in outs[|outs| - 1].items;
        }
      }
    }
  }

  /** Everything a batch contributes is gathered. */
  lemma {:induction false} GatherKeeps<T>(outs: seq<BatchOutcome<T>>, i: nat, x: T)
    requires i < |outs| && x in outs[i].items
    ensures x in Gather(outs).items
  {
    if i < |outs| - 1 {
      GatherKeeps(outs[..|outs| - 1], i, x);
    }
  }

  /**
   * A record that raises inside its batch's `try` ends that batch: the batch
   * counts as failed and keeps exactly the rows accepted before the record.
   */
  lemma {:induction false} UntilRaisePrefix<T>(outs: seq<Py<Option<T>>>, k: nat)
    requires k < |outs| && outs[k].Raise?
    requires forall j :: 0 <= j < k ==> outs[j].Ok?
    ensures UntilRaise(outs).failed
    ensures UntilRaise(outs).items == Survivors(outs[..k])
  {
    if k == 0 {
      assert outs[..0] == [];
    } else {
      var tail := outs[1..];
      UntilRaisePrefix(tail, k - 1);
      SurvivorsCons(outs[..k]);
      assert outs[..k][1..] == tail[..k - 1];
    }
  }
}

/**
 * The two-metric score most versions use: dividend yield (weight 0.6, more is
 * better) and P/VP (weight 0.4, less is better), over the rows whose P/VP lies
 * strictly between a lower bound and 1.5 (and, in most versions, whose yield
 * is positive). The versions differ in the lower bound, the yield condition,
 * the tie rule and whether the score is clipped; `Variant` names the choice.
 */
module PvpDy {
  import opened Wrappers
  import opened Store
  import opened Scoring

  /** Upper bound of the P/VP gate, shared by every version. */
  const Ceiling: real := 1.5

  /**
   * One version's choices: the exclusive lower P/VP bound, whether a positive
   * yield is required, the tie rule, and whether the score is clipped.
   */
  datatype Variant = Variant(lower: real, needDy: bool, tie: TieRule, clip: bool)

  predicate ValidVariant(v: Variant)
  {
    v.tie.EpsilonFloor? ==> v.tie.eps > 0.0
  }

  /** The quality gate: a P/VP strictly inside the bounds, and a positive yield when required. */
  predicate Gated(row: Row, v: Variant)
  {
    row.pvp.Some? && v.lower < row.pvp.value < Ceiling && (v.needDy ==> Positive(row.dy))
  }

  /** The yield a gated row is scored with: a missing yield counts as 0 (`fillna(0)`). */
  function Yield(row: Row): real
  {
    row.dy.GetOr(0.0)
  }

  function ToEntry(w: Write, v: Variant): (e: Entry)
    ensures e.passes <==> Gated(w.row, v)
    ensures |e.values| == 2
  {
    Entry(Gated(w.row, v), [Yield(w.row), w.row.pvp.GetOr(0.0)])
  }

  /** Weights 0.6 yield (more is better), 0.4 P/VP (less is better). */
  function Cfg(v: Variant): Config
  {
    Config([Metric(HigherIsBetter, 0.6), Metric(LowerIsBetter, 0.4)], v.tie, v.clip)
  }

  lemma CfgValid(v: Variant)
    requires ValidVariant(v)
    ensures ValidConfig(Cfg(v))
  {
    var ms := Cfg(v).metrics;
    assert ms[..1][..0] == [];
    assert ms[..1] == [ms[0]];
  }

  function Entries(ws: seq<Write>, v: Variant): (es: seq<Entry>)
    ensures |es| == |ws| && Shaped(es, Cfg(v))
    ensures forall e :: e in es ==> |e.values| == 2
    ensures forall i :: 0 <= i < |ws| ==> es[i] == ToEntry(ws[i], v)
  {
    seq(|ws|, i requires 0 <= i < |ws| => ToEntry(ws[i], v))
  }

  /**
   * `calcular_score_pro`: one score per row, in 0..100, and 0 for every row
   * outside the gate (the `merge` followed by `fillna(0)`).
   */
  function Score(ws: seq<Write>, v: Variant): (r: seq<int>)
    requires ValidVariant(v)
    ensures |r| == |ws|
    ensures forall i :: 0 <= i < |ws| ==> 0 <= r[i] <= 100
    ensures forall i :: 0 <= i < |ws| && !Gated(ws[i].row, v) ==> r[i] == 0
  {
    CfgValid(v);
    ScoreAll(Entries(ws, v), Cfg(v))
  }

  /**
   * Ordering: of two gated rows, the one with at least the yield and at most
   * the P/VP of the other never scores lower.
   */
  lemma BetterOnBothRanksHigher(ws: seq<Write>, v: Variant, i: nat, j: nat)
    requires ValidVariant(v) && i < |ws| && j < |ws|
    requires Gated(ws[i].row, v) && Gated(ws[j].row, v)
    requires Yield(ws[i].row) >= Yield(ws[j].row) && ws[i].row.pvp.value <= ws[j].row.pvp.value
    ensures Score(ws, v)[i] >= Score(ws, v)[j]
  {
    CfgValid(v);
    var es := Entries(ws, v);
    assert es[i] in es && es[j] in es;
    Dominance(es[i], es[j], es, Cfg(v));
  }

  /** Every gated row carries yield `c`. */
  predicate SharedYield(ws: seq<Write>, v: Variant, c: real)
  {
    forall i :: 0 <= i < |ws| && Gated(ws[i].row, v) ==> Yield(ws[i].row) == c
  }

  /** Every gated row carries P/VP `c`. */
  predicate SharedPvp(ws: seq<Write>, v: Variant, c: real)
  {
    forall i :: 0 <= i < |ws| && Gated(ws[i].row, v) ==> ws[i].row.pvp == Some(c)
  }

  lemma SharedYieldFlat(ws: seq<Write>, v: Variant, c: real, g: nat)
    requires g < |ws| && Gated(ws[g].row, v) && SharedYield(ws, v, c)
    ensures |Passing(Entries(ws, v))| > 0
    ensures Flat(Column(Passing(Entries(ws, v)), 0))
  {
    var es := Entries(ws, v);
    assert es[g] in Passing(es);
    FlatWhenShared(es, 0, c);
  }

  lemma SharedPvpFlat(ws: seq<Write>, v: Variant, c: real, g: nat)
    requires g < |ws| && Gated(ws[g].row, v) && SharedPvp(ws, v, c)
    ensures |Passing(Entries(ws, v))| > 0
    ensures Flat(Column(Passing(Entries(ws, v)), 1))
  {
    var es := Entries(ws, v);
    assert es[g] in Passing(es);
    FlatWhenShared(es, 1, c);
  }

  /**
   * Coupled rule: when every gated row has the same yield, or every gated row
   * the same P/VP, every gated row scores exactly 50.
   */
  lemma CoupledTieFifty(ws: seq<Write>, v: Variant, c: real, i: nat)
    requires ValidVariant(v) && v.tie.CoupledNeutral?
    requires i < |ws| && Gated(ws[i].row, v)
    requires SharedYield(ws, v, c) || SharedPvp(ws, v, c)
    ensures Score(ws, v)[i] == 50
  {
    CfgValid(v);
    var es := Entries(ws, v);
    if SharedYield(ws, v, c) {
      SharedYieldFlat(ws, v, c, i);
      assert Flat(Column(Passing(es), 0));
    } else {
      SharedPvpFlat(ws, v, c, i);
      assert Flat(Column(Passing(es), 1));
    }
    assert es[i] in es;
    CoupledTieNeutral(es, Cfg(v), es[i]);
  }

  /** Per-metric rule: when the gated rows share both yield and P/VP, each scores 50. */
  lemma PerMetricTieFifty(ws: seq<Write>, v: Variant, c: real, d: real, i: nat)
    requires ValidVariant(v) && v.tie.PerMetricNeutral?
    requires i < |ws| && Gated(ws[i].row, v)
    requires SharedYield(ws, v, c) && SharedPvp(ws, v, d)
    ensures Score(ws, v)[i] == 50
  {
    CfgValid(v);
    var es := Entries(ws, v);
    BothFlat(ws, v, c, d, i);
    ScoreIsScoreOf(ws, v, i);
    PerMetricAllFlat(es, Cfg(v), es[i]);
  }

  /** Epsilon floor: when the gated rows share both yield and P/VP, each scores 0. */
  lemma EpsilonTieZero(ws: seq<Write>, v: Variant, c: real, d: real, i: nat)
    requires ValidVariant(v) && v.tie.EpsilonFloor?
    requires i < |ws| && Gated(ws[i].row, v)
    requires SharedYield(ws, v, c) && SharedPvp(ws, v, d)
    ensures Score(ws, v)[i] == 0
  {
    CfgValid(v);
    var es := Entries(ws, v);
    BothFlat(ws, v, c, d, i);
    ScoreIsScoreOf(ws, v, i);
    EpsilonAllFlatZero(es, Cfg(v), es[i]);
  }

  /** A row's score is its entry's score among all entries. */
  lemma ScoreIsScoreOf(ws: seq<Write>, v: Variant, i: nat)
    requires ValidVariant(v) && i < |ws|
    ensures ValidConfig(Cfg(v)) && Entries(ws, v)[i] in Entries(ws, v)
    ensures Score(ws, v)[i] == ScoreOf(Entries(ws, v)[i], Entries(ws, v), Cfg(v))
  {
    CfgValid(v);
  }

  /** Shared yield and shared P/VP leave neither column any spread. */
  lemma BothFlat(ws: seq<Write>, v: Variant, c: real, d: real, g: nat)
    requires g < |ws| && Gated(ws[g].row, v)
    requires SharedYield(ws, v, c) && SharedPvp(ws, v, d)
    ensures |Passing(Entries(ws, v))| > 0
    ensures forall k :: 0 <= k < |Cfg(v).metrics| ==> Flat(Column(Passing(Entries(ws, v)), k))
  {
    SharedYieldFlat(ws, v, c, g);
    SharedPvpFlat(ws, v, d, g);
    TwoFlat(Passing(Entries(ws, v)), Cfg(v));
  }

  lemma TwoFlat(ps: seq<Entry>, cfg: Config)
    requires |cfg.metrics| == 2 && |ps| > 0 && forall e :: e in ps ==> |e.values| == 2
    requires Flat(Column(ps, 0)) && Flat(Column(ps, 1))
    ensures forall k :: 0 <= k < |cfg.metrics| ==> Flat(Column(ps, k))
  {
    forall k | 0 <= k < |cfg.metrics|
      ensures Flat(Column(ps, k))
    {
      if k == 0 {
      } else {
        assert k == 1;
      }
    }
  }

  /** Unguarded: when the gated rows share the yield or the P/VP, every score is NaN, hence 0. */
  lemma UnguardedTieZero(ws: seq<Write>, v: Variant, c: real, i: nat)
    requires ValidVariant(v) && v.tie.Unguarded?
    requires i < |ws| && Gated(ws[i].row, v)
    requires SharedYield(ws, v, c) || SharedPvp(ws, v, c)
    ensures Score(ws, v)[i] == 0
  {
    CfgValid(v);
    var es := Entries(ws, v);
    assert es[i] in es;
    if SharedYield(ws, v, c) {
      SharedYieldFlat(ws, v, c, i);
      Scoring.UnguardedTieZero(es, Cfg(v), es[i], 0);
    } else {
      SharedPvpFlat(ws, v, c, i);
      Scoring.UnguardedTieZero(es, Cfg(v), es[i], 1);
    }
  }

  /** The range every gated row lies in. */
  predicate Brackets(ws: seq<Write>, v: Variant, b: nat, w: nat)
    requires b < |ws| && w < |ws| && ws[b].row.pvp.Some? && ws[w].row.pvp.Some?
  {
    forall j :: 0 <= j < |ws| && Gated(ws[j].row, v) ==>
      Yield(ws[w].row) <= Yield(ws[j].row) <= Yield(ws[b].row)
      && ws[b].row.pvp.value <= ws[j].row.pvp.value <= ws[w].row.pvp.value
  }

  /** The bracketing rows hold the extremes of both columns. */
  lemma BracketsAreExtremes(ws: seq<Write>, v: Variant, b: nat, w: nat)
    requires b < |ws| && w < |ws| && Gated(ws[b].row, v) && Gated(ws[w].row, v)
    requires Brackets(ws, v, b, w)
    ensures |Passing(Entries(ws, v))| > 0
    ensures Highest(Column(Passing(Entries(ws, v)), 0)) == Yield(ws[b].row)
    ensures Lowest(Column(Passing(Entries(ws, v)), 0)) == Yield(ws[w].row)
    ensures Highest(Column(Passing(Entries(ws, v)), 1)) == ws[w].row.pvp.value
    ensures Lowest(Column(Passing(Entries(ws, v)), 1)) == ws[b].row.pvp.value
  {
    var es := Entries(ws, v);
    assert forall j :: 0 <= j < |es| && es[j].passes ==>
      es[w].values[0] <= es[j].values[0] <= es[b].values[0]
      && es[b].values[1] <= es[j].values[1] <= es[w].values[1];
    HighestIs(es, 0, b);
    LowestIs(es, 0, w);
    LowestIs(es, 1, b);
    HighestIs(es, 1, w);
  }

  /** Spread on the two columns, stated column by column. */
  lemma TwoColumnSpread(ps: seq<Entry>, v: Variant)
    requires |ps| > 0 && forall x :: x in ps ==> |x.values| == 2
    requires Highest(Column(ps, 0)) - Lowest(Column(ps, 0)) > 0.0
    requires Highest(Column(ps, 1)) - Lowest(Column(ps, 1)) > 0.0
    requires v.tie.EpsilonFloor? ==> Highest(Column(ps, 0)) - Lowest(Column(ps, 0)) >= v.tie.eps
                                     && Highest(Column(ps, 1)) - Lowest(Column(ps, 1)) >= v.tie.eps
    ensures AllSpread(ps, Cfg(v))
  {
    forall k | 0 <= k < |Cfg(v).metrics|
      ensures Highest(Column(ps, k)) - Lowest(Column(ps, k)) > 0.0
      ensures v.tie.EpsilonFloor? ==> Highest(Column(ps, k)) - Lowest(Column(ps, k)) >= v.tie.eps
    {
      if k == 0 {
      } else {
        assert k == 1;
      }
    }
  }

  /** Best and worst on the two columns, stated column by column. */
  lemma TwoColumnExtremes(ps: seq<Entry>, v: Variant, best: Entry, worst: Entry)
    requires |ps| > 0 && forall x :: x in ps ==> |x.values| == 2
    requires |best.values| == 2 && |worst.values| == 2
    requires best.values[0] == Highest(Column(ps, 0)) && best.values[1] == Lowest(Column(ps, 1))
    requires worst.values[0] == Lowest(Column(ps, 0)) && worst.values[1] == Highest(Column(ps, 1))
    ensures BestEverywhere(best, ps, Cfg(v)) && WorstEverywhere(worst, ps, Cfg(v))
  {
    forall k | 0 <= k < |Cfg(v).metrics|
      ensures best.values[k] == (if Cfg(v).metrics[k].dir.HigherIsBetter? then Highest(Column(ps, k)) else Lowest(Column(ps, k)))
      ensures worst.values[k] == (if Cfg(v).metrics[k].dir.HigherIsBetter? then Lowest(Column(ps, k)) else Highest(Column(ps, k)))
    {
      if k == 0 {
      } else {
        assert k == 1;
      }
    }
  }

  /**
   * With spread on both metrics (at least the floor under the epsilon rule),
   * the gated row with the highest yield and the lowest P/VP scores 100, and
   * the one with the lowest yield and the highest P/VP scores 0.
   */
  lemma TopAndBottom(ws: seq<Write>, v: Variant, b: nat, w: nat)
    requires ValidVariant(v) && b < |ws| && w < |ws|
    requires Gated(ws[b].row, v) && Gated(ws[w].row, v)
    requires Brackets(ws, v, b, w)
    requires Yield(ws[b].row) > Yield(ws[w].row) && ws[w].row.pvp.value > ws[b].row.pvp.value
    requires v.tie.EpsilonFloor? ==> Yield(ws[b].row) - Yield(ws[w].row) >= v.tie.eps
                                     && ws[w].row.pvp.value - ws[b].row.pvp.value >= v.tie.eps
    ensures Score(ws, v)[b] == 100 && Score(ws, v)[w] == 0
  {
    CfgValid(v);
    var es := Entries(ws, v);
    var ps := Passing(es);
    BracketsAreExtremes(ws, v, b, w);
    TwoColumnSpread(ps, v);
    TwoColumnExtremes(ps, v, es[b], es[w]);
    assert es[b] in es && es[w] in es;
    ExtremesScore(es, Cfg(v), es[b], es[w]);
  }

  /** Rows outside the gate have no say: changing them changes no score. */
  lemma UngatedRowsIrrelevant(ws: seq<Write>, vs: seq<Write>, v: Variant)
    requires ValidVariant(v) && |ws| == |vs|
    requires forall i :: 0 <= i < |ws| ==> Gated(ws[i].row, v) == Gated(vs[i].row, v)
    requires forall i :: 0 <= i < |ws| && Gated(ws[i].row, v) ==>
               Yield(ws[i].row) == Yield(vs[i].row) && ws[i].row.pvp == vs[i].row.pvp
    ensures Score(ws, v) == Score(vs, v)
  {
    CfgValid(v);
    UngatedIrrelevant(Entries(ws, v), Entries(vs, v), Cfg(v));
  }
}

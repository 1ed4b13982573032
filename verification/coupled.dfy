/**
 * The score shared, line for line, by versions 8, 10, 15, 20, 21, 24 and 25:
 * gate 0.1 < P/VP < 1.5 with a positive yield, and the coupled tie rule
 * (when either metric has no spread, both normalised values are 50).
 */
module CoupledScore {
  import opened Store
  import opened Scoring
  import PvpDy

  const Variant := PvpDy.Variant(0.1, true, CoupledNeutral, false)

  /** Whether a row passes this score's gate. */
  predicate Gate(row: Row)
  {
    row.pvp.Some? && 0.1 < row.pvp.value < 1.5 && Positive(row.dy)
  }

  /**
   * `calcular_score_pro`: one score per row, in 0..100; 0 for a row whose P/VP
   * is not strictly between 0.1 and 1.5 or whose yield is missing or not
   * positive.
   */
  function Score(ws: seq<Write>): (r: seq<int>)
    ensures |r| == |ws|
    ensures forall i :: 0 <= i < |ws| ==> 0 <= r[i] <= 100
    ensures forall i :: 0 <= i < |ws| && !Gate(ws[i].row) ==> r[i] == 0
  {
    PvpDy.Score(ws, Variant)
  }

  /**
   * When every gated fund has the same yield, or every gated fund the same
   * P/VP, each gated fund scores exactly 50, whatever the other metric says.
   */
  lemma OneFlatMetricGivesFifty(ws: seq<Write>, c: real, i: nat)
    requires i < |ws| && Gate(ws[i].row)
    requires PvpDy.SharedYield(ws, Variant, c) || PvpDy.SharedPvp(ws, Variant, c)
    ensures Score(ws)[i] == 50
  {
    PvpDy.CoupledTieFifty(ws, Variant, c, i);
  }

  /** Of two gated funds, the one with at least the yield and at most the P/VP never scores lower. */
  lemma BetterFundRanksHigher(ws: seq<Write>, i: nat, j: nat)
    requires i < |ws| && j < |ws| && Gate(ws[i].row) && Gate(ws[j].row)
    requires ws[i].row.dy.value >= ws[j].row.dy.value && ws[i].row.pvp.value <= ws[j].row.pvp.value
    ensures Score(ws)[i] >= Score(ws)[j]
  {
    PvpDy.BetterOnBothRanksHigher(ws, Variant, i, j);
  }

  /**
   * With spread on both metrics, the gated fund with the highest yield and
   * lowest P/VP scores 100 and the one with the lowest yield and highest P/VP
   * scores 0.
   */
  lemma BestAndWorst(ws: seq<Write>, b: nat, w: nat)
    requires b < |ws| && w < |ws| && Gate(ws[b].row) && Gate(ws[w].row)
    requires PvpDy.Brackets(ws, Variant, b, w)
    requires ws[b].row.dy.value > ws[w].row.dy.value && ws[w].row.pvp.value > ws[b].row.pvp.value
    ensures Score(ws)[b] == 100 && Score(ws)[w] == 0
  {
    PvpDy.TopAndBottom(ws, Variant, b, w);
  }
}

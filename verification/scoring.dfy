/**
 * The ranking score shared by every version of the radar. Rows that pass a
 * quality gate are scored; every metric is rescaled to 0..100 over the gated
 * rows (min-max, higher or lower being better), the rescaled metrics are
 * combined with weights that add up to one, optionally clipped to 0..100 and
 * truncated to an integer (`astype(int)`). Rows outside the gate score 0, and
 * so does every row when no row passes the gate.
 *
 * The versions differ in how a metric without spread (all gated rows equal)
 * is treated; see `TieRule`.
 */
module Scoring {
  import opened Wrappers

  datatype Direction = HigherIsBetter | LowerIsBetter

  datatype TieRule =
      /** a metric without spread rescales to the neutral 50 */
    | PerMetricNeutral
      /** if any metric lacks spread, every metric rescales to the neutral 50 */
    | CoupledNeutral
      /** the spread used as divisor is at least `eps` */
    | EpsilonFloor(eps: real)
      /** no guard: 0/0 is NaN and the row's score becomes 0 after `fillna(0)` */
    | Unguarded

  datatype Metric = Metric(dir: Direction, weight: real)

  datatype Config = Config(metrics: seq<Metric>, tie: TieRule, clip: bool)

  /** One row as the score sees it: whether it passes the gate, and its metric values. */
  datatype Entry = Entry(passes: bool, values: seq<real>)

  const Neutral: real := 50.0

  function TotalWeight(ms: seq<Metric>): real
  {
    if |ms| == 0 then 0.0 else TotalWeight(ms[..|ms| - 1]) + ms[|ms| - 1].weight
  }

  /** Weights are non-negative and add up to one; an epsilon floor is positive. */
  predicate ValidConfig(cfg: Config)
  {
    && (forall k :: 0 <= k < |cfg.metrics| ==> cfg.metrics[k].weight >= 0.0)
    && TotalWeight(cfg.metrics) == 1.0
    && (cfg.tie.EpsilonFloor? ==> cfg.tie.eps > 0.0)
  }

  /** Every row carries one value per metric. */
  predicate Shaped(es: seq<Entry>, cfg: Config)
  {
    forall i :: 0 <= i < |es| ==> |es[i].values| == |cfg.metrics|
  }

  /** The gated rows, in order. */
  function Passing(es: seq<Entry>): (ps: seq<Entry>)
    ensures |ps| <= |es|
    ensures forall e :: e in ps <==> e in es && e.passes
  {
    if |es| == 0 then []
    else
      var rest := Passing(es[..|es| - 1]);
      assert es == es[..|es| - 1] + [es[|es| - 1]];
      if es[|es| - 1].passes then rest + [es[|es| - 1]] else rest
  }

  /** Metric `k` over the rows `ps`. */
  function Column(ps: seq<Entry>, k: nat): (col: seq<real>)
    requires forall e :: e in ps ==> k < |e.values|
    ensures |col| == |ps|
    ensures forall i :: 0 <= i < |ps| ==> col[i] == ps[i].values[k]
  {
    seq(|ps|, i requires 0 <= i < |ps| => ps[i].values[k])
  }

  function Lowest(s: seq<real>): (m: real)
    requires |s| > 0
    ensures exists i :: 0 <= i < |s| && s[i] == m
    ensures forall i :: 0 <= i < |s| ==> m <= s[i]
  {
    if |s| == 1 then s[0]
    else
      var m' := Lowest(s[1..]);
      if s[0] < m' then s[0] else m'
  }

  function Highest(s: seq<real>): (m: real)
    requires |s| > 0
    ensures exists i :: 0 <= i < |s| && s[i] == m
    ensures forall i :: 0 <= i < |s| ==> s[i] <= m
  {
    if |s| == 1 then s[0]
    else
      var m' := Highest(s[1..]);
      if s[0] > m' then s[0] else m'
  }

  /** All gated rows share one value for this metric. */
  predicate Flat(col: seq<real>)
    requires |col| > 0
  {
    Highest(col) == Lowest(col)
  }

  /** `max(a, b)` as Python computes it on reals. */
  function MaxReal(a: real, b: real): real
  {
    if a >= b then a else b
  }

  /** `(v - lo) / d * 100` for a metric where more is better, `(hi - v) / d * 100` otherwise. */
  function Rescale(v: real, lo: real, hi: real, dir: Direction, d: real): real
    requires d > 0.0
  {
    match dir
    case HigherIsBetter => (v - lo) / d * 100.0
    case LowerIsBetter => (hi - v) / d * 100.0
  }

  lemma DivUnit(a: real, d: real)
    requires d > 0.0 && 0.0 <= a <= d
    ensures 0.0 <= a / d <= 1.0
  {
    assert a / d * d == a;
  }

  /** A value inside the column's range, over a divisor at least the range, lands in 0..100. */
  lemma RescaleBounds(v: real, lo: real, hi: real, dir: Direction, d: real)
    requires d > 0.0 && lo <= v <= hi && hi - lo <= d
    ensures 0.0 <= Rescale(v, lo, hi, dir, d) <= 100.0
  {
    if dir.HigherIsBetter? {
      DivUnit(v - lo, d);
    } else {
      DivUnit(hi - v, d);
    }
  }

  /** A better value never rescales lower. */
  lemma RescaleMonotone(v: real, w: real, lo: real, hi: real, dir: Direction, d: real)
    requires d > 0.0
    requires dir.HigherIsBetter? ==> v >= w
    requires dir.LowerIsBetter? ==> v <= w
    ensures Rescale(v, lo, hi, dir, d) >= Rescale(w, lo, hi, dir, d)
  {
    if dir.HigherIsBetter? {
      DivMonotone(w - lo, v - lo, d);
    } else {
      DivMonotone(hi - w, hi - v, d);
    }
  }

  lemma DivMonotone(a: real, b: real, d: real)
    requires d > 0.0 && a <= b
    ensures a / d <= b / d
  {
    assert b / d - a / d == (b - a) / d;
  }

  /**
   * Rescaled value of metric `m` for value `v` whose column over the gated rows
   * is `col`; None stands for NaN. `anyFlat` says whether some metric lacks
   * spread (used by the coupled rule).
   */
  function MetricScore(v: real, col: seq<real>, dir: Direction, tie: TieRule, anyFlat: bool): Option<real>
    requires |col| > 0
    requires tie.EpsilonFloor? ==> tie.eps > 0.0
  {
    var lo := Lowest(col);
    var hi := Highest(col);
    match tie
    case PerMetricNeutral => if hi - lo == 0.0 then Some(Neutral) else Some(Rescale(v, lo, hi, dir, hi - lo))
    case CoupledNeutral => if anyFlat || hi - lo == 0.0 then Some(Neutral) else Some(Rescale(v, lo, hi, dir, hi - lo))
    case EpsilonFloor(eps) => Some(Rescale(v, lo, hi, dir, MaxReal(hi - lo, eps)))
    case Unguarded => if hi - lo == 0.0 then None else Some(Rescale(v, lo, hi, dir, hi - lo))
  }

  /** Whether some metric has no spread over the gated rows. */
  predicate AnyFlat(ps: seq<Entry>, cfg: Config)
    requires |ps| > 0 && forall e :: e in ps ==> |e.values| == |cfg.metrics|
  {
    exists k :: 0 <= k < |cfg.metrics| && Flat(Column(ps, k))
  }

  /** The rescaled metrics of one gated row; `flat` is `AnyFlat` of the gated rows. */
  function Parts(e: Entry, ps: seq<Entry>, cfg: Config, flat: bool): (parts: seq<Option<real>>)
    requires ValidConfig(cfg)
    requires |ps| > 0 && forall x :: x in ps ==> |x.values| == |cfg.metrics|
    requires |e.values| == |cfg.metrics|
    ensures |parts| == |cfg.metrics|
  {
    seq(|cfg.metrics|, k requires 0 <= k < |cfg.metrics| =>
      MetricScore(e.values[k], Column(ps, k), cfg.metrics[k].dir, cfg.tie, flat))
  }

  /** `w0 * x0 + w1 * x1 + ...` */
  function Dot(ms: seq<Metric>, xs: seq<real>): real
    requires |xs| == |ms|
  {
    if |ms| == 0 then 0.0
    else Dot(ms[..|ms| - 1], xs[..|xs| - 1]) + ms[|ms| - 1].weight * xs[|xs| - 1]
  }

  /** The weighted sum of the parts; NaN (None) as soon as one part is NaN. */
  function Weighted(parts: seq<Option<real>>, ms: seq<Metric>): Option<real>
    requires |parts| == |ms|
  {
    if forall k :: 0 <= k < |parts| ==> parts[k].Some? then
      Some(Dot(ms, seq(|parts|, k requires 0 <= k < |parts| => parts[k].value)))
    else None
  }

  /** `.clip(0, 100)` */
  function Clip(x: real): (r: real)
    ensures 0.0 <= r <= 100.0
    ensures 0.0 <= x <= 100.0 ==> r == x
  {
    if x < 0.0 then 0.0 else if x > 100.0 then 100.0 else x
  }

  /** `.astype(int)`: truncation toward zero. */
  function Trunc(x: real): (r: int)
    ensures x >= 0.0 ==> r as real <= x < r as real + 1.0
    ensures x <= 0.0 ==> r as real - 1.0 < x <= r as real
  {
    if x >= 0.0 then x.Floor else -((-x).Floor)
  }

  /** The score of one row, given the gated rows. */
  function EntryScore(e: Entry, ps: seq<Entry>, cfg: Config): int
    requires ValidConfig(cfg)
    requires |ps| > 0 && forall x :: x in ps ==> |x.values| == |cfg.metrics|
    requires |e.values| == |cfg.metrics|
  {
    if !e.passes then 0
    else
      match Weighted(Parts(e, ps, cfg, AnyFlat(ps, cfg)), cfg.metrics)
      case None => 0
      case Some(s) => Trunc(if cfg.clip then Clip(s) else s)
  }

  /** The score of row `e` of `es`: 0 when no row passes the gate. */
  function ScoreOf(e: Entry, es: seq<Entry>, cfg: Config): int
    requires ValidConfig(cfg) && Shaped(es, cfg) && e in es
  {
    var ps := Passing(es);
    if |ps| == 0 then 0 else EntryScore(e, ps, cfg)
  }

  /** The score column: one integer per row, in the rows' order. */
  function ScoreAll(es: seq<Entry>, cfg: Config): (r: seq<int>)
    requires ValidConfig(cfg) && Shaped(es, cfg)
    ensures |r| == |es|
    ensures forall i :: 0 <= i < |es| ==> r[i] == ScoreOf(es[i], es, cfg)
    ensures forall i :: 0 <= i < |es| && !es[i].passes ==> r[i] == 0
    ensures |Passing(es)| == 0 ==> forall i :: 0 <= i < |r| ==> r[i] == 0
    ensures forall i :: 0 <= i < |r| ==> 0 <= r[i] <= 100
  {
    var r := seq(|es|, i requires 0 <= i < |es| => ScoreOf(es[i], es, cfg));
    forall i | 0 <= i < |es|
      ensures 0 <= r[i] <= 100
    {
      var ps := Passing(es);
      if |ps| > 0 {
        EntryScoreBounds(es[i], ps, es, cfg);
      }
    }
    r
  }

  /** A value taken from the column rescales into 0..100 (when it is not NaN). */
  lemma MetricScoreBounds(v: real, col: seq<real>, dir: Direction, tie: TieRule, anyFlat: bool)
    requires |col| > 0
    requires tie.EpsilonFloor? ==> tie.eps > 0.0
    requires exists i :: 0 <= i < |col| && col[i] == v
    ensures MetricScore(v, col, dir, tie, anyFlat).Some? ==>
              0.0 <= MetricScore(v, col, dir, tie, anyFlat).value <= 100.0
  {
    var lo, hi := Lowest(col), Highest(col);
    assert lo <= v <= hi;
    match tie
    case EpsilonFloor(eps) => RescaleBounds(v, lo, hi, dir, MaxReal(hi - lo, eps));
    case _ =>
      if hi - lo != 0.0 {
        RescaleBounds(v, lo, hi, dir, hi - lo);
      }
  }

  /** Every rescaled metric of a gated row lies in 0..100 (or is NaN). */
  lemma PartsBounds(e: Entry, ps: seq<Entry>, cfg: Config, flat: bool)
    requires ValidConfig(cfg)
    requires |ps| > 0 && forall x :: x in ps ==> |x.values| == |cfg.metrics|
    requires e in ps
    ensures forall k :: 0 <= k < |cfg.metrics| && Parts(e, ps, cfg, flat)[k].Some? ==>
              0.0 <= Parts(e, ps, cfg, flat)[k].value <= 100.0
  {
    var i :| 0 <= i < |ps| && ps[i] == e;
    forall k | 0 <= k < |cfg.metrics|
      ensures Parts(e, ps, cfg, flat)[k].Some? ==> 0.0 <= Parts(e, ps, cfg, flat)[k].value <= 100.0
    {
      var col := Column(ps, k);
      assert col[i] == e.values[k];
      MetricScoreBounds(e.values[k], col, cfg.metrics[k].dir, cfg.tie, flat);
    }
  }

  lemma MulBounds(w: real, x: real)
    requires w >= 0.0 && 0.0 <= x <= 100.0
    ensures 0.0 <= w * x <= 100.0 * w
  {
  }

  /** A weighted sum of values in 0..100 with non-negative weights stays within 0..100 times the total weight. */
  lemma {:induction false} DotBounds(ms: seq<Metric>, xs: seq<real>)
    requires |xs| == |ms|
    requires forall k :: 0 <= k < |ms| ==> ms[k].weight >= 0.0
    requires forall k :: 0 <= k < |xs| ==> 0.0 <= xs[k] <= 100.0
    ensures 0.0 <= Dot(ms, xs) <= 100.0 * TotalWeight(ms)
  {
    if |ms| > 0 {
      var ms', xs' := ms[..|ms| - 1], xs[..|xs| - 1];
      DotBounds(ms', xs');
      var w, x := ms[|ms| - 1].weight, xs[|xs| - 1];
      MulBounds(w, x);
      var p := Dot(ms', xs');
      assert Dot(ms, xs) == p + w * x;
      assert TotalWeight(ms) == TotalWeight(ms') + w;
    }
  }

  /** A weighted sum of equal values is that value times the total weight. */
  lemma {:induction false} DotConstant(ms: seq<Metric>, xs: seq<real>, c: real)
    requires |xs| == |ms|
    requires forall k :: 0 <= k < |xs| ==> xs[k] == c
    ensures Dot(ms, xs) == c * TotalWeight(ms)
  {
    if |ms| > 0 {
      DotConstant(ms[..|ms| - 1], xs[..|xs| - 1], c);
    }
  }

  /** With non-negative weights, raising the values never lowers the weighted sum. */
  lemma {:induction false} DotMonotone(ms: seq<Metric>, xs: seq<real>, ys: seq<real>)
    requires |xs| == |ms| && |ys| == |ms|
    requires forall k :: 0 <= k < |ms| ==> ms[k].weight >= 0.0
    requires forall k :: 0 <= k < |ms| ==> xs[k] >= ys[k]
    ensures Dot(ms, xs) >= Dot(ms, ys)
  {
    if |ms| > 0 {
      DotMonotone(ms[..|ms| - 1], xs[..|xs| - 1], ys[..|ys| - 1]);
      var w := ms[|ms| - 1].weight;
      assert w * xs[|xs| - 1] >= w * ys[|ys| - 1];
    }
  }

  /** Weighted parts within 0..100 combine, with weights adding up to one, into 0..100. */
  lemma WeightedBounds(parts: seq<Option<real>>, cfg: Config)
    requires ValidConfig(cfg) && |parts| == |cfg.metrics|
    requires forall k :: 0 <= k < |parts| && parts[k].Some? ==> 0.0 <= parts[k].value <= 100.0
    ensures Weighted(parts, cfg.metrics).Some? ==> 0.0 <= Weighted(parts, cfg.metrics).value <= 100.0
  {
    if Weighted(parts, cfg.metrics).Some? {
      var xs := seq(|parts|, k requires 0 <= k < |parts| => parts[k].value);
      DotBounds(cfg.metrics, xs);
    }
  }

  lemma EntryScoreBounds(e: Entry, ps: seq<Entry>, es: seq<Entry>, cfg: Config)
    requires ValidConfig(cfg)
    requires ps == Passing(es) && |ps| > 0 && forall x :: x in ps ==> |x.values| == |cfg.metrics|
    requires e in es && |e.values| == |cfg.metrics|
    ensures 0 <= EntryScore(e, ps, cfg) <= 100
  {
    if e.passes {
      var flat := AnyFlat(ps, cfg);
      var parts := Parts(e, ps, cfg, flat);
      PartsBounds(e, ps, cfg, flat);
      WeightedBounds(parts, cfg);
    }
  }


  /** Rescaling does not depend on which value is rescaled for being defined, and keeps order. */
  lemma MetricScoreMonotone(v: real, w: real, col: seq<real>, dir: Direction, tie: TieRule, anyFlat: bool)
    requires |col| > 0
    requires tie.EpsilonFloor? ==> tie.eps > 0.0
    requires dir.HigherIsBetter? ==> v >= w
    requires dir.LowerIsBetter? ==> v <= w
    ensures MetricScore(v, col, dir, tie, anyFlat).Some? == MetricScore(w, col, dir, tie, anyFlat).Some?
    ensures MetricScore(v, col, dir, tie, anyFlat).Some? ==>
              MetricScore(v, col, dir, tie, anyFlat).value >= MetricScore(w, col, dir, tie, anyFlat).value
  {
    var lo, hi := Lowest(col), Highest(col);
    match tie
    case EpsilonFloor(eps) => RescaleMonotone(v, w, lo, hi, dir, MaxReal(hi - lo, eps));
    case _ =>
      if hi - lo != 0.0 {
        RescaleMonotone(v, w, lo, hi, dir, hi - lo);
      }
  }

  /** `a` is at least as good as `b` on every metric, in that metric's direction. */
  predicate AtLeastAsGood(a: Entry, b: Entry, cfg: Config)
    requires |a.values| == |cfg.metrics| && |b.values| == |cfg.metrics|
  {
    forall k :: 0 <= k < |cfg.metrics| ==>
      (cfg.metrics[k].dir.HigherIsBetter? ==> a.values[k] >= b.values[k]) &&
      (cfg.metrics[k].dir.LowerIsBetter? ==> a.values[k] <= b.values[k])
  }

  lemma ClipMonotone(x: real, y: real)
    requires x >= y
    ensures Clip(x) >= Clip(y)
  {
  }

  lemma TruncMonotone(x: real, y: real)
    requires x >= y
    ensures Trunc(x) >= Trunc(y)
  {
    if y >= 0.0 {
      assert x.Floor >= y.Floor;
    } else if x < 0.0 {
      assert (-y).Floor >= (-x).Floor;
    }
  }

  /** Raising every defined part raises the weighted sum; definedness is shared. */
  lemma WeightedMonotone(pa: seq<Option<real>>, pb: seq<Option<real>>, cfg: Config)
    requires ValidConfig(cfg) && |pa| == |cfg.metrics| && |pb| == |cfg.metrics|
    requires forall k :: 0 <= k < |pa| ==> pa[k].Some? == pb[k].Some?
    requires forall k :: 0 <= k < |pa| && pa[k].Some? ==> pa[k].value >= pb[k].value
    ensures Weighted(pa, cfg.metrics).Some? == Weighted(pb, cfg.metrics).Some?
    ensures Weighted(pa, cfg.metrics).Some? ==> Weighted(pa, cfg.metrics).value >= Weighted(pb, cfg.metrics).value
  {
    if Weighted(pa, cfg.metrics).Some? {
      var xs := seq(|pa|, k requires 0 <= k < |pa| => pa[k].value);
      var ys := seq(|pb|, k requires 0 <= k < |pb| => pb[k].value);
      DotMonotone(cfg.metrics, xs, ys);
    }
  }

  /** Clipping (when enabled) and truncating keep order. */
  lemma FinishMonotone(sa: real, sb: real, clip: bool)
    requires sa >= sb
    ensures Trunc(if clip then Clip(sa) else sa) >= Trunc(if clip then Clip(sb) else sb)
  {
    if clip {
      ClipMonotone(sa, sb);
      TruncMonotone(Clip(sa), Clip(sb));
    } else {
      TruncMonotone(sa, sb);
    }
  }

  /**
   * Ordering: among gated rows, one that is at least as good as another on
   * every metric never scores lower.
   */
  lemma {:induction false} Dominance(a: Entry, b: Entry, es: seq<Entry>, cfg: Config)
    requires ValidConfig(cfg) && Shaped(es, cfg)
    requires a in es && b in es && a.passes && b.passes
    requires AtLeastAsGood(a, b, cfg)
    ensures ScoreOf(a, es, cfg) >= ScoreOf(b, es, cfg)
  {
    var ps := Passing(es);
    var flat := AnyFlat(ps, cfg);
    var pa, pb := Parts(a, ps, cfg, flat), Parts(b, ps, cfg, flat);
    forall k | 0 <= k < |cfg.metrics|
      ensures pa[k].Some? == pb[k].Some?
      ensures pa[k].Some? ==> pa[k].value >= pb[k].value
    {
      MetricScoreMonotone(a.values[k], b.values[k], Column(ps, k), cfg.metrics[k].dir, cfg.tie, flat);
    }
    WeightedMonotone(pa, pb, cfg);
    if Weighted(pa, cfg.metrics).Some? {
      FinishMonotone(Weighted(pa, cfg.metrics).value, Weighted(pb, cfg.metrics).value, cfg.clip);
    }
  }

  /** Parts that all equal `c` combine into `c`. */
  lemma WeightedConstant(parts: seq<Option<real>>, cfg: Config, c: real)
    requires ValidConfig(cfg) && |parts| == |cfg.metrics|
    requires forall k :: 0 <= k < |parts| ==> parts[k] == Some(c)
    ensures Weighted(parts, cfg.metrics) == Some(c)
  {
    var xs := seq(|parts|, k requires 0 <= k < |parts| => parts[k].value);
    DotConstant(cfg.metrics, xs, c);
  }

  /** Every rescaled metric is 50: the row scores 50. */
  lemma AllNeutralScoresFifty(parts: seq<Option<real>>, cfg: Config)
    requires ValidConfig(cfg) && |parts| == |cfg.metrics|
    requires forall k :: 0 <= k < |parts| ==> parts[k] == Some(Neutral)
    ensures Weighted(parts, cfg.metrics) == Some(Neutral)
    ensures Trunc(if cfg.clip then Clip(Neutral) else Neutral) == 50
  {
    WeightedConstant(parts, cfg, Neutral);
  }

  /**
   * Coupled rule: as soon as one metric has no spread among the gated rows,
   * every gated row scores exactly 50.
   */
  lemma CoupledTieNeutral(es: seq<Entry>, cfg: Config, e: Entry)
    requires ValidConfig(cfg) && Shaped(es, cfg) && cfg.tie.CoupledNeutral?
    requires e in es && e.passes
    requires exists k :: 0 <= k < |cfg.metrics| && Flat(Column(Passing(es), k))
    ensures ScoreOf(e, es, cfg) == 50
  {
    var ps := Passing(es);
    assert e in ps;
    assert AnyFlat(ps, cfg);
    CoupledPartsNeutral(e, ps, cfg);
    AllNeutralScoresFifty(Parts(e, ps, cfg, true), cfg);
  }

  /** Under the coupled rule with a metric lacking spread, every metric rescales to 50. */
  lemma CoupledPartsNeutral(e: Entry, ps: seq<Entry>, cfg: Config)
    requires ValidConfig(cfg) && cfg.tie.CoupledNeutral?
    requires |ps| > 0 && forall x :: x in ps ==> |x.values| == |cfg.metrics|
    requires |e.values| == |cfg.metrics|
    ensures forall k :: 0 <= k < |cfg.metrics| ==> Parts(e, ps, cfg, true)[k] == Some(Neutral)
  {
  }

  /** Per-metric rule: a metric without spread rescales to 50 for every gated row. */
  lemma PerMetricTieNeutral(es: seq<Entry>, cfg: Config, e: Entry, k: nat)
    requires ValidConfig(cfg) && Shaped(es, cfg) && cfg.tie.PerMetricNeutral?
    requires e in es && e.passes && k < |cfg.metrics|
    requires Flat(Column(Passing(es), k))
    ensures forall flat :: Parts(e, Passing(es), cfg, flat)[k] == Some(Neutral)
  {
  }

  /** Per-metric rule: when every metric lacks spread, every gated row scores 50. */
  lemma PerMetricAllFlat(es: seq<Entry>, cfg: Config, e: Entry)
    requires ValidConfig(cfg) && Shaped(es, cfg) && cfg.tie.PerMetricNeutral?
    requires e in es && e.passes
    requires forall k :: 0 <= k < |cfg.metrics| ==> Flat(Column(Passing(es), k))
    ensures ScoreOf(e, es, cfg) == 50
  {
    var ps := Passing(es);
    var parts := Parts(e, ps, cfg, AnyFlat(ps, cfg));
    forall k | 0 <= k < |cfg.metrics|
      ensures parts[k] == Some(Neutral)
    {
      PerMetricTieNeutral(es, cfg, e, k);
    }
    AllNeutralScoresFifty(parts, cfg);
  }

  /** Epsilon floor: a metric without spread contributes 0 for every gated row. */
  lemma EpsilonTieZero(es: seq<Entry>, cfg: Config, e: Entry, k: nat)
    requires ValidConfig(cfg) && Shaped(es, cfg) && cfg.tie.EpsilonFloor?
    requires e in es && e.passes && k < |cfg.metrics|
    requires Flat(Column(Passing(es), k))
    ensures forall flat :: Parts(e, Passing(es), cfg, flat)[k] == Some(0.0)
  {
    var ps := Passing(es);
    var col := Column(ps, k);
    var i :| 0 <= i < |ps| && ps[i] == e;
    assert col[i] == e.values[k];
    forall flat
      ensures Parts(e, ps, cfg, flat)[k] == Some(0.0)
    {
      EpsilonFlatMetric(e.values[k], col, cfg.metrics[k].dir, cfg.tie, flat);
    }
  }

  /** Under the epsilon floor, a value of a column without spread rescales to 0. */
  lemma EpsilonFlatMetric(v: real, col: seq<real>, dir: Direction, tie: TieRule, flat: bool)
    requires |col| > 0 && tie.EpsilonFloor? && tie.eps > 0.0
    requires Flat(col) && v in col
    ensures MetricScore(v, col, dir, tie, flat) == Some(0.0)
  {
    var lo := Lowest(col);
    assert v == lo;
    assert Rescale(v, lo, lo, dir, MaxReal(0.0, tie.eps)) == 0.0;
  }

  /** Epsilon floor: when no metric has spread, every gated row scores 0. */
  lemma EpsilonAllFlatZero(es: seq<Entry>, cfg: Config, e: Entry)
    requires ValidConfig(cfg) && Shaped(es, cfg) && cfg.tie.EpsilonFloor?
    requires e in es && e.passes
    requires forall k :: 0 <= k < |cfg.metrics| ==> Flat(Column(Passing(es), k))
    ensures ScoreOf(e, es, cfg) == 0
  {
    var ps := Passing(es);
    var parts := Parts(e, ps, cfg, AnyFlat(ps, cfg));
    forall k | 0 <= k < |cfg.metrics|
      ensures parts[k] == Some(0.0)
    {
      EpsilonTieZero(es, cfg, e, k);
    }
    WeightedConstant(parts, cfg, 0.0);
  }

  /** Unguarded rule: one metric without spread makes every gated row's score NaN, hence 0. */
  lemma UnguardedTieZero(es: seq<Entry>, cfg: Config, e: Entry, k: nat)
    requires ValidConfig(cfg) && Shaped(es, cfg) && cfg.tie.Unguarded?
    requires e in es && e.passes && k < |cfg.metrics|
    requires Flat(Column(Passing(es), k))
    ensures ScoreOf(e, es, cfg) == 0
  {
    var ps := Passing(es);
    assert e in ps;
    UnguardedWeightedNaN(e, ps, cfg, k);
  }

  lemma UnguardedWeightedNaN(e: Entry, ps: seq<Entry>, cfg: Config, k: nat)
    requires ValidConfig(cfg) && cfg.tie.Unguarded?
    requires |ps| > 0 && forall x :: x in ps ==> |x.values| == |cfg.metrics|
    requires |e.values| == |cfg.metrics| && k < |cfg.metrics|
    requires Flat(Column(ps, k))
    ensures Weighted(Parts(e, ps, cfg, AnyFlat(ps, cfg)), cfg.metrics).None?
  {
    var parts := Parts(e, ps, cfg, AnyFlat(ps, cfg));
    var col := Column(ps, k);
    assert parts[k] == MetricScore(e.values[k], col, cfg.metrics[k].dir, Unguarded, AnyFlat(ps, cfg));
    UnguardedFlatIsNaN(e.values[k], col, cfg.metrics[k].dir, AnyFlat(ps, cfg));
  }

  /** Without a guard, rescaling over a zero spread divides by zero: NaN. */
  lemma UnguardedFlatIsNaN(v: real, col: seq<real>, dir: Direction, anyFlat: bool)
    requires |col| > 0 && Flat(col)
    ensures MetricScore(v, col, dir, Unguarded, anyFlat).None?
  {
  }

  /** `e` holds the best value of every metric among the gated rows. */
  predicate BestEverywhere(e: Entry, ps: seq<Entry>, cfg: Config)
    requires |ps| > 0 && forall x :: x in ps ==> |x.values| == |cfg.metrics|
    requires |e.values| == |cfg.metrics|
  {
    forall k :: 0 <= k < |cfg.metrics| ==>
      e.values[k] == (if cfg.metrics[k].dir.HigherIsBetter? then Highest(Column(ps, k)) else Lowest(Column(ps, k)))
  }

  /** `e` holds the worst value of every metric among the gated rows. */
  predicate WorstEverywhere(e: Entry, ps: seq<Entry>, cfg: Config)
    requires |ps| > 0 && forall x :: x in ps ==> |x.values| == |cfg.metrics|
    requires |e.values| == |cfg.metrics|
  {
    forall k :: 0 <= k < |cfg.metrics| ==>
      e.values[k] == (if cfg.metrics[k].dir.HigherIsBetter? then Lowest(Column(ps, k)) else Highest(Column(ps, k)))
  }

  /** Every metric has spread among the gated rows (and at least the floor, under the epsilon rule). */
  predicate AllSpread(ps: seq<Entry>, cfg: Config)
    requires |ps| > 0 && forall x :: x in ps ==> |x.values| == |cfg.metrics|
  {
    forall k :: 0 <= k < |cfg.metrics| ==>
      var spread := Highest(Column(ps, k)) - Lowest(Column(ps, k));
      spread > 0.0 && (cfg.tie.EpsilonFloor? ==> spread >= cfg.tie.eps)
  }

  lemma RescaleEnds(lo: real, hi: real, dir: Direction)
    requires hi - lo > 0.0
    ensures Rescale(if dir.HigherIsBetter? then hi else lo, lo, hi, dir, hi - lo) == 100.0
    ensures Rescale(if dir.HigherIsBetter? then lo else hi, lo, hi, dir, hi - lo) == 0.0
  {
    assert (hi - lo) / (hi - lo) == 1.0;
  }

  /** With spread, the best value of a metric rescales to 100 and the worst to 0. */
  lemma ExtremeMetric(col: seq<real>, dir: Direction, tie: TieRule)
    requires |col| > 0 && (tie.EpsilonFloor? ==> tie.eps > 0.0)
    requires Highest(col) - Lowest(col) > 0.0
    requires tie.EpsilonFloor? ==> Highest(col) - Lowest(col) >= tie.eps
    ensures MetricScore(if dir.HigherIsBetter? then Highest(col) else Lowest(col), col, dir, tie, false) == Some(100.0)
    ensures MetricScore(if dir.HigherIsBetter? then Lowest(col) else Highest(col), col, dir, tie, false) == Some(0.0)
  {
    var lo, hi := Lowest(col), Highest(col);
    RescaleEnds(lo, hi, dir);
    var top := if dir.HigherIsBetter? then hi else lo;
    var bottom := if dir.HigherIsBetter? then lo else hi;
    var d := if tie.EpsilonFloor? then MaxReal(hi - lo, tie.eps) else hi - lo;
    assert d == hi - lo;
    assert MetricScore(top, col, dir, tie, false) == Some(Rescale(top, lo, hi, dir, d));
    assert MetricScore(bottom, col, dir, tie, false) == Some(Rescale(bottom, lo, hi, dir, d));
  }

  /** With spread everywhere, the row best on every metric scores 100 and the worst scores 0. */
  lemma {:induction false} ExtremesScore(es: seq<Entry>, cfg: Config, best: Entry, worst: Entry)
    requires ValidConfig(cfg) && Shaped(es, cfg)
    requires best in es && best.passes && worst in es && worst.passes
    requires AllSpread(Passing(es), cfg)
    requires BestEverywhere(best, Passing(es), cfg) && WorstEverywhere(worst, Passing(es), cfg)
    ensures ScoreOf(best, es, cfg) == 100
    ensures ScoreOf(worst, es, cfg) == 0
  {
    var ps := Passing(es);
    assert best in ps && worst in ps;
    NoneFlat(ps, cfg);
    ExtremeParts(best, worst, ps, cfg);
    WeightedConstant(Parts(best, ps, cfg, false), cfg, 100.0);
    WeightedConstant(Parts(worst, ps, cfg, false), cfg, 0.0);
    ScoreFromWeighted(best, es, cfg, 100.0);
    ScoreFromWeighted(worst, es, cfg, 0.0);
  }

  /** With spread on every metric, no metric is flat. */
  lemma NoneFlat(ps: seq<Entry>, cfg: Config)
    requires |ps| > 0 && forall x :: x in ps ==> |x.values| == |cfg.metrics|
    requires AllSpread(ps, cfg)
    ensures !AnyFlat(ps, cfg)
  {
  }

  /** A gated row whose weighted metrics come to the whole number `c` in 0..100 scores `c`. */
  lemma ScoreFromWeighted(e: Entry, es: seq<Entry>, cfg: Config, c: real)
    requires ValidConfig(cfg) && Shaped(es, cfg) && e in es && e.passes
    requires c == 0.0 || c == 100.0
    requires Weighted(Parts(e, Passing(es), cfg, AnyFlat(Passing(es), cfg)), cfg.metrics) == Some(c)
    ensures ScoreOf(e, es, cfg) == c.Floor
  {
    assert e in Passing(es);
    assert Clip(c) == c;
  }

  /** Metric by metric, the best row rescales to 100 and the worst to 0. */
  lemma ExtremeParts(best: Entry, worst: Entry, ps: seq<Entry>, cfg: Config)
    requires ValidConfig(cfg)
    requires |ps| > 0 && forall x :: x in ps ==> |x.values| == |cfg.metrics|
    requires |best.values| == |cfg.metrics| && |worst.values| == |cfg.metrics|
    requires AllSpread(ps, cfg) && BestEverywhere(best, ps, cfg) && WorstEverywhere(worst, ps, cfg)
    ensures forall k :: 0 <= k < |cfg.metrics| ==>
              Parts(best, ps, cfg, false)[k] == Some(100.0) && Parts(worst, ps, cfg, false)[k] == Some(0.0)
  {
    forall k | 0 <= k < |cfg.metrics|
      ensures Parts(best, ps, cfg, false)[k] == Some(100.0) && Parts(worst, ps, cfg, false)[k] == Some(0.0)
    {
      ExtremeMetric(Column(ps, k), cfg.metrics[k].dir, cfg.tie);
    }
  }

  /** Two row lists that agree on the gate and on every gated row. */
  predicate SameGated(es: seq<Entry>, fs: seq<Entry>)
  {
    |es| == |fs| && forall i :: 0 <= i < |es| ==>
      es[i].passes == fs[i].passes && (es[i].passes ==> es[i] == fs[i])
  }

  lemma {:induction false} PassingSameGated(es: seq<Entry>, fs: seq<Entry>)
    requires SameGated(es, fs)
    ensures Passing(es) == Passing(fs)
  {
    if |es| > 0 {
      PassingSameGated(es[..|es| - 1], fs[..|fs| - 1]);
    }
  }

  /** Values of rows outside the gate never influence any score. */
  lemma UngatedIrrelevant(es: seq<Entry>, fs: seq<Entry>, cfg: Config)
    requires ValidConfig(cfg) && Shaped(es, cfg) && Shaped(fs, cfg)
    requires SameGated(es, fs)
    ensures ScoreAll(es, cfg) == ScoreAll(fs, cfg)
  {
    PassingSameGated(es, fs);
  }

  /** A metric on which every gated row carries the same value has no spread. */
  lemma FlatWhenShared(es: seq<Entry>, k: nat, c: real)
    requires forall e :: e in es ==> k < |e.values|
    requires |Passing(es)| > 0
    requires forall i :: 0 <= i < |es| && es[i].passes ==> es[i].values[k] == c
    ensures Flat(Column(Passing(es), k))
  {
    var ps := Passing(es);
    var col := Column(ps, k);
    forall j | 0 <= j < |col|
      ensures col[j] == c
    {
      assert ps[j] in ps;
      var i :| 0 <= i < |es| && es[i] == ps[j];
    }
    var a :| 0 <= a < |col| && col[a] == Highest(col);
    var b :| 0 <= b < |col| && col[b] == Lowest(col);
  }

  /** The gated row `es[i]` holding the largest value of metric `k` is the column's highest. */
  lemma HighestIs(es: seq<Entry>, k: nat, i: nat)
    requires forall e :: e in es ==> k < |e.values|
    requires i < |es| && es[i].passes
    requires forall j :: 0 <= j < |es| && es[j].passes ==> es[j].values[k] <= es[i].values[k]
    ensures |Passing(es)| > 0
    ensures Highest(Column(Passing(es), k)) == es[i].values[k]
  {
    var ps := Passing(es);
    assert es[i] in ps;
    var col := Column(ps, k);
    var a :| 0 <= a < |col| && col[a] == Highest(col);
    assert ps[a] in ps;
    var p :| 0 <= p < |ps| && ps[p] == es[i];
    assert col[p] == es[i].values[k];
  }

  /** The gated row `es[i]` holding the smallest value of metric `k` is the column's lowest. */
  lemma LowestIs(es: seq<Entry>, k: nat, i: nat)
    requires forall e :: e in es ==> k < |e.values|
    requires i < |es| && es[i].passes
    requires forall j :: 0 <= j < |es| && es[j].passes ==> es[i].values[k] <= es[j].values[k]
    ensures |Passing(es)| > 0
    ensures Lowest(Column(Passing(es), k)) == es[i].values[k]
  {
    var ps := Passing(es);
    assert es[i] in ps;
    var col := Column(ps, k);
    var a :| 0 <= a < |col| && col[a] == Lowest(col);
    assert ps[a] in ps;
    var p :| 0 <= p < |ps| && ps[p] == es[i];
    assert col[p] == es[i].values[k];
  }
}

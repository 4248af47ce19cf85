/** Matchup-adjusted score, its standard error and lower bound (mars/mas_lb.py).
    Row A of the result weighs the posterior means p̂[A, B] by the meta weights p(B),
    renormalised over the opponents B actually observed against A (n_dir[A, B] > 0). */
module MasLb {
  import opened Wrappers
  import opened Numeric
  import opened Matrix

  /** The observed mask of row i: off the diagonal, with n_dir > 0 once NaN reads as 0. */
  function ObsRow(nd: Mat, n: nat, i: nat): (r: seq<bool>)
    requires IsSquare(nd, n) && i < n
    ensures |r| == n && forall j :: 0 <= j < n ==> (r[j] <==> j != i && PositiveCell(nd[i][j]))
  {
    seq(n, j requires 0 <= j < n => j != i && PositiveCell(nd[i][j]))
  }

  /** Base weights kept on the mask and set to 0 elsewhere (`where(OBS, other=0.0)`). */
  function MaskedRow(pw: seq<Option<real>>, obs: seq<bool>): (r: seq<Option<real>>)
    requires |pw| == |obs|
    ensures |r| == |obs|
    ensures forall j :: 0 <= j < |obs| ==> r[j] == (if obs[j] then pw[j] else Some(0.0))
  {
    seq(|obs|, j requires 0 <= j < |obs| => if obs[j] then pw[j] else Some(0.0))
  }

  /** Each masked weight divided by the row sum; an undefined weight stays undefined. */
  function NormalizedRow(masked: seq<Option<real>>, rs: real): (r: seq<Option<real>>)
    requires rs > 0.0
    ensures |r| == |masked|
    ensures forall j :: 0 <= j < |masked| ==>
      r[j] == (if masked[j].Some? then Some(masked[j].value / rs) else None)
  {
    seq(|masked|, j requires 0 <= j < |masked| =>
      if masked[j].Some? then Some(masked[j].value / rs) else None)
  }

  /** The uniform fallback: the mask as 0/1, divided by its count. */
  function UniformRow(obs: seq<bool>): (r: seq<Option<real>>)
    requires Count(obs) > 0
    ensures |r| == |obs|
    ensures forall j :: 0 <= j < |obs| ==>
      r[j] == Some(if obs[j] then 1.0 / Count(obs) as real else 0.0)
  {
    seq(|obs|, j requires 0 <= j < |obs| =>
      Some(if obs[j] then 1.0 / Count(obs) as real else 0.0))
  }

  /** The weight row of one deck: undefined without observed opponents, uniform over them
      when the masked sum is not positive, the renormalised meta weights otherwise. */
  function WeightRow(pw: seq<Option<real>>, obs: seq<bool>): (r: seq<Option<real>>)
    requires |pw| == |obs|
    ensures |r| == |obs|
  {
    if Count(obs) == 0 then NoneRow(|obs|)
    else
      var rs := SumSkipNa(MaskedRow(pw, obs));
      if rs <= 0.0 then UniformRow(obs) else NormalizedRow(MaskedRow(pw, obs), rs)
  }

  function SqOpt(x: Option<real>): Option<real>
  {
    if x.Some? then Some(x.value * x.value) else None
  }

  function SqRow(w: seq<Option<real>>): (r: seq<Option<real>>)
    ensures |r| == |w| && forall j :: 0 <= j < |w| ==> r[j] == SqOpt(w[j])
  {
    seq(|w|, j requires 0 <= j < |w| => SqOpt(w[j]))
  }

  /** Row score and variance, summing with NaN skipped. */
  function Mas(w: seq<Option<real>>, p: seq<Option<real>>): real
    requires |w| == |p|
  {
    SumSkipNa(MulRow(w, p))
  }

  function VarMas(w: seq<Option<real>>, v: seq<Option<real>>): real
    requires |w| == |v|
  {
    SumSkipNa(MulRow(SqRow(w), v))
  }

  /** The square root is an input: any function that is a square root on x >= 0. */
  ghost predicate IsSqrt(sqrt: real -> real)
  {
    forall x: real :: x >= 0.0 ==> sqrt(x) >= 0.0 && sqrt(x) * sqrt(x) == x
  }

  datatype Score = Score(masPct: real, sePct: real, lbPct: real)

  function RowScore(w: seq<Option<real>>, p: seq<Option<real>>, v: seq<Option<real>>,
                    z: real, sqrt: real -> real): (r: Score)
    requires |w| == |p| == |v|
    ensures r.masPct == 100.0 * Mas(w, p)
    ensures r.sePct == 100.0 * sqrt(Max(VarMas(w, v), 0.0))
    ensures r.lbPct == r.masPct - z * r.sePct
  {
    var m := Mas(w, p);
    var se := sqrt(Max(VarMas(w, v), 0.0));
    Score(100.0 * m, 100.0 * se, 100.0 * (m - z * se))
  }

  /** mas_se_lb over the whole axis; `pw` is the meta weight vector already aligned to the
      axis (None where a deck has no weight). */
  function MasSeLb(p: Mat, v: Mat, pw: seq<Option<real>>, nd: Mat, n: nat, z: real,
                   sqrt: real -> real): (r: seq<Score>)
    requires IsSquare(p, n) && IsSquare(v, n) && IsSquare(nd, n) && |pw| == n
    ensures |r| == n
    ensures forall i :: 0 <= i < n ==> r[i] == RowScore(WeightRow(pw, ObsRow(nd, n, i)), p[i], v[i], z, sqrt)
  {
    seq(n, i requires 0 <= i < n => RowScore(WeightRow(pw, ObsRow(nd, n, i)), p[i], v[i], z, sqrt))
  }

  // ---------------------------------------------------------------------------------
  // Properties of the weight row

  /** Off the observed mask a row with observations has weight exactly 0. */
  lemma {:induction false} WeightZeroOffMask(pw: seq<Option<real>>, obs: seq<bool>, j: nat)
    requires |pw| == |obs| && Count(obs) > 0 && j < |obs| && !obs[j]
    ensures WeightRow(pw, obs)[j] == Some(0.0)
  {
    var rs := SumSkipNa(MaskedRow(pw, obs));
    if rs > 0.0 {
      assert MaskedRow(pw, obs)[j] == Some(0.0);
    }
  }

  lemma {:induction false} NormalizedIsScaled(masked: seq<Option<real>>, rs: real)
    requires rs > 0.0
    ensures FillNa(NormalizedRow(masked, rs)) == Scale(FillNa(masked), 1.0 / rs)
  {
    forall j | 0 <= j < |masked|
      ensures FillNa(NormalizedRow(masked, rs))[j] == Scale(FillNa(masked), 1.0 / rs)[j]
    {
      if masked[j].Some? {
        DivIsMulInverse(masked[j].value, rs);
      }
    }
  }

  lemma {:induction false} DivIsMulInverse(x: real, d: real)
    requires d != 0.0
    ensures x / d == x * (1.0 / d)
  {
  }

  lemma {:induction false} InverseProduct(x: real)
    requires x != 0.0
    ensures x * (1.0 / x) == 1.0
  {
  }

  lemma {:induction false} UniformSumsToOne(obs: seq<bool>)
    requires Count(obs) > 0
    ensures SumSkipNa(UniformRow(obs)) == 1.0
  {
    var c := Count(obs) as real;
    assert FillNa(UniformRow(obs)) == Indicator(obs, 1.0 / c);
    SumIndicator(obs, 1.0 / c);
    InverseProduct(c);
  }

  lemma {:induction false} NormalizedSumsToOne(masked: seq<Option<real>>)
    requires SumSkipNa(masked) > 0.0
    ensures SumSkipNa(NormalizedRow(masked, SumSkipNa(masked))) == 1.0
  {
    var rs := SumSkipNa(masked);
    NormalizedIsScaled(masked, rs);
    SumScale(FillNa(masked), 1.0 / rs);
    InverseProduct(rs);
  }

  /** A row with observed opponents has weights summing to 1 (undefined ones skipped). */
  lemma {:induction false} WeightsSumToOne(pw: seq<Option<real>>, obs: seq<bool>)
    requires |pw| == |obs| && Count(obs) > 0
    ensures SumSkipNa(WeightRow(pw, obs)) == 1.0
  {
    if SumSkipNa(MaskedRow(pw, obs)) <= 0.0 {
      UniformSumsToOne(obs);
    } else {
      NormalizedSumsToOne(MaskedRow(pw, obs));
    }
  }

  /** An observed row whose masked meta weight is not positive is uniform on its mask. */
  lemma {:induction false} UniformFallback(pw: seq<Option<real>>, obs: seq<bool>, j: nat)
    requires |pw| == |obs| && Count(obs) > 0 && j < |obs| && obs[j]
    requires SumSkipNa(MaskedRow(pw, obs)) <= 0.0
    ensures WeightRow(pw, obs)[j] == Some(1.0 / Count(obs) as real)
  {
  }

  /** Otherwise an observed opponent gets its meta weight over the masked sum. */
  lemma {:induction false} RenormalizedWeight(pw: seq<Option<real>>, obs: seq<bool>, j: nat)
    requires |pw| == |obs| && j < |obs| && obs[j] && pw[j].Some?
    requires SumSkipNa(MaskedRow(pw, obs)) > 0.0
    ensures WeightRow(pw, obs)[j] == Some(pw[j].value / SumSkipNa(MaskedRow(pw, obs)))
  {
    assert Count(obs) > 0 by {
      CountZero(obs);
    }
  }

  predicate NonNegWhereDefined(s: seq<Option<real>>)
  {
    forall j :: 0 <= j < |s| && s[j].Some? ==> s[j].value >= 0.0
  }

  /** Non-negative meta weights give non-negative row weights. */
  lemma {:induction false} WeightsNonNeg(pw: seq<Option<real>>, obs: seq<bool>)
    requires |pw| == |obs| && NonNegWhereDefined(pw)
    ensures forall j :: 0 <= j < |obs| ==> Fill0(WeightRow(pw, obs)[j]) >= 0.0
  {
    if Count(obs) > 0 {
      var masked := MaskedRow(pw, obs);
      var rs := SumSkipNa(masked);
      forall j | 0 <= j < |obs| ensures Fill0(WeightRow(pw, obs)[j]) >= 0.0 {
        if rs > 0.0 && masked[j].Some? {
          LeDiv(0.0, masked[j].value, rs);
        }
      }
    }
  }

  /** A positive row weight falls on an observed opponent. */
  lemma {:induction false} PositiveWeightIsObserved(pw: seq<Option<real>>, obs: seq<bool>, j: nat)
    requires |pw| == |obs| && j < |obs| && Fill0(WeightRow(pw, obs)[j]) > 0.0
    ensures obs[j]
  {
    if Count(obs) > 0 && !obs[j] {
      WeightZeroOffMask(pw, obs, j);
    }
  }

  // ---------------------------------------------------------------------------------
  // Properties of MAS, SE and LB

  /** A deck without observed opponents gets an all-undefined weight row; the NaN-skipping
      sums then report MAS = SE = LB = 0 rather than undefined. */
  lemma {:induction false} NoObservationsScoreZero(pw: seq<Option<real>>, obs: seq<bool>, p: seq<Option<real>>,
                                v: seq<Option<real>>, z: real, sqrt: real -> real)
    requires |pw| == |obs| == |p| == |v| && Count(obs) == 0 && IsSqrt(sqrt)
    ensures forall j :: 0 <= j < |obs| ==> WeightRow(pw, obs)[j].None?
    ensures RowScore(WeightRow(pw, obs), p, v, z, sqrt) == Score(0.0, 0.0, 0.0)
  {
    var w := WeightRow(pw, obs);
    assert w == NoneRow(|obs|);
    assert Mas(w, p) == 0.0 by { SumSkipNaAllUndefined(MulRow(w, p)); }
    assert VarMas(w, v) == 0.0 by { SumSkipNaAllUndefined(MulRow(SqRow(w), v)); }
    ZeroSumsScoreZero(w, p, v, z, sqrt);
  }

  lemma {:induction false} ZeroSumsScoreZero(w: seq<Option<real>>, p: seq<Option<real>>, v: seq<Option<real>>,
                          z: real, sqrt: real -> real)
    requires |w| == |p| == |v| && IsSqrt(sqrt) && Mas(w, p) == 0.0 && VarMas(w, v) == 0.0
    ensures RowScore(w, p, v, z, sqrt) == Score(0.0, 0.0, 0.0)
  {
    SqrtOfZero(sqrt);
  }

  lemma {:induction false} SqrtOfZero(sqrt: real -> real)
    requires IsSqrt(sqrt)
    ensures sqrt(0.0) == 0.0
  {
    assert sqrt(0.0) >= 0.0 && sqrt(0.0) * sqrt(0.0) == 0.0;
    SquareZero(sqrt(0.0), sqrt(0.0));
  }

  lemma {:induction false} SquareZero(x: real, y: real)
    requires x >= 0.0 && x == y && x * y == 0.0
    ensures x == 0.0
  {
    if x > 0.0 {
      ScaledLt(x, 0.0, y);
    }
  }

  /** MAS is a convex combination of the observed p̂: when every observed p̂ is defined and
      lies in [lo, hi], so does MAS (meta weights non-negative). */
  lemma {:induction false} MasWithinObservedRange(pw: seq<Option<real>>, obs: seq<bool>, p: seq<Option<real>>,
                               lo: real, hi: real)
    requires |pw| == |obs| == |p| && Count(obs) > 0 && NonNegWhereDefined(pw)
    requires forall j :: 0 <= j < |obs| && obs[j] ==> p[j].Some? && lo <= p[j].value <= hi
    ensures lo <= Mas(WeightRow(pw, obs), p) <= hi
  {
    var w := WeightRow(pw, obs);
    var c := FillNa(w);
    var q := FillNa(p);
    WeightsNonNeg(pw, obs);
    forall j | 0 <= j < |c| && c[j] > 0.0 ensures lo <= q[j] <= hi {
      PositiveWeightIsObserved(pw, obs, j);
    }
    WeightsSumToOne(pw, obs);
    SumSkipNaMulRow(w, p);
    ConvexBounds(c, q, lo, hi);
  }

  /** Strictly inside (lo, hi) when every observed p̂ is; with posterior means in (0, 1)
      this puts MAS in (0, 1). */
  lemma {:induction false} MasStrictlyWithinObservedRange(pw: seq<Option<real>>, obs: seq<bool>, p: seq<Option<real>>,
                                       lo: real, hi: real)
    requires |pw| == |obs| == |p| && Count(obs) > 0 && NonNegWhereDefined(pw)
    requires forall j :: 0 <= j < |obs| && obs[j] ==> p[j].Some? && lo < p[j].value < hi
    ensures lo < Mas(WeightRow(pw, obs), p) < hi
  {
    var w := WeightRow(pw, obs);
    var c := FillNa(w);
    var q := FillNa(p);
    WeightsNonNeg(pw, obs);
    forall j | 0 <= j < |c| && c[j] > 0.0 ensures lo < q[j] < hi {
      PositiveWeightIsObserved(pw, obs, j);
    }
    WeightsSumToOne(pw, obs);
    SumSkipNaMulRow(w, p);
    ConvexStrict(c, q, lo, hi);
  }

  /** With non-negative variances the variance of MAS is non-negative. */
  lemma {:induction false} VarMasNonNeg(w: seq<Option<real>>, v: seq<Option<real>>)
    requires |w| == |v| && NonNegWhereDefined(v)
    ensures VarMas(w, v) >= 0.0
  {
    var terms := FillNa(MulRow(SqRow(w), v));
    forall j | 0 <= j < |terms| ensures terms[j] >= 0.0 {
      if w[j].Some? && v[j].Some? {
        ScaledLe(w[j].value * w[j].value, 0.0, v[j].value);
        assert w[j].value * w[j].value >= 0.0;
      }
    }
    SumNonNeg(terms);
  }

  /** SE is non-negative and LB never exceeds MAS for a non-negative penalty. */
  lemma {:induction false} LowerBoundBelowMas(w: seq<Option<real>>, p: seq<Option<real>>, v: seq<Option<real>>,
                           z: real, sqrt: real -> real)
    requires |w| == |p| == |v| && IsSqrt(sqrt) && z >= 0.0
    ensures RowScore(w, p, v, z, sqrt).sePct >= 0.0
    ensures RowScore(w, p, v, z, sqrt).lbPct <= RowScore(w, p, v, z, sqrt).masPct
  {
    var x := Max(VarMas(w, v), 0.0);
    assert sqrt(x) >= 0.0;
    ScaledLe(z, 0.0, 100.0 * sqrt(x));
  }
}

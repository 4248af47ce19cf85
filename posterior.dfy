/** Beta-Binomial posterior per direction (mars/posterior.py).
    With the prior Beta(mu*K, (1-mu)*K), a cell with W wins and L losses has the posterior
    Beta(alpha, beta), alpha = W + mu*K and beta = L + (1-mu)*K; the model returns its mean
    p̂ and variance var̂ for every off-diagonal cell, and an undefined diagonal. */
module Posterior {
  import opened Wrappers
  import opened Numeric
  import opened Matrix

  function Alpha(w: real, k: real, mu: real): real { w + mu * k }
  function Beta(l: real, k: real, mu: real): real { l + (1.0 - mu) * k }

  /** alpha + beta = W + L + K: the prior adds K pseudo-games. */
  lemma {:induction false} MassIsGames(w: real, l: real, k: real, mu: real)
    ensures Alpha(w, k, mu) + Beta(l, k, mu) == w + l + k
  {
    Distrib(mu, 1.0 - mu, k);
  }

  /** Mean alpha/(alpha+beta) of Beta(alpha, beta); undefined for a zero mass (0/0). */
  function BetaMean(a: real, b: real): (r: Option<real>)
    ensures r.Some? <==> a + b != 0.0
  {
    if a + b == 0.0 then None else Some(a / (a + b))
  }

  /** The variance's denominator n²(n + 1) for the mass n = alpha + beta. */
  function VarianceDenominator(n: real): real { n * n * (n + 1.0) }

  /** Variance alpha*beta / ((alpha+beta)^2 (alpha+beta+1)) of Beta(alpha, beta). */
  function BetaVariance(a: real, b: real): (r: Option<real>)
    ensures r.Some? <==> a + b != 0.0 && a + b + 1.0 != 0.0
  {
    if a + b == 0.0 || a + b + 1.0 == 0.0 then None
    else
      NonZeroCube(a + b);
      Some((a * b) / VarianceDenominator(a + b))
  }

  /** Posterior mean of one cell; undefined exactly when there are no games and no prior
      mass. */
  function PHatCell(w: real, l: real, k: real, mu: real): (r: Option<real>)
    ensures r.Some? <==> w + l + k != 0.0
  {
    MassIsGames(w, l, k, mu);
    BetaMean(Alpha(w, k, mu), Beta(l, k, mu))
  }

  /** Posterior variance of one cell. */
  function VarCell(w: real, l: real, k: real, mu: real): (r: Option<real>)
    ensures r.Some? <==> w + l + k != 0.0 && w + l + k + 1.0 != 0.0
  {
    MassIsGames(w, l, k, mu);
    BetaVariance(Alpha(w, k, mu), Beta(l, k, mu))
  }

  datatype PosteriorMats = PosteriorMats(pHat: Mat, varHat: Mat)

  /** posterior_dir: undefined counts read as 0, the diagonal undefined. */
  function PosteriorDir(s: Mat, f: Mat, n: nat, k: real, mu: real): (r: PosteriorMats)
    requires IsSquare(s, n) && IsSquare(f, n)
    ensures IsSquare(r.pHat, n) && IsSquare(r.varHat, n)
    ensures DiagAllUndefined(r.pHat) && DiagAllUndefined(r.varHat)
    ensures forall i, j :: 0 <= i < n && 0 <= j < n && i != j ==>
      r.pHat[i][j] == PHatCell(Fill0(s[i][j]), Fill0(f[i][j]), k, mu) &&
      r.varHat[i][j] == VarCell(Fill0(s[i][j]), Fill0(f[i][j]), k, mu)
  {
    PosteriorMats(
      seq(n, i requires 0 <= i < n =>
        seq(n, j requires 0 <= j < n =>
          if i == j then None else PHatCell(Fill0(s[i][j]), Fill0(f[i][j]), k, mu))),
      seq(n, i requires 0 <= i < n =>
        seq(n, j requires 0 <= j < n =>
          if i == j then None else VarCell(Fill0(s[i][j]), Fill0(f[i][j]), k, mu))))
  }

  /** The worked example: W = 60, L = 40, mu = 0.5, K = 2 gives 61/102. */
  lemma {:induction false} ExampleSixtyForty()
    ensures PHatCell(60.0, 40.0, 2.0, 0.5) == Some(61.0 / 102.0)
  {
    assert Alpha(60.0, 2.0, 0.5) == 61.0;
    assert Beta(40.0, 2.0, 0.5) == 41.0;
  }

  /** A cell with no recorded games has the prior mean. */
  lemma {:induction false} UnobservedIsPriorMean(k: real, mu: real)
    requires k != 0.0
    ensures PHatCell(0.0, 0.0, k, mu) == Some(mu)
  {
    MassIsGames(0.0, 0.0, k, mu);
    MeanOfShare(Alpha(0.0, k, mu), Beta(0.0, k, mu), k, mu);
  }

  /** A first mass that is the share m of the total n has mean m. */
  lemma {:induction false} MeanOfShare(a: real, b: real, n: real, m: real)
    requires n != 0.0 && a + b == n && a == m * n
    ensures BetaMean(a, b) == Some(m)
  {
    DivTimes(a, a + b);
    CancelFactor(a / (a + b), m, n);
  }

  lemma {:induction false} DivTimes(x: real, y: real)
    requires y != 0.0
    ensures x / y * y == x
  {
  }

  /** In PosteriorDir an undefined count is a zero count. */
  lemma {:induction false} PosteriorDirUnobserved(s: Mat, f: Mat, n: nat, k: real, mu: real, i: nat, j: nat)
    requires IsSquare(s, n) && IsSquare(f, n) && i < n && j < n && i != j
    requires s[i][j].None? && f[i][j].None? && k != 0.0
    ensures PosteriorDir(s, f, n, k, mu).pHat[i][j] == Some(mu)
  {
    UnobservedIsPriorMean(k, mu);
  }

  /** The prior masses are positive when K > 0 and 0 < mu < 1. */
  lemma {:induction false} PriorMassesPositive(w: real, l: real, k: real, mu: real)
    requires w >= 0.0 && l >= 0.0 && k > 0.0 && 0.0 < mu < 1.0
    ensures Alpha(w, k, mu) > 0.0 && Beta(l, k, mu) > 0.0
  {
    AlphaPositive(w, k, mu);
    BetaPositive(l, k, mu);
  }

  lemma {:induction false} AlphaPositive(w: real, k: real, mu: real)
    requires w >= 0.0 && k > 0.0 && mu > 0.0
    ensures Alpha(w, k, mu) > 0.0
  {
    MulPos(mu, k);
  }

  lemma {:induction false} BetaPositive(l: real, k: real, mu: real)
    requires l >= 0.0 && k > 0.0 && mu < 1.0
    ensures Beta(l, k, mu) > 0.0
  {
    MulPos(1.0 - mu, k);
  }

  /** Positive masses give a mean strictly inside (0, 1). */
  lemma {:induction false} BetaMeanInUnitInterval(a: real, b: real)
    requires a > 0.0 && b > 0.0
    ensures BetaMean(a, b).Some? && 0.0 < BetaMean(a, b).value < 1.0
  {
    DivPositive(a, a + b);
    DivLessThanOne(a, a + b);
  }

  /** With a positive prior strength and 0 < mu < 1, the mean is strictly inside (0, 1). */
  lemma {:induction false} PHatInUnitInterval(w: real, l: real, k: real, mu: real)
    requires w >= 0.0 && l >= 0.0 && k > 0.0 && 0.0 < mu < 1.0
    ensures PHatCell(w, l, k, mu).Some? && 0.0 < PHatCell(w, l, k, mu).value < 1.0
  {
    PriorMassesPositive(w, l, k, mu);
    BetaMeanInUnitInterval(Alpha(w, k, mu), Beta(l, k, mu));
  }

  /** Positive masses give a positive variance. */
  lemma {:induction false} BetaVariancePositive(a: real, b: real)
    requires a > 0.0 && b > 0.0
    ensures BetaVariance(a, b).Some? && BetaVariance(a, b).value > 0.0
  {
    MulPos(a, b);
    MulPos3(a + b, a + b, a + b + 1.0);
    DivPositive(a * b, (a + b) * (a + b) * (a + b + 1.0));
  }

  /** Under the same conditions the variance is positive. */
  lemma {:induction false} VarPositive(w: real, l: real, k: real, mu: real)
    requires w >= 0.0 && l >= 0.0 && k > 0.0 && 0.0 < mu < 1.0
    ensures VarCell(w, l, k, mu).Some? && VarCell(w, l, k, mu).value > 0.0
  {
    PriorMassesPositive(w, l, k, mu);
    BetaVariancePositive(Alpha(w, k, mu), Beta(l, k, mu));
  }

  /** The variance of Beta(a, b) is m(1 - m)/(a + b + 1) for its mean m. */
  lemma {:induction false} BetaVarianceMeanForm(a: real, b: real, v: Option<real>, m: Option<real>)
    requires a + b != 0.0 && a + b + 1.0 != 0.0
    requires v == BetaVariance(a, b) && m == BetaMean(a, b)
    ensures v.Some? && m.Some? && v.value == m.value * (1.0 - m.value) / (a + b + 1.0)
  {
    NonZeroCube(a + b);
    MeanFormArith(a, b, v.value, m.value);
  }

  /** For a cell: var̂ = p̂(1 - p̂)/(alpha + beta + 1). */
  lemma {:induction false} VarianceIsMeanForm(w: real, l: real, k: real, mu: real)
    requires w + l + k != 0.0 && w + l + k + 1.0 != 0.0
    ensures PHatCell(w, l, k, mu).Some? && VarCell(w, l, k, mu).Some?
    ensures VarCell(w, l, k, mu).value ==
      PHatCell(w, l, k, mu).value * (1.0 - PHatCell(w, l, k, mu).value) / (Alpha(w, k, mu) + Beta(l, k, mu) + 1.0)
  {
    MassIsGames(w, l, k, mu);
    BetaVarianceMeanForm(Alpha(w, k, mu), Beta(l, k, mu), VarCell(w, l, k, mu), PHatCell(w, l, k, mu));
  }

  lemma {:induction false} NonZeroCube(d: real)
    requires d != 0.0 && d + 1.0 != 0.0
    ensures VarianceDenominator(d) != 0.0
  {
    assert d * d > 0.0;
  }

  /** a·b / ((a + b)²(a + b + 1)) = p(1 - p)/(a + b + 1) for p = a/(a + b). */
  lemma {:induction false} MeanFormArith(a: real, b: real, v: real, p: real)
    requires a + b != 0.0 && a + b + 1.0 != 0.0
    requires VarianceDenominator(a + b) != 0.0
    requires v == (a * b) / VarianceDenominator(a + b) && p == a / (a + b)
    ensures v == p * (1.0 - p) / (a + b + 1.0)
  {
    var q := b / (a + b);
    QuotientsAddUp(a, b, a + b);
    assert 1.0 - p == q;
    var u := p * q / (a + b + 1.0);
    assert u * ((a + b) * (a + b) * (a + b + 1.0)) == a * b by {
      assert p * (a + b) == a && q * (a + b) == b;
      assert u * (a + b + 1.0) == p * q;
      Regroup(u, a + b, p * q);
      Regroup2(p, q, a + b);
    }
    assert v * ((a + b) * (a + b) * (a + b + 1.0)) == a * b;
    CancelFactor(v, u, (a + b) * (a + b) * (a + b + 1.0));
  }

  lemma {:induction false} Regroup(u: real, d: real, x: real)
    requires u * (d + 1.0) == x
    ensures u * (d * d * (d + 1.0)) == x * (d * d)
  {
  }

  lemma {:induction false} Regroup2(p: real, q: real, d: real)
    ensures p * q * (d * d) == (p * d) * (q * d)
  {
  }

  lemma {:induction false} QuotientsAddUp(a: real, b: real, den: real)
    requires den != 0.0 && a + b == den
    ensures a / den + b / den == 1.0
  {
    var p := a / den;
    var q := b / den;
    assert p * den == a && q * den == b;
    Distrib(p, q, den);
    CancelFactor(p + q, 1.0, den);
  }

  lemma {:induction false} CancelFactor(x: real, y: real, c: real)
    requires c != 0.0 && x * c == y * c
    ensures x == y
  {
    assert (x - y) * c == 0.0;
  }

  /** K = 0 gives the raw win rate W / (W + L). */
  lemma {:induction false} NoPriorIsEmpirical(w: real, l: real, mu: real)
    requires w + l > 0.0
    ensures PHatCell(w, l, 0.0, mu) == Some(w / (w + l))
  {
    assert Alpha(w, 0.0, mu) == w;
    assert Beta(l, 0.0, mu) == l;
  }

  /** With mu = 1/2, the two directions of mirrored counts add up to 1. */
  lemma {:induction false} MirrorSumsToOne(w: real, l: real, k: real)
    requires w + l + k != 0.0
    ensures PHatCell(w, l, k, 0.5).value + PHatCell(l, w, k, 0.5).value == 1.0
  {
    var a := Alpha(w, k, 0.5);
    var b := Alpha(l, k, 0.5);
    assert Beta(l, k, 0.5) == b && Beta(w, k, 0.5) == a;
    MassIsGames(w, l, k, 0.5);
    assert BetaMean(b, a).value == b / (a + b);
    QuotientsAddUp(a, b, a + b);
  }

  lemma {:induction false} SignOfFactor(x: real, y: real, z: real)
    requires y > 0.0 && x * y == z
    ensures (z >= 0.0 ==> x >= 0.0) && (z <= 0.0 ==> x <= 0.0)
  {
  }

  /** Shrinkage: with games played and K > 0, p̂ lies between the prior mean and the raw
      win rate. */
  lemma {:induction false} PosteriorBetweenPriorAndEmpirical(w: real, l: real, k: real, mu: real)
    requires w >= 0.0 && l >= 0.0 && w + l > 0.0 && k > 0.0
    ensures var p := PHatCell(w, l, k, mu).value;
      var e := w / (w + l);
      (mu <= p <= e) || (e <= p <= mu)
  {
    var a := Alpha(w, k, mu);
    var m := a + Beta(l, k, mu);
    MassIsGames(w, l, k, mu);
    DivTimes(a, m);
    ShrinkArith(PHatCell(w, l, k, mu).value, m, w, l, k, mu);
  }

  /** The arithmetic of shrinkage: p·M = w + mu·k with M = w + l + k. */
  lemma {:induction false} ShrinkArith(p: real, m: real, w: real, l: real, k: real, mu: real)
    requires w >= 0.0 && l >= 0.0 && w + l > 0.0 && k > 0.0
    requires m == w + l + k && p * m == w + mu * k
    ensures var e := w / (w + l);
      (mu <= p <= e) || (e <= p <= mu)
  {
    var n := w + l;
    var e := w / n;
    var d := w - mu * n;
    assert (p - mu) * m == d;
    assert e * n == w;
    assert n * m > 0.0 by { ScaledLt(n, 0.0, m); }
    assert (e - p) * (n * m) == e * n * m - p * m * n;
    assert (e - p) * (n * m) == k * d;
    SignOfFactor(p - mu, m, d);
    assert (d >= 0.0 ==> k * d >= 0.0) && (d <= 0.0 ==> k * d <= 0.0) by {
      if d >= 0.0 { ScaledLe(k, 0.0, d); } else { ScaledLe(k, d, 0.0); }
    }
    SignOfFactor(e - p, n * m, k * d);
  }
}

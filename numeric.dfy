/** Exact arithmetic helpers: sums, numpy-style clipping and Python's rounding. */
module Numeric {

  function Abs(x: real): (r: real)
    ensures r >= 0.0 && (r == x || r == -x)
  {
    if x < 0.0 then -x else x
  }

  function Max(a: real, b: real): real { if a >= b then a else b }

  function Min(a: real, b: real): real { if a <= b then a else b }

  function MaxInt(a: int, b: int): int { if a >= b then a else b }

  function MinInt(a: int, b: int): int { if a <= b then a else b }

  /** `np.clip(x, lo, hi)`, which is `minimum(maximum(x, lo), hi)`: when lo > hi every
      value becomes hi. */
  function Clip(x: real, lo: real, hi: real): (r: real)
    ensures r <= hi
    ensures lo <= hi ==> lo <= r
    ensures lo <= x <= hi ==> r == x
  {
    Min(Max(x, lo), hi)
  }

  /** `math.ceil` of a real. */
  function Ceil(x: real): (r: int)
    ensures r as real >= x && (r - 1) as real < x
  {
    -((-x).Floor)
  }

  /** Python's `round(x)`: to the nearest integer, halves to the even neighbour. */
  function RoundHalfEven(x: real): (r: int)
    ensures Abs(r as real - x) <= 0.5
  {
    var f := x.Floor;
    var d := x - f as real;
    if d < 0.5 then f
    else if d > 0.5 then f + 1
    else if f % 2 == 0 then f else f + 1
  }

  /** Rounding does not cross an integer bound. */
  lemma {:induction false} RoundWithin(x: real, lo: int, hi: int)
    requires lo as real <= x <= hi as real
    ensures lo <= RoundHalfEven(x) <= hi
  {
  }

  function Pow10(d: nat): (r: nat)
    ensures r >= 1
  {
    if d == 0 then 1 else 10 * Pow10(d - 1)
  }

  /** Half-to-even rounding on the grid of step 1/p: r * p is the rounded x * p. */
  function RoundAt(x: real, p: real): (r: real)
    requires p >= 1.0
    ensures Abs(r - x) <= 0.5 / p
    ensures r * p == RoundHalfEven(x * p) as real
  {
    var n := RoundHalfEven(x * p);
    DivBound(n as real - x * p, p);
    DivMulCancel(n as real, p);
    n as real / p
  }

  /** `round(x, d)` on an exact value: half-to-even at the d-th decimal place. */
  function RoundTo(x: real, d: nat): (r: real)
    ensures Abs(r - x) <= 0.5 / Pow10(d) as real
  {
    RoundAt(x, Pow10(d) as real)
  }

  /** Rounding to d places does not cross an integer bound. */
  lemma {:induction false} RoundToWithin(x: real, d: nat, lo: int, hi: int)
    requires lo as real <= x <= hi as real
    ensures lo as real <= RoundTo(x, d) <= hi as real
  {
    var P := Pow10(d);
    CastMul(lo, P);
    CastMul(hi, P);
    RoundAtWithin(x, P as real, lo, hi, lo * P, hi * P);
  }

  lemma {:induction false} RoundAtWithin(x: real, p: real, lo: int, hi: int, lp: int, hp: int)
    requires p >= 1.0 && lo as real <= x <= hi as real
    requires lp as real == lo as real * p && hp as real == hi as real * p
    ensures lo as real <= RoundAt(x, p) <= hi as real
  {
    ScaledBetween(x, p, lo, hi, lp, hp);
    RoundWithin(x * p, lp, hp);
    GridWithin(RoundAt(x, p), p, RoundHalfEven(x * p), lo, hi);
  }

  lemma {:induction false} ScaledBetween(x: real, p: real, lo: int, hi: int, lp: int, hp: int)
    requires p >= 1.0 && lo as real <= x <= hi as real
    requires lp as real == lo as real * p && hp as real == hi as real * p
    ensures lp as real <= x * p <= hp as real
  {
    ScaledLeRight(lo as real, x, p);
    ScaledLeRight(x, hi as real, p);
  }

  /** A grid point r = n / p between lo * p and hi * p lies between lo and hi. */
  lemma {:induction false} GridWithin(r: real, p: real, n: int, lo: int, hi: int)
    requires p >= 1.0 && r * p == n as real && lo as real * p <= n as real <= hi as real * p
    ensures lo as real <= r <= hi as real
  {
    if r < lo as real {
      ScaledLt(p, r, lo as real);
    }
    if r > hi as real {
      ScaledLt(p, hi as real, r);
    }
  }

  lemma {:induction false} DivMulCancel(a: real, p: real)
    requires p != 0.0
    ensures (a / p) * p == a
  {
  }

  lemma {:induction false} CastMul(a: int, b: int)
    ensures (a * b) as real == a as real * b as real
  {
  }

  /** A part of a positive total, in percent, lies in [0, 100]. */
  lemma {:induction false} PercentWithin(h: real, t: real)
    requires 0.0 <= h <= t && t > 0.0
    ensures 0.0 <= 100.0 * h / t <= 100.0
  {
    var q := 100.0 * h / t;
    assert q * t == 100.0 * h;
    if q > 100.0 {
      ScaledLt(t, 100.0, q);
    }
    if q < 0.0 {
      ScaledLt(t, q, 0.0);
    }
  }

  lemma {:induction false} DivBound(e: real, p: real)
    requires p >= 1.0 && Abs(e) <= 0.5
    ensures Abs(e / p) <= 0.5 / p
  {
    var q := e / p;
    assert q * p == e;
    if q >= 0.0 {
      LeDiv(q, 0.5, p);
    } else {
      assert (-q) * p == -e;
      LeDiv(-q, 0.5, p);
    }
  }

  /** a * p <= b with p > 0 gives a <= b / p. */
  lemma {:induction false} LeDiv(a: real, b: real, p: real)
    requires p > 0.0 && a * p <= b
    ensures a <= b / p
  {
    var d := b / p;
    assert d * p == b;
    if a > d {
      assert (a - d) * p > 0.0;
      assert a * p - d * p > 0.0;
    }
  }

  /** `int(x)`: truncation toward zero. */
  function Trunc(x: real): (r: int)
    ensures x >= 0.0 ==> r == x.Floor
    ensures Abs(r as real) <= Abs(x) && Abs(x - r as real) < 1.0
  {
    if x >= 0.0 then x.Floor else -((-x).Floor)
  }

  /** The largest element (`max()`, `np.nanmax` without NaN). */
  function SeqMax(s: seq<real>): (r: real)
    requires |s| > 0
    ensures forall i :: 0 <= i < |s| ==> s[i] <= r
  {
    if |s| == 1 then s[0]
    else
      var m := SeqMax(s[1..]);
      assert forall i :: 1 <= i < |s| ==> s[i] == s[1..][i - 1];
      Max(s[0], m)
  }

  /** The maximum is one of the elements. */
  lemma {:induction false} SeqMaxAttained(s: seq<real>)
    requires |s| > 0
    ensures exists i :: 0 <= i < |s| && s[i] == SeqMax(s)
  {
    if |s| == 1 || s[0] >= SeqMax(s[1..]) {
      assert s[0] == SeqMax(s);
    } else {
      SeqMaxAttained(s[1..]);
      var i :| 0 <= i < |s[1..]| && s[1..][i] == SeqMax(s[1..]);
      assert s[i + 1] == SeqMax(s);
    }
  }

  /** Plain sum of a sequence, as `sum()` on a list of numbers. */
  function Sum(s: seq<real>): real
  {
    if s == [] then 0.0 else s[0] + Sum(s[1..])
  }

  lemma {:induction false} SumAppend(a: seq<real>, b: seq<real>)
    ensures Sum(a + b) == Sum(a) + Sum(b)
  {
    if a == [] {
      assert a + b == b;
    } else {
      assert (a + b)[1..] == a[1..] + b;
      SumAppend(a[1..], b);
    }
  }

  lemma {:induction false} SumSingle(x: real)
    ensures Sum([x]) == x
  {
  }

  lemma {:induction false} SumNonNeg(s: seq<real>)
    requires forall i :: 0 <= i < |s| ==> s[i] >= 0.0
    ensures Sum(s) >= 0.0
  {
    if s != [] {
      SumNonNeg(s[1..]);
    }
  }

  /** Every element bounded by the sum when all elements are non-negative. */
  lemma {:induction false} SumBoundsElement(s: seq<real>, k: nat)
    requires k < |s|
    requires forall i :: 0 <= i < |s| ==> s[i] >= 0.0
    ensures s[k] <= Sum(s)
  {
    SumNonNeg(s[1..]);
    if k > 0 {
      SumBoundsElement(s[1..], k - 1);
    }
  }

  function Scale(s: seq<real>, c: real): (r: seq<real>)
    ensures |r| == |s| && forall i :: 0 <= i < |s| ==> r[i] == s[i] * c
  {
    seq(|s|, i requires 0 <= i < |s| => s[i] * c)
  }

  lemma {:induction false} SumScale(s: seq<real>, c: real)
    ensures Sum(Scale(s, c)) == Sum(s) * c
  {
    if s != [] {
      assert forall i :: 0 <= i < |s| - 1 ==> Scale(s, c)[1..][i] == Scale(s[1..], c)[i];
      assert Scale(s, c)[1..] == Scale(s[1..], c);
      SumScale(s[1..], c);
    }
  }

  /** Dividing every element by the (positive) total gives a sequence summing to one. */
  lemma {:induction false} DivideBySumIsOne(s: seq<real>)
    requires Sum(s) != 0.0
    ensures Sum(Scale(s, 1.0 / Sum(s))) == 1.0
  {
    SumScale(s, 1.0 / Sum(s));
  }

  function Const(n: nat, c: real): (r: seq<real>)
    ensures |r| == n && forall i :: 0 <= i < n ==> r[i] == c
  {
    seq(n, i => c)
  }

  lemma {:induction false} SumConst(n: nat, c: real)
    ensures Sum(Const(n, c)) == n as real * c
  {
    if n > 0 {
      assert Const(n, c)[1..] == Const(n - 1, c);
      SumConst(n - 1, c);
    }
  }

  function Add(a: seq<real>, b: seq<real>): (r: seq<real>)
    requires |a| == |b|
    ensures |r| == |a| && forall i :: 0 <= i < |a| ==> r[i] == a[i] + b[i]
  {
    seq(|a|, i requires 0 <= i < |a| => a[i] + b[i])
  }

  lemma {:induction false} SumAdd(a: seq<real>, b: seq<real>)
    requires |a| == |b|
    ensures Sum(Add(a, b)) == Sum(a) + Sum(b)
  {
    if a != [] {
      assert Add(a, b)[1..] == Add(a[1..], b[1..]);
      SumAdd(a[1..], b[1..]);
    }
  }

  lemma {:induction false} SumAddScaled(p: seq<real>, w: seq<real>, g: real)
    requires |p| == |w|
    ensures Sum(Add(p, Scale(w, g))) == Sum(p) + Sum(w) * g
  {
    SumAdd(p, Scale(w, g));
    SumScale(w, g);
  }

  /** Number of true entries of a mask. */
  function Count(s: seq<bool>): (r: nat)
    ensures r <= |s|
  {
    if s == [] then 0 else (if s[0] then 1 else 0) + Count(s[1..])
  }

  lemma {:induction false} CountAppend(a: seq<bool>, b: seq<bool>)
    ensures Count(a + b) == Count(a) + Count(b)
  {
    if a == [] {
      assert a + b == b;
    } else {
      assert (a + b)[1..] == a[1..] + b;
      CountAppend(a[1..], b);
    }
  }

  lemma {:induction false} CountZero(s: seq<bool>)
    ensures Count(s) == 0 <==> forall i :: 0 <= i < |s| ==> !s[i]
  {
    if s != [] {
      CountZero(s[1..]);
      assert forall i :: 1 <= i < |s| ==> s[i] == s[1..][i - 1];
    }
  }

  /** c where the mask holds, 0 elsewhere. */
  function Indicator(m: seq<bool>, c: real): (r: seq<real>)
    ensures |r| == |m| && forall i :: 0 <= i < |m| ==> r[i] == (if m[i] then c else 0.0)
  {
    seq(|m|, i requires 0 <= i < |m| => if m[i] then c else 0.0)
  }

  lemma {:induction false} SumIndicator(m: seq<bool>, c: real)
    ensures Sum(Indicator(m, c)) == Count(m) as real * c
  {
    if m != [] {
      assert Indicator(m, c)[1..] == Indicator(m[1..], c);
      SumIndicator(m[1..], c);
    }
  }

  /** Weighted sum: the sum of c[i] * q[i]. */
  function Dot(c: seq<real>, q: seq<real>): real
    requires |c| == |q|
  {
    if c == [] then 0.0 else c[0] * q[0] + Dot(c[1..], q[1..])
  }

  lemma {:induction false} DivPositive(a: real, b: real)
    requires a > 0.0 && b > 0.0
    ensures a / b > 0.0
  {
    var q := a / b;
    assert q * b == a;
  }

  lemma {:induction false} DivLessThanOne(a: real, b: real)
    requires 0.0 < a < b
    ensures a / b < 1.0
  {
    var q := a / b;
    assert q * b == a;
    assert (1.0 - q) * b == b - a;
    PositiveFactor(1.0 - q, b);
  }

  lemma {:induction false} PositiveFactor(x: real, b: real)
    requires b > 0.0 && x * b > 0.0
    ensures x > 0.0
  {
  }

  lemma {:induction false} Distrib(x: real, y: real, c: real)
    ensures (x + y) * c == x * c + y * c
  {
  }

  lemma {:induction false} MulPos(x: real, y: real)
    requires x > 0.0 && y > 0.0
    ensures x * y > 0.0
  {
  }

  lemma {:induction false} MulPos3(x: real, y: real, z: real)
    requires x > 0.0 && y > 0.0 && z > 0.0
    ensures x * y * z > 0.0
  {
    MulPos(x, y);
    MulPos(x * y, z);
  }

  lemma {:induction false} ScaledLe(c: real, x: real, y: real)
    requires c >= 0.0 && (c > 0.0 ==> x <= y)
    ensures c * x <= c * y
  {
    if c > 0.0 {
      assert c * (y - x) >= 0.0;
    }
  }

  lemma {:induction false} ScaledLeRight(x: real, y: real, c: real)
    requires c >= 0.0 && x <= y
    ensures x * c <= y * c
  {
    assert (y - x) * c >= 0.0;
  }

  lemma {:induction false} ScaledLt(c: real, x: real, y: real)
    requires c > 0.0 && x < y
    ensures c * x < c * y
  {
    assert c * (y - x) > 0.0;
  }

  /** One induction step of the convexity bounds, as plain arithmetic. */
  lemma {:induction false} ConvexStep(s: real, s1: real, m: real, m1: real, c0: real, q0: real, lo: real, hi: real)
    requires s == c0 + s1 && m == c0 * q0 + m1
    requires lo * s1 <= m1 <= hi * s1
    requires c0 * lo <= c0 * q0 <= c0 * hi
    ensures lo * s <= m <= hi * s
  {
    assert lo * s == lo * c0 + lo * s1;
    assert hi * s == hi * c0 + hi * s1;
  }

  /** A weighted sum with non-negative weights lies between lo and hi times the total
      weight, when every value with positive weight lies in [lo, hi]. */
  lemma {:induction false} ConvexBounds(c: seq<real>, q: seq<real>, lo: real, hi: real)
    requires |c| == |q|
    requires forall i :: 0 <= i < |c| ==> c[i] >= 0.0
    requires forall i :: 0 <= i < |c| && c[i] > 0.0 ==> lo <= q[i] <= hi
    ensures lo * Sum(c) <= Dot(c, q) <= hi * Sum(c)
  {
    if c != [] {
      ConvexBounds(c[1..], q[1..], lo, hi);
      ConvexHead(c[0], q[0], lo, hi);
      ConvexBoundsStep(c, q, lo, hi);
    }
  }

  lemma {:induction false} ConvexHead(c0: real, q0: real, lo: real, hi: real)
    requires c0 >= 0.0 && (c0 > 0.0 ==> lo <= q0 <= hi)
    ensures c0 * lo <= c0 * q0 <= c0 * hi
  {
    ScaledLe(c0, lo, q0);
    ScaledLe(c0, q0, hi);
  }

  lemma {:induction false} ConvexBoundsStep(c: seq<real>, q: seq<real>, lo: real, hi: real)
    requires |c| == |q| && c != []
    requires lo * Sum(c[1..]) <= Dot(c[1..], q[1..]) <= hi * Sum(c[1..])
    requires c[0] * lo <= c[0] * q[0] <= c[0] * hi
    ensures lo * Sum(c) <= Dot(c, q) <= hi * Sum(c)
  {
    ConvexStep(Sum(c), Sum(c[1..]), Dot(c, q), Dot(c[1..], q[1..]), c[0], q[0], lo, hi);
  }

  /** The strict form: strictly inside (lo, hi) when the total weight is positive. */
  lemma {:induction false} ConvexStrict(c: seq<real>, q: seq<real>, lo: real, hi: real)
    requires |c| == |q| && Sum(c) > 0.0
    requires forall i :: 0 <= i < |c| ==> c[i] >= 0.0
    requires forall i :: 0 <= i < |c| && c[i] > 0.0 ==> lo < q[i] < hi
    ensures lo * Sum(c) < Dot(c, q) < hi * Sum(c)
  {
    assert c != [];
    if c[0] > 0.0 {
      ConvexStrictPositiveHead(c, q, lo, hi);
    } else {
      ConvexStrict(c[1..], q[1..], lo, hi);
      ConvexStrictZeroHead(c, q, lo, hi);
    }
  }

  lemma {:induction false} ConvexStrictPositiveHead(c: seq<real>, q: seq<real>, lo: real, hi: real)
    requires |c| == |q| && c != [] && c[0] > 0.0
    requires forall i :: 0 <= i < |c| ==> c[i] >= 0.0
    requires forall i :: 0 <= i < |c| && c[i] > 0.0 ==> lo < q[i] < hi
    ensures lo * Sum(c) < Dot(c, q) < hi * Sum(c)
  {
    var t, u := c[1..], q[1..];
    assert lo * Sum(t) <= Dot(t, u) <= hi * Sum(t) by {
      assert forall i :: 0 <= i < |t| ==> t[i] == c[i + 1] && u[i] == q[i + 1];
      ConvexBounds(t, u, lo, hi);
    }
    assert c[0] * lo < c[0] * q[0] < c[0] * hi by {
      ScaledLt(c[0], lo, q[0]);
      ScaledLt(c[0], q[0], hi);
    }
    ConvexHeadStep(Sum(c), Sum(t), Dot(c, q), Dot(t, u), c[0], q[0], lo, hi);
  }

  lemma {:induction false} ConvexHeadStep(s: real, s1: real, m: real, m1: real, c0: real, q0: real, lo: real, hi: real)
    requires s == c0 + s1 && m == c0 * q0 + m1
    requires lo * s1 <= m1 <= hi * s1 && c0 * lo < c0 * q0 < c0 * hi
    ensures lo * s < m < hi * s
  {
    assert lo * s == lo * c0 + lo * s1;
    assert hi * s == hi * c0 + hi * s1;
  }

  lemma {:induction false} ConvexStrictZeroHead(c: seq<real>, q: seq<real>, lo: real, hi: real)
    requires |c| == |q| && c != [] && c[0] == 0.0
    requires lo * Sum(c[1..]) < Dot(c[1..], q[1..]) < hi * Sum(c[1..])
    ensures lo * Sum(c) < Dot(c, q) < hi * Sum(c)
  {
    assert Sum(c) == Sum(c[1..]);
    assert Dot(c, q) == Dot(c[1..], q[1..]);
  }
}

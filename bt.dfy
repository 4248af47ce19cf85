/** Robust Bradley–Terry scoring: an adaptive filter on the pairs of decks, soft pseudo-win
    weights, and a ridge-regularised minorise–maximise (MM) estimate of the abilities. */
module Bt {
  import opened Wrappers
  import opened Numeric
  import opened Matrix
  import opened Config

  // ---------------------------------------------------------------------------------
  // Directional confidence, mean confidence, averaged win rate, base volume
  // ---------------------------------------------------------------------------------

  /** Directional confidence `s = N / (N + K)` of a volume, 0 for a volume that is not
      positive. */
  function SOf(v: real, k: real): (r: real)
    requires k >= 0.0
    ensures v > 0.0 ==> 0.0 < r <= 1.0 && (k > 0.0 ==> r < 1.0)
    ensures v <= 0.0 ==> r == 0.0
  {
    if v > 0.0 then
      assert v / (v + k) > 0.0 by { DivPositive(v, v + k); }
      assert k > 0.0 ==> v / (v + k) < 1.0 by {
        if k > 0.0 { DivLessThanOne(v, v + k); }
      }
      assert v / (v + k) <= 1.0 by { DivAtMostOne(v, v + k); }
      v / (v + k)
    else 0.0
  }

  lemma {:induction false} DivAtMostOne(a: real, b: real)
    requires 0.0 < a <= b
    ensures a / b <= 1.0
  {
    var q := a / b;
    assert q * b == a;
  }

  /** A volume read from the table; an undefined cell behaves as 0 in every comparison
      `N > 0` (a NaN compares false). */
  function Volume(x: Option<real>): real { Fill0(x) }

  /** The pair is skipped only when both directions are defined and not positive. */
  predicate NoVolume(x: Option<real>) { x.Some? && x.value <= 0.0 }

  /** Mean of the positive confidences among the two directions, 0 when neither is. */
  function SBar(a: real, b: real): (r: real)
    ensures a > 0.0 && b > 0.0 ==> Min(a, b) <= r <= Max(a, b)
    ensures a > 0.0 && b <= 0.0 ==> r == a
    ensures a <= 0.0 && b > 0.0 ==> r == b
    ensures a <= 0.0 && b <= 0.0 ==> r == 0.0
  {
    if a > 0.0 && b > 0.0 then (a + b) / 2.0
    else if a > 0.0 then a
    else if b > 0.0 then b
    else 0.0
  }

  /** Averaged probability that A beats B, from `p̂[A,B]` and `p̂[B,A]`; undefined only
      when both directions are. */
  function PBar(p1: Option<real>, p2: Option<real>): (r: Option<real>)
    ensures r.None? <==> p1.None? && p2.None?
  {
    if p1.Some? && p2.Some? then Some(0.5 * (p1.value + (1.0 - p2.value)))
    else if p1.Some? then Some(p1.value)
    else if p2.Some? then Some(1.0 - p2.value)
    else None
  }

  /** Reading the pair from the other side gives the complementary probability. */
  lemma {:induction false} PBarSwap(p1: Option<real>, p2: Option<real>)
    requires p1.Some? || p2.Some?
    ensures PBar(p2, p1).Some? && PBar(p1, p2).Some?
    ensures PBar(p2, p1).value == 1.0 - PBar(p1, p2).value
  {
  }

  /** Win rates in [0, 1] give an averaged win rate in [0, 1]. */
  lemma {:induction false} PBarInUnitInterval(p1: Option<real>, p2: Option<real>)
    requires p1.Some? ==> 0.0 <= p1.value <= 1.0
    requires p2.Some? ==> 0.0 <= p2.value <= 1.0
    ensures PBar(p1, p2).Some? ==> 0.0 <= PBar(p1, p2).value <= 1.0
  {
  }

  function Harmonic(x: real, y: real): real
    requires x + y != 0.0
  {
    (2.0 * x * y) / (x + y)
  }

  /** Base volume of a pair: the harmonic mean of the two volumes when that mode is on
      and both are positive, otherwise the mean of the positive volumes (0 if none). */
  function NBase(nij: Option<real>, nji: Option<real>, harmonic: bool): real
  {
    var x := Volume(nij);
    var y := Volume(nji);
    if harmonic && x > 0.0 && y > 0.0 then Harmonic(x, y)
    else if x > 0.0 && y > 0.0 then (x + y) / 2.0
    else if x > 0.0 then x
    else if y > 0.0 then y
    else 0.0
  }

  /** The harmonic mean lies between the two volumes and below their arithmetic mean. */
  lemma {:induction false} HarmonicBetween(x: real, y: real)
    requires x > 0.0 && y > 0.0
    ensures Min(x, y) <= Harmonic(x, y) <= (x + y) / 2.0 <= Max(x, y)
  {
    var h := Harmonic(x, y);
    assert h * (x + y) == 2.0 * x * y;
    var d := x - y;
    assert d * d >= 0.0 by { MulSelfNonNeg(d); }
    assert (x + y) * (x + y) - 4.0 * x * y == d * d;
    assert h * (x + y) <= ((x + y) / 2.0) * (x + y);
    ScaledLeBack(h, (x + y) / 2.0, x + y);
    if x <= y {
      assert h * (x + y) - x * (x + y) == x * (y - x);
      assert x * (y - x) >= 0.0 by { MulNonNegative(x, y - x); }
      ScaledLeBack(x, h, x + y);
    } else {
      assert h * (x + y) - y * (x + y) == y * (x - y);
      assert y * (x - y) >= 0.0 by { MulNonNegative(y, x - y); }
      ScaledLeBack(y, h, x + y);
    }
  }

  lemma {:induction false} MulSelfNonNeg(d: real)
    ensures d * d >= 0.0
  {
    if d < 0.0 { MulPos(-d, -d); } else if d > 0.0 { MulPos(d, d); }
  }

  lemma {:induction false} MulNonNegative(a: real, b: real)
    requires a >= 0.0 && b >= 0.0
    ensures a * b >= 0.0
  {
    if a > 0.0 && b > 0.0 { MulPos(a, b); }
  }

  lemma {:induction false} ScaledLeBack(a: real, b: real, c: real)
    requires c > 0.0 && a * c <= b * c
    ensures a <= b
  {
  }

  /** The base volume is symmetric in the two directions and lies between the smaller
      and the larger positive volume. */
  lemma {:induction false} NBaseBounds(nij: Option<real>, nji: Option<real>, harmonic: bool)
    ensures NBase(nij, nji, harmonic) == NBase(nji, nij, harmonic)
    ensures Volume(nij) > 0.0 && Volume(nji) > 0.0 ==>
      Min(Volume(nij), Volume(nji)) <= NBase(nij, nji, harmonic) <= Max(Volume(nij), Volume(nji))
    ensures NBase(nij, nji, harmonic) > 0.0 <==> Volume(nij) > 0.0 || Volume(nji) > 0.0
  {
    var x := Volume(nij);
    var y := Volume(nji);
    if x > 0.0 && y > 0.0 {
      HarmonicBetween(x, y);
      HarmonicBetween(y, x);
      assert Harmonic(x, y) == Harmonic(y, x);
    }
  }

  // ---------------------------------------------------------------------------------
  // Pair pre-selection (over every pair i < j of the deck axis)
  // ---------------------------------------------------------------------------------

  /** A retained pair: its decks, base volume, mean confidence and averaged win rate. */
  datatype Edge = Edge(i: nat, j: nat, nBase: real, sBar: real, pBar: real)

  datatype Outcome = Skipped | Dropped | Kept(edge: Edge)

  /** Confidence threshold `N_min / (N_min + K)`. */
  function SMin(nMin: int, k: real): real
    requires nMin as real + k != 0.0
  {
    nMin as real / (nMin as real + k)
  }

  /** The inputs of the pre-selection: directed volumes, directed win rates, the axis
      length, the prior strength, the confidence threshold and the harmonic-mean switch. */
  datatype Board = Board(nDir: Mat, pHat: Mat, n: nat, k: real, sMin: real, harmonic: bool)

  predicate ValidBoard(b: Board)
  {
    IsSquare(b.nDir, b.n) && IsSquare(b.pHat, b.n) && b.k >= 0.0
  }

  /** Mean confidence of the pair (i, j). */
  function PairSBar(b: Board, i: nat, j: nat): real
    requires ValidBoard(b) && i < b.n && j < b.n
  {
    SBar(SOf(Volume(b.nDir[i][j]), b.k), SOf(Volume(b.nDir[j][i]), b.k))
  }

  predicate Unexamined(b: Board, i: nat, j: nat)
    requires ValidBoard(b) && i < b.n && j < b.n
  {
    NoVolume(b.nDir[i][j]) && NoVolume(b.nDir[j][i])
  }

  /** What the body of the nested loop does with the pair (i, j): skip it for lack of
      volume, drop and count it, or retain it. */
  function PairOutcome(b: Board, i: nat, j: nat): Outcome
    requires ValidBoard(b) && i < b.n && j < b.n
  {
    if Unexamined(b, i, j) then Skipped
    else if PairSBar(b, i, j) < b.sMin then Dropped
    else
      var pBar := PBar(b.pHat[i][j], b.pHat[j][i]);
      if pBar.None? then Dropped
      else Kept(Edge(i, j, NBase(b.nDir[i][j], b.nDir[j][i], b.harmonic), PairSBar(b, i, j), pBar.value))
  }

  /** A pair is skipped exactly when neither direction has volume, dropped exactly when its
      mean confidence is below the threshold or both win rates are undefined, and kept
      otherwise, with its own decks and a mean confidence at the threshold or above. */
  lemma {:induction false} PairOutcomeCases(b: Board, i: nat, j: nat)
    requires ValidBoard(b) && i < b.n && j < b.n
    ensures PairOutcome(b, i, j).Skipped? <==> Unexamined(b, i, j)
    ensures PairOutcome(b, i, j).Dropped? <==>
      !Unexamined(b, i, j) && (PairSBar(b, i, j) < b.sMin || (b.pHat[i][j].None? && b.pHat[j][i].None?))
    ensures PairOutcome(b, i, j).Kept? ==>
      (QualifiedEdge(b, PairOutcome(b, i, j).edge)
       && PairOutcome(b, i, j).edge.i == i && PairOutcome(b, i, j).edge.j == j)
  {
  }

  /** A retained edge: a pair i < j whose mean confidence reaches the threshold, whose
      averaged win rate is defined, and whose figures are computed from the tables. */
  predicate QualifiedEdge(b: Board, e: Edge)
    requires ValidBoard(b)
  {
    e.i < b.n && e.j < b.n && e.sBar >= b.sMin && e.sBar == PairSBar(b, e.i, e.j)
    && PBar(b.pHat[e.i][e.j], b.pHat[e.j][e.i]) == Some(e.pBar)
    && e.nBase == NBase(b.nDir[e.i][e.j], b.nDir[e.j][e.i], b.harmonic)
  }

  // The nested loop visits (0,1), …, (0,n-1), (1,2), …, (n-2,n-1). The specifications
  // below follow the same order: a row i ends at column j, and the rows before i.

  function RowKept(b: Board, i: nat, j: nat): seq<Edge>
    requires ValidBoard(b) && i < b.n && j <= b.n
    decreases j
  {
    if j <= i + 1 then []
    else
      var o := PairOutcome(b, i, j - 1);
      RowKept(b, i, j - 1) + (if o.Kept? then [o.edge] else [])
  }

  function RowDropped(b: Board, i: nat, j: nat): nat
    requires ValidBoard(b) && i < b.n && j <= b.n
    decreases j
  {
    if j <= i + 1 then 0
    else RowDropped(b, i, j - 1) + (if PairOutcome(b, i, j - 1).Dropped? then 1 else 0)
  }

  /** Pairs of the row with some volume. */
  function RowExamined(b: Board, i: nat, j: nat): nat
    requires ValidBoard(b) && i < b.n && j <= b.n
    decreases j
  {
    if j <= i + 1 then 0
    else RowExamined(b, i, j - 1) + (if Unexamined(b, i, j - 1) then 0 else 1)
  }

  /** The edges retained from the rows before i, in loop order. */
  function KeptBefore(b: Board, i: nat): seq<Edge>
    requires ValidBoard(b) && i <= b.n
  {
    if i == 0 then [] else KeptBefore(b, i - 1) + RowKept(b, i - 1, b.n)
  }

  function DroppedBefore(b: Board, i: nat): nat
    requires ValidBoard(b) && i <= b.n
  {
    if i == 0 then 0 else DroppedBefore(b, i - 1) + RowDropped(b, i - 1, b.n)
  }

  /** Number of pairs a < b of the rows before i with some volume. */
  function ExaminedBefore(b: Board, i: nat): nat
    requires ValidBoard(b) && i <= b.n
  {
    if i == 0 then 0 else ExaminedBefore(b, i - 1) + RowExamined(b, i - 1, b.n)
  }

  /** Retained edges of the whole axis. */
  function KeptEdges(b: Board): seq<Edge>
    requires ValidBoard(b)
  {
    KeptBefore(b, b.n)
  }

  function DroppedEdges(b: Board): nat
    requires ValidBoard(b)
  {
    DroppedBefore(b, b.n)
  }

  lemma {:induction false} RowCounts(b: Board, i: nat, j: nat)
    requires ValidBoard(b) && i < b.n && j <= b.n
    ensures |RowKept(b, i, j)| + RowDropped(b, i, j) == RowExamined(b, i, j)
    decreases j
  {
    if j > i + 1 {
      RowCounts(b, i, j - 1);
      PairOutcomeCases(b, i, j - 1);
    }
  }

  lemma {:induction false} RowQualify(b: Board, i: nat, j: nat)
    requires ValidBoard(b) && i < b.n && j <= b.n
    ensures forall t :: 0 <= t < |RowKept(b, i, j)| ==>
      QualifiedEdge(b, RowKept(b, i, j)[t]) && RowKept(b, i, j)[t].i == i < RowKept(b, i, j)[t].j
    decreases j
  {
    if j > i + 1 {
      RowQualify(b, i, j - 1);
      PairOutcomeCases(b, i, j - 1);
    }
  }

  /** kept + dropped is the number of pairs with some volume. */
  lemma {:induction false} KeptPlusDropped(b: Board, i: nat)
    requires ValidBoard(b) && i <= b.n
    ensures |KeptBefore(b, i)| + DroppedBefore(b, i) == ExaminedBefore(b, i)
  {
    if i > 0 {
      KeptPlusDropped(b, i - 1);
      RowCounts(b, i - 1, b.n);
    }
  }

  /** Every retained edge is a qualified pair i < j. */
  lemma {:induction false} KeptEdgesQualify(b: Board, i: nat)
    requires ValidBoard(b) && i <= b.n
    ensures forall t :: 0 <= t < |KeptBefore(b, i)| ==>
      QualifiedEdge(b, KeptBefore(b, i)[t]) && KeptBefore(b, i)[t].i < KeptBefore(b, i)[t].j
  {
    if i > 0 {
      KeptEdgesQualify(b, i - 1);
      RowQualify(b, i - 1, b.n);
      var front := KeptBefore(b, i - 1);
      var row := RowKept(b, i - 1, b.n);
      assert forall t :: 0 <= t < |front + row| ==> (front + row)[t] == if t < |front| then front[t] else row[t - |front|];
    }
  }

  /** The nested loop over the pairs i < j: retained edges and the number of dropped ones. */
  method SelectEdges(b: Board) returns (kept: seq<Edge>, dropped: nat)
    requires ValidBoard(b)
    ensures kept == KeptEdges(b) && dropped == DroppedEdges(b)
  {
    kept := [];
    dropped := 0;
    var i := 0;
    while i < b.n
      invariant i <= b.n
      invariant kept == KeptBefore(b, i) && dropped == DroppedBefore(b, i)
    {
      var j := i + 1;
      while j < b.n
        invariant i + 1 <= j <= b.n
        invariant kept == KeptBefore(b, i) + RowKept(b, i, j)
        invariant dropped == DroppedBefore(b, i) + RowDropped(b, i, j)
      {
        var outcome := PairOutcome(b, i, j);
        if outcome.Dropped? {
          dropped := dropped + 1;
        } else if outcome.Kept? {
          kept := kept + [outcome.edge];
        }
        j := j + 1;
      }
      i := i + 1;
    }
  }

  // ---------------------------------------------------------------------------------
  // Diagnostics feeding the automatic soft power
  // ---------------------------------------------------------------------------------

  /** Herfindahl index of non-negative values: the sum of squared shares; undefined when
      the total is not positive. */
  function Hhi(vals: seq<real>): Option<real>
  {
    var tot := Sum(vals);
    if tot <= 0.0 then None
    else
      var p := Scale(vals, 1.0 / tot);
      Some(Dot(p, p))
  }

  /** For non-negative values the index is a concentration in [0, 1]. */
  lemma {:induction false} HhiBounds(vals: seq<real>)
    requires forall t :: 0 <= t < |vals| ==> vals[t] >= 0.0
    ensures Hhi(vals).Some? <==> Sum(vals) > 0.0
    ensures Hhi(vals).Some? ==> 0.0 <= Hhi(vals).value <= 1.0
  {
    if Sum(vals) > 0.0 {
      var p := Scale(vals, 1.0 / Sum(vals));
      assert Sum(p) == 1.0 by { DivideBySumIsOne(vals); }
      assert Dot(p, p) <= 1.0 by { SharesNonNeg(vals, 1.0 / Sum(vals)); SquaresBelowSquare(p); }
      SquaresNonNeg(p);
    }
  }

  lemma {:induction false} SharesNonNeg(vals: seq<real>, c: real)
    requires c >= 0.0 && forall t :: 0 <= t < |vals| ==> vals[t] >= 0.0
    ensures forall t :: 0 <= t < |Scale(vals, c)| ==> Scale(vals, c)[t] >= 0.0
  {
    forall t | 0 <= t < |vals| ensures vals[t] * c >= 0.0 {
      MulNonNegative(vals[t], c);
    }
  }

  lemma {:induction false} Expand(a: real, c: real)
    ensures (a + c) * (a + c) == a * a + 2.0 * (a * c) + c * c
  {
  }

  /** For non-negative entries, the sum of squares is at most the square of the sum. */
  lemma {:induction false} SquaresBelowSquare(p: seq<real>)
    requires forall t :: 0 <= t < |p| ==> p[t] >= 0.0
    ensures Dot(p, p) <= Sum(p) * Sum(p)
  {
    if p != [] {
      SquaresBelowSquare(p[1..]);
      SumNonNeg(p[1..]);
      var a := p[0];
      var c := Sum(p[1..]);
      MulNonNegative(a, c);
      Expand(a, c);
    }
  }

  /** A sum of squares is non-negative. */
  lemma {:induction false} SquaresNonNeg(p: seq<real>)
    ensures Dot(p, p) >= 0.0
  {
    if p != [] {
      SquaresNonNeg(p[1..]);
      MulSelfNonNeg(p[0]);
    }
  }

  /** Share of retained edges whose mean confidence is within the band above the threshold. */
  function NearShare(kept: seq<Edge>, sMin: real, band: real): (r: real)
    requires |kept| > 0
    ensures 0.0 <= r <= 1.0
  {
    var near := seq(|kept|, t requires 0 <= t < |kept| => sMin <= kept[t].sBar < sMin + band);
    var c := Count(near);
    RatioInUnit(c as real, |kept| as real);
    c as real / |kept| as real
  }

  lemma {:induction false} RatioInUnit(a: real, b: real)
    requires 0.0 <= a <= b && b > 0.0
    ensures 0.0 <= a / b <= 1.0
  {
    var q := a / b;
    assert q * b == a;
    if q < 0.0 {
      MulPos(-q, b);
    }
    if q > 1.0 {
      MulPos(q - 1.0, b);
    }
  }

  /** Leverage of each retained edge: its base volume (floored at 1e-12) times the
      distance of its averaged win rate from one half. */
  function Leverage(kept: seq<Edge>): (r: seq<real>)
    ensures |r| == |kept|
    ensures forall t :: 0 <= t < |kept| ==>
      r[t] == Max(kept[t].nBase, 1e-12) * Abs(kept[t].pBar - 0.5) && r[t] >= 0.0
  {
    seq(|kept|, t requires 0 <= t < |kept| => LeverageOf(kept[t]))
  }

  function LeverageOf(e: Edge): (r: real)
    ensures r == Max(e.nBase, 1e-12) * Abs(e.pBar - 0.5) && r >= 0.0
  {
    MulNonNegative(Max(e.nBase, 1e-12), Abs(e.pBar - 0.5));
    Max(e.nBase, 1e-12) * Abs(e.pBar - 0.5)
  }

  /** Number of retained edges touching deck d. */
  function Degree(kept: seq<Edge>, d: nat): nat
  {
    if kept == [] then 0
    else
      var e := kept[|kept| - 1];
      Degree(kept[..|kept| - 1], d) + (if e.i == d then 1 else 0) + (if e.j == d then 1 else 0)
  }

  function IntSum(s: seq<int>): int
  {
    if s == [] then 0 else s[0] + IntSum(s[1..])
  }

  lemma {:induction false} IntSumUpdate(s: seq<int>, k: nat, v: int)
    requires k < |s|
    ensures IntSum(s[k := v]) == IntSum(s) - s[k] + v
  {
    if k == 0 {
      assert s[k := v][1..] == s[1..];
    } else {
      assert s[k := v][1..] == s[1..][k - 1 := v];
      IntSumUpdate(s[1..], k - 1, v);
    }
  }

  lemma {:induction false} IntSumZeros(n: nat)
    ensures IntSum(seq(n, d => 0)) == 0
  {
    if n > 0 {
      assert seq(n, d => 0)[1..] == seq(n - 1, d => 0);
      IntSumZeros(n - 1);
    }
  }

  predicate EdgesWithin(kept: seq<Edge>, n: nat)
  {
    forall t :: 0 <= t < |kept| ==> kept[t].i < n && kept[t].j < n
  }

  /** Number of retained opponents per deck: each edge counts once for each of its two
      decks, so the counts add up to twice the number of edges. */
  method DeckCounts(kept: seq<Edge>, n: nat) returns (counts: seq<int>)
    requires EdgesWithin(kept, n)
    ensures |counts| == n
    ensures forall d :: 0 <= d < n ==> counts[d] == Degree(kept, d)
    ensures IntSum(counts) == 2 * |kept|
  {
    counts := seq(n, d => 0);
    IntSumZeros(n);
    var t := 0;
    while t < |kept|
      invariant t <= |kept| && |counts| == n
      invariant forall d :: 0 <= d < n ==> counts[d] == Degree(kept[..t], d)
      invariant IntSum(counts) == 2 * t
    {
      var e := kept[t];
      assert kept[..t + 1][..t] == kept[..t];
      IntSumUpdate(counts, e.i, counts[e.i] + 1);
      counts := counts[e.i := counts[e.i] + 1];
      IntSumUpdate(counts, e.j, counts[e.j] + 1);
      counts := counts[e.j := counts[e.j] + 1];
      t := t + 1;
    }
    assert kept[..t] == kept;
  }

  /** Smallest entry of a non-empty sequence. */
  function MinOf(s: seq<int>): (r: int)
    requires |s| > 0
    ensures forall t :: 0 <= t < |s| ==> r <= s[t]
    ensures exists t :: 0 <= t < |s| && r == s[t]
  {
    if |s| == 1 then s[0]
    else
      var m := MinOf(s[1..]);
      assert forall t :: 1 <= t < |s| ==> s[t] == s[1..][t - 1];
      if s[0] <= m then s[0] else m
  }

  // ---------------------------------------------------------------------------------
  // Soft power γ
  // ---------------------------------------------------------------------------------

  /** The four signals of the automatic exponent: near-threshold share, median mean
      confidence, leverage concentration (undefined when every leverage is 0), and the
      smallest number of retained opponents of a deck. */
  datatype PowerSignals = PowerSignals(nearShare: real, sbarMedian: real, hhiLev: Option<real>, minOpp: int)

  function Clip01(x: real): (r: real)
    ensures 0.0 <= r <= 1.0
  {
    Clip(x, 0.0, 1.0)
  }

  /** The continuous automatic exponent: 1.5 plus weighted signals, clipped to [1.5, 2.1]. */
  function AutoSoftPower(g: PowerSignals): (r: real)
    ensures 1.5 <= r <= 2.1
  {
    var x1 := Clip01((g.nearShare - 0.15) / 0.15);
    var x2 := Clip01((0.60 - g.sbarMedian) / 0.10);
    var x3 := Clip01((g.hhiLev.GetOr(0.10) - 0.10) / 0.05);
    var x4 := Clip01((8.0 - g.minOpp as real) / 5.0);
    Clip(1.5 + 0.4 * x1 + 0.2 * x2 + 0.2 * x3 + 0.1 * x4, 1.5, 2.1)
  }

  /** With few near-threshold edges, confident pairs, spread leverage and at least eight
      opponents per deck, the exponent is the base 1.5. */
  lemma {:induction false} CalmSoftPower(g: PowerSignals)
    requires g.nearShare <= 0.15 && g.sbarMedian >= 0.60 && g.minOpp >= 8
    requires g.hhiLev.None? || g.hhiLev.value <= 0.10
    ensures AutoSoftPower(g) == 1.5
  {
  }

  /** Many near-threshold edges together with a low median confidence saturate it at 2.1. */
  lemma {:induction false} SaturatedSoftPower(g: PowerSignals)
    requires g.nearShare >= 0.30 && g.sbarMedian <= 0.50
    ensures AutoSoftPower(g) == 2.1
  {
  }

  /** The configured exponent, or the automatic one when none is configured. */
  function SoftPower(cfg: MarsConfig, g: PowerSignals): (r: real)
    ensures cfg.btSoftPower.None? ==> 1.5 <= r <= 2.1
    ensures cfg.btSoftPower.Some? ==> r == cfg.btSoftPower.value
  {
    if cfg.btSoftPower.None? then AutoSoftPower(g) else cfg.btSoftPower.value
  }

  // ---------------------------------------------------------------------------------
  // Soft pseudo-wins
  // ---------------------------------------------------------------------------------

  /** A pair of the estimate: decks, effective volume and the two pseudo-win counts. */
  datatype BtPair = BtPair(i: nat, j: nat, nEff: real, wij: real, wji: real)

  /** The effective volume `max(n_base · s̄^γ, 1e-9)` splits into pseudo-wins by the
      averaged win rate clipped to [1e-9, 1 - 1e-9]; `pow` is real exponentiation. */
  function PairOf(e: Edge, gamma: real, pow: (real, real) -> real): (r: BtPair)
    ensures r.i == e.i && r.j == e.j
    ensures r.nEff >= 1e-9
    ensures r.wij + r.wji == r.nEff
    ensures 0.0 < r.wij < r.nEff && 0.0 < r.wji < r.nEff
  {
    var p := Clip(e.pBar, 1e-9, 1.0 - 1e-9);
    var nEff := Max(e.nBase * pow(e.sBar, gamma), 1e-9);
    assert 0.0 < p < 1.0 && nEff > 0.0;
    MulPos(p, nEff);
    MulPos(1.0 - p, nEff);
    Distrib(p, 1.0 - p, nEff);
    BtPair(e.i, e.j, nEff, p * nEff, (1.0 - p) * nEff)
  }

  /** The loop building the pairs, with the two sanity checks of the source, which the
      contract of `PairOf` shows can never fail. */
  method BuildPairs(kept: seq<Edge>, gamma: real, pow: (real, real) -> real) returns (pairs: seq<BtPair>)
    ensures |pairs| == |kept|
    ensures forall t :: 0 <= t < |kept| ==> pairs[t] == PairOf(kept[t], gamma, pow)
  {
    pairs := [];
    var t := 0;
    while t < |kept|
      invariant t <= |kept| && |pairs| == t
      invariant forall u :: 0 <= u < t ==> pairs[u] == PairOf(kept[u], gamma, pow)
    {
      var w := PairOf(kept[t], gamma, pow);
      assert Abs((w.wij + w.wji) - w.nEff) <= 1e-6;
      assert 0.0 < w.wij < w.nEff && 0.0 < w.wji < w.nEff;
      pairs := pairs + [w];
      t := t + 1;
    }
  }

  /** Total effective volume of the pairs. */
  function TotalVolume(pairs: seq<BtPair>): real
  {
    if pairs == [] then 0.0 else TotalVolume(pairs[..|pairs| - 1]) + pairs[|pairs| - 1].nEff
  }

  /** Pseudo-wins of deck d over all pairs. */
  function WinsOf(pairs: seq<BtPair>, d: nat): real
  {
    if pairs == [] then 0.0
    else
      var q := pairs[|pairs| - 1];
      WinsOf(pairs[..|pairs| - 1], d) + (if q.i == d then q.wij else 0.0) + (if q.j == d then q.wji else 0.0)
  }

  /** Opponents of deck d with their effective volumes, in pair order. */
  function OpponentsOf(pairs: seq<BtPair>, d: nat): seq<(nat, real)>
  {
    if pairs == [] then []
    else
      var q := pairs[|pairs| - 1];
      OpponentsOf(pairs[..|pairs| - 1], d) + (if q.i == d then [(q.j, q.nEff)] else [])
        + (if q.j == d then [(q.i, q.nEff)] else [])
  }

  lemma {:induction false} SumUpdate(s: seq<real>, k: nat, v: real)
    requires k < |s|
    ensures Sum(s[k := v]) == Sum(s) - s[k] + v
  {
    if k == 0 {
      assert s[k := v][1..] == s[1..];
    } else {
      assert s[k := v][1..] == s[1..][k - 1 := v];
      SumUpdate(s[1..], k - 1, v);
    }
  }

  predicate PairsWithin(pairs: seq<BtPair>, n: nat)
  {
    forall t :: 0 <= t < |pairs| ==> pairs[t].i < n && pairs[t].j < n
  }

  /** Accumulates pseudo-wins and opponent lists per deck; the pseudo-wins add up to the
      total effective volume, since each pair splits its volume between its two decks. */
  method Accumulate(pairs: seq<BtPair>, n: nat) returns (wins: seq<real>, opp: seq<seq<(nat, real)>>)
    requires PairsWithin(pairs, n)
    requires forall t :: 0 <= t < |pairs| ==> pairs[t].wij + pairs[t].wji == pairs[t].nEff
    ensures |wins| == n && |opp| == n
    ensures forall d :: 0 <= d < n ==> wins[d] == WinsOf(pairs, d) && opp[d] == OpponentsOf(pairs, d)
    ensures Sum(wins) == TotalVolume(pairs)
  {
    wins := Const(n, 0.0);
    SumConst(n, 0.0);
    opp := seq(n, d => []);
    var t := 0;
    while t < |pairs|
      invariant t <= |pairs| && |wins| == n && |opp| == n
      invariant Accumulated(pairs[..t], wins, opp)
      invariant Sum(wins) == TotalVolume(pairs[..t])
    {
      var q := pairs[t];
      ghost var wins0, opp0 := wins, opp;
      SumUpdate(wins, q.i, wins[q.i] + q.wij);
      wins := wins[q.i := wins[q.i] + q.wij];
      SumUpdate(wins, q.j, wins[q.j] + q.wji);
      wins := wins[q.j := wins[q.j] + q.wji];
      opp := opp[q.i := opp[q.i] + [(q.j, q.nEff)]];
      opp := opp[q.j := opp[q.j] + [(q.i, q.nEff)]];
      assert pairs[..t + 1][..t] == pairs[..t];
      AccumulateStep(pairs[..t + 1], wins0, opp0, wins, opp);
      t := t + 1;
    }
    assert pairs[..t] == pairs;
  }

  /** Entry d of the accumulators holds deck d's pseudo-wins and opponents. */
  predicate Accumulated(pairs: seq<BtPair>, wins: seq<real>, opp: seq<seq<(nat, real)>>)
  {
    |wins| == |opp|
    && forall d :: 0 <= d < |wins| ==> wins[d] == WinsOf(pairs, d) && opp[d] == OpponentsOf(pairs, d)
  }

  lemma {:induction false} AccumulateStep(pairs: seq<BtPair>, wins0: seq<real>, opp0: seq<seq<(nat, real)>>,
                       wins: seq<real>, opp: seq<seq<(nat, real)>>)
    requires pairs != [] && Accumulated(pairs[..|pairs| - 1], wins0, opp0)
    requires pairs[|pairs| - 1].i < |wins0| && pairs[|pairs| - 1].j < |wins0|
    requires var q := pairs[|pairs| - 1];
      var w1 := wins0[q.i := wins0[q.i] + q.wij];
      wins == w1[q.j := w1[q.j] + q.wji]
    requires var q := pairs[|pairs| - 1];
      var o1 := opp0[q.i := opp0[q.i] + [(q.j, q.nEff)]];
      opp == o1[q.j := o1[q.j] + [(q.i, q.nEff)]]
    ensures Accumulated(pairs, wins, opp)
  {
  }

  /** Every opponent entry names a deck of the axis and carries a positive volume. */
  predicate OpponentsWithin(opp: seq<seq<(nat, real)>>, n: nat)
  {
    forall d, t :: 0 <= d < |opp| && 0 <= t < |opp[d]| ==> opp[d][t].0 < n && opp[d][t].1 > 0.0
  }

  lemma {:induction false} OpponentsOfWithin(pairs: seq<BtPair>, n: nat, d: nat)
    requires PairsWithin(pairs, n)
    requires forall t :: 0 <= t < |pairs| ==> pairs[t].nEff > 0.0
    ensures forall t :: 0 <= t < |OpponentsOf(pairs, d)| ==>
      OpponentsOf(pairs, d)[t].0 < n && OpponentsOf(pairs, d)[t].1 > 0.0
  {
    if pairs != [] {
      var front := pairs[..|pairs| - 1];
      OpponentsOfWithin(front, n, d);
      var q := pairs[|pairs| - 1];
      var a := OpponentsOf(front, d);
      var b := if q.i == d then [(q.j, q.nEff)] else [];
      var c := if q.j == d then [(q.i, q.nEff)] else [];
      assert OpponentsOf(pairs, d) == a + b + c;
      assert forall t :: 0 <= t < |a + b + c| ==>
        (a + b + c)[t] == if t < |a| then a[t] else if t < |a| + |b| then b[t - |a|] else c[t - |a| - |b|];
    }
  }

  // ---------------------------------------------------------------------------------
  // Minorise–maximise estimate with ridge λ
  // ---------------------------------------------------------------------------------

  /** Every ability is at the floor 1e-8 or above. */
  predicate Floored(pi: seq<real>)
  {
    forall d :: 0 <= d < |pi| ==> pi[d] >= 1e-8
  }

  function MMTerm(w: real, d: real): real
    requires d > 0.0
  {
    w / d
  }

  /** Σ n_eff / (π_i + π_j + 1e-12) over deck i's opponent list. */
  function Denom(os: seq<(nat, real)>, pi: seq<real>, piI: real): real
    requires Floored(pi) && piI >= 1e-8
    requires forall t :: 0 <= t < |os| ==> os[t].0 < |pi|
  {
    if os == [] then 0.0
    else
      var last := os[|os| - 1];
      Denom(os[..|os| - 1], pi, piI) + MMTerm(last.1, piI + pi[last.0] + 1e-12)
  }

  /** With positive volumes the MM denominator is non-negative. */
  lemma {:induction false} DenomNonNeg(os: seq<(nat, real)>, pi: seq<real>, piI: real)
    requires Floored(pi) && piI >= 1e-8
    requires forall t :: 0 <= t < |os| ==> os[t].0 < |pi| && os[t].1 > 0.0
    ensures Denom(os, pi, piI) >= 0.0
  {
    if os != [] {
      DenomNonNeg(os[..|os| - 1], pi, piI);
      var last := os[|os| - 1];
      DivPositive(last.1, piI + pi[last.0] + 1e-12);
    }
  }

  /** The denominator sum of one deck, accumulated over its opponent list. */
  method DenomOf(os: seq<(nat, real)>, pi: seq<real>, piI: real) returns (denom: real)
    requires Floored(pi) && piI >= 1e-8
    requires forall t :: 0 <= t < |os| ==> os[t].0 < |pi|
    ensures denom == Denom(os, pi, piI)
  {
    denom := 0.0;
    var t := 0;
    while t < |os|
      invariant t <= |os| && denom == Denom(os[..t], pi, piI)
    {
      var (j, nEff) := os[t];
      assert os[..t + 1][..t] == os[..t];
      denom := denom + nEff / (piI + pi[j] + 1e-12);
      t := t + 1;
    }
    assert os[..t] == os;
  }

  predicate RoundInputs(wins: seq<real>, opp: seq<seq<(nat, real)>>, pi: seq<real>)
  {
    |wins| == |pi| && |opp| == |pi| && Floored(pi) && OpponentsWithin(opp, |pi|)
  }

  function DenomAt(wins: seq<real>, opp: seq<seq<(nat, real)>>, pi: seq<real>, i: nat): real
    requires RoundInputs(wins, opp, pi) && i < |pi|
  {
    Denom(opp[i], pi, pi[i])
  }

  /** No deck's update divides by zero. */
  predicate Solvable(wins: seq<real>, opp: seq<seq<(nat, real)>>, pi: seq<real>, lambda: real)
    requires RoundInputs(wins, opp, pi)
  {
    forall i :: 0 <= i < |pi| ==> DenomAt(wins, opp, pi, i) + lambda + 1e-12 != 0.0
  }

  /** No update of decks 0..k-1 divides by zero. */
  predicate SolvableUpTo(wins: seq<real>, opp: seq<seq<(nat, real)>>, pi: seq<real>, lambda: real, k: nat)
    requires RoundInputs(wins, opp, pi) && k <= |pi|
  {
    forall i :: 0 <= i < k ==> DenomAt(wins, opp, pi, i) + lambda + 1e-12 != 0.0
  }

  /** The ridge-regularised update `(W_i + λ) / (D_i + λ + 1e-12)` of deck i. */
  function UpdateAt(wins: seq<real>, opp: seq<seq<(nat, real)>>, pi: seq<real>, lambda: real, i: nat): real
    requires RoundInputs(wins, opp, pi) && i < |pi|
    requires DenomAt(wins, opp, pi, i) + lambda + 1e-12 != 0.0
  {
    (wins[i] + lambda) / (DenomAt(wins, opp, pi, i) + lambda + 1e-12)
  }

  /** Relative change `|upd - π_i| / (π_i + 1e-9)` of deck i. */
  function RelChangeAt(wins: seq<real>, opp: seq<seq<(nat, real)>>, pi: seq<real>, lambda: real, i: nat): real
    requires RoundInputs(wins, opp, pi) && i < |pi|
    requires DenomAt(wins, opp, pi, i) + lambda + 1e-12 != 0.0
  {
    Abs(UpdateAt(wins, opp, pi, lambda, i) - pi[i]) / (pi[i] + 1e-9)
  }

  /** One simultaneous MM round: every ability is replaced by its update floored at 1e-8,
      and maxRel is the largest relative change. */
  predicate Stepped(wins: seq<real>, opp: seq<seq<(nat, real)>>, pi: seq<real>, lambda: real,
                    newPi: seq<real>, maxRel: real)
    requires RoundInputs(wins, opp, pi) && Solvable(wins, opp, pi, lambda)
  {
    |newPi| == |pi| && maxRel >= 0.0
    && (forall i :: 0 <= i < |pi| ==>
          newPi[i] == Max(UpdateAt(wins, opp, pi, lambda, i), 1e-8)
          && RelChangeAt(wins, opp, pi, lambda, i) <= maxRel)
    && (maxRel == 0.0 || exists i :: 0 <= i < |pi| && maxRel == RelChangeAt(wins, opp, pi, lambda, i))
  }

  /** A round keeps every ability at the floor or above. */
  lemma {:induction false} SteppedFloored(wins: seq<real>, opp: seq<seq<(nat, real)>>, pi: seq<real>, lambda: real,
                       newPi: seq<real>, maxRel: real)
    requires RoundInputs(wins, opp, pi) && Solvable(wins, opp, pi, lambda)
    requires Stepped(wins, opp, pi, lambda, newPi, maxRel)
    ensures Floored(newPi)
  {
    forall d | 0 <= d < |newPi| ensures newPi[d] >= 1e-8 {
      assert newPi[d] == Max(UpdateAt(wins, opp, pi, lambda, d), 1e-8);
    }
  }

  /** With λ ≥ 0 and positive volumes no denominator can vanish. */
  lemma {:induction false} SolvableWithRidge(wins: seq<real>, opp: seq<seq<(nat, real)>>, pi: seq<real>, lambda: real)
    requires RoundInputs(wins, opp, pi) && lambda >= 0.0
    ensures Solvable(wins, opp, pi, lambda)
  {
    forall i | 0 <= i < |pi| ensures DenomAt(wins, opp, pi, i) + lambda + 1e-12 != 0.0 {
      DenomNonNeg(opp[i], pi, pi[i]);
    }
  }

  /** The abilities after one round: every update floored at 1e-8. */
  function NextPi(wins: seq<real>, opp: seq<seq<(nat, real)>>, pi: seq<real>, lambda: real): (r: seq<real>)
    requires RoundInputs(wins, opp, pi) && Solvable(wins, opp, pi, lambda)
    ensures |r| == |pi| && Floored(r)
    ensures forall i :: 0 <= i < |pi| ==> r[i] == Max(UpdateAt(wins, opp, pi, lambda, i), 1e-8)
  {
    seq(|pi|, i requires 0 <= i < |pi| => Max(UpdateAt(wins, opp, pi, lambda, i), 1e-8))
  }

  /** The running maximum `max_rel` after decks 0..k-1, starting from 0. */
  function MaxRelUpTo(wins: seq<real>, opp: seq<seq<(nat, real)>>, pi: seq<real>, lambda: real, k: nat): real
    requires RoundInputs(wins, opp, pi) && k <= |pi| && SolvableUpTo(wins, opp, pi, lambda, k)
  {
    if k == 0 then 0.0
    else Max(MaxRelUpTo(wins, opp, pi, lambda, k - 1), RelChangeAt(wins, opp, pi, lambda, k - 1))
  }

  /** The `max_rel` of a whole round. */
  function MaxRel(wins: seq<real>, opp: seq<seq<(nat, real)>>, pi: seq<real>, lambda: real): real
    requires RoundInputs(wins, opp, pi) && Solvable(wins, opp, pi, lambda)
  {
    MaxRelUpTo(wins, opp, pi, lambda, |pi|)
  }

  /** The running maximum bounds every relative change so far and is 0 or one of them. */
  lemma {:induction false} MaxRelUpToSpec(wins: seq<real>, opp: seq<seq<(nat, real)>>, pi: seq<real>, lambda: real, k: nat)
    requires RoundInputs(wins, opp, pi) && k <= |pi| && SolvableUpTo(wins, opp, pi, lambda, k)
    ensures var m := MaxRelUpTo(wins, opp, pi, lambda, k);
      m >= 0.0 && (forall i :: 0 <= i < k ==> RelChangeAt(wins, opp, pi, lambda, i) <= m)
      && (m == 0.0 || exists i :: 0 <= i < k && m == RelChangeAt(wins, opp, pi, lambda, i))
  {
    if k > 0 {
      MaxRelUpToSpec(wins, opp, pi, lambda, k - 1);
    }
  }

  /** The computed round is a round of the MM update: NextPi and MaxRel meet Stepped. */
  lemma {:induction false} RoundIsStepped(wins: seq<real>, opp: seq<seq<(nat, real)>>, pi: seq<real>, lambda: real)
    requires RoundInputs(wins, opp, pi) && Solvable(wins, opp, pi, lambda)
    ensures Stepped(wins, opp, pi, lambda, NextPi(wins, opp, pi, lambda), MaxRel(wins, opp, pi, lambda))
  {
    MaxRelUpToSpec(wins, opp, pi, lambda, |pi|);
  }

  /** One round of the MM loop over every deck; it reads the abilities of the previous
      round and writes a copy. A zero denominator is a division error. */
  method MMRound(wins: seq<real>, opp: seq<seq<(nat, real)>>, pi: seq<real>, lambda: real)
    returns (ok: bool, newPi: seq<real>, maxRel: real)
    requires RoundInputs(wins, opp, pi)
    ensures ok <==> Solvable(wins, opp, pi, lambda)
    ensures ok ==> newPi == NextPi(wins, opp, pi, lambda) && maxRel == MaxRel(wins, opp, pi, lambda)
  {
    newPi := pi;
    maxRel := 0.0;
    var i := 0;
    while i < |pi|
      invariant i <= |pi| && |newPi| == |pi|
      invariant SolvableUpTo(wins, opp, pi, lambda, i)
      invariant forall u :: 0 <= u < i ==> newPi[u] == Max(UpdateAt(wins, opp, pi, lambda, u), 1e-8)
      invariant maxRel == MaxRelUpTo(wins, opp, pi, lambda, i)
    {
      var sI := wins[i];
      var piI := pi[i];
      var denom := DenomOf(opp[i], pi, piI);
      if denom + lambda + 1e-12 == 0.0 {
        ok := false;
        return;
      }
      var upd := (sI + lambda) / (denom + lambda + 1e-12);
      var rel := Abs(upd - piI) / (piI + 1e-9);
      assert rel == RelChangeAt(wins, opp, pi, lambda, i);
      maxRel := Max(maxRel, rel);
      newPi := newPi[i := Max(upd, 1e-8)];
      i := i + 1;
    }
    ok := true;
  }

  /** The MM iterates from pi0: k rounds of NextPi, None once a round would divide by zero. */
  function Iterate(wins: seq<real>, opp: seq<seq<(nat, real)>>, pi0: seq<real>, lambda: real, k: nat)
    : (r: Option<seq<real>>)
    requires RoundInputs(wins, opp, pi0)
    ensures r.Some? ==> RoundInputs(wins, opp, r.value) && |r.value| == |pi0|
  {
    if k == 0 then Some(pi0)
    else
      var p := Iterate(wins, opp, pi0, lambda, k - 1);
      if p.None? || !Solvable(wins, opp, p.value, lambda) then None
      else Some(NextPi(wins, opp, p.value, lambda))
  }

  /** Round k ran (k ≥ 1) and its largest relative change was below tol. */
  predicate ConvergedAt(wins: seq<real>, opp: seq<seq<(nat, real)>>, pi0: seq<real>, lambda: real, tol: real, k: nat)
    requires RoundInputs(wins, opp, pi0)
  {
    k >= 1 &&
    var p := Iterate(wins, opp, pi0, lambda, k - 1);
    p.Some? && Solvable(wins, opp, p.value, lambda) && MaxRel(wins, opp, p.value, lambda) < tol
  }

  /** What the MM loop computes from abilities all 1: the loop ran `rounds` rounds, none
      before the last below tol. On success the abilities are the iterate after those
      rounds, `converged` says whether the last one was below tol, and otherwise all
      maxIter rounds ran; on failure the next round would have divided by zero. */
  predicate Estimated(wins: seq<real>, opp: seq<seq<(nat, real)>>, n: nat, lambda: real, maxIter: nat, tol: real,
                      ok: bool, pi: seq<real>, rounds: nat, converged: bool)
  {
    var p0 := Const(n, 1.0);
    && RoundInputs(wins, opp, p0)
    && rounds <= maxIter
    && (forall k :: 1 <= k < rounds ==> !ConvergedAt(wins, opp, p0, lambda, tol, k))
    && (ok ==> Iterate(wins, opp, p0, lambda, rounds) == Some(pi)
               && (converged <==> ConvergedAt(wins, opp, p0, lambda, tol, rounds))
               && (!converged ==> rounds == maxIter))
    && (!ok ==> rounds < maxIter && !ConvergedAt(wins, opp, p0, lambda, tol, rounds)
                && Iterate(wins, opp, p0, lambda, rounds).Some?
                && Iterate(wins, opp, p0, lambda, rounds + 1).None?)
  }

  /** Once a round fails, every later iterate fails too. */
  lemma {:induction false} IterateNoneStays(wins: seq<real>, opp: seq<seq<(nat, real)>>, pi0: seq<real>, lambda: real,
                                            k: nat, m: nat)
    requires RoundInputs(wins, opp, pi0)
    ensures k <= m && Iterate(wins, opp, pi0, lambda, k).None? ==> Iterate(wins, opp, pi0, lambda, m).None?
    decreases m
  {
    if k < m {
      IterateNoneStays(wins, opp, pi0, lambda, k, m - 1);
    }
  }

  /** The MM loop's outcome is determined by its inputs. */
  lemma {:induction false} EstimatedUnique(wins: seq<real>, opp: seq<seq<(nat, real)>>, n: nat, lambda: real,
                                           maxIter: nat, tol: real, ok1: bool, pi1: seq<real>, r1: nat, c1: bool,
                                           ok2: bool, pi2: seq<real>, r2: nat, c2: bool)
    requires Estimated(wins, opp, n, lambda, maxIter, tol, ok1, pi1, r1, c1)
    requires Estimated(wins, opp, n, lambda, maxIter, tol, ok2, pi2, r2, c2)
    ensures ok1 == ok2 && r1 == r2 && (ok1 ==> pi1 == pi2 && c1 == c2)
  {
    EstimatedRoundsLe(wins, opp, n, lambda, maxIter, tol, ok1, pi1, r1, c1, ok2, pi2, r2, c2);
    EstimatedRoundsLe(wins, opp, n, lambda, maxIter, tol, ok2, pi2, r2, c2, ok1, pi1, r1, c1);
  }

  lemma {:induction false} EstimatedRoundsLe(wins: seq<real>, opp: seq<seq<(nat, real)>>, n: nat, lambda: real,
                                             maxIter: nat, tol: real, ok1: bool, pi1: seq<real>, r1: nat, c1: bool,
                                             ok2: bool, pi2: seq<real>, r2: nat, c2: bool)
    requires Estimated(wins, opp, n, lambda, maxIter, tol, ok1, pi1, r1, c1)
    requires Estimated(wins, opp, n, lambda, maxIter, tol, ok2, pi2, r2, c2)
    ensures r2 <= r1
  {
    var p0 := Const(n, 1.0);
    IterateNoneStays(wins, opp, p0, lambda, r1 + 1, r2);
    var c := ConvergedAt(wins, opp, p0, lambda, tol, r1);
    assert 1 <= r1 < r2 ==> !c;
  }

  /** The MM loop: at most maxIter rounds from abilities all 1, stopping after the first
      round whose largest relative change is below tol. */
  method EstimateAbilities(wins: seq<real>, opp: seq<seq<(nat, real)>>, n: nat, lambda: real,
                           maxIter: nat, tol: real)
    returns (ok: bool, pi: seq<real>, rounds: nat, converged: bool)
    requires |wins| == n && |opp| == n && OpponentsWithin(opp, n)
    ensures Estimated(wins, opp, n, lambda, maxIter, tol, ok, pi, rounds, converged)
    ensures ok ==> |pi| == n && Floored(pi)
    ensures lambda >= 0.0 ==> ok
  {
    pi := Const(n, 1.0);
    ghost var p0 := pi;
    assert RoundInputs(wins, opp, p0);
    rounds := 0;
    converged := false;
    ok := true;
    while rounds < maxIter && !converged
      invariant rounds <= maxIter
      invariant Iterate(wins, opp, p0, lambda, rounds) == Some(pi)
      invariant forall k :: 1 <= k < rounds ==> !ConvergedAt(wins, opp, p0, lambda, tol, k)
      invariant converged <==> ConvergedAt(wins, opp, p0, lambda, tol, rounds)
      decreases maxIter - rounds, if converged then 0 else 1
    {
      if lambda >= 0.0 {
        SolvableWithRidge(wins, opp, pi, lambda);
      }
      var solved, newPi, maxRel := MMRound(wins, opp, pi, lambda);
      if !solved {
        ok := false;
        return;
      }
      EstimateStep(wins, opp, p0, lambda, tol, rounds, pi, converged);
      pi := newPi;
      rounds := rounds + 1;
      if maxRel < tol {
        converged := true;
      }
    }
  }

  /** One round of the MM loop keeps its invariant. */
  lemma {:induction false} EstimateStep(wins: seq<real>, opp: seq<seq<(nat, real)>>, p0: seq<real>, lambda: real,
                                        tol: real, rounds: nat, pi: seq<real>, converged: bool)
    requires RoundInputs(wins, opp, p0)
    requires Iterate(wins, opp, p0, lambda, rounds) == Some(pi)
    requires forall k :: 1 <= k < rounds ==> !ConvergedAt(wins, opp, p0, lambda, tol, k)
    requires !converged && (converged <==> ConvergedAt(wins, opp, p0, lambda, tol, rounds))
    requires RoundInputs(wins, opp, pi) && Solvable(wins, opp, pi, lambda)
    ensures Iterate(wins, opp, p0, lambda, rounds + 1) == Some(NextPi(wins, opp, pi, lambda))
    ensures forall k :: 1 <= k < rounds + 1 ==> !ConvergedAt(wins, opp, p0, lambda, tol, k)
    ensures ConvergedAt(wins, opp, p0, lambda, tol, rounds + 1) <==> MaxRel(wins, opp, pi, lambda) < tol
  {
  }

  // ---------------------------------------------------------------------------------
  // The whole procedure
  // ---------------------------------------------------------------------------------

  /** Diagnostics: the zero-edge fallback reports only the dropped count and threshold. */
  datatype BtDiag =
    | FallbackDiag(dropped: nat, sMin: real)
    | FullDiag(kept: nat, dropped: nat, nearShare: real, sbarMedian: real, hhiLev: Option<real>,
               minOpp: int, softPower: real, autoPower: bool, sMin: real)

  /** Scores in [0, 100] per deck, diagnostics, the weighted pairs, and the MM abilities
      before the logistic scaling (empty on the fallback path). */
  datatype BtOutput = BtOutput(btPct: seq<real>, diag: BtDiag, pairs: seq<BtPair>, abilities: seq<real>)

  function BoardOf(nDir: Mat, pHat: Mat, n: nat, kUsed: real, cfg: MarsConfig): Board
    requires cfg.nMinBtTarget as real + kUsed != 0.0
  {
    Board(nDir, pHat, n, kUsed, SMin(cfg.nMinBtTarget, kUsed), cfg.btUseHarmonicN)
  }

  /** Every deck's summed pair wins, in axis order (`wins_out`). */
  function PairWins(pairs: seq<BtPair>, n: nat): (r: seq<real>)
    ensures |r| == n && forall d :: 0 <= d < n ==> r[d] == WinsOf(pairs, d)
  {
    seq(n, d requires 0 <= d < n => WinsOf(pairs, d))
  }

  /** Every deck's opponent list, in axis order (`opp_list`). */
  function PairOpponents(pairs: seq<BtPair>, n: nat): (r: seq<seq<(nat, real)>>)
    ensures |r| == n && forall d :: 0 <= d < n ==> r[d] == OpponentsOf(pairs, d)
  {
    seq(n, d requires 0 <= d < n => OpponentsOf(pairs, d))
  }

  /** What a successful run returns: on zero retained edges every deck scores 50 with no
      pairs. Otherwise the diagnostics are the signals of the retained edges and the
      exponent is SoftPower of them; there is one weighted pair per retained edge in loop
      order, split with that exponent; the abilities are the outcome of the MM loop on
      those pairs; and the scores are their scaled values. */
  ghost predicate BtOutcome(b: Board, cfg: MarsConfig, pow: (real, real) -> real, median: seq<real> -> real,
                      scale: seq<real> -> seq<real>, out: BtOutput)
    requires ValidBoard(b)
  {
    var kept := KeptEdges(b);
    if |kept| == 0 then
      out == BtOutput(Const(b.n, 50.0), FallbackDiag(DroppedEdges(b), b.sMin), [], [])
    else
      out.diag.FullDiag? && out.diag.kept == |kept| && out.diag.dropped == DroppedEdges(b)
      && out.diag.sMin == b.sMin
      && out.diag.nearShare == NearShare(kept, b.sMin, cfg.btNearBand)
      && out.diag.sbarMedian == median(SBars(kept))
      && out.diag.hhiLev == Hhi(Leverage(kept))
      && out.diag.minOpp == (if b.n > 0 then MinOf(Degrees(kept, b.n)) else 0)
      && out.diag.softPower == SoftPower(cfg, PowerSignals(out.diag.nearShare, out.diag.sbarMedian,
                                                           out.diag.hhiLev, out.diag.minOpp))
      && out.diag.autoPower == cfg.btSoftPower.None?
      && |out.pairs| == |kept|
      && (forall t :: 0 <= t < |kept| ==> out.pairs[t] == PairOf(kept[t], out.diag.softPower, pow))
      && (exists rounds: nat, converged: bool ::
            Estimated(PairWins(out.pairs, b.n), PairOpponents(out.pairs, b.n), b.n, cfg.lambdaRidge,
                      cfg.maxBtIter, cfg.btTol, true, out.abilities, rounds, converged))
      && |out.abilities| == b.n && Floored(out.abilities)
      && out.btPct == scale(out.abilities)
  }

  /** Every deck's number of retained opponents, in axis order. */
  function Degrees(kept: seq<Edge>, n: nat): (r: seq<int>)
    ensures |r| == n && forall d :: 0 <= d < n ==> r[d] == Degree(kept, d)
  {
    seq(n, d requires 0 <= d < n => Degree(kept, d))
  }

  /** The s̄ value of every retained edge, in loop order. */
  function SBars(kept: seq<Edge>): (r: seq<real>)
    ensures |r| == |kept| && forall t :: 0 <= t < |kept| ==> r[t] == kept[t].sBar
  {
    seq(|kept|, t requires 0 <= t < |kept| => kept[t].sBar)
  }

  /** The four signals that drive the automatic exponent; the fewest opponents of any deck
      is 0 on an empty axis. */
  method Signals(kept: seq<Edge>, n: nat, sMin: real, band: real, median: seq<real> -> real)
    returns (g: PowerSignals)
    requires |kept| > 0 && EdgesWithin(kept, n)
    ensures g.nearShare == NearShare(kept, sMin, band) && 0.0 <= g.nearShare <= 1.0
    ensures g.sbarMedian == median(SBars(kept))
    ensures g.hhiLev == Hhi(Leverage(kept))
    ensures g.minOpp == (if n > 0 then MinOf(Degrees(kept, n)) else 0)
  {
    var counts := DeckCounts(kept, n);
    assert counts == Degrees(kept, n);
    var minOpp := if |counts| > 0 then MinOf(counts) else 0;
    g := PowerSignals(NearShare(kept, sMin, band), median(SBars(kept)), Hhi(Leverage(kept)), minOpp);
  }

  /** Weighted pairs and the MM fit on them; the fit fails only on a zero denominator. */
  method Fit(kept: seq<Edge>, n: nat, gamma: real, pow: (real, real) -> real, cfg: MarsConfig)
    returns (ok: bool, pairs: seq<BtPair>, pi: seq<real>, ghost rounds: nat, ghost converged: bool)
    requires EdgesWithin(kept, n)
    ensures |pairs| == |kept| && forall t :: 0 <= t < |kept| ==> pairs[t] == PairOf(kept[t], gamma, pow)
    ensures Estimated(PairWins(pairs, n), PairOpponents(pairs, n), n, cfg.lambdaRidge, cfg.maxBtIter, cfg.btTol,
                      ok, pi, rounds, converged)
    ensures ok ==> |pi| == n && Floored(pi)
    ensures cfg.lambdaRidge >= 0.0 ==> ok
  {
    pairs := BuildPairs(kept, gamma, pow);
    assert PairsWithin(pairs, n);
    var wins, opp := Accumulate(pairs, n);
    forall d: nat | d < n
      ensures forall t :: 0 <= t < |OpponentsOf(pairs, d)| ==>
        OpponentsOf(pairs, d)[t].0 < n && OpponentsOf(pairs, d)[t].1 > 0.0
    {
      OpponentsOfWithin(pairs, n, d);
    }
    assert OpponentsWithin(opp, n);
    assert wins == PairWins(pairs, n) && opp == PairOpponents(pairs, n);
    var r, c;
    ok, pi, r, c := EstimateAbilities(wins, opp, n, cfg.lambdaRidge, cfg.maxBtIter, cfg.btTol);
    rounds, converged := r, c;
  }

  /** The Bradley–Terry procedure. `pow` is real exponentiation, `median` the NaN-skipping
      median, and `scale` the geometric-mean normalisation and logistic map to [0, 100]. A
      zero MM denominator (possible only with a negative ridge) is a division error. */
  method BtSoft(nDir: Mat, pHat: Mat, n: nat, kUsed: real, cfg: MarsConfig,
                pow: (real, real) -> real, median: seq<real> -> real, scale: seq<real> -> seq<real>)
    returns (r: Result<BtOutput>)
    requires IsSquare(nDir, n) && IsSquare(pHat, n) && kUsed >= 0.0
    requires cfg.nMinBtTarget as real + kUsed != 0.0
    ensures r.Success? ==> BtOutcome(BoardOf(nDir, pHat, n, kUsed, cfg), cfg, pow, median, scale, r.value)
    ensures cfg.lambdaRidge >= 0.0 ==> r.Success?
  {
    var sMin := SMin(cfg.nMinBtTarget, kUsed);
    var b := Board(nDir, pHat, n, kUsed, sMin, cfg.btUseHarmonicN);
    var kept, dropped := SelectEdges(b);
    if |kept| == 0 {
      return Success(BtOutput(Const(n, 50.0), FallbackDiag(dropped, sMin), [], []));
    }
    KeptEdgesQualify(b, n);
    assert EdgesWithin(kept, n);
    var g := Signals(kept, n, sMin, cfg.btNearBand, median);
    var gamma := SoftPower(cfg, g);
    var ok, pairs, pi, rounds, converged := Fit(kept, n, gamma, pow, cfg);
    if !ok {
      return Failure("float division by zero");
    }
    var diag := FullDiag(|kept|, dropped, g.nearShare, g.sbarMedian, g.hhiLev, g.minOpp, gamma,
                         cfg.btSoftPower.None?, sMin);
    r := Success(BtOutput(scale(pi), diag, pairs, pi));
    assert Estimated(PairWins(pairs, n), PairOpponents(pairs, n), n, cfg.lambdaRidge, cfg.maxBtIter, cfg.btTol,
                     true, pi, rounds, converged);
  }
}

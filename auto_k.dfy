/** AUTO-K-CV (mars/auto_k_cv.py): one prior strength K for every pair, chosen on a grid
    by held-out predictive log-likelihood.
    The log-likelihood itself (lgamma sums) is the parameter `ll`, and the bootstrap
    statistics (median, IQR, mode frequency of the resampled picks) and the scale
    beta_auto = sqrt(max(median N, 1) * max(p75 N, 1)) are inputs. */
module AutoK {
  import opened Wrappers
  import opened Numeric
  import opened Matrix
  import opened Config

  // ---------------------------------------------------------------------------------
  // Deterministic train/test split of one cell

  datatype SplitParts = SplitParts(wtr: int, ltr: int, wte: int, lte: int)

  /** The size of the test part from the target t0 = round(rho * N): raised to 2 when
      N >= 4, then clamped to [1, N - 1] (which gives 0 for N = 1). */
  function TestSizeOf(n: int, t0: int): int
  {
    var t := if n >= 4 then MaxInt(t0, 2) else t0;
    MinInt(MaxInt(1, t), MaxInt(0, n - 1))
  }

  function TestSize(n: int, rho: real): int
  {
    TestSizeOf(n, RoundHalfEven(rho * n as real))
  }

  /** The test slots in proportion to the wins, test * W/N. */
  function WinShare(test: int, w: int, n: int): real
    requires n != 0
  {
    test as real * (w as real / n as real)
  }

  /** The test wins before clamping, round(test * W/N). */
  function RawTestWins(test: int, w: int, n: int): int
    requires n != 0
  {
    RoundHalfEven(WinShare(test, w, n))
  }

  /** The clamping of the split once the test size and the raw test wins are known: test
      wins clamped to [0, W], test losses (the rest of the test slots) clamped to [0, L]; an
      empty train part with N > 1 takes one unit back from the larger test side. */
  function ClampSplit(w: int, l: int, test: int, raw: int): (r: SplitParts)
    ensures r.wtr + r.wte == w && r.ltr + r.lte == l
  {
    var wte := MaxInt(0, MinInt(raw, w));
    var lte := MaxInt(0, MinInt(test - wte, l));
    if w - wte + (l - lte) <= 0 && w + l > 1 then
      if wte >= lte && wte > 0 then SplitParts(w - wte + 1, l - lte, wte - 1, lte)
      else if lte > 0 then SplitParts(w - wte, l - lte + 1, wte, lte - 1)
      else SplitParts(w - wte, l - lte, wte, lte)
    else SplitParts(w - wte, l - lte, wte, lte)
  }

  /** _split_counts as a value. */
  function Split(w: int, l: int, rho: real): (r: SplitParts)
    ensures w + l > 0 || (w >= 0 && l >= 0) ==> r.wtr + r.wte == w && r.ltr + r.lte == l
  {
    var n := w + l;
    if n <= 0 then SplitParts(0, 0, 0, 0)
    else
      var test := TestSize(n, rho);
      ClampSplit(w, l, test, RawTestWins(test, w, n))
  }

  /** The test size of _split_counts, computed as the source does. */
  method TestSlots(n: int, rho: real) returns (test: int)
    ensures test == TestSize(n, rho)
  {
    var testTarget := RoundHalfEven(rho * n as real);
    if n >= 4 {
      testTarget := MaxInt(testTarget, 2);
    }
    test := MinInt(MaxInt(1, testTarget), MaxInt(0, n - 1));
  }

  /** _split_counts, step by step as the source reassigns its locals. */
  method SplitCounts(w: int, l: int, rho: real) returns (wtr: int, ltr: int, wte: int, lte: int)
    ensures SplitParts(wtr, ltr, wte, lte) == Split(w, l, rho)
  {
    var n := w + l;
    if n <= 0 {
      return 0, 0, 0, 0;
    }
    var test := TestSlots(n, rho);
    wte := RawTestWins(test, w, n);
    wte := MaxInt(0, MinInt(wte, w));
    lte := test - wte;
    lte := MaxInt(0, MinInt(lte, l));
    wtr, ltr := w - wte, l - lte;
    if wtr + ltr <= 0 && n > 1 {
      if wte >= lte && wte > 0 {
        wte, wtr := wte - 1, wtr + 1;
      } else if lte > 0 {
        lte, ltr := lte - 1, ltr + 1;
      }
    }
  }

  /** No games: nothing in either part. */
  lemma {:induction false} SplitOfNothing(w: int, l: int, rho: real)
    requires w + l <= 0
    ensures Split(w, l, rho) == SplitParts(0, 0, 0, 0)
  {
  }

  /** A single game stays in the train part. */
  lemma {:induction false} SplitOfOne(w: int, l: int, rho: real)
    requires w + l == 1
    ensures Split(w, l, rho).wte == 0 && Split(w, l, rho).lte == 0
  {
    assert TestSize(1, rho) == 0;
  }

  /** For N > 1 the test part has between 1 and N - 1 slots, and at least 2 for N >= 4. */
  lemma {:induction false} TestSizeBounds(n: int, t0: int)
    ensures n > 1 ==> 1 <= TestSizeOf(n, t0) <= n - 1
    ensures n >= 4 ==> 2 <= TestSizeOf(n, t0)
    ensures n == 1 ==> TestSizeOf(n, t0) == 0
  {
  }

  /** 0 <= test * W/N <= test when 0 <= W <= N, with equality at W = N. */
  lemma {:induction false} ShareOfTest(test: real, w: real, n: real)
    requires 0.0 <= w <= n && n > 0.0 && test >= 0.0
    ensures 0.0 <= test * (w / n) <= test
    ensures w == n ==> test * (w / n) == test
  {
    var f := w / n;
    assert f * n == w;
    assert 0.0 <= f <= 1.0;
    ScaledLe(test, f, 1.0);
    ScaledLe(test, 0.0, f);
  }

  /** round(test * W/N) lies in [0, test] when 0 <= W <= N, and is test when W = N. */
  lemma {:induction false} RawTestWinsBounds(test: int, w: int, n: int)
    requires 0 <= w <= n && n > 0 && test >= 0
    ensures 0 <= RawTestWins(test, w, n) <= test
    ensures w == n ==> RawTestWins(test, w, n) == test
  {
    ShareOfTest(test as real, w as real, n as real);
    assert 0.0 <= WinShare(test, w, n) <= test as real;
    RoundWithin(WinShare(test, w, n), 0, test);
    if w == n {
      assert WinShare(test, w, n) == test as real;
      RoundWithin(WinShare(test, w, n), test, test);
    }
  }

  /** The clamping with 0 <= raw <= test <= N - 1 (raw = test when L = 0) keeps all parts
      non-negative, at least one game in train and between 1 and test games in test. */
  lemma {:induction false} ClampSplitOfCounts(w: int, l: int, test: int, raw: int)
    requires w >= 0 && l >= 0 && 1 <= test <= w + l - 1
    requires 0 <= raw <= test && (l == 0 ==> raw == test)
    ensures var s := ClampSplit(w, l, test, raw);
      s.wtr >= 0 && s.ltr >= 0 && s.wte >= 0 && s.lte >= 0 &&
      s.wtr + s.ltr >= 1 && 1 <= s.wte + s.lte <= test
  {
  }

  /** For non-negative counts with N > 1: all four parts are non-negative, the train part
      keeps at least one game, and the test part holds between 1 and TestSize <= N - 1
      games (so the one-unit shift back to train never fires). */
  lemma {:induction false} SplitOfCounts(w: int, l: int, rho: real)
    requires w >= 0 && l >= 0 && w + l > 1
    ensures var s := Split(w, l, rho);
      s.wtr >= 0 && s.ltr >= 0 && s.wte >= 0 && s.lte >= 0 &&
      s.wtr + s.ltr >= 1 &&
      1 <= s.wte + s.lte <= TestSize(w + l, rho) <= w + l - 1
  {
    var n := w + l;
    var test := TestSize(n, rho);
    TestSizeBounds(n, RoundHalfEven(rho * n as real));
    RawTestWinsBounds(test, w, n);
    ClampSplitOfCounts(w, l, test, RawTestWins(test, w, n));
  }

  /** Any non-negative counts give non-negative parts. */
  lemma {:induction false} SplitNonNegative(w: int, l: int, rho: real)
    requires w >= 0 && l >= 0
    ensures var s := Split(w, l, rho); s.wtr >= 0 && s.ltr >= 0 && s.wte >= 0 && s.lte >= 0
  {
    if w + l == 1 {
      SplitOfOne(w, l, rho);
    } else if w + l > 1 {
      SplitOfCounts(w, l, rho);
    }
  }

  // ---------------------------------------------------------------------------------
  // The grid

  predicate StrictlyIncreasing(s: seq<real>)
  {
    forall i, j :: 0 <= i < j < |s| ==> s[i] < s[j]
  }

  /** x placed into a strictly increasing sequence, unless it is already there. */
  function InsertUnique(x: real, s: seq<real>): (r: seq<real>)
    requires StrictlyIncreasing(s)
    ensures StrictlyIncreasing(r) && (forall y :: y in r <==> y in s || y == x)
    ensures |r| <= |s| + 1
  {
    if s == [] then [x]
    else if x < s[0] then [x] + s
    else if x == s[0] then s
    else
      var t := InsertUnique(x, s[1..]);
      assert forall y :: y in s <==> y == s[0] || y in s[1..];
      assert forall i :: 0 <= i < |t| ==> t[i] in t;
      [s[0]] + t
  }

  /** `np.unique`: the distinct values in increasing order. */
  function Unique(s: seq<real>): (r: seq<real>)
    ensures StrictlyIncreasing(r) && (forall y :: y in r <==> y in s)
    ensures |r| <= |s|
  {
    if s == [] then []
    else
      assert forall y :: y in s <==> y == s[0] || y in s[1..];
      InsertUnique(s[0], Unique(s[1..]))
  }

  /** The lower end of the grid, max(K_CONST_BOUNDS lo, K_MIN). */
  function FloorK(cfg: MarsConfig): real { Max(cfg.kLoUser, cfg.kMin) }

  /** The grid: beta_auto times 1/4, 1/2, 1, 2, 4, clipped to [FloorK, K_CONST_BOUNDS hi],
      deduplicated and sorted. */
  function Grid(betaAuto: real, cfg: MarsConfig): (r: seq<real>)
    ensures StrictlyIncreasing(r) && 1 <= |r| <= 5
    ensures forall x :: x in r ==> x <= cfg.kHiUser
    ensures FloorK(cfg) <= cfg.kHiUser ==> forall x :: x in r ==> FloorK(cfg) <= x
  {
    var lo, hi := FloorK(cfg), cfg.kHiUser;
    var raw := [Clip(0.25 * betaAuto, lo, hi), Clip(0.5 * betaAuto, lo, hi), Clip(betaAuto, lo, hi),
                Clip(2.0 * betaAuto, lo, hi), Clip(4.0 * betaAuto, lo, hi)];
    var r := Unique(raw);
    assert raw[0] in r;
    r
  }

  // ---------------------------------------------------------------------------------
  // Selection with the smallest-K tie-break

  function Evaluate(grid: seq<real>, ll: real -> real): (r: seq<real>)
    ensures |r| == |grid| && forall i :: 0 <= i < |grid| ==> r[i] == ll(grid[i])
  {
    seq(|grid|, i requires 0 <= i < |grid| => ll(grid[i]))
  }

  /** Within the tolerance of the best value: LL_max - v <= tol * max(1, |LL_max|). */
  predicate NearBest(vals: seq<real>, i: nat, tol: real)
    requires |vals| > 0 && i < |vals|
  {
    SeqMax(vals) - vals[i] <= tol * Max(1.0, Abs(SeqMax(vals)))
  }

  /** The first index from `from` on that is within tolerance. */
  function FirstNearBest(vals: seq<real>, tol: real, from: nat): (r: Option<nat>)
    requires |vals| > 0 && from <= |vals|
    ensures r.Some? ==> (from <= r.value < |vals| && NearBest(vals, r.value, tol) &&
                         forall i :: from <= i < r.value ==> !NearBest(vals, i, tol))
    ensures r.None? ==> forall i :: from <= i < |vals| ==> !NearBest(vals, i, tol)
    decreases |vals| - from
  {
    if from == |vals| then None
    else if NearBest(vals, from, tol) then Some(from)
    else FirstNearBest(vals, tol, from + 1)
  }

  /** `min(cands)`: the smallest index within tolerance, None (the source's ValueError) when
      there is none. */
  function Select(vals: seq<real>, tol: real): (r: Option<nat>)
    requires |vals| > 0
    ensures r.Some? ==> (r.value < |vals| && NearBest(vals, r.value, tol) &&
                         forall i :: 0 <= i < r.value ==> !NearBest(vals, i, tol))
    ensures r.None? <==> forall i :: 0 <= i < |vals| ==> !NearBest(vals, i, tol)
  {
    FirstNearBest(vals, tol, 0)
  }

  /** With a non-negative tolerance some index is selected, and its value is no further
      from the best than the tolerance allows. */
  lemma {:induction false} SelectExists(vals: seq<real>, tol: real)
    requires |vals| > 0 && tol >= 0.0
    ensures Select(vals, tol).Some?
    ensures vals[Select(vals, tol).value] >= SeqMax(vals) - tol * Max(1.0, Abs(SeqMax(vals)))
  {
    SeqMaxAttained(vals);
    var b :| 0 <= b < |vals| && vals[b] == SeqMax(vals);
    MulNonNeg(tol, Max(1.0, Abs(SeqMax(vals))));
    assert NearBest(vals, b, tol);
    NearBestBound(vals, Select(vals, tol).value, tol);
  }

  lemma {:induction false} NearBestBound(vals: seq<real>, i: nat, tol: real)
    requires |vals| > 0 && i < |vals| && NearBest(vals, i, tol)
    ensures vals[i] >= SeqMax(vals) - tol * Max(1.0, Abs(SeqMax(vals)))
  {
  }

  lemma {:induction false} MulNonNeg(x: real, y: real)
    requires x >= 0.0 && y >= 0.0
    ensures x * y >= 0.0
  {
  }

  /** With a zero tolerance the choice is the first maximum. */
  lemma {:induction false} SelectFirstMaximum(vals: seq<real>)
    requires |vals| > 0
    ensures Select(vals, 0.0).Some?
    ensures var i := Select(vals, 0.0).value;
      vals[i] == SeqMax(vals) && forall j :: 0 <= j < i ==> vals[j] < SeqMax(vals)
  {
    SelectExists(vals, 0.0);
    var i := Select(vals, 0.0).value;
    forall j | 0 <= j < i
      ensures vals[j] < SeqMax(vals)
    {
      assert !NearBest(vals, j, 0.0);
    }
  }

  /** argmax_smallest over a dictionary {K: LL}: the largest value, ties to the smaller key
      (`sorted(items, key=(-value, key))[0]`). Keys and values are parallel sequences. */
  function ArgmaxSmallest(keys: seq<real>, vals: seq<real>): (r: nat)
    requires |keys| == |vals| > 0
    ensures r < |keys|
    ensures forall i :: 0 <= i < |vals| ==> vals[i] < vals[r] || (vals[i] == vals[r] && keys[r] <= keys[i])
  {
    if |keys| == 1 then 0
    else
      var t := ArgmaxSmallest(keys[1..], vals[1..]) + 1;
      assert forall i :: 1 <= i < |vals| ==> vals[i] == vals[1..][i - 1] && keys[i] == keys[1..][i - 1];
      if vals[0] > vals[t] || (vals[0] == vals[t] && keys[0] <= keys[t]) then 0 else t
  }

  /** On distinct keys the pick is unique: any key meeting the same condition is it. */
  lemma {:induction false} ArgmaxSmallestUnique(keys: seq<real>, vals: seq<real>, j: nat)
    requires |keys| == |vals| > 0 && j < |keys|
    requires forall a, b :: 0 <= a < b < |keys| ==> keys[a] != keys[b]
    requires forall i :: 0 <= i < |vals| ==> vals[i] < vals[j] || (vals[i] == vals[j] && keys[j] <= keys[i])
    ensures ArgmaxSmallest(keys, vals) == j
  {
    var r := ArgmaxSmallest(keys, vals);
    assert vals[r] == vals[j] && keys[r] <= keys[j] && keys[j] <= keys[r];
  }

  // ---------------------------------------------------------------------------------
  // Downward expansion of the grid

  /** The boundary slack 1e-12 of the source. */
  const Slack: real := 0.000000000001

  /** One expansion round: the grid minimum halved, but not below the floor, joined to the
      grid, deduplicated and sorted (`np.unique(np.concatenate([[K_ext], K_grid]))`). */
  function ExpandOnce(g: seq<real>, floorK: real): (r: seq<real>)
    requires g != []
    ensures StrictlyIncreasing(r) && r != [] && |r| <= |g| + 1
    ensures forall x :: x in r <==> x in g || x == Max(g[0] / 2.0, floorK)
  {
    var kExt := Max(g[0] / 2.0, floorK);
    assert kExt in [kExt] + g;
    Unique([kExt] + g)
  }

  /** The grid after k expansion rounds. */
  function ExpandN(g: seq<real>, floorK: real, k: nat): (r: seq<real>)
    requires g != []
    ensures (StrictlyIncreasing(g) || k > 0) ==> StrictlyIncreasing(r)
    ensures r != [] && |r| <= |g| + k
    ensures forall x :: x in g ==> x in r
    ensures forall x :: x in r && x !in g ==> x >= floorK
  {
    if k == 0 then
      assert forall x :: x in g ==> x in g;
      g
    else ExpandOnce(ExpandN(g, floorK, k - 1), floorK)
  }

  lemma {:induction false} ExpandNStep(g: seq<real>, floorK: real, k: nat)
    requires g != []
    ensures ExpandN(g, floorK, k + 1) == ExpandOnce(ExpandN(g, floorK, k), floorK)
  {
  }

  /** The loop goes on: the pick is the lowest grid point and that point is above the floor. */
  predicate Continues(g: seq<real>, ll: real -> real, tol: real, floorK: real)
  {
    g != [] && Select(Evaluate(g, ll), tol) == Some(0) && g[0] > floorK + Slack
  }

  /** What the expansion computes: the grid after `expansions` rounds, each taken because
      the loop condition held on the grid before it, and stopping at two rounds or where the
      condition fails; the pick is the selection on the final grid. */
  predicate Expanded(grid0: seq<real>, grid: seq<real>, best: nat, expansions: nat, ll: real -> real,
                     tol: real, floorK: real)
    requires |grid0| > 0
  {
    && expansions <= 2
    && grid == ExpandN(grid0, floorK, expansions)
    && Select(Evaluate(grid, ll), tol) == Some(best)
    && (forall j :: 0 <= j < expansions ==> Continues(ExpandN(grid0, floorK, j), ll, tol, floorK))
    && (expansions < 2 ==> !Continues(grid, ll, tol, floorK))
  }

  /** The expansion is determined by its inputs. */
  lemma {:induction false} ExpandedUnique(grid0: seq<real>, ll: real -> real, tol: real, floorK: real,
                                          g1: seq<real>, b1: nat, e1: nat, g2: seq<real>, b2: nat, e2: nat)
    requires |grid0| > 0
    requires Expanded(grid0, g1, b1, e1, ll, tol, floorK)
    requires Expanded(grid0, g2, b2, e2, ll, tol, floorK)
    ensures g1 == g2 && b1 == b2 && e1 == e2
  {
    var c1, c2 := ExpandN(grid0, floorK, e1), ExpandN(grid0, floorK, e2);
    assert e1 < e2 ==> Continues(c1, ll, tol, floorK);
    assert e2 < e1 ==> Continues(c2, ll, tol, floorK);
  }

  /** The expanded grid keeps every original point, adds only points at or above the
      floor, at most one per round, and stays sorted without repeats. */
  lemma {:induction false} ExpandedGrid(grid0: seq<real>, grid: seq<real>, best: nat, expansions: nat,
                                        ll: real -> real, tol: real, floorK: real)
    requires |grid0| > 0 && StrictlyIncreasing(grid0)
    requires Expanded(grid0, grid, best, expansions, ll, tol, floorK)
    ensures StrictlyIncreasing(grid) && best < |grid| && |grid| <= |grid0| + 2
    ensures forall x :: x in grid0 ==> x in grid
    ensures forall x :: x in grid && x !in grid0 ==> x >= floorK
    ensures best != 0 || grid[0] <= floorK + Slack || expansions == 2
  {
  }

  /** The grid and pick after tie-breaking, with up to two downward expansions while the
      pick is the lowest grid point and that point is above the floor. Each expansion adds
      max(min/2, floor) and re-selects. None when some selection has no candidate. */
  method ExpandDownward(grid0: seq<real>, ll: real -> real, tol: real, floorK: real)
    returns (ok: bool, grid: seq<real>, best: nat, expansions: nat)
    requires |grid0| > 0 && StrictlyIncreasing(grid0)
    ensures tol >= 0.0 ==> ok
    ensures ok ==> Expanded(grid0, grid, best, expansions, ll, tol, floorK)
  {
    grid := grid0;
    var sel := Select(Evaluate(grid, ll), tol);
    if tol >= 0.0 {
      SelectExists(Evaluate(grid, ll), tol);
    }
    if sel.None? {
      return false, grid, 0, 0;
    }
    best := sel.value;
    expansions := 0;
    while best == 0 && grid[0] > floorK + Slack && expansions < 2
      invariant expansions <= 2
      invariant grid == ExpandN(grid0, floorK, expansions)
      invariant Select(Evaluate(grid, ll), tol) == Some(best)
      invariant forall j :: 0 <= j < expansions ==> Continues(ExpandN(grid0, floorK, j), ll, tol, floorK)
      decreases 2 - expansions
    {
      assert Continues(grid, ll, tol, floorK);
      ExpandNStep(grid0, floorK, expansions);
      grid := ExpandOnce(grid, floorK);
      var s := Select(Evaluate(grid, ll), tol);
      if tol >= 0.0 {
        SelectExists(Evaluate(grid, ll), tol);
      }
      if s.None? {
        return false, grid, 0, expansions;
      }
      best := s.value;
      expansions := expansions + 1;
    }
    ok := true;
  }

  // ---------------------------------------------------------------------------------
  // The final decision

  const OverrideModeFreq: real := 0.80
  const OverrideIqrRatio: real := 0.05
  const UnstableIqrRatio: real := 0.35
  const UnstableModeFreq: real := 0.50

  /** The statistics of the bootstrap picks: median, IQR and the share equal to K*. */
  datatype BootStats = BootStats(median: real, iqr: real, modeFreq: real)

  /** The reason reported with K_used. */
  datatype Reason = BestBoundaryOverride | BootClipped | Best

  function ReasonText(r: Reason): string
  {
    match r
    case BestBoundaryOverride => "best-boundary-override"
    case BootClipped => "boot-clipped"
    case Best => "best"
  }

  datatype Decision = Decision(kUsed: real, reason: Reason)

  predicate AtBoundary(kStar: real, gridMin: real, gridMax: real)
  {
    Abs(kStar - gridMin) <= Slack || Abs(kStar - gridMax) <= Slack
  }

  predicate StrongBoundary(atBoundary: bool, b: BootStats)
  {
    atBoundary && b.modeFreq >= OverrideModeFreq && b.median > 0.0 && b.iqr / b.median <= OverrideIqrRatio
  }

  predicate Unstable(atBoundary: bool, b: BootStats)
  {
    atBoundary || (b.median > 0.0 && b.iqr / b.median > UnstableIqrRatio) || b.modeFreq < UnstableModeFreq
  }

  /** clip_lo = max(grid min, K_MIN, K_CONST_BOUNDS lo). */
  function ClipLo(gridMin: real, cfg: MarsConfig): real { Max(Max(gridMin, cfg.kMin), cfg.kLoUser) }

  /** clip_hi = min(grid max, K_CONST_BOUNDS hi, 4 beta_auto). */
  function ClipHi(gridMax: real, betaAuto: real, cfg: MarsConfig): real
  {
    Min(Min(gridMax, cfg.kHiUser), betaAuto * 4.0)
  }

  /** The boundary and stability rules: a strongly supported boundary pick is kept
      ("best-boundary-override"); a boundary or unstable pick is replaced by the bootstrap
      median clipped from below also by beta_auto/4 ("boot-clipped"); otherwise K* is kept
      ("best"). K_used never exceeds clip_hi and is K* (or the median) itself whenever that
      lies in the clip range. */
  function Decide(kStar: real, gridMin: real, gridMax: real, betaAuto: real, b: BootStats,
                  cfg: MarsConfig): (d: Decision)
    ensures var at := AtBoundary(kStar, gridMin, gridMax);
      && (d.reason == BestBoundaryOverride <==> StrongBoundary(at, b))
      && (d.reason == BootClipped <==> !StrongBoundary(at, b) && Unstable(at, b))
      && (d.reason == Best <==> !StrongBoundary(at, b) && !Unstable(at, b))
    ensures d.kUsed <= ClipHi(gridMax, betaAuto, cfg)
    ensures var lo := ClipLo(gridMin, cfg);
      d.reason != BootClipped ==>
        (lo <= ClipHi(gridMax, betaAuto, cfg) ==> lo <= d.kUsed) &&
        (lo <= kStar <= ClipHi(gridMax, betaAuto, cfg) ==> d.kUsed == kStar)
    ensures var lo := Max(betaAuto / 4.0, ClipLo(gridMin, cfg));
      d.reason == BootClipped ==>
        (lo <= ClipHi(gridMax, betaAuto, cfg) ==> lo <= d.kUsed) &&
        (lo <= b.median <= ClipHi(gridMax, betaAuto, cfg) ==> d.kUsed == b.median)
  {
    var at := AtBoundary(kStar, gridMin, gridMax);
    var lo, hi := ClipLo(gridMin, cfg), ClipHi(gridMax, betaAuto, cfg);
    if StrongBoundary(at, b) then Decision(Clip(kStar, lo, hi), BestBoundaryOverride)
    else if Unstable(at, b) then Decision(Clip(b.median, Max(betaAuto / 4.0, lo), hi), BootClipped)
    else Decision(Clip(kStar, lo, hi), Best)
  }

  /** Whatever the branch, K_used stays within K_CONST_BOUNDS hi, 4 beta_auto and the grid
      maximum, and above K_MIN, K_CONST_BOUNDS lo and the grid minimum whenever the clip
      range is not empty. */
  lemma {:induction false} DecisionInRange(kStar: real, gridMin: real, gridMax: real, betaAuto: real, b: BootStats,
                        cfg: MarsConfig)
    ensures var d := Decide(kStar, gridMin, gridMax, betaAuto, b, cfg);
      && d.kUsed <= cfg.kHiUser && d.kUsed <= 4.0 * betaAuto && d.kUsed <= gridMax
      && (ClipLo(gridMin, cfg) <= ClipHi(gridMax, betaAuto, cfg) && betaAuto / 4.0 <= ClipHi(gridMax, betaAuto, cfg) ==>
            cfg.kMin <= d.kUsed && cfg.kLoUser <= d.kUsed && gridMin <= d.kUsed)
  {
  }

  // ---------------------------------------------------------------------------------
  // The observed cells and the whole procedure

  /** The observed cells (i, j), j >= from, of row i: off the diagonal with N > 0 (an
      undefined N read as 0). */
  function RowCells(nm: Mat, n: nat, i: nat, from: nat): (r: seq<(nat, nat)>)
    requires IsSquare(nm, n) && i < n && from <= n
    ensures forall c :: c in r <==> c.0 == i && from <= c.1 < n && c.1 != i && PositiveCell(nm[i][c.1])
    decreases n - from
  {
    if from == n then []
    else
      var rest := RowCells(nm, n, i, from + 1);
      if from != i && PositiveCell(nm[i][from]) then [(i, from)] + rest else rest
  }

  /** `mask_obs` read row by row from row `from` on (numpy's boolean indexing order). */
  function ObservedCellsFrom(nm: Mat, n: nat, from: nat): (r: seq<(nat, nat)>)
    requires IsSquare(nm, n) && from <= n
    ensures forall c :: c in r <==> from <= c.0 < n && c.1 < n && c.0 != c.1 && PositiveCell(nm[c.0][c.1])
    decreases n - from
  {
    if from == n then [] else RowCells(nm, n, from, 0) + ObservedCellsFrom(nm, n, from + 1)
  }

  function ObservedCells(nm: Mat, n: nat): (r: seq<(nat, nat)>)
    requires IsSquare(nm, n)
    ensures forall c :: c in r <==> c.0 < n && c.1 < n && c.0 != c.1 && PositiveCell(nm[c.0][c.1])
  {
    ObservedCellsFrom(nm, n, 0)
  }

  /** `int(w), int(l)` of every observed cell; None when one wins or losses count is
      undefined (the ValueError of int(NaN)). */
  function CellCounts(s: Mat, f: Mat, n: nat, cells: seq<(nat, nat)>): (r: Option<seq<(int, int)>>)
    requires IsSquare(s, n) && IsSquare(f, n)
    requires forall k :: 0 <= k < |cells| ==> cells[k].0 < n && cells[k].1 < n
    ensures r.Some? <==> forall k :: 0 <= k < |cells| ==> s[cells[k].0][cells[k].1].Some? && f[cells[k].0][cells[k].1].Some?
    ensures r.Some? ==> |r.value| == |cells| && forall k :: 0 <= k < |cells| ==>
      r.value[k] == (Trunc(s[cells[k].0][cells[k].1].value), Trunc(f[cells[k].0][cells[k].1].value))
  {
    if cells == [] then Some([])
    else
      var c := cells[0];
      var rest := CellCounts(s, f, n, cells[1..]);
      assert forall k :: 1 <= k < |cells| ==> cells[k] == cells[1..][k - 1];
      if s[c.0][c.1].None? || f[c.0][c.1].None? then None
      else if rest.None? then None
      else Some([(Trunc(s[c.0][c.1].value), Trunc(f[c.0][c.1].value))] + rest.value)
  }

  function TestMass(p: SplitParts): int { p.wte + p.lte }

  /** Some cell keeps a test game after its split. */
  predicate SomeTestMass(cs: seq<(int, int)>, rho: real)
  {
    exists j :: 0 <= j < |cs| && TestMass(Split(cs[j].0, cs[j].1, rho)) > 0
  }

  /** The whole of what the procedure reports that is computed exactly. */
  datatype AutoKResult = AutoKResult(grid: seq<real>, kStar: real, kUsed: real, reason: Reason,
                                     betaAuto: real, expansions: nat)

  /** The list of splits in cell order, and whether some split keeps a test game. */
  method SplitAll(cs: seq<(int, int)>, rho: real) returns (splits: seq<SplitParts>, anyTest: bool)
    ensures |splits| == |cs| && forall j :: 0 <= j < |cs| ==> splits[j] == Split(cs[j].0, cs[j].1, rho)
    ensures anyTest <==> SomeTestMass(cs, rho)
  {
    splits, anyTest := [], false;
    for k := 0 to |cs|
      invariant |splits| == k
      invariant forall j :: 0 <= j < k ==> splits[j] == Split(cs[j].0, cs[j].1, rho)
      invariant anyTest <==> exists j :: 0 <= j < k && TestMass(splits[j]) > 0
    {
      var wtr, ltr, wte, lte := SplitCounts(cs[k].0, cs[k].1, rho);
      splits := splits + [SplitParts(wtr, ltr, wte, lte)];
      if wte + lte > 0 {
        anyTest := true;
      }
    }
  }

  /** The result carries the expanded grid and its pick K*, and the decision taken on
      them. */
  predicate Chosen(grid0: seq<real>, res: AutoKResult, ll: real -> real, betaAuto: real, boot: BootStats,
                   cfg: MarsConfig)
    requires |grid0| > 0
  {
    exists best: nat ::
      && best < |res.grid|
      && Expanded(grid0, res.grid, best, res.expansions, ll, cfg.relTolLL, FloorK(cfg))
      && res.kStar == res.grid[best]
      && Decision(res.kUsed, res.reason) ==
           Decide(res.kStar, res.grid[0], res.grid[|res.grid| - 1], betaAuto, boot, cfg)
      && res.betaAuto == betaAuto
  }

  /** The chosen result is determined by the grid, the log-likelihood, the scale and the
      bootstrap statistics: K*, the final grid, the expansions, K_used and the reason. */
  lemma {:induction false} ChosenUnique(grid0: seq<real>, r1: AutoKResult, r2: AutoKResult, ll: real -> real,
                                        betaAuto: real, boot: BootStats, cfg: MarsConfig)
    requires |grid0| > 0
    requires Chosen(grid0, r1, ll, betaAuto, boot, cfg) && Chosen(grid0, r2, ll, betaAuto, boot, cfg)
    ensures r1 == r2
  {
    var b1: nat :| b1 < |r1.grid| && Expanded(grid0, r1.grid, b1, r1.expansions, ll, cfg.relTolLL, FloorK(cfg))
      && r1.kStar == r1.grid[b1]
      && Decision(r1.kUsed, r1.reason) == Decide(r1.kStar, r1.grid[0], r1.grid[|r1.grid| - 1], betaAuto, boot, cfg);
    var b2: nat :| b2 < |r2.grid| && Expanded(grid0, r2.grid, b2, r2.expansions, ll, cfg.relTolLL, FloorK(cfg))
      && r2.kStar == r2.grid[b2]
      && Decision(r2.kUsed, r2.reason) == Decide(r2.kStar, r2.grid[0], r2.grid[|r2.grid| - 1], betaAuto, boot, cfg);
    ExpandedUnique(grid0, ll, cfg.relTolLL, FloorK(cfg), r1.grid, b1, r1.expansions, r2.grid, b2, r2.expansions);
  }

  /** A result is chosen once its grid, pick and decision are those of one expansion. */
  lemma {:induction false} ChosenIntro(grid0: seq<real>, res: AutoKResult, best: nat, ll: real -> real,
                                       betaAuto: real, boot: BootStats, cfg: MarsConfig)
    requires |grid0| > 0 && best < |res.grid|
    requires Expanded(grid0, res.grid, best, res.expansions, ll, cfg.relTolLL, FloorK(cfg))
    requires res.kStar == res.grid[best]
    requires Decision(res.kUsed, res.reason) ==
             Decide(res.kStar, res.grid[0], res.grid[|res.grid| - 1], betaAuto, boot, cfg)
    requires res.betaAuto == betaAuto
    ensures Chosen(grid0, res, ll, betaAuto, boot, cfg)
  {
  }

  /** Grid expansion, selection and decision. */
  method ChooseK(grid0: seq<real>, ll: real -> real, betaAuto: real, boot: BootStats, cfg: MarsConfig)
    returns (r: Option<AutoKResult>)
    requires |grid0| > 0 && StrictlyIncreasing(grid0)
    ensures r.Some? ==> Chosen(grid0, r.value, ll, betaAuto, boot, cfg)
    ensures cfg.relTolLL >= 0.0 ==> r.Some?
  {
    var ok, grid, best, expansions := ExpandDownward(grid0, ll, cfg.relTolLL, FloorK(cfg));
    if !ok {
      return None;
    }
    var kStar := grid[best];
    var d := Decide(kStar, grid[0], grid[|grid| - 1], betaAuto, boot, cfg);
    var res := AutoKResult(grid, kStar, d.kUsed, d.reason, betaAuto, expansions);
    ChosenIntro(grid0, res, best, ll, betaAuto, boot, cfg);
    return Some(res);
  }

  /** auto_k_cv over an abstract held-out log-likelihood `ll`, the scale beta_auto and the
      bootstrap statistics. It fails when no cell is observed, when a count of an observed
      cell is undefined, when no split keeps a test game, or when a selection has no
      candidate (only possible for a negative tolerance). */
  method AutoKCV(s: Mat, f: Mat, nm: Mat, n: nat, cfg: MarsConfig, betaAuto: real,
                 ll: real -> real, boot: BootStats)
    returns (r: Result<AutoKResult>)
    requires IsSquare(s, n) && IsSquare(f, n) && IsSquare(nm, n)
    ensures ObservedCells(nm, n) == [] ==> r.Failure?
    ensures CellCounts(s, f, n, ObservedCells(nm, n)).None? ==> r.Failure?
    ensures r.Success? ==>
      && SomeTestMass(CellCounts(s, f, n, ObservedCells(nm, n)).value, cfg.rhoTest)
      && Chosen(Grid(betaAuto, cfg), r.value, ll, betaAuto, boot, cfg)
    ensures cfg.relTolLL >= 0.0 && ObservedCells(nm, n) != [] &&
            CellCounts(s, f, n, ObservedCells(nm, n)).Some? &&
            SomeTestMass(CellCounts(s, f, n, ObservedCells(nm, n)).value, cfg.rhoTest)
            ==> r.Success?
  {
    var cells := ObservedCells(nm, n);
    if cells == [] {
      return Failure("AUTO_K-CV: no observed cells (N_dir>0).");
    }
    var counts := CellCounts(s, f, n, cells);
    if counts.None? {
      return Failure("cannot convert float NaN to integer");
    }
    var cs := counts.value;
    var splits, anyTest := SplitAll(cs, cfg.rhoTest);
    if !anyTest {
      return Failure("AUTO_K-CV: after split, no trials remain in test.");
    }
    var chosen := ChooseK(Grid(betaAuto, cfg), ll, betaAuto, boot, cfg);
    if chosen.None? {
      return Failure("min() arg is an empty sequence");
    }
    return Success(chosen.value);
  }
}

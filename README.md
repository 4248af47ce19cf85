# PTCGP ranking core in Dafny

This project models the exact, I/O-free core of the PTCGP deck-ranking pipeline and proves
properties of it. The pipeline scrapes tournament match-ups, consolidates them into a
direction-symmetric score table and deck-axis matrices, and ranks the decks with the MARS
engine. MARS combines a Beta-Binomial posterior, a meta-weighted average score (MAS) with
a lower bound, Bradley–Terry abilities, coverage and contract checks. It writes an Excel
report at the end.

Reals are exact rationals. An undefined cell (NaN, or an undefined diagonal) is
`Option.None`, and a T×T matrix is `seq<seq<Option<real>>>`. Python's `round` is rounding
half to even at a given number of decimals. A pandas frame is a `Table.Frame`: named
columns whose cells keep both their text and their numeric reading.

The modules follow the source files:

- `AutoK`: mars/auto_k_cv.py.
- `Bt`: mars/bt.py.
- `Meta`: mars/meta.py.
- `MasLb`: mars/mas_lb.py.
- `Posterior`: mars/posterior.py.
- `Coverage`: mars/coverage.py.
- `Validate`: mars/validate_io.py.
- `Consolidate` and `Symmetry`: core/consolidate.py. `Symmetry` holds
  `_enforce_directional_symmetry`.
- `NanFilter`: core/nan_filter.py.
- `Matrices`: core/matrices.py.
- `Normalize`: core/normalize.py.
- `Decklist`: `filter_top_meta` of scraper/decklist.py.
- `Matchups`: the URL and row logic of scraper/matchups.py.
- `Report`: the sheet logic of mars/report.py.

Shared modules:

- `Wrappers`: Option and Result.
- `Numeric`: sums, clipping, rounding and real-arithmetic facts.
- `Matrix`: cell helpers.
- `Text`: stripping, ordering, substrings and words.
- `Table`: frames and column lookup.
- `Sorting`: a stable insertion sort with its sortedness, permutation and stability lemmas.
- `Grouping`: key grouping.
- `Config`: the `MARSConfig` defaults as a datatype.

Code that updates state step by step is modelled as methods with loops, each proved
against a specification function. Examples are the count split, grid expansion, edge
selection, the MM loop, the pruning loop, the alias index, URL de-duplication, the
per-deck sheet loop, workbook assembly and the sheet reorder. Pure code is modelled as
functions and lemmas.

## Model

| member | source | states |
|---|---|---|
| AutoK.ClampSplit | mars/auto_k_cv.py:20-29 | the clamped test and train parts, including the one-unit shift back to train, add back up to W and L |
| AutoK.Split | mars/auto_k_cv.py:12-30 | `_split_counts` as a value: for non-negative counts, or any counts with N > 0, Wtr + Wte = W and Ltr + Lte = L |
| AutoK.TestSlots | mars/auto_k_cv.py:16-19 | the method computing the test size returns the specified test size |
| AutoK.SplitCounts | mars/auto_k_cv.py:7-30 | the step-by-step reassignment of Wte/Lte/Wtr/Ltr returns exactly the specified split |
| AutoK.SplitOfNothing | mars/auto_k_cv.py:14-15 | N ≤ 0 gives (0, 0, 0, 0) |
| AutoK.SplitOfOne | mars/auto_k_cv.py:16-19 | N = 1 leaves no test mass |
| AutoK.TestSizeBounds | mars/auto_k_cv.py:16-19 | the test size lies in [1, N−1] for N > 1, is at least 2 for N ≥ 4, and is 0 for N = 1 |
| AutoK.RawTestWinsBounds | mars/auto_k_cv.py:20 | round(test·W/N) lies in [0, test] for 0 ≤ W ≤ N, and equals test when W = N |
| AutoK.ClampSplitOfCounts | mars/auto_k_cv.py:20-29 | all four parts are non-negative, the train part is non-empty and 1 ≤ test mass ≤ test |
| AutoK.SplitOfCounts | mars/auto_k_cv.py:12-30 | for N > 1: all parts ≥ 0, train non-empty, and 1 ≤ Wte + Lte ≤ test size ≤ N − 1 |
| AutoK.SplitNonNegative | mars/auto_k_cv.py:12-30 | non-negative counts give four non-negative parts |
| AutoK.InsertUnique | mars/auto_k_cv.py:77 | inserting into a strictly increasing sequence keeps it strictly increasing, with exactly the old members plus x |
| AutoK.Unique | mars/auto_k_cv.py:77 | `np.unique` gives a strictly increasing sequence with the same members |
| AutoK.Grid | mars/auto_k_cv.py:74-77 | the grid is strictly increasing with 1 to 5 points, all ≤ the upper bound, and all ≥ max(K lo, K_MIN) whenever that floor is ≤ the upper bound |
| AutoK.Evaluate | mars/auto_k_cv.py:106 | the log-likelihood of every grid point, in grid order |
| AutoK.FirstNearBest | mars/auto_k_cv.py:112-113 | the first index from `from` on within tolerance of the best, or None when there is none |
| AutoK.Select | mars/auto_k_cv.py:107-113 | the smallest index with LL ≥ LL_max − tol·max(1, \|LL_max\|); None exactly when no index qualifies |
| AutoK.SelectExists | mars/auto_k_cv.py:107-113 | with tol ≥ 0 an index is always selected, and its value is within the tolerance of the maximum |
| AutoK.SelectFirstMaximum | mars/auto_k_cv.py:107-113 | with zero tolerance the pick is the first maximum |
| AutoK.ArgmaxSmallest | mars/auto_k_cv.py:144-146 | the pick has the largest value, and among equal values the smallest key |
| AutoK.ArgmaxSmallestUnique | mars/auto_k_cv.py:144-146 | with distinct keys any index meeting that condition is the pick |
| AutoK.ExpandOnce | mars/auto_k_cv.py:120-121 | one round adds exactly max(grid min/2, floor) to the grid, keeping it sorted without repeats and growing it by at most one point |
| AutoK.ExpandN | mars/auto_k_cv.py:119-128 | k rounds keep every original point and add only points at or above the floor, at most k of them |
| AutoK.ExpandDownward | mars/auto_k_cv.py:116-128 | the expansion succeeds for tol ≥ 0. The final grid is the grid after `expansions` rounds, each round taken because the pick was index 0 above the floor, and the loop stops at 2 rounds or where that fails; the pick is the tie-broken selection on the final grid |
| AutoK.ExpandedUnique | mars/auto_k_cv.py:116-128 | the final grid, pick and number of expansions are determined by the original grid, the log-likelihood, the tolerance and the floor |
| AutoK.ExpandedGrid | mars/auto_k_cv.py:116-128 | the expanded grid is strictly increasing, keeps the original points, adds only points ≥ the floor, and on exit the pick left index 0, the minimum reached the floor, or two rounds were done |
| AutoK.Decide | mars/auto_k_cv.py:156-176 | reason "best-boundary-override" iff a strong boundary; "boot-clipped" iff not that but at boundary, IQR/median > 0.35 or mode_freq < 0.5; else "best"; K_used is the matching clip |
| AutoK.DecisionInRange | mars/auto_k_cv.py:163-176 | K_used ≤ clip_hi always, and ≥ the branch's lower clip when that is ≤ clip_hi |
| AutoK.RowCells | mars/auto_k_cv.py:60-64 | the observed cells of one row: off the diagonal with N > 0 |
| AutoK.ObservedCellsFrom | mars/auto_k_cv.py:60-64 | the observed cells from row `from` on |
| AutoK.ObservedCells | mars/auto_k_cv.py:59-64 | exactly the off-diagonal cells with N > 0 (undefined N counts as 0) |
| AutoK.CellCounts | mars/auto_k_cv.py:62-63 | the truncated W and L of every observed cell, or None when one is undefined |
| AutoK.SplitAll | mars/auto_k_cv.py:80-83 | the loop gives the split of every cell in order, and flags whether some split keeps test mass |
| AutoK.ChooseK | mars/auto_k_cv.py:105-176 | the final grid, expansions, K* and decision are those of the expansion and of the boundary rules on it (Chosen); they always exist for tol ≥ 0 |
| AutoK.ChosenUnique | mars/auto_k_cv.py:105-176 | K*, the final grid, the expansions, K_used and the reason are determined by the inputs |
| AutoK.AutoKCV | mars/auto_k_cv.py:54-176 | raises when no cell is observed, a count is undefined, or no split keeps test mass. Otherwise the result is the chosen one: the halving expansion of the grid, its K* and the decision on it |
| Bt.SOf | mars/bt.py:7-9 | s = N/(N+K) lies in (0, 1] for N > 0 (and below 1 for K > 0), and is 0 for N ≤ 0 |
| Bt.SBar | mars/bt.py:57-60 | the mean of the positive confidences: between them when both are positive, the single positive one, or 0 |
| Bt.PBar | mars/bt.py:65-75 | p̄ is undefined exactly when both p̂ are undefined (the edge is then dropped) |
| Bt.PBarSwap | mars/bt.py:65-72 | swapping the two directions turns p̄ into 1 − p̄ |
| Bt.PBarInUnitInterval | mars/bt.py:65-72 | p̄ lies in [0, 1] when the defined p̂ do |
| Bt.HarmonicBetween | mars/bt.py:77-78 | the harmonic mean of two positive volumes lies between their minimum and their mean |
| Bt.NBaseBounds | mars/bt.py:77-81 | n_base is symmetric in the two volumes, lies between them when both are positive, and equals the single positive volume otherwise |
| Bt.PairOutcomeCases | mars/bt.py:54-85 | a pair is skipped iff neither volume is positive; dropped iff s̄ < s_min or both p̂ are undefined; kept otherwise |
| Bt.RowCounts | mars/bt.py:50-85 | within one row of the pair loop, kept + dropped = pairs examined |
| Bt.RowQualify | mars/bt.py:50-85 | every edge kept in row i qualifies and has i < j |
| Bt.KeptPlusDropped | mars/bt.py:49-85 | over the whole loop, kept + dropped = number of pairs i < j with some positive volume |
| Bt.KeptEdgesQualify | mars/bt.py:49-85 | every kept edge qualifies and has i < j |
| Bt.SelectEdges | mars/bt.py:41-85 | the nested loop returns exactly the specified kept edges in loop order, and the dropped count |
| Bt.HhiBounds | mars/bt.py:11-16 | `_hhi` is defined iff the total is positive, and then lies in [0, 1] |
| Bt.NearShare | mars/bt.py:96-97 | the share of kept edges with s_min ≤ s̄ < s_min + band lies in [0, 1] |
| Bt.LeverageOf | mars/bt.py:102 | an edge's leverage is max(n_base, 1e-12)·\|p̄ − 0.5\| ≥ 0 |
| Bt.Leverage | mars/bt.py:100-103 | the leverage of every kept edge, in order |
| Bt.DeckCounts | mars/bt.py:106-109 | each deck's count is its number of kept edges, and the counts sum to 2·kept |
| Bt.MinOf | mars/bt.py:111 | the minimum is attained and is ≤ every entry |
| Bt.Degrees | mars/bt.py:106-110 | each deck's number of kept edges, in axis order |
| Bt.SBars | mars/bt.py:95 | the s̄ of every kept edge, in order |
| Bt.Clip01 | mars/bt.py:116-117 | the clip lies in [0, 1] |
| Bt.AutoSoftPower | mars/bt.py:118-122 | the automatic soft power lies in [1.5, 2.1] |
| Bt.CalmSoftPower | mars/bt.py:118-122 | with near share ≤ 0.15, s̄ median ≥ 0.60, leverage HHI ≤ 0.10 (or undefined) and at least 8 opponents for every deck, it is exactly 1.5 |
| Bt.SaturatedSoftPower | mars/bt.py:118-122 | with near share ≥ 0.30 and s̄ median ≤ 0.50 the clip makes it exactly 2.1 |
| Bt.SoftPower | mars/bt.py:115-126 | the configured power when one is set, otherwise the automatic one in [1.5, 2.1] |
| Bt.PairOf | mars/bt.py:130-140 | after clipping p̄ and flooring n_eff at 1e-9: w_ij + w_ji = n_eff and 0 < w_ij, w_ji < n_eff, so both sanity checks pass |
| Bt.BuildPairs | mars/bt.py:129-140 | one weighted pair per kept edge, in order |
| Bt.Accumulate | mars/bt.py:143-151 | wins_out and opp_list of every deck as specified, and Σ wins_out = Σ n_eff over the pairs |
| Bt.AccumulateStep | mars/bt.py:146-151 | one pair's update keeps the accumulation invariant |
| Bt.OpponentsOfWithin | mars/bt.py:145-151 | every opponent index is on the axis and every recorded n_eff is positive |
| Bt.DenomNonNeg | mars/bt.py:159-162 | the MM denominator is non-negative for positive abilities |
| Bt.DenomOf | mars/bt.py:158-162 | the inner loop computes the specified denominator |
| Bt.SteppedFloored | mars/bt.py:165 | every updated ability is ≥ 1e-8 |
| Bt.SolvableWithRidge | mars/bt.py:163 | with λ ≥ 0 no update divides by zero |
| Bt.NextPi | mars/bt.py:158-165 | every deck's new ability is its MM update (wins + λ)/(denominator + λ + 1e-12), floored at 1e-8 |
| Bt.MaxRelUpToSpec | mars/bt.py:155-166 | the running `max_rel` is ≥ 0, bounds every relative change so far and is 0 or one of them |
| Bt.RoundIsStepped | mars/bt.py:155-166 | the specified round (NextPi, MaxRel) is a round of the MM update: every new ability is its floored update and max_rel is the largest relative change |
| Bt.MMRound | mars/bt.py:155-166 | one round succeeds iff no denominator is zero, and then returns exactly NextPi and MaxRel of the previous abilities |
| Bt.Iterate | mars/bt.py:153-166 | the k-th MM iterate from the start keeps the axis length and valid opponent lists; None once a round would divide by zero |
| Bt.IterateNoneStays | mars/bt.py:155-166 | once a round fails every later iterate fails |
| Bt.EstimateStep | mars/bt.py:155-168 | one more round gives the next iterate, and that round converges iff its max_rel is below tol |
| Bt.EstimatedUnique | mars/bt.py:153-168 | the loop's outcome (success, rounds, abilities, converged) is determined by its inputs |
| Bt.EstimateAbilities | mars/bt.py:153-168 | starting from all ones, the abilities are the iterate after `rounds` ≤ MAX_BT_ITER rounds; `converged` iff the last round's max_rel was below tol, no earlier round's was, and all rounds ran unless converged; a failure is the first round that divides by zero; succeeds for λ ≥ 0 |
| Bt.Signals | mars/bt.py:94-112 | near share in [0, 1], the s̄ median, the leverage HHI, and the fewest opponents of any deck (0 on an empty axis) |
| Bt.PairWins | mars/bt.py:143-151 | each deck's summed pair wins, in axis order |
| Bt.PairOpponents | mars/bt.py:143-151 | each deck's opponent list, in axis order |
| Bt.Fit | mars/bt.py:128-168 | one weighted pair per kept edge in order, and the MM loop's outcome on the wins and opponents those pairs give; always succeeds for λ ≥ 0 |
| Bt.BtSoft | mars/bt.py:18-190 | with zero kept edges every deck scores 50 with no pairs. Otherwise the diagnostics are the edges' near share, s̄ median, leverage HHI and fewest opponents; the exponent is SoftPower of them; one pair per edge; the abilities are the MM loop's outcome on those pairs and the scores their scaled values. Succeeds for λ ≥ 0 |
| Meta.Floored | mars/meta.py:8-10 | NaN is taken as 0, then each value is clipped from below at the floor when one is given |
| Meta.Uniform | mars/meta.py:13 | one weight 1/n per deck; its sum is stated by UniformSumsToOne |
| Meta.NormalizeWeights | mars/meta.py:6-14 | one weight per value; its sum and its shares are stated by NormalizeSumsToOne and NormalizeIsShareOfTotal |
| Meta.NormalizeSumsToOne | mars/meta.py:6-14 | `_normalize_weights` always sums to 1 |
| Meta.NormalizeIsShareOfTotal | mars/meta.py:11-14 | each weight is s_i/Σs when the total is positive, and 1/\|axis\| otherwise |
| Meta.UniformSumsToOne | mars/meta.py:13 | the uniform fallback sums to 1 |
| Meta.FlooredWeightsPositive | mars/meta.py:9-14 | with a positive floor every weight is positive |
| Meta.NormalizeNonNeg | mars/meta.py:8-14 | non-negative inputs give non-negative weights |
| Meta.EncounterShareIsDistribution | mars/meta.py:16-19 | p_enc from non-negative n_dir is non-negative and sums to 1 |
| Meta.EncounterShare | mars/meta.py:16-19 | one share per axis deck, from the column sums of n_dir (see EncounterShareIsDistribution) |
| Meta.ParsedShares | mars/meta.py:69-71 | when some share exceeds 1 + 1e-9 every share is divided by 100; otherwise shares are unchanged |
| Meta.AxisShares | mars/meta.py:62-74 | when the deck and share columns are found, one grouped share per axis deck |
| Meta.GapWeights | mars/meta.py:82-88 | one gap weight per deck, under the policy's rule |
| Meta.GapFilled | mars/meta.py:89 | p + gap·w, one value per deck |
| Meta.PolicyFilled | mars/meta.py:80-89 | the gap filled under the policy, one value per deck |
| Meta.FromAxisShares | mars/meta.py:76-91 | on success, one share per deck |
| Meta.MetaShareOnAxis | mars/meta.py:47-91 | on success, one share per axis deck (the sum and the cases are stated by the lemmas below) |
| Meta.GapWeightsTotal | mars/meta.py:82-88 | the gap weights are non-negative in total, and sum to 1 except for an encounter weight that is supplied |
| Meta.NoGapNoFill | mars/meta.py:80-81 | with no gap the shares are not changed |
| Meta.GapFilledSum | mars/meta.py:89 | p + gap·w sums to Σp + Σw·(1 − Σp) |
| Meta.GapFilledTotalBelowOne | mars/meta.py:80-89 | with on-axis mass below 1 the filled total is ≥ Σp, and is 1 when Σw = 1 |
| Meta.GapFilledTotal | mars/meta.py:80-89 | the filled total never falls below Σp, and is 1 when Σw = 1 and Σp ≤ 1 |
| Meta.PolicyFilledTotal | mars/meta.py:80-89 | under every policy the filled total is at least the on-axis mass |
| Meta.FromAxisSharesSumsToOne | mars/meta.py:76-91 | the on-axis shares, after the fallback or gap filling, sum to 1 |
| Meta.FromAxisSharesDefined | mars/meta.py:76-91 | for non-negative shares the final division is always defined |
| Meta.MetaShareSumsToOne | mars/meta.py:47-91 | `meta_share_on_axis` sums to 1 on every path |
| Meta.MetaShareUniformFallbacks | mars/meta.py:59-66 | a missing or empty table, no deck or share column, or no mass on the axis (lines 76-78) gives 1/\|axis\| everywhere |
| Meta.MetaShareFromTable | mars/meta.py:59-91 | otherwise the result is the gap-filled normalisation of the grouped on-axis shares |
| Meta.MetaShareDefined | mars/meta.py:47-91 | for a well-formed table the result is always defined |
| Meta.UniformGapFill | mars/meta.py:80-91 | under "uniform" each deck gets p_i + (1 − Σp)/\|axis\| |
| Meta.UniformBelowOne | mars/meta.py:80-91 | the same, when the on-axis mass is below 1 |
| Meta.UniformAtOne | mars/meta.py:80-91 | the same, when the on-axis mass is exactly 1 |
| Meta.UniformGapExample | mars/meta.py:80-91 | two of three decks at 0.4 under "uniform" give 0.4 + 0.2/3, 0.4 + 0.2/3 and 0.2/3 |
| Meta.ProportionalFillIsRescale | mars/meta.py:87-89 | proportional filling equals p/Σp |
| Meta.ProportionalIsRescale | mars/meta.py:80-91 | under "proportional", or "encounter" without p_enc, the result is p/Σp |
| Meta.ProportionalBelowOne | mars/meta.py:80-91 | the same, when the on-axis mass is below 1 |
| Meta.ProportionalAtLeastOne | mars/meta.py:80-91 | the same, when the on-axis mass is at least 1 (no gap) |
| Meta.AbsDiff | mars/meta.py:108 | the element-wise \|p_meta − p_enc\| |
| Meta.SumAbsDiffBound | mars/meta.py:108 | 0 ≤ Σ\|a − b\| ≤ Σa + Σb for non-negative a, b |
| Meta.TotalVariationBounds | mars/meta.py:108 | tv = ½Σ\|p_meta − p_enc\| lies in [0, 1] for two distributions |
| Meta.GammaInRange | mars/meta.py:110-116 | γ lies in [GAMMA_MIN, GAMMA_MAX] in auto mode (configuration with GAMMA_MIN ≤ GAMMA_MAX) |
| Meta.BlendMeta | mars/meta.py:93-119 | on success, one weight per axis deck |
| Meta.BlendIsDistribution | mars/meta.py:106-119 | the blend sums to 1 with the reported γ; in auto mode with EPS > 0 every weight is positive |
| Meta.BlendDefined | mars/meta.py:93-119 | for non-negative n_dir and a well-formed table the blend is always defined |
| MasLb.ObsRow | mars/mas_lb.py:34-35 | row i of the observed mask: off the diagonal with n_dir > 0 (undefined counts as 0) |
| MasLb.MaskedRow | mars/mas_lb.py:38-43 | the base weights where observed, 0 elsewhere |
| MasLb.NormalizedRow | mars/mas_lb.py:46-47 | each defined masked weight divided by the row sum |
| MasLb.UniformRow | mars/mas_lb.py:52-53 | 1/(number observed) on the observed opponents, 0 elsewhere |
| MasLb.WeightRow | mars/mas_lb.py:38-58 | one weight per opponent; its cases are stated by the lemmas below |
| MasLb.SqRow | mars/mas_lb.py:62 | the element-wise squares of the weights, undefined stays undefined |
| MasLb.RowScore | mars/mas_lb.py:61-71 | MAS_% = 100·Σw·p̂, SE_% = 100·sqrt(max(Var, 0)), LB_% = MAS_% − Z·SE_% |
| MasLb.MasSeLb | mars/mas_lb.py:6-72 | one score per deck, from that row's weight row on its observed mask |
| MasLb.WeightZeroOffMask | mars/mas_lb.py:43-53 | in a row with observations every unobserved opponent has weight 0 |
| MasLb.NormalizedIsScaled | mars/mas_lb.py:47 | renormalising is scaling by 1/row sum |
| MasLb.UniformSumsToOne | mars/mas_lb.py:52-53 | the uniform fallback sums to 1 |
| MasLb.NormalizedSumsToOne | mars/mas_lb.py:46-47 | a positive-sum row renormalises to sum 1 |
| MasLb.WeightsSumToOne | mars/mas_lb.py:38-53 | every row with observed opponents has weights summing to 1 |
| MasLb.UniformFallback | mars/mas_lb.py:49-53 | an observed row with masked sum ≤ 0 gives 1/(number observed) to each observed opponent |
| MasLb.RenormalizedWeight | mars/mas_lb.py:46-47 | otherwise an observed opponent gets p(B)/row sum |
| MasLb.WeightsNonNeg | mars/mas_lb.py:38-58 | non-negative base weights give non-negative weights |
| MasLb.PositiveWeightIsObserved | mars/mas_lb.py:43-58 | only observed opponents get positive weight |
| MasLb.NoObservationsScoreZero | mars/mas_lb.py:55-71 | a row with no observed opponent has an all-undefined weight row, and its MAS_%, SE_% and LB_% are 0, because the sums skip NaN |
| MasLb.ZeroSumsScoreZero | mars/mas_lb.py:61-71 | zero MAS and variance sums give a zero score |
| MasLb.MasWithinObservedRange | mars/mas_lb.py:61 | MAS is a convex combination: it lies within any bounds of the observed p̂ |
| MasLb.MasStrictlyWithinObservedRange | mars/mas_lb.py:61 | and strictly inside strict bounds, so in (0, 1) when the observed p̂ are |
| MasLb.VarMasNonNeg | mars/mas_lb.py:62 | Var(MAS) ≥ 0 for non-negative variances |
| MasLb.LowerBoundBelowMas | mars/mas_lb.py:64-65 | SE_% ≥ 0, and LB_% ≤ MAS_% when Z ≥ 0 |
| Posterior.MassIsGames | mars/posterior.py:38-50 | α + β = W + L + K |
| Posterior.BetaMean | mars/posterior.py:50-53 | α/(α+β), defined exactly when α + β ≠ 0 |
| Posterior.BetaVariance | mars/posterior.py:50-54 | αβ/((α+β)²(α+β+1)), defined exactly when both factors are non-zero |
| Posterior.PHatCell | mars/posterior.py:48-53 | p̂ = (W + μK)/(W + L + K), defined exactly when W + L + K ≠ 0 |
| Posterior.VarCell | mars/posterior.py:48-54 | the posterior variance of a cell, defined exactly when its denominators are non-zero |
| Posterior.PosteriorDir | mars/posterior.py:6-61 | square outputs with undefined diagonals; every off-diagonal cell is the cell formula with missing counts taken as 0 |
| Posterior.ExampleSixtyForty | mars/posterior.py:48-53 | W = 60, L = 40, μ = 0.5, K = 2 gives p̂ = 61/102 |
| Posterior.UnobservedIsPriorMean | mars/posterior.py:48-53 | no games gives p̂ = μ |
| Posterior.PosteriorDirUnobserved | mars/posterior.py:42-53 | an off-diagonal cell with both counts missing has p̂ = μ |
| Posterior.PriorMassesPositive | mars/posterior.py:38-50 | α, β > 0 for W, L ≥ 0, K > 0, 0 < μ < 1 |
| Posterior.BetaMeanInUnitInterval | mars/posterior.py:53 | the mean of positive masses lies in (0, 1) |
| Posterior.PHatInUnitInterval | mars/posterior.py:48-53 | 0 < p̂ < 1 for W, L ≥ 0, K > 0 and 0 < μ < 1 |
| Posterior.BetaVariancePositive | mars/posterior.py:54 | the variance of positive masses is positive |
| Posterior.VarPositive | mars/posterior.py:48-54 | var̂ > 0 under the same conditions |
| Posterior.BetaVarianceMeanForm | mars/posterior.py:53-54 | var = m(1 − m)/(α + β + 1), with m the mean |
| Posterior.VarianceIsMeanForm | mars/posterior.py:48-54 | the cell variance is p̂(1 − p̂)/(α + β + 1) |
| Posterior.NoPriorIsEmpirical | mars/posterior.py:48-53 | K = 0 with W + L > 0 gives p̂ = W/(W+L) exactly |
| Posterior.MirrorSumsToOne | mars/posterior.py:48-53 | with μ = 0.5 and mirrored counts, p̂[A,B] + p̂[B,A] = 1 |
| Posterior.PosteriorBetweenPriorAndEmpirical | mars/posterior.py:48-53 | p̂ lies between the prior mean μ and the empirical rate W/(W+L) |
| Coverage.ObsCount | mars/coverage.py:26-29 | the observed opponents among the first j columns never exceed j, less one when the diagonal is among them |
| Coverage.MissingIdx | mars/coverage.py:38 | every listed index b is before j and missing: b ≠ A with N ≤ 0 or undefined |
| Coverage.MissingIdxComplete | mars/coverage.py:38 | every missing opponent before j is listed |
| Coverage.MissingIdxAscending | mars/coverage.py:38 | the missing opponents are listed in axis order |
| Coverage.MissingIdxCount | mars/coverage.py:29-31 | missing + observed = opponents examined, so Missing = Opp_total − Opp_used |
| Coverage.OppUsed | mars/coverage.py:29-30 | 0 ≤ Opp_used ≤ Opp_total = T − 1 |
| Coverage.SampleIsMissing | mars/coverage.py:35-39 | Missing_sample holds the first min(5, Missing) missing opponents, in axis order |
| Coverage.SampleIsComplete | mars/coverage.py:35-39 | with at most 5 missing, every missing opponent is in the sample |
| Coverage.RowOfFacts | mars/coverage.py:29-47 | each deck's row: Opp_total = T − 1 ≥ Opp_used, Missing = Opp_total − Opp_used = its number of missing opponents, and Coverage_% in [0, 100] |
| Coverage.PercentOf | mars/coverage.py:31 | 100·used/max(T − 1, 1) lies in [0, 100] when used ≤ that divisor |
| Coverage.CoverageLeTotalPreorder | mars/coverage.py:49 | the order Missing descending, Opp_used ascending, Deck ascending is a total preorder |
| Coverage.PairLeTotalPreorder | mars/coverage.py:58-59 | the (Deck, Missing_opponent) order is a total preorder |
| Coverage.RowPairsAreMissing | mars/coverage.py:53-57 | one deck's pairs are (A, B) for its missing opponents B, in axis order |
| Coverage.PairsBeforeComplete | mars/coverage.py:52-57 | every (A, B) with A ≠ B and N ≤ 0 or undefined is in the pair list |
| Coverage.PairsBeforeSound | mars/coverage.py:52-57 | and every listed pair is of that kind |
| Coverage.CountFirstAppend | mars/coverage.py:52-57 | the number of pairs of a deck adds over concatenation |
| Coverage.CountFirstRow | mars/coverage.py:55-57 | one deck's row contributes exactly its missing opponents, and nothing to any other deck |
| Coverage.PairsPerDeck | mars/coverage.py:52-57 | each deck's number of missing pairs equals its Missing |
| Coverage.MissSamples | mars/coverage.py:35-39 | the loop gives every deck's ", "-joined sample, in axis order |
| Coverage.MissingPairs | mars/coverage.py:52-57 | the nested loop builds exactly the specified pair list |
| Coverage.CoverageTables | mars/coverage.py:5-61 | coverage_df is a permutation of the per-deck rows sorted by (Missing desc, Opp_used asc, Deck asc); the pairs table is a permutation of the missing pairs sorted by (Deck, Missing_opponent) |
| Validate.Checks | mars/validate_io.py:9-24 | the outcome of each of the six checks, in check order |
| Validate.Pos | mars/validate_io.py:13-14 | the position of a label, defined exactly when it is present |
| Validate.Rank | mars/validate_io.py:9-24 | each issue's position among the six checks |
| Validate.ReportedExactlyFired | mars/validate_io.py:9-24 | an issue is reported iff its check fired, and issues appear in check order |
| Validate.ReportedStep | mars/validate_io.py:9-24 | each check appends its issue exactly when it fires |
| Validate.MismatchOnlyFromAxes | mars/validate_io.py:25 | a reported issue containing "mismatch" comes only from the shape or axis checks |
| Validate.Record | mars/validate_io.py:11-24 | one check: a fatal check that fires clears ok, and a firing check appends its issue |
| Validate.Collect | mars/validate_io.py:9-25 | the sequence of checks gives ok iff none of the four fatal checks fired, with the issues in check order |
| Validate.ValidateContract | mars/validate_io.py:6-25 | ok is false exactly on a shape or axis mismatch or a defined value on either diagonal. The advisory "WR symmetry off" and "n_dir not symmetric" issues are recorded exactly when they hold |
| Consolidate.CoerceCount | core/consolidate.py:21 | an unparsable count is 0. With clipping a negative count is 0 and the result is ≥ 0; otherwise the parsed value is kept |
| Consolidate.CoerceRow | core/consolidate.py:18-26 | names are stripped, W/L/T are coerced and clipped (non-negative), and N = W + L + T |
| Consolidate.CoerceCounts | core/consolidate.py:18-26 | every row is coerced, in order |
| Consolidate.CoercedNonNegative | core/consolidate.py:21 | all coerced counts are non-negative |
| Consolidate.TotalNonNeg | core/consolidate.py:56-58 | a sum of non-negative counts is non-negative |
| Consolidate.TotalConst | core/consolidate.py:44-45 | summing a count that equals m on every row gives rows·m |
| Consolidate.TotalN | core/consolidate.py:56-59 | ΣN = ΣW + ΣL + ΣT |
| Consolidate.MaxN | core/consolidate.py:44 | the group maximum bounds every row's N |
| Consolidate.MaxNAttained | core/consolidate.py:44 | and some row attains it |
| Consolidate.TopSpec | core/consolidate.py:45 | `top` holds exactly the rows whose N equals the maximum |
| Consolidate.FlatWinrate | core/consolidate.py:52 | round(100·W/N, 2) is within half a cent of 100·W/N, in [0, 100] for 0 ≤ W ≤ N, and 0 when N = 0 |
| Consolidate.PickMaxN | core/consolidate.py:44-61 | the emitted row carries its group's (Deck A, Deck B) |
| Consolidate.TopOfMax | core/consolidate.py:44-45 | the top rows are non-empty and are exactly the rows at the maximum |
| Consolidate.PickMaxNUnique | core/consolidate.py:46-53 | a unique maximum keeps that row's W/L/T/N, which is larger than every other row's N |
| Consolidate.PickMaxNTie | core/consolidate.py:54-61 | on a tie W/L/T are summed over the tied rows and N is the number of tied rows times the maximum |
| Consolidate.PickMaxNBounds | core/consolidate.py:44-61 | N = W + L + T, and the win rate is 100·W/N to 2 places, or 0 when N = 0; for non-negative rows it lies in [0, 100] |
| Consolidate.PickAllSpec | core/consolidate.py:41-61 | one row per (A, B) group, each the max-N pick of its group, and every group with rows is emitted |
| Consolidate.FlatLeTotalPreorder | core/consolidate.py:67 | the (Deck A ascending, N descending) order is a total preorder |
| Consolidate.MaxNTable | core/consolidate.py:34-36 | raises KeyError exactly when a required column is missing |
| Consolidate.MaxNTableMembers | core/consolidate.py:38-67 | the sorted rows are exactly the rows the group loop emits |
| Consolidate.MaxNTableShape | core/consolidate.py:40-67 | one row per distinct (A, B), no key twice, sorted by (Deck A, N desc) |
| Consolidate.MaxNTableRows | core/consolidate.py:41-61 | each output row is its group's max-N pick, and every input row's (A, B) has an output row |
| Consolidate.MaxNTableBounds | core/consolidate.py:41-61 | output counts are non-negative and win rates lie in [0, 100] |
| Consolidate.MaxNFlat | core/consolidate.py:29-72 | the group loop computes exactly the specified table |
| Consolidate.PickGroups | core/consolidate.py:40-61 | the loop over group keys emits the specified picks |
| Consolidate.PickAllStep | core/consolidate.py:41-61 | one loop step emits the pick of a non-empty group, and nothing for an empty one |
| Consolidate.SumGroup | core/consolidate.py:179-182 | a summed group keeps its (Deck A, Deck B) |
| Consolidate.AggregateKeysAt | core/consolidate.py:179-182 | the sums per key, in first-appearance order |
| Consolidate.AggregateSpec | core/consolidate.py:179-182 | groupby-sum gives one row per distinct (A, B), each the sum of its group, and covers every input row |
| Consolidate.AggregateIdentity | core/consolidate.py:244-248 | a table with one row per direction aggregates to itself (the "per idempotenza" step) |
| Consolidate.AggregateKeeps | core/consolidate.py:179-182 | aggregation keeps counts non-negative, adds no mirror match and invents no key |
| Consolidate.AliasName | core/consolidate.py:79-82 | with an empty index the name is stripped. Otherwise a hit on the NFKC/strip/casefold key gives the canonical name, and a miss the stripped name |
| Consolidate.AliasRows | core/consolidate.py:165-166 | both deck columns are aliased on every row |
| Consolidate.OffDiagonal | core/consolidate.py:169 | exactly the rows with Deck A ≠ Deck B are kept; a table without mirror matches is unchanged |
| Consolidate.CoerceKept | core/consolidate.py:174-176 | counts coerced with or without clipping, names kept |
| Consolidate.WithWinrates | core/consolidate.py:140-142 | every row gets its directional win rate |
| Consolidate.AliasCountsSpec | core/consolidate.py:165-182 | aggregated directions have no mirror match and come from aliased input rows |
| Consolidate.AliasAggregateSymmetric | core/consolidate.py:150-190 | the result is empty or a symmetric table (sorted, one row per direction, mirrors present) with directional win rates |
| Consolidate.AliasAggregateOrigin | core/consolidate.py:150-190 | every output row is an aggregated aliased direction or its mirror |
| Consolidate.AliasCountsCovers | core/consolidate.py:165-182 | every aliased row that is not a mirror match reaches the aggregate |
| Consolidate.AliasAggregateCovers | core/consolidate.py:150-190 | every aliased input direction that is not a mirror match appears in the output |
| Consolidate.Score | core/consolidate.py:253-263 | WR_dir = round(100·W/(W+L), round_wr), N = W + L + T, and Winrate = WR_dir only when legacy is set |
| Consolidate.ScoredSpec | core/consolidate.py:253-257 | exactly the rows with W + L > 0 are scored, and distinct directions stay distinct |
| Consolidate.ScoredAll | core/consolidate.py:253-257 | when all rows have W + L > 0 every row is scored, in order |
| Consolidate.ScoreLeTotalPreorder | core/consolidate.py:260 | the (Deck A, Deck B) order is a total preorder |
| Consolidate.OnAxis | core/consolidate.py:226-230 | exactly the rows with both decks on the kept axis are kept; an on-axis table is unchanged |
| Consolidate.KeptSet | core/consolidate.py:226 | the kept set has exactly the axis names |
| Consolidate.BuildScoreTable | core/consolidate.py:218-224 | empty for a missing or empty table or an axis shorter than 2; otherwise KeyError exactly when a required column is missing |
| Consolidate.CoercedOnAxis | core/consolidate.py:229-242 | the filtered, coerced rows are on the axis, off the diagonal and non-negative |
| Consolidate.ScoreCountsSpec | core/consolidate.py:229-251 | the counts after aggregation and symmetrising form a symmetric, non-negative table on the axis |
| Consolidate.BuildScoreTableRows | core/consolidate.py:218-263 | every row has both decks on the axis, A ≠ B, W + L > 0, N = W + L + T and WR_dir = round(100·W/(W+L)); its mirror row is present |
| Consolidate.BuildScoreTableOrder | core/consolidate.py:259-260 | the output is sorted by (Deck A, Deck B) with one row per direction |
| Consolidate.BuildScoreTableSpec | core/consolidate.py:192-265 | the whole output contract of `build_score_table_filtered` |
| Consolidate.ToTable | core/consolidate.py:261-263 | the output read back as an input table, row for row |
| Consolidate.CountsOf | core/consolidate.py:261 | the (A, B, W, L, T) of every output row |
| Consolidate.ValidRows | core/consolidate.py:218-263 | a valid score table has valid rows position by position |
| Consolidate.ToTableFilters | core/consolidate.py:229-237 | a valid table passes the axis and diagonal filters unchanged |
| Consolidate.ToTableCounts | core/consolidate.py:239-242 | coercing a valid table's counts changes nothing |
| Consolidate.CountsOfSymmetric | core/consolidate.py:250-251 | a valid table's counts are already symmetric |
| Consolidate.ScoredCountsOf | core/consolidate.py:253-257 | re-scoring a valid table's counts gives the table back |
| Consolidate.SortValid | core/consolidate.py:260 | sorting a valid table changes nothing |
| Consolidate.TwoDecks | core/consolidate.py:218 | a non-empty valid table lives on an axis of at least 2 decks |
| Consolidate.ToTableColumns | core/consolidate.py:221-224 | a table read back has the required columns |
| Consolidate.ToTableScoreCounts | core/consolidate.py:229-251 | the counts pipeline on a valid table reproduces its counts |
| Consolidate.BuildScoreTableFull | core/consolidate.py:218-263 | on a table whose rows all pass both filters, the result is the sorted scored symmetric counts |
| Consolidate.ScoreTableFixed | core/consolidate.py:244-263 | a valid score table is a fixed point |
| Consolidate.BuildScoreTableIdempotent | core/consolidate.py:192-265 | re-applying `build_score_table_filtered` to its own output returns the same rows |
| Symmetry.Mirror | core/consolidate.py:132 | the mirror row swaps the decks and W with L, keeping T |
| Symmetry.MirrorInvolution | core/consolidate.py:132 | mirroring twice is the identity, and N and N_dir are unchanged |
| Symmetry.ABLeTotalPreorder | core/consolidate.py:146 | the (Deck A, Deck B) string order is a total preorder |
| Symmetry.ABLeTies | core/consolidate.py:146 | two rows equivalent under it have the same (A, B) |
| Symmetry.SortedByABUnique | core/consolidate.py:146 | two sorted permutations with distinct keys are equal, so the sorted output is determined |
| Symmetry.PairKeySymmetric | core/consolidate.py:101-105 | the unordered pair key does not depend on the direction |
| Symmetry.PairKeyUnordered | core/consolidate.py:101-105 | two pair keys are equal iff they name the same two decks in either order |
| Symmetry.PairKeyTextCollides | core/consolidate.py:101-105 | the text key A + "\|\|" + B makes ("x\|\|y", "z") and ("x", "y\|\|z") collide, while the tuple key separates them |
| Symmetry.JoinKeyInjective | core/consolidate.py:101-105 | two names without "\|" are recovered from their joined key |
| Symmetry.SymmetrizeAsWrittenMerges | core/consolidate.py:101-146 | grouping by the text key as written emits 2 rows for ("x\|\|y", "z") and ("x", "y\|\|z"), where grouping by the two names emits 4 |
| Symmetry.SymmetrizeAsWrittenAgrees | core/consolidate.py:101-146 | when no deck name contains "\|", grouping by the text key gives the same table as grouping by the two names |
| Symmetry.TieLeTotal | core/consolidate.py:113-121 | the tie-break order (N_dir desc, N desc, A, B) is total |
| Symmetry.TieLeTransitive | core/consolidate.py:113-121 | and transitive |
| Symmetry.Choose | core/consolidate.py:121 | the chosen row belongs to its group and is first under the tie-break order |
| Symmetry.EmitAllAppend | core/consolidate.py:109-132 | the rows emitted for one more key are appended at the end |
| Symmetry.ChosenSpec | core/consolidate.py:121-132 | each group emits its chosen row and its mirror, both with the group's pair key |
| Symmetry.EmitAllMembers | core/consolidate.py:109-132 | every emitted row is a group's chosen row or its mirror, and its mirror is emitted too |
| Symmetry.EmitAllDistinct | core/consolidate.py:109-132 | no direction is emitted twice |
| Symmetry.EmitAllLength | core/consolidate.py:109-132 | exactly two rows per unordered pair |
| Symmetry.SymmetrizeMembers | core/consolidate.py:134-146 | sorting keeps exactly the emitted rows |
| Symmetry.SymmetrizeChosen | core/consolidate.py:109-146 | every output row is a chosen row or its mirror |
| Symmetry.SymmetrizeFrom | core/consolidate.py:109-146 | every output row is an input row or the mirror of one |
| Symmetry.SymmetrizeLength | core/consolidate.py:109-146 | the output has two rows per unordered pair |
| Symmetry.SymmetrizeSymmetric | core/consolidate.py:85-147 | the output is sorted by (A, B) with one row per direction, no mirror match, and every row's mirror present |
| Symmetry.SymmetrizeCovers | core/consolidate.py:109-146 | every input row's direction appears in the output |
| Symmetry.TwoDirections | core/consolidate.py:109 | a group of distinct directions that share one pair key has at most two rows |
| Symmetry.MirrorPair | core/consolidate.py:109-121 | a group of at most two rows that starts with x and holds x's mirror is exactly [x, mirror of x] |
| Symmetry.MirrorPairGroup | core/consolidate.py:121-132 | in a symmetric table, re-symmetrising a pair's group re-emits the same two rows |
| Symmetry.EmitAllPermutes | core/consolidate.py:109-132 | on a symmetric table the emitted rows are a permutation of the grouped input |
| Symmetry.SymmetricFixed | core/consolidate.py:85-147 | a symmetric table is a fixed point of `_enforce_directional_symmetry` |
| Symmetry.SymmetrizeIdempotent | core/consolidate.py:85-147 | imposing symmetry twice is the same as once |
| Symmetry.DirWinrate | core/consolidate.py:140-142 | the rounded directional rate lies in [0, 100] and within half a unit of the last place of 100·W/(W+L) |
| Symmetry.SharesAddUp | core/consolidate.py:140-141 | the unrounded rates of a row and its mirror add up to 100 |
| Symmetry.DirWinrateMirror | core/consolidate.py:140-142 | the rounded rates of a row and its mirror add up to 100 within one unit of the last place |
| Symmetry.WithWinrate | core/consolidate.py:137-142 | the counts are kept, N = W + L + T, and Winrate is undefined exactly when W + L = 0 |
| Symmetry.EmitPairs | core/consolidate.py:108-132 | the group loop appends exactly the specified rows |
| Symmetry.EmitStep | core/consolidate.py:121-132 | one step appends the chosen row and its mirror |
| Symmetry.EnforceSymmetry | core/consolidate.py:85-147 | the method returns the sorted symmetric rows with their win rates |
| NanFilter.Range | core/nan_filter.py:24 | the initial positions 0..T−1, in order |
| NanFilter.Allowed | core/nan_filter.py:24-28 | allowed ≥ min_nan_allowed, and is ⌈(T−1)·ratio⌉ or ⌊(T−1)·ratio⌋ (by use_ceil) unless raised to the minimum; fixed from the initial size |
| NanFilter.RowNan | core/nan_filter.py:30-32 | a row's undefined cells within the current columns, at most their number |
| NanFilter.Gaps | core/nan_filter.py:30-32 | a row's undefined off-diagonal cells within the current columns |
| NanFilter.RowNanSplit | core/nan_filter.py:31-32 | the row count is the off-diagonal count plus 1 for an undefined diagonal cell |
| NanFilter.OffDiagNanExcludesDiagonal | core/nan_filter.py:30-32 | subtracting the diagonal gives exactly the off-diagonal count |
| NanFilter.Over | core/nan_filter.py:40-41 | each current deck's excess, count − allowed, in order |
| NanFilter.MaxOf | core/nan_filter.py:45 | the maximum excess bounds all and is attained |
| NanFilter.PickMembers | core/nan_filter.py:46 | to_drop holds exactly the decks whose excess equals the maximum |
| NanFilter.RestMembers | core/nan_filter.py:48 | the remaining decks are current decks |
| NanFilter.PickSplit | core/nan_filter.py:46-48 | the dropped and remaining decks partition the current ones |
| NanFilter.PickIncreasing | core/nan_filter.py:46-48 | both parts keep the axis order |
| NanFilter.Dropped | core/nan_filter.py:45-46 | the decks dropped in a round are on the axis |
| NanFilter.Remaining | core/nan_filter.py:48 | a round removes at least one deck; dropped and remaining partition the current decks, in axis order |
| NanFilter.RestBounds | core/nan_filter.py:45-48 | the parts of a round are on the axis, the rest is strictly smaller, and axis order is kept |
| NanFilter.Rounds | core/nan_filter.py:37-50 | the loop as a function, terminating because every round drops a deck; kept and dropped decks are on the axis |
| NanFilter.RoundsExit | core/nan_filter.py:37-44 | on exit ≤ 2 decks remain, or every remaining deck has ≤ allowed off-diagonal gaps |
| NanFilter.RoundsPartition | core/nan_filter.py:37-52 | the remaining and dropped decks partition the axis, and the remaining keep axis order |
| NanFilter.DroppedSpec | core/nan_filter.py:40-46 | when a round is due the maximal excess is positive, and exactly the decks at that excess are dropped |
| NanFilter.FilterOutcome | core/nan_filter.py:24-52 | from the full axis: the remaining axis in original order and the dropped list partition the axis, and the exit condition holds |
| NanFilter.Labels | core/nan_filter.py:48-49 | the names of the chosen positions |
| NanFilter.Restrict | core/nan_filter.py:48 | dropping rows and columns keeps exactly the remaining decks' cells |
| NanFilter.DropRounds | core/nan_filter.py:37-50 | the `while True` loop ends in the state the function specifies |
| NanFilter.RoundStop | core/nan_filter.py:38-44 | when the loop stops, the state is the specified outcome |
| NanFilter.RoundStep | core/nan_filter.py:45-50 | one iteration keeps the loop invariant |
| NanFilter.Round | core/nan_filter.py:38-48 | one iteration stops iff no round is due, and otherwise computes the decks to drop and the remaining ones |
| NanFilter.FilterWrNanIterative | core/nan_filter.py:16-52 | None or empty input is returned unchanged with no drops; otherwise the frame restricted to the remaining decks, and the dropped names in drop order |
| Matrices.PairSumBasics | core/matrices.py:94-99 | a direction with no row sums to 0 (`fill_value=0`), and non-negative counts give a non-negative sum |
| Matrices.PairSumUnique | core/matrices.py:94-99 | with one row per direction, the sum at a present direction is that row's count |
| Matrices.OnAxisRows | core/matrices.py:91 | exactly the rows with both decks on the axis are kept |
| Matrices.PairSumOnAxis | core/matrices.py:91-99 | the filter does not change any cell of the pivot |
| Matrices.Pivot | core/matrices.py:94-99 | a T×T matrix whose cell (A, B) is the sum of the count over the rows of direction (A, B) |
| Matrices.WrCell | core/matrices.py:102-115 | "exclude": defined iff W + L > 0, then round(100·W/(W+L), 2). "half": defined iff W + L + T > 0, then within half a cent of 100·(W + T/2)/(W+L+T). Values lie in [0, 100] |
| Matrices.WrMatrix | core/matrices.py:109-115 | the diagonal is undefined without a mirror value and that value rounded to 2 decimals with one; off the diagonal each cell is the win-rate cell of its counts |
| Matrices.AxisSet | core/matrices.py:91 | the set has exactly the axis names |
| Matrices.BuildMatrices | core/matrices.py:82-117 | raises exactly on an empty axis; otherwise four T×T matrices |
| Matrices.BuildMatricesCounts | core/matrices.py:94-99 | W, L and T are the per-(A, B) sums over on-axis rows, 0 where no row exists |
| Matrices.BuildMatricesWrDefined | core/matrices.py:102-115 | the diagonal is the mirror cell; off it, WR is defined iff the mode's denominator is positive |
| Matrices.BuildMatricesNonNeg | core/matrices.py:94-99 | non-negative input counts give non-negative matrices |
| Matrices.BuildMatricesWrBounds | core/matrices.py:102-115 | every defined off-diagonal WR lies in [0, 100] for non-negative counts |
| Matrices.PairSumMirrored | core/matrices.py:94-99 | on a symmetric table W[B,A] = L[A,B] and L[B,A] = W[A,B] |
| Matrices.BuildMatricesMirror | core/matrices.py:102-115 | on a symmetric table in "exclude" mode, WR[A,B] and WR[B,A] are defined together and add up to 100 within a cent |
| Matrices.NDirFromWL | core/matrices.py:120-128 | n_dir = W + L off the diagonal, with an undefined diagonal |
| Matrices.NDirSymmetric | core/matrices.py:120-128 | n_dir is symmetric when W is the transpose of L |
| Matrices.BuildMatricesNDirSymmetric | core/matrices.py:94-128 | n_dir built from a symmetric table's matrices is symmetric |
| Matrices.LowNames | core/matrices.py:32-44 | each column name stripped and lower-cased |
| Matrices.DeckNameCol | core/matrices.py:30-35 | the first column named "deck", "archetype" or "name" |
| Matrices.FirstObject | core/matrices.py:36-41 | the first object (non-numeric) column, the deck fallback |
| Matrices.LastLow | core/matrices.py:44 | the last column with a given lower-cased name, the one `lowmap` keeps |
| Matrices.ShareNameCol | core/matrices.py:44-49 | the column of the first share name in priority order that some column has, taking the last column with that name |
| Matrices.MetaColumns | core/matrices.py:29-58 | raises KeyError when the deck or the share column is missing, or when they are the same column; otherwise the two distinct columns |
| Matrices.ShareFrac | core/matrices.py:63-64 | a share ≤ 1 is kept, a larger one read as a percentage, and the result clipped into [0, 1] |
| Matrices.MetaPair | core/matrices.py:59-67 | a row's stripped, aliased deck with its share fraction (a non-numeric share read as 0) in [0, 1] |
| Matrices.MetaPairs | core/matrices.py:58-67 | the (deck, fraction) pair of every row, in order |
| Matrices.DeckTotalNonNeg | core/matrices.py:70-72 | each deck's summed fraction is non-negative |
| Matrices.FracGeTotalPreorder | core/matrices.py:73 | Share_frac descending is a total preorder |
| Matrices.Aggregated | core/matrices.py:70-76 | one row per deck: its name, its summed fraction and Share_% = round(100·frac, 2) |
| Matrices.AggregatedDecks | core/matrices.py:70-72 | the grouped rows have distinct decks, exactly the input decks |
| Matrices.TopMetaPostAlias | core/matrices.py:16-78 | empty for a missing or empty table; KeyError exactly when the columns cannot be found; otherwise the sorted aggregate of the row fractions, each in [0, 1] |
| Matrices.TopMetaSorted | core/matrices.py:73 | the result is sorted by Share_frac, largest first |
| Matrices.TopMetaRows | core/matrices.py:70-75 | sorting keeps exactly the aggregated rows |
| Matrices.TopMetaDistinct | core/matrices.py:70-75 | no deck appears twice |
| Matrices.TopMetaTotals | core/matrices.py:70-76 | each deck's fraction is its summed share (≥ 0), and Share_% = round(100·frac, 2) |
| Matrices.TopMetaDecks | core/matrices.py:67-75 | the result names exactly the canonical decks of the input rows |
| Normalize.Collapsed | core/normalize.py:31-32 | the NFKC form, stripped, with whitespace runs collapsed to one space |
| Normalize.NormalizeLabel | core/normalize.py:27-32 | None gives ""; otherwise the casefold of the collapsed text |
| Normalize.LabelKey | core/normalize.py:27-32 | the key function used by the index is `normalize_label` |
| Normalize.InsertPoolSpec | core/normalize.py:58-66 | inserting one canonical's pool adds exactly the new keys of its names, mapped to that canonical; existing keys keep their value |
| Normalize.FirstClaimAppend | core/normalize.py:57-66 | a later canonical claims a key only if no earlier one did |
| Normalize.AliasIndexFirstWins | core/normalize.py:53-66 | a key is in the index iff some pool claims it, and it maps to the first canonical that does |
| Normalize.CanonicalMapsToItself | core/normalize.py:59-66 | every canonical's own key is in the index, and maps to itself unless an earlier canonical already claimed it |
| Normalize.FirstClaimSplit | core/normalize.py:57-66 | a key claimed by entry i maps to its canonical when no earlier entry claimed it |
| Normalize.BuildAliasIndex | core/normalize.py:53-66 | the nested loop filling `idx` builds exactly the first-wins index |
| Normalize.ApplyAlias | core/normalize.py:69-72 | an empty index only strips; otherwise a hit gives the canonical and a miss the original string, unstripped |
| Normalize.ApplyAliasIdempotent | core/normalize.py:69-72 | with an index whose canonicals map to themselves, aliasing twice equals aliasing once |
| Normalize.Hits | core/normalize.py:79 | the number of values whose key is in the index, at most their number |
| Normalize.HitsExtremes | core/normalize.py:79 | all values hit iff hits = total, and none iff hits = 0 |
| Normalize.Present | core/normalize.py:78 | the non-missing values, no more of them than the series has |
| Normalize.AliasCoverage | core/normalize.py:75-83 | 0 for an empty index or no values, else 100·hits/total, always in [0, 100] |
| Normalize.AliasCoverageExtremes | core/normalize.py:75-83 | coverage is 100 iff every value hits, and 0 iff none does |
| Decklist.CleanPercent | scraper/decklist.py:167-175 | the cleaned text has no non-breaking space, no '%' and no ','  |
| Decklist.Parsed | scraper/decklist.py:176-177 | each entry with its parsed share, 0 when unparsable |
| Decklist.ShareGeTotalPreorder | scraper/decklist.py:178 | share descending is a total preorder, so the stable sort is well defined |
| Decklist.Cumulate | scraper/decklist.py:179 | row i carries the total share of rows 0..i |
| Decklist.Cutoff | scraper/decklist.py:180 | the first row whose cumulative share reaches the threshold, every row before it below; the last row when none reaches it |
| Decklist.Ranking | scraper/decklist.py:176-179 | one ranked row per entry |
| Decklist.Cut | scraper/decklist.py:180-181 | a non-empty prefix whose rows before the last are below the threshold; its last row reaches the threshold iff some row does, and otherwise the whole ranking is kept |
| Decklist.FilterTopMeta | scraper/decklist.py:164-182 | ValueError exactly for a missing or empty decklist; otherwise the cut of the ranking |
| Decklist.CumulateStep | scraper/decklist.py:179 | the first cumulative share is the first share, and each later one the previous plus its own share |
| Decklist.RankingCumulative | scraper/decklist.py:178-179 | the ranking's cumulative column is the running sum of its share column |
| Decklist.RankingSorted | scraper/decklist.py:178 | shares are in non-increasing order |
| Decklist.Unranked | scraper/decklist.py:178-179 | the (entry, share) pairs of a ranking |
| Decklist.RankingPermutation | scraper/decklist.py:176-179 | the ranking holds exactly the parsed entries, as a multiset |
| Decklist.RankingStable | scraper/decklist.py:178 | entries of equal share keep their decklist order (`kind="mergesort"`) |
| Matchups.MatchupPath | scraper/matchups.py:31-33 | the path with trailing '/' removed, ending in "/matchups", the suffix added only when it is missing |
| Matchups.MatchupPathIdempotent | scraper/matchups.py:31-33 | fixing a fixed path changes nothing |
| Matchups.Resolved | scraper/matchups.py:26-30 | an absolute URL is split as it is (a relative one is joined to the site base first, which the contract does not constrain further) |
| Matchups.MatchupParts | scraper/matchups.py:26-34 | scheme, host, query and fragment of the resolved URL, with the matchup path |
| Matchups.ToMatchupUrl | scraper/matchups.py:19-34 | None exactly for a missing or blank URL; otherwise the reassembled matchup URL of the stripped text |
| Matchups.ToMatchupUrlIdempotent | scraper/matchups.py:19-34 | converting a converted URL gives the same URL again, given that split and unsplit are inverse and the base resolves to an absolute URL |
| Matchups.NormalizeRow | scraper/matchups.py:77-103 | opponent "Unknown" when blank; W/L/T from the record, 0 without one, T = 0 when absent; N raised to W+L+T; the rate is the parsed one, or 100·W/N (0 for N = 0), rounded to 2 decimals |
| Matchups.NormalizeRowFallbackBounds | scraper/matchups.py:92-96 | the fallback win rate lies in [0, 100] |
| Matchups.Cleaned | scraper/matchups.py:127 | every URL stripped, a missing one read as "" |
| Matchups.FirstsMembers | scraper/matchups.py:123-131 | the kept pairs are exactly those with a non-blank URL not seen earlier |
| Matchups.FirstsUrls | scraper/matchups.py:123-131 | every non-blank URL of the input is kept, and only those |
| Matchups.FirstIndex | scraper/matchups.py:128-131 | the index of the first pair with a URL, which is the one kept |
| Matchups.FirstsDistinct | scraper/matchups.py:123-131 | no URL is kept twice |
| Matchups.Dedup | scraper/matchups.py:123-133 | the loop keeps the first pair of each non-blank cleaned URL, in order, and `total` is their number |
| Matchups.DedupCleaned | scraper/matchups.py:124-133 | the `seen`-set loop computes exactly the first-occurrence list |
| Matchups.DedupStep | scraper/matchups.py:128-131 | one step appends the pair iff its URL is non-blank and unseen |
| Matchups.SeenStep | scraper/matchups.py:130 | after the step `seen` holds exactly the URLs of the pairs so far |
| Report.SafeName | mars/report.py:22-23 | no character of `[]:*?/\` is left |
| Report.DefaultSheetClean | mars/report.py:24-25 | the fallback name "Sheet" is itself clean |
| Report.SanitizeSheetName | mars/report.py:20-26 | the result is clean, 1 to 31 characters long, "Sheet" when nothing is left, otherwise a prefix of the cleaned name and the cleaned name itself when it fits |
| Report.DivRow | mars/report.py:128 | every defined weight divided by the sum, undefined ones kept |
| Report.Uniform | mars/report.py:125-126 | 0 for A and the same value for every other deck |
| Report.WeightsRow | mars/report.py:118-129 | A's weight is 0; with a positive sum over B ≠ A the others are renormalised by it, otherwise each is 1/max(T−1, 1) |
| Report.SumSkipNaCons | mars/report.py:123 | the NaN-skipping sum splits at the head |
| Report.SumDivRow | mars/report.py:128 | dividing every weight by s divides the sum by s |
| Report.SumUniform | mars/report.py:126 | the uniform row sums to (T−1)·v |
| Report.WeightsRowSum | mars/report.py:118-129 | the weights sum to 1, except the lone deck with no positive weight, whose row sums to 0 |
| Report.PHatBlend | mars/report.py:170-175 | p̂ = (K·100·mu + N·WR)/(K + N), and for K, N ≥ 0 it lies between the observed WR and the prior 100·mu |
| Report.PairRow | mars/report.py:209-223 | the row carries the opponent, WR and p̂; the weight in percent; gap = p̂ − WR, defined iff both are; contribution = w·p̂/100 |
| Report.IndexOf | mars/report.py:215-216 | the first axis position of a label, None when absent |
| Report.Steps | mars/report.py:189-223 | one step per label of the row order, each built from A's weight row |
| Report.Collect | mars/report.py:186-223 | a missing label raises KeyError |
| Report.CollectFailExtends | mars/report.py:189-223 | once a label raised, the whole loop raised |
| Report.CollectFailure | mars/report.py:189-223 | the rows fail iff some label is missing from the axis |
| Report.CollectContent | mars/report.py:189-223 | every row comes from a step of the loop |
| Report.StepsPrefix | mars/report.py:189 | the steps of a prefix of the order are a prefix of the steps |
| Report.SheetRowsFailure | mars/report.py:189-216 | deck A's sheet raises iff some label of the order other than A is not on the axis |
| Report.SheetRowsOrder | mars/report.py:183-206 | the rows' opponents are the order's labels, A itself replaced by the mirror row or dropped |
| Report.OpponentsWithSelf | mars/report.py:191-204 | with the mirror row, there is one row per label, A's labelled "Mirror" |
| Report.SheetRowsContent | mars/report.py:191-223 | each row is the mirror row (no rates, weight and contribution 0) or the pair row of some other axis deck B, with WR, p̂ and weight from B's cell |
| Report.DeckSheet | mars/report.py:186-223 | the inner loop builds exactly the specified rows |
| Report.AxisOrderSucceeds | mars/report.py:183 | with the axis as row order, no deck's sheet raises |
| Report.RoundCell | mars/report.py:235-236 | round(2) is within half a cent and keeps a NaN a NaN |
| Report.RoundRow | mars/report.py:232-236 | every numeric field of the row is rounded that way; the opponent is kept |
| Report.RoundRows | mars/report.py:232-236 | every row of the sheet is rounded |
| Report.PairSheets | mars/report.py:156-238 | the sheets are built iff no deck's rows raise (KeyError otherwise); then one sheet per axis deck, in axis order, holding its rounded rows |
| Report.Present | mars/report.py:299 | the kept columns that the ranking has, in the kept order |
| Report.KeyGeTotalPreorder | mars/report.py:302 | Score_% descending, NaN last, is a total preorder |
| Report.Keyed | mars/report.py:302 | each row index with its Score_% |
| Report.SummaryOrderRows | mars/report.py:300-303 | the sort is a permutation of the row indices, carrying their scores |
| Report.SummaryCol | mars/report.py:300-307 | one column with the name and one cell per row |
| Report.BuildSummarySheet | mars/report.py:289-308 | KeyError exactly when Score_% is missing; otherwise the present kept columns, in order, with all rows |
| Report.SummaryRows | mars/report.py:300-307 | row i of every column is the sorted row's cell, rounded in the rounded columns |
| Report.SummarySorted | mars/report.py:300-303 | Score_% is non-increasing down the sheet |
| Report.SummaryStable | mars/report.py:302 | rows of equal score keep their ranking order |
| Report.Assign | mars/report.py:321-325 | assigning a title keeps titles distinct |
| Report.IndexOfAppend | mars/report.py:325 | appending a new title keeps every earlier position |
| Report.AssignSpec | mars/report.py:321-325 | `workbook[key] = v` maps key to v, keeps its position when present and appends it otherwise, and changes no other title |
| Report.Front | mars/report.py:320-323 | the legend and, when given, the summary as a well-formed workbook |
| Report.AssignFrom | mars/report.py:324-325 | the deck loop keeps the workbook well formed |
| Report.DeckTitles | mars/report.py:325 | each deck's sanitized name |
| Report.DeckSheets | mars/report.py:324-325 | each deck's sheet |
| Report.Workbook | mars/report.py:311-326 | the workbook is well formed |
| Report.PrepareWorkbook | mars/report.py:311-326 | the assignment loop builds exactly the specified workbook |
| Report.AssignFromTitles | mars/report.py:324-325 | titles stay distinct and keep their order; every deck title is added; nothing else is |
| Report.AssignFromKeeps | mars/report.py:324-325 | a title that no remaining deck maps to keeps its sheet |
| Report.AssignFromLast | mars/report.py:324-325 | a deck title holds the sheet of the last deck that maps to it |
| Report.AssignFromFresh | mars/report.py:324-325 | with fresh, distinct deck titles they are appended in order |
| Report.FrontTitles | mars/report.py:320-323 | "00_Legenda", then "01_Summary" when given |
| Report.BookFront | mars/report.py:320-325 | the front titles stay first |
| Report.BookDecks | mars/report.py:324-325 | the workbook has every deck title and nothing but front and deck titles |
| Report.WorkbookFront | mars/report.py:317-323 | the legend is first and the summary, when given, second; no title twice |
| Report.WorkbookDecks | mars/report.py:318-325 | every sanitized deck name is a title, and every title is the legend, the summary or a deck's |
| Report.WorkbookLast | mars/report.py:324-325 | two decks sanitized alike: the later one's sheet wins |
| Report.WorkbookFresh | mars/report.py:320-326 | when the sanitized names are distinct and differ from the front titles, the titles are the front ones followed by the decks' in order |
| Report.FirstUnused | mars/report.py:361-375 | the first unused title in workbook order that fits the test (exact, prefix or case-insensitive substring), None iff none does |
| Report.Claim | mars/report.py:359-377 | an unused existing title: the exact one when available; otherwise the first unused title in workbook order starting with the name; otherwise the first containing it case-insensitively; None iff no unused title fits any of the three |
| Report.SanitizedAll | mars/report.py:357 | each desired deck name sanitized |
| Report.ClaimTitles | mars/report.py:359-377 | the loop with `used` and `mapped_titles` computes the specified claims |
| Report.AppendRest | mars/report.py:381-383 | the loop appends the specified remaining titles |
| Report.ReorderTitles | mars/report.py:330-386 | the reorder computes exactly the specified title order |
| Report.ClaimStepOk | mars/report.py:359-377 | one claim keeps the titles distinct, `used` equal to the mapped set and inside the existing titles, extending the list by at most one |
| Report.ClaimsOk | mars/report.py:359-377 | the claim loop keeps that invariant and adds at most one title per desired deck |
| Report.PrefixesOk | mars/report.py:350-354 | the prefix is "00_Legenda" and then "01_Summary", each only when present, and keeps the invariant |
| Report.RestSpec | mars/report.py:381-383 | appending the rest keeps titles distinct, extends the list and covers every remaining existing title |
| Report.ReorderTitlesOnce | mars/report.py:330-386 | the new order has no title twice and holds exactly the existing titles |
| Report.DistinctOnce | mars/report.py:386 | a list without repeats holds each element once |
| Report.ReorderPermutation | mars/report.py:330-386 | for distinct existing titles the reorder is a permutation of them |
| Report.ReorderLayout | mars/report.py:350-386 | the legend is first and the summary next when present; then the claimed deck sheets; then the unclaimed titles, none claimed before |

## Left out

- Network, browser and cache code (scraper/browser.py, scraper/session.py, the fetch loop of `scrape_matchups`) is not part of this model: it is HTTP, Selenium and file I/O.
- HTML table parsing (scraper/decklist.py:42-161, scraper/matchups.py:37-90): BeautifulSoup and regex extraction are not modelled. `Matchups.NormalizeRow` takes the already extracted opponent text, match-count digits, record and rate.
- Filesystem and workbook I/O (utils/, openpyxl load and save, the Excel writer): the workbook is modelled as its list of titles with their sheets, and the reorder as a function on titles.
- Presentation: utils/display.py and the legend tables of mars/report.py:241-275.
- Log-likelihoods: `_logB`, lgamma and the LL sum of mars/auto_k_cv.py are an abstract function `ll` of K. beta_auto, the seeded bootstrap with its median, IQR and mode statistics, and the shrinkage percentiles are inputs. The dLL/N_test_tot and shrinkage diagnostics are not modelled.
- mars/bt.py: the power s̄^γ, the median diagnostics and the log/exp/std logistic scaling are function parameters. Convergence of the MM loop is not claimed: the model states which iterate the loop stops at, not that the iterates approach a limit.
- Square roots (mars/mas_lb.py:64, the SE columns of mars/report.py) are a parameter `sqrt` assumed non-negative. `_corr_safe` (mars/meta.py:29-45) is not modelled.
- mars/composite.py needs std, sqrt and erf and is not part of this model. mars/pipeline.py is orchestration and is not part of this model. mars/config.py becomes the defaults of `Config`.
- NFKC normalisation, `str.casefold`, `str.lower`, `urljoin`, `urlsplit` and `urlunsplit` are abstract function parameters. `pd.to_numeric` is a parameter in `Decklist` and a cell's numeric reading in `Table`.
- Floating point: reals are exact, so IEEE rounding, infinities and overflow are not modelled. A division by zero that would give NaN or inf gives an undefined value (for example `Report.PHat` with a zero denominator).
- pandas' sort with `kind="mergesort"` is modelled as a stable sort. Where the source sorts without that option, the model still sorts stably, so the order of ties there is one admissible order.
- A frame is "empty" when it has no rows or no columns, as pandas' `.empty`.
- Consolidate.AliasName: the key function of core/consolidate.py:76 does not collapse inner whitespace, unlike core/normalize.py:27-32. The model keeps that difference as written.
- Symmetry.Symmetrize / Symmetry.EnforceSymmetry: rows are grouped by the two names of the pair, the evidently intended key, not by the joined text A + "||" + B of core/consolidate.py:101-109. The two agree when no deck name contains "|" (`SymmetrizeAsWrittenAgrees`). When names contain "||", the source merges pairs whose joined keys collide and emits only one of them (`SymmetrizeAsWrittenMerges`); the model keeps both.
- EmitAllLength: two rows per pair holds for grouping by the two names; under the text key of the source two colliding pairs give two rows, not four.
- SymmetrizeLength: the table has 2·(number of pairs) rows under grouping by the two names; with colliding text keys the source emits fewer.
- SymmetrizeCovers: every input direction appears in the output under grouping by the two names; with colliding text keys the source drops one of the colliding pairs.
- SymmetricFixed: proved for grouping by the two names. Under the text key it holds when no deck name contains "|", by `SymmetrizeAsWrittenAgrees`.
- Consolidate.AliasAggregateCovers: relies on the symmetrisation grouping by the two names, so it is not claimed for deck names whose joined keys collide.
- Consolidate.ScoreTableFixed: relies on the symmetrisation grouping by the two names, so it is not claimed for deck names whose joined keys collide.
- Consolidate.CoerceCount: a count is read as an integer or missing. A fractional count such as 2.5 makes `astype("Int64")` raise a TypeError in core/consolidate.py:21; the model has no fractional counts, so that error path is not modelled.
- Bt.HhiBounds: for positive volumes `_hhi` lies in (0, 1]; the lemma states the weaker [0, 1].
- Bt.SelectEdges: a pair whose two volumes are both ≤ 0 is skipped before the filter, as in the source; it is counted neither as kept nor as dropped.
- Validate.ValidateContract: the checks compare axes position by position and assume each axis has no repeated label.
- NanFilter.FilterWrNanIterative: the matrix is square and indexed by position, with one shared axis for rows and columns.
- Matrices.BuildMatrices: the model assumes that the axis has no repeated deck. This is the model's own assumption; the source does not check it.
- Matrices.MetaColumns: the dtype test is a per-column `isNumeric` flag. Repeated column names are read through `LastLow`. Picking the same column for both deck and share is treated as an error, because the later rename loses "Deck_raw".
- Report.PairSheets: the SE_dir_% and SE_binom_% columns (sqrt), the W/L/N count columns, the WR taken from `score_flat`, the `sort_by` option and the Int64 casts are not modelled. The axis is assumed to have no repeated deck.
- The legend claim of mars/report.py:251, that a sheet's contributions add up to MAS_%, is not proved. `_weights_row_for_A` renormalises over every B ≠ A, while mas_lb.py renormalises over observed opponents only, so the two agree only when every opponent is observed.
- Report.SanitizeSheetName: sanitising is not idempotent in general, because truncation can leave trailing spaces that a second pass strips. No idempotence is claimed.
- Report.BuildSummarySheet: a rounded column keeps each cell's text as it was; only its numeric reading is rounded. The sort key is the numeric reading of Score_%.
- Report.WorkbookLast: two decks whose sheet names sanitise alike end up in one sheet, the later deck's, as the dictionary assignment does.
- Report.ReorderPermutation: the permutation is proved for existing titles without repeats, which openpyxl guarantees.

## Findings

| source | as written | input that shows it | evidently intended | confidence | as-written member | corrected member |
|---|---|---|---|---|---|---|
| core/consolidate.py:101-109 | rows are grouped by the text key A + "\|\|" + B, smaller name first | decks "x\|\|y" against "z", and "x" against "y\|\|z", get the same key "x\|\|y\|\|z", so the two pairs share one group and only one of them is emitted | a key that names the two decks, such as the ordered tuple | not executed | Symmetry.SymmetrizeAsWrittenMerges | Symmetry.SymmetrizeCovers |

/** Meta weights on the deck axis (mars/meta.py): the encounter share from the match
    volumes, the top-meta share mapped onto the axis with the missing mass filled by a
    policy, and their blend. */
module Meta {
  import opened Wrappers
  import opened Numeric
  import opened Matrix
  import opened Table
  import opened Text
  import opened Config

  const DeckColumns: seq<string> := ["Deck", "deck", "Deck Name", "DeckName", "Name", "Archetype", "Alias"]
  const ShareColumns: seq<string> :=
    ["Share_frac", "Share_%", "Usage_%", "share_%", "usage_%", "Share", "Usage", "Meta_%"]
  const PercentTolerance: real := 0.000000001

  /** The optional lower clip of the normalisation. */
  function Floored(s: seq<real>, floor: Option<real>): (r: seq<real>)
    ensures |r| == |s|
    ensures forall i :: 0 <= i < |s| ==> r[i] == (if floor.Some? then Max(s[i], floor.value) else s[i])
  {
    if floor.Some? then seq(|s|, i requires 0 <= i < |s| => Max(s[i], floor.value)) else s
  }

  function Uniform(n: nat): (r: seq<real>)
    ensures |r| == n
  {
    Const(n, 1.0 / MaxInt(n, 1) as real)
  }

  /** _normalize_weights: NaN read as 0, optionally clipped from below, divided by the
      total; uniform 1/max(n, 1) when the total is not positive. */
  function NormalizeWeights(vals: seq<Option<real>>, floor: Option<real>): (r: seq<real>)
    ensures |r| == |vals|
  {
    var s := Floored(FillNa(vals), floor);
    var tot := Sum(s);
    if tot <= 0.0 then Uniform(|vals|) else Scale(s, 1.0 / tot)
  }

  lemma {:induction false} UniformSumsToOne(n: nat)
    requires n > 0
    ensures Sum(Uniform(n)) == 1.0
  {
    SumConst(n, 1.0 / n as real);
    InverseProduct(n as real);
  }

  lemma {:induction false} InverseProduct(x: real)
    requires x != 0.0
    ensures x * (1.0 / x) == 1.0
  {
  }

  /** On a non-empty axis the normalised weights sum to 1. */
  lemma {:induction false} NormalizeSumsToOne(vals: seq<Option<real>>, floor: Option<real>)
    requires |vals| > 0
    ensures Sum(NormalizeWeights(vals, floor)) == 1.0
  {
    var s := Floored(FillNa(vals), floor);
    if Sum(s) <= 0.0 {
      UniformSumsToOne(|vals|);
    } else {
      SumScale(s, 1.0 / Sum(s));
      InverseProduct(Sum(s));
    }
  }

  /** When the total is positive, each weight is its value's share of the total;
      otherwise every weight is 1/n. */
  lemma {:induction false} NormalizeIsShareOfTotal(vals: seq<Option<real>>, floor: Option<real>, i: nat)
    requires i < |vals|
    ensures var s := Floored(FillNa(vals), floor);
      if Sum(s) > 0.0 then NormalizeWeights(vals, floor)[i] * Sum(s) == s[i]
      else NormalizeWeights(vals, floor)[i] == 1.0 / |vals| as real
  {
    var s := Floored(FillNa(vals), floor);
    if Sum(s) > 0.0 {
      ShareTimesTotal(s[i], Sum(s));
    }
  }

  lemma {:induction false} ShareTimesTotal(x: real, t: real)
    requires t != 0.0
    ensures x * (1.0 / t) * t == x
  {
  }

  /** With a floor every weight is positive (auto-gamma mode uses floor = EPS > 0). */
  lemma {:induction false} FlooredWeightsPositive(vals: seq<Option<real>>, eps: real)
    requires |vals| > 0 && eps > 0.0
    ensures forall i :: 0 <= i < |vals| ==> NormalizeWeights(vals, Some(eps))[i] > 0.0
  {
    var s := Floored(FillNa(vals), Some(eps));
    assert s[0] >= eps;
    forall i | 0 <= i < |s| ensures s[i] > 0.0 { }
    SumBoundsElement(s, 0);
    forall i | 0 <= i < |vals| ensures NormalizeWeights(vals, Some(eps))[i] > 0.0 {
      DivPositive(1.0, Sum(s));
      MulPos(s[i], 1.0 / Sum(s));
    }
  }

  /** Non-negative inputs and no floor give non-negative weights. */
  lemma {:induction false} NormalizeNonNeg(vals: seq<Option<real>>)
    requires forall i :: 0 <= i < |vals| ==> Fill0(vals[i]) >= 0.0
    ensures forall i :: 0 <= i < |vals| ==> NormalizeWeights(vals, None)[i] >= 0.0
  {
    var s := FillNa(vals);
    if Sum(s) > 0.0 {
      forall i | 0 <= i < |vals| ensures NormalizeWeights(vals, None)[i] >= 0.0 {
        DivPositive(1.0, Sum(s));
        ScaledLe(1.0 / Sum(s), 0.0, s[i]);
      }
    }
  }

  /** encounter_share: the NaN-skipping column sums of n_dir, normalised. */
  function EncounterShare(nd: Mat, n: nat): (r: seq<real>)
    requires IsSquare(nd, n)
    ensures |r| == n
  {
    NormalizeWeights(seq(n, j requires 0 <= j < n => Some(SumSkipNa(Column(nd, j)))), None)
  }

  /** The encounter share sums to 1 and, for non-negative volumes, is non-negative. */
  lemma {:induction false} EncounterShareIsDistribution(nd: Mat, n: nat)
    requires IsSquare(nd, n) && n > 0
    requires forall i, j :: 0 <= i < n && 0 <= j < n ==> Fill0(nd[i][j]) >= 0.0
    ensures Sum(EncounterShare(nd, n)) == 1.0
    ensures forall j :: 0 <= j < n ==> EncounterShare(nd, n)[j] >= 0.0
  {
    var sums := seq(n, j requires 0 <= j < n => Some(SumSkipNa(Column(nd, j))));
    NormalizeSumsToOne(sums, None);
    forall j | 0 <= j < n ensures Fill0(sums[j]) >= 0.0 {
      SumNonNeg(FillNa(Column(nd, j)));
    }
    NormalizeNonNeg(sums);
  }

  // ---------------------------------------------------------------------------------
  // Top-meta shares on the axis

  /** The share column read as numbers (unparsable cells as 0), and divided by 100 when
      some value exceeds 1 (the column then holds percentages). */
  function ParsedShares(raw: seq<real>): (r: seq<real>)
    requires |raw| > 0
    ensures |r| == |raw|
    ensures SeqMax(raw) > 1.0 + PercentTolerance ==> forall i :: 0 <= i < |raw| ==> r[i] * 100.0 == raw[i]
    ensures SeqMax(raw) <= 1.0 + PercentTolerance ==> r == raw
  {
    if SeqMax(raw) > 1.0 + PercentTolerance then seq(|raw|, i requires 0 <= i < |raw| => raw[i] / 100.0)
    else raw
  }

  /** Sum of the shares whose deck name is `key` (`groupby(level=0).sum()` looked up). */
  function SumWhere(names: seq<string>, shares: seq<real>, key: string): real
    requires |names| == |shares|
  {
    if names == [] then 0.0
    else (if names[0] == key then shares[0] else 0.0) + SumWhere(names[1..], shares[1..], key)
  }

  /** The shares grouped by name and reindexed on the axis (0 for a deck not listed),
      or None when the table has no usable deck or share column. */
  function AxisShares(axis: seq<string>, t: Frame): (r: Option<seq<real>>)
    requires WellFormed(t) && !IsEmpty(t)
    ensures r.Some? ==> |r.value| == |axis|
  {
    var deck := FirstPresent(t, DeckColumns);
    var named := FirstPresent(t, ShareColumns);
    var share := if named.Some? then named else FirstNumeric(t);
    if deck.None? || share.None? then None
    else
      var dcol := t.cols[deck.value];
      var scol := t.cols[share.value];
      var names := seq(t.nrows, r requires 0 <= r < t.nrows => Strip(dcol.cells[r].text));
      var raw := seq(t.nrows, r requires 0 <= r < t.nrows => scol.cells[r].num.GetOr(0.0));
      var shares := ParsedShares(raw);
      Some(seq(|axis|, k requires 0 <= k < |axis| => SumWhere(names, shares, axis[k])))
  }

  /** META_GAP_POLICY: "uniform", "encounter", and any other name is proportional. */
  datatype GapPolicy = UniformGap | EncounterGap | ProportionalGap

  function ParsePolicy(name: string): GapPolicy
  {
    if name == "uniform" then UniformGap
    else if name == "encounter" then EncounterGap
    else ProportionalGap
  }

  /** The vector spreading the missing mass, by policy. */
  function GapWeights(p: seq<real>, s: real, pEnc: Option<seq<real>>, policy: GapPolicy): (r: seq<real>)
    requires |p| > 0 && s > 0.0
    requires pEnc.Some? ==> |pEnc.value| == |p|
    ensures |r| == |p|
  {
    if policy == UniformGap then Uniform(|p|)
    else if policy == EncounterGap && pEnc.Some? then
      var w := pEnc.value;
      Scale(w, 1.0 / (if Sum(w) > 0.0 then Sum(w) else 1.0))
    else Scale(p, 1.0 / s)
  }

  /** The on-axis shares with the gap max(0, 1 - mass) spread along w (no normalisation
      yet); max(0, 1 - s) > 0 exactly when s < 1. */
  function GapFilled(p: seq<real>, w: seq<real>): (r: seq<real>)
    requires |w| == |p|
    ensures |r| == |p|
  {
    if Sum(p) < 1.0 then Add(p, Scale(w, 1.0 - Sum(p))) else p
  }

  /** The gap-filled shares under a policy. */
  function PolicyFilled(p: seq<real>, pEnc: Option<seq<real>>, policy: GapPolicy): (r: seq<real>)
    requires |p| > 0 && Sum(p) > 0.0
    requires pEnc.Some? ==> |pEnc.value| == |p|
    ensures |r| == |p|
  {
    GapFilled(p, GapWeights(p, Sum(p), pEnc, policy))
  }

  /** The part of meta_share_on_axis after the table lookup: uniform without on-axis mass,
      otherwise the gap-filled shares divided by their total. A zero total (only possible
      with negative encounter weights) has no defined result. */
  function FromAxisShares(p: seq<real>, pEnc: Option<seq<real>>, policy: GapPolicy): (r: Result<seq<real>>)
    requires |p| > 0
    requires pEnc.Some? ==> |pEnc.value| == |p|
    ensures r.Success? ==> |r.value| == |p|
  {
    if Sum(p) <= 0.0 then Success(Uniform(|p|))
    else
      var q := PolicyFilled(p, pEnc, policy);
      if Sum(q) == 0.0 then Failure("undefined shares")
      else Success(Scale(q, 1.0 / Sum(q)))
  }

  /** meta_share_on_axis. An empty axis fails as the source's 1/len(axis) does. */
  function MetaShareOnAxis(axis: seq<string>, table: Option<Frame>, pEnc: Option<seq<real>>,
                           policy: GapPolicy): (r: Result<seq<real>>)
    requires table.Some? ==> WellFormed(table.value)
    requires pEnc.Some? ==> |pEnc.value| == |axis|
    ensures r.Success? ==> |r.value| == |axis|
  {
    var n := |axis|;
    if n == 0 then Failure("division by zero")
    else if table.None? || IsEmpty(table.value) then Success(Uniform(n))
    else
      var p := AxisShares(axis, table.value);
      if p.None? then Success(Uniform(n))
      else FromAxisShares(p.value, pEnc, policy)
  }

  lemma {:induction false} FromAxisSharesSumsToOne(p: seq<real>, pEnc: Option<seq<real>>, policy: GapPolicy)
    requires |p| > 0
    requires pEnc.Some? ==> |pEnc.value| == |p|
    ensures var r := FromAxisShares(p, pEnc, policy);
      r.Success? ==> Sum(r.value) == 1.0
  {
    if Sum(p) <= 0.0 {
      UniformSumsToOne(|p|);
    } else if Sum(PolicyFilled(p, pEnc, policy)) != 0.0 {
      DivideBySumIsOne(PolicyFilled(p, pEnc, policy));
    }
  }

  /** A successful result sums to 1. */
  lemma {:induction false} MetaShareSumsToOne(axis: seq<string>, table: Option<Frame>, pEnc: Option<seq<real>>,
                           policy: GapPolicy)
    requires table.Some? ==> WellFormed(table.value)
    requires pEnc.Some? ==> |pEnc.value| == |axis|
    ensures var r := MetaShareOnAxis(axis, table, pEnc, policy);
      r.Success? ==> Sum(r.value) == 1.0
  {
    if |axis| > 0 {
      if table.None? || IsEmpty(table.value) || AxisShares(axis, table.value).None? {
        UniformSumsToOne(|axis|);
      } else {
        FromAxisSharesSumsToOne(AxisShares(axis, table.value).value, pEnc, policy);
      }
    }
  }

  /** A missing or empty table, or one without a usable deck or share column, or without
      mass on the axis, gives the uniform distribution. */
  lemma {:induction false} MetaShareUniformFallbacks(axis: seq<string>, table: Option<Frame>, pEnc: Option<seq<real>>,
                                  policy: GapPolicy)
    requires table.Some? ==> WellFormed(table.value)
    requires pEnc.Some? ==> |pEnc.value| == |axis|
    requires |axis| > 0
    requires table.None? || IsEmpty(table.value) || AxisShares(axis, table.value).None?
          || Sum(AxisShares(axis, table.value).value) <= 0.0
    ensures MetaShareOnAxis(axis, table, pEnc, policy) == Success(Const(|axis|, 1.0 / |axis| as real))
  {
  }

  predicate NonNeg(s: seq<real>) { forall i :: 0 <= i < |s| ==> s[i] >= 0.0 }

  lemma {:induction false} ScaledSumNonNeg(w: seq<real>, c: real)
    requires NonNeg(w) && c >= 0.0
    ensures Sum(Scale(w, c)) >= 0.0
  {
    SumScale(w, c);
    SumNonNeg(w);
    ScaledLe(c, 0.0, Sum(w));
  }

  lemma {:induction false} ProportionalWeightsTotal(p: seq<real>)
    requires Sum(p) > 0.0
    ensures Sum(Scale(p, 1.0 / Sum(p))) == 1.0
  {
    SumScale(p, 1.0 / Sum(p));
    InverseProduct(Sum(p));
  }

  lemma {:induction false} EncounterWeightsTotal(e: seq<real>)
    requires NonNeg(e)
    ensures Sum(Scale(e, 1.0 / (if Sum(e) > 0.0 then Sum(e) else 1.0))) >= 0.0
  {
    var d := if Sum(e) > 0.0 then Sum(e) else 1.0;
    DivPositive(1.0, d);
    ScaledSumNonNeg(e, 1.0 / d);
  }

  /** Every policy's gap vector has a non-negative total, and the total is 1 for the
      uniform and the proportional fill. */
  lemma {:induction false} GapWeightsTotal(p: seq<real>, pEnc: Option<seq<real>>, policy: GapPolicy)
    requires |p| > 0 && Sum(p) > 0.0
    requires pEnc.Some? ==> |pEnc.value| == |p| && NonNeg(pEnc.value)
    ensures Sum(GapWeights(p, Sum(p), pEnc, policy)) >= 0.0
    ensures policy != EncounterGap || pEnc.None? ==>
      Sum(GapWeights(p, Sum(p), pEnc, policy)) == 1.0
  {
    if policy == UniformGap {
      UniformSumsToOne(|p|);
    } else if policy == EncounterGap && pEnc.Some? {
      EncounterWeightsTotal(pEnc.value);
    } else {
      ProportionalWeightsTotal(p);
    }
  }

  /** With mass s >= 1 there is no gap and nothing is added. */
  lemma {:induction false} NoGapNoFill(p: seq<real>, w: seq<real>)
    requires |w| == |p| && Sum(p) >= 1.0
    ensures GapFilled(p, w) == p
  {
  }

  /** With mass s < 1 the filled total is s + (1 - s)·Σw. */
  lemma {:induction false} GapFilledSum(p: seq<real>, w: seq<real>)
    requires |w| == |p| && Sum(p) < 1.0
    ensures Sum(GapFilled(p, w)) == Sum(p) + Sum(w) * (1.0 - Sum(p))
  {
    SumAddScaled(p, w, 1.0 - Sum(p));
  }

  /** The arithmetic of the fill: t = s + Σw·(1 - s). */
  lemma {:induction false} FillArith(t: real, s: real, sw: real)
    requires s < 1.0 && t == s + sw * (1.0 - s)
    ensures sw >= 0.0 ==> t >= s
    ensures sw == 1.0 ==> t == 1.0
  {
    if sw >= 0.0 {
      ScaledLe(1.0 - s, 0.0, sw);
      assert sw * (1.0 - s) == (1.0 - s) * sw;
    }
  }

  /** Hence, for a gap vector with non-negative total, the filled total is at least the
      on-axis mass, and it is exactly 1 when the gap vector sums to 1 and s <= 1. */
  lemma {:induction false} GapFilledTotal(p: seq<real>, w: seq<real>)
    requires |w| == |p| && Sum(w) >= 0.0
    ensures Sum(GapFilled(p, w)) >= Sum(p)
    ensures Sum(w) == 1.0 && Sum(p) <= 1.0 ==> Sum(GapFilled(p, w)) == 1.0
  {
    if Sum(p) < 1.0 {
      GapFilledTotalBelowOne(p, w);
    } else {
      NoGapNoFill(p, w);
    }
  }

  lemma {:induction false} GapFilledTotalBelowOne(p: seq<real>, w: seq<real>)
    requires |w| == |p| && Sum(w) >= 0.0 && Sum(p) < 1.0
    ensures Sum(GapFilled(p, w)) >= Sum(p)
    ensures Sum(w) == 1.0 ==> Sum(GapFilled(p, w)) == 1.0
  {
    GapFilledSum(p, w);
    FillArith(Sum(GapFilled(p, w)), Sum(p), Sum(w));
  }

  lemma {:induction false} PolicyFilledTotal(p: seq<real>, pEnc: Option<seq<real>>, policy: GapPolicy)
    requires |p| > 0 && Sum(p) > 0.0
    requires pEnc.Some? ==> |pEnc.value| == |p| && NonNeg(pEnc.value)
    ensures Sum(PolicyFilled(p, pEnc, policy)) >= Sum(p)
  {
    GapWeightsTotal(p, pEnc, policy);
    GapFilledTotal(p, GapWeights(p, Sum(p), pEnc, policy));
  }

  /** With non-negative encounter weights the tail of meta_share_on_axis is defined. */
  lemma {:induction false} FromAxisSharesDefined(p: seq<real>, pEnc: Option<seq<real>>, policy: GapPolicy)
    requires |p| > 0
    requires pEnc.Some? ==> |pEnc.value| == |p| && NonNeg(pEnc.value)
    ensures FromAxisShares(p, pEnc, policy).Success?
  {
    if Sum(p) > 0.0 {
      PolicyFilledTotal(p, pEnc, policy);
    }
  }

  /** With a table whose deck and share columns are found, meta_share_on_axis is the tail
      applied to the on-axis shares. */
  lemma {:induction false} MetaShareFromTable(axis: seq<string>, table: Option<Frame>, pEnc: Option<seq<real>>,
                           policy: GapPolicy)
    requires table.Some? ==> WellFormed(table.value)
    requires pEnc.Some? ==> |pEnc.value| == |axis|
    requires |axis| > 0 && table.Some? && !IsEmpty(table.value)
    requires AxisShares(axis, table.value).Some?
    ensures MetaShareOnAxis(axis, table, pEnc, policy) ==
      FromAxisShares(AxisShares(axis, table.value).value, pEnc, policy)
  {
  }

  /** On a non-empty axis with non-negative encounter weights the result is defined. */
  lemma {:induction false} MetaShareDefined(axis: seq<string>, table: Option<Frame>, pEnc: Option<seq<real>>,
                         policy: GapPolicy)
    requires table.Some? ==> WellFormed(table.value)
    requires pEnc.Some? ==> |pEnc.value| == |axis| && NonNeg(pEnc.value)
    requires |axis| > 0
    ensures MetaShareOnAxis(axis, table, pEnc, policy).Success?
  {
    if table.Some? && !IsEmpty(table.value) && AxisShares(axis, table.value).Some? {
      MetaShareFromTable(axis, table, pEnc, policy);
      FromAxisSharesDefined(AxisShares(axis, table.value).value, pEnc, policy);
    }
  }

  /** Spreading g uniformly adds g/n to every deck. */
  lemma {:induction false} ScaleUniform(n: nat, g: real)
    requires n > 0
    ensures Scale(Uniform(n), g) == Const(n, g / n as real)
  {
    forall i | 0 <= i < n ensures Scale(Uniform(n), g)[i] == g / n as real {
      DivIsMulInverse(g, n as real);
    }
  }

  /** "uniform" with on-axis mass s in (0, 1]: every deck gains (1 - s)/n and the total
      is already 1, so the final division changes nothing. */
  lemma {:induction false} UniformGapFill(p: seq<real>, pEnc: Option<seq<real>>)
    requires |p| > 0 && 0.0 < Sum(p) <= 1.0
    requires pEnc.Some? ==> |pEnc.value| == |p|
    ensures FromAxisShares(p, pEnc, UniformGap) ==
      Success(Add(p, Const(|p|, (1.0 - Sum(p)) / |p| as real)))
  {
    if Sum(p) < 1.0 {
      UniformBelowOne(p, pEnc);
    } else {
      UniformAtOne(p, pEnc);
    }
  }

  lemma {:induction false} UniformBelowOne(p: seq<real>, pEnc: Option<seq<real>>)
    requires |p| > 0 && 0.0 < Sum(p) < 1.0
    requires pEnc.Some? ==> |pEnc.value| == |p|
    ensures FromAxisShares(p, pEnc, UniformGap) ==
      Success(Add(p, Const(|p|, (1.0 - Sum(p)) / |p| as real)))
  {
    var q := GapFilled(p, Uniform(|p|));
    assert PolicyFilled(p, pEnc, UniformGap) == q;
    assert q == Add(p, Const(|p|, (1.0 - Sum(p)) / |p| as real)) by {
      ScaleUniform(|p|, 1.0 - Sum(p));
    }
    assert Sum(q) == 1.0 by {
      UniformSumsToOne(|p|);
      GapFilledTotal(p, Uniform(|p|));
    }
    DivideByUnitTotal(q);
  }

  lemma {:induction false} UniformAtOne(p: seq<real>, pEnc: Option<seq<real>>)
    requires |p| > 0 && Sum(p) == 1.0
    requires pEnc.Some? ==> |pEnc.value| == |p|
    ensures FromAxisShares(p, pEnc, UniformGap) ==
      Success(Add(p, Const(|p|, (1.0 - Sum(p)) / |p| as real)))
  {
    assert PolicyFilled(p, pEnc, UniformGap) == p;
    DivideByUnitTotal(p);
    assert Add(p, Const(|p|, 0.0 / |p| as real)) == p;
  }

  /** The two-of-three example: shares 0.4, 0.4 and nothing for the third deck under
      "uniform" give 0.4 + 0.2/3, 0.4 + 0.2/3 and 0.2/3. */
  lemma {:induction false} UniformGapExample()
    ensures FromAxisShares([0.4, 0.4, 0.0], None, UniformGap) ==
      Success([0.4 + 0.2 / 3.0, 0.4 + 0.2 / 3.0, 0.2 / 3.0])
  {
    var p := [0.4, 0.4, 0.0];
    assert p[1..] == [0.4, 0.0] && p[1..][1..] == [0.0] && p[1..][1..][1..] == [];
    assert Sum(p) == 0.8;
    UniformGapFill(p, None);
    var c := Const(3, 0.2 / 3.0);
    assert c[0] == 0.2 / 3.0 && c[1] == 0.2 / 3.0 && c[2] == 0.2 / 3.0;
    assert Add(p, c) == [0.4 + 0.2 / 3.0, 0.4 + 0.2 / 3.0, 0.2 / 3.0];
  }

  lemma {:induction false} DivIsMulInverse(x: real, d: real)
    requires d != 0.0
    ensures 1.0 / d * x == x / d
  {
  }

  /** One deck of the proportional fill: a = x + w·(1 - s) with w = x·f and f·s = 1 is w. */
  lemma {:induction false} ProportionalStep(a: real, x: real, w: real, f: real, s: real)
    requires f * s == 1.0 && w == x * f && a == x + w * (1.0 - s)
    ensures a == w
  {
    assert w * (1.0 - s) == w - x * (f * s);
  }

  lemma {:induction false} RescaleFillsGap(p: seq<real>, s: real, f: real)
    requires f * s == 1.0
    ensures Add(p, Scale(Scale(p, f), 1.0 - s)) == Scale(p, f)
  {
    var w := Scale(p, f);
    var q := Add(p, Scale(w, 1.0 - s));
    forall k | 0 <= k < |p| ensures q[k] == w[k] {
      ProportionalStep(q[k], p[k], w[k], f, s);
    }
  }

  /** With mass s < 1 the proportional fill gives exactly p / s. */
  lemma {:induction false} ProportionalFillIsRescale(p: seq<real>)
    requires 0.0 < Sum(p) < 1.0
    ensures GapFilled(p, Scale(p, 1.0 / Sum(p))) == Scale(p, 1.0 / Sum(p))
  {
    var s := Sum(p);
    var f := 1.0 / s;
    assert f * s == 1.0;
    RescaleFillsGap(p, s, f);
  }

  /** A filled total of 1 is divided out without change. */
  lemma {:induction false} DivideByUnitTotal(q: seq<real>)
    requires Sum(q) == 1.0
    ensures Scale(q, 1.0 / Sum(q)) == q
  {
  }

  /** The proportional fill (and "encounter" without p_enc) is a plain rescaling of the
      on-axis shares by their mass, whatever that mass. */
  lemma {:induction false} ProportionalIsRescale(p: seq<real>, policy: GapPolicy)
    requires |p| > 0 && Sum(p) > 0.0
    requires policy == ProportionalGap || policy == EncounterGap
    ensures FromAxisShares(p, None, policy) == Success(Scale(p, 1.0 / Sum(p)))
  {
    assert PolicyFilled(p, None, policy) == GapFilled(p, Scale(p, 1.0 / Sum(p)));
    if Sum(p) < 1.0 {
      ProportionalBelowOne(p, policy);
    } else {
      ProportionalAtLeastOne(p, policy);
    }
  }

  lemma {:induction false} ProportionalBelowOne(p: seq<real>, policy: GapPolicy)
    requires |p| > 0 && 0.0 < Sum(p) < 1.0
    requires policy == ProportionalGap || policy == EncounterGap
    ensures FromAxisShares(p, None, policy) == Success(Scale(p, 1.0 / Sum(p)))
  {
    var q := Scale(p, 1.0 / Sum(p));
    assert PolicyFilled(p, None, policy) == q by {
      ProportionalFillIsRescale(p);
    }
    assert Sum(q) == 1.0 by {
      ProportionalWeightsTotal(p);
    }
    DivideByUnitTotal(q);
  }

  lemma {:induction false} ProportionalAtLeastOne(p: seq<real>, policy: GapPolicy)
    requires |p| > 0 && Sum(p) >= 1.0
    requires policy == ProportionalGap || policy == EncounterGap
    ensures FromAxisShares(p, None, policy) == Success(Scale(p, 1.0 / Sum(p)))
  {
    assert PolicyFilled(p, None, policy) == p;
  }

  // ---------------------------------------------------------------------------------
  // The blend

  function AbsDiff(a: seq<real>, b: seq<real>): (r: seq<real>)
    requires |a| == |b|
    ensures |r| == |a| && forall i :: 0 <= i < |a| ==> r[i] == Abs(a[i] - b[i])
  {
    seq(|a|, i requires 0 <= i < |a| => Abs(a[i] - b[i]))
  }

  /** Total-variation distance ½ Σ |a - b|. */
  function TotalVariation(a: seq<real>, b: seq<real>): real
    requires |a| == |b|
  {
    0.5 * Sum(AbsDiff(a, b))
  }

  lemma {:induction false} SumAbsDiffBound(a: seq<real>, b: seq<real>)
    requires |a| == |b| && NonNeg(a) && NonNeg(b)
    ensures 0.0 <= Sum(AbsDiff(a, b)) <= Sum(a) + Sum(b)
  {
    if a != [] {
      assert AbsDiff(a, b)[1..] == AbsDiff(a[1..], b[1..]);
      SumAbsDiffBound(a[1..], b[1..]);
    }
  }

  /** Between two distributions the total variation lies in [0, 1]. */
  lemma {:induction false} TotalVariationBounds(a: seq<real>, b: seq<real>)
    requires |a| == |b| && NonNeg(a) && NonNeg(b) && Sum(a) == 1.0 && Sum(b) == 1.0
    ensures 0.0 <= TotalVariation(a, b) <= 1.0
  {
    SumAbsDiffBound(a, b);
  }

  datatype Blend = Blend(p: seq<real>, gamma: real, tv: real)

  /** The blend weight: clip(base + slope·tv, min, max) with AUTO_GAMMA, the fixed blend
      weight otherwise. */
  function Gamma(cfg: MarsConfig, tv: real): real
  {
    if cfg.autoGamma then Clip(cfg.gammaBase + cfg.gammaSlope * tv, cfg.gammaMin, cfg.gammaMax)
    else cfg.gammaMetaBlend
  }

  lemma {:induction false} GammaInRange(cfg: MarsConfig, tv: real)
    requires cfg.autoGamma && cfg.gammaMin <= cfg.gammaMax
    ensures cfg.gammaMin <= Gamma(cfg, tv) <= cfg.gammaMax
  {
  }

  /** blend_meta: p = (1 - γ)·p_meta + γ·p_enc, renormalised with floor EPS in auto mode. */
  function BlendMeta(axis: seq<string>, nd: Mat, table: Option<Frame>, cfg: MarsConfig): (r: Result<Blend>)
    requires IsSquare(nd, |axis|)
    requires table.Some? ==> WellFormed(table.value)
    ensures r.Success? ==> |r.value.p| == |axis|
  {
    var n := |axis|;
    var pEnc := EncounterShare(nd, n);
    var pm := MetaShareOnAxis(axis, table, Some(pEnc), ParsePolicy(cfg.metaGapPolicy));
    if pm.Failure? then Failure(pm.error)
    else
      var tv := TotalVariation(pm.value, pEnc);
      var gamma := Gamma(cfg, tv);
      var floor := if cfg.autoGamma then Some(cfg.eps) else None;
      var mixed := seq(n, i requires 0 <= i < n => Some((1.0 - gamma) * pm.value[i] + gamma * pEnc[i]));
      Success(Blend(NormalizeWeights(mixed, floor), gamma, tv))
  }

  /** The blended weights sum to 1, γ is the policy's, and in auto mode every weight is
      positive. */
  lemma {:induction false} BlendIsDistribution(axis: seq<string>, nd: Mat, table: Option<Frame>, cfg: MarsConfig)
    requires IsSquare(nd, |axis|)
    requires table.Some? ==> WellFormed(table.value)
    ensures var r := BlendMeta(axis, nd, table, cfg);
      r.Success? ==> (Sum(r.value.p) == 1.0 && r.value.gamma == Gamma(cfg, r.value.tv) &&
                      (cfg.autoGamma && cfg.eps > 0.0 ==> forall i :: 0 <= i < |axis| ==> r.value.p[i] > 0.0))
  {
    var r := BlendMeta(axis, nd, table, cfg);
    if r.Success? {
      var n := |axis|;
      var pEnc := EncounterShare(nd, n);
      var pm := MetaShareOnAxis(axis, table, Some(pEnc), ParsePolicy(cfg.metaGapPolicy));
      var gamma := r.value.gamma;
      var mixed := seq(n, i requires 0 <= i < n => Some((1.0 - gamma) * pm.value[i] + gamma * pEnc[i]));
      var floor := if cfg.autoGamma then Some(cfg.eps) else None;
      assert r.value.p == NormalizeWeights(mixed, floor);
      NormalizeSumsToOne(mixed, floor);
      if cfg.autoGamma && cfg.eps > 0.0 {
        FlooredWeightsPositive(mixed, cfg.eps);
      }
    }
  }

  /** With non-negative volumes and a non-empty axis the blend is always defined, and its
      total-variation distance lies in [0, 1] whenever the meta share is non-negative. */
  lemma {:induction false} BlendDefined(axis: seq<string>, nd: Mat, table: Option<Frame>, cfg: MarsConfig)
    requires |axis| > 0 && IsSquare(nd, |axis|)
    requires table.Some? ==> WellFormed(table.value)
    requires forall i, j :: 0 <= i < |axis| && 0 <= j < |axis| ==> Fill0(nd[i][j]) >= 0.0
    ensures BlendMeta(axis, nd, table, cfg).Success?
  {
    var pEnc := EncounterShare(nd, |axis|);
    EncounterShareIsDistribution(nd, |axis|);
    MetaShareDefined(axis, table, Some(pEnc), ParsePolicy(cfg.metaGapPolicy));
  }
}

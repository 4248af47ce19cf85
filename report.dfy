/** The Excel report of the ranking: sheet names, the opponent weights of one deck, the
    per-deck pair sheets, the summary sheet, the workbook layout and the reordering of the
    written sheets. The spreadsheet writer and reader are not part of the model. */
module Report {
  import opened Wrappers
  import opened Numeric
  import opened Matrix
  import opened Text
  import opened Table
  import opened Sorting
  import opened Grouping

  // ---- sheet names ----

  /** The characters Excel refuses in a sheet name. */
  const Bad: set<char> := {'[', ']', ':', '*', '?', '/', '\\'}

  /** The longest sheet name Excel accepts. */
  const MaxSheetName: nat := 31

  /** The name without the refused characters, stripped. */
  function SafeName(name: string): (r: string)
    ensures forall i :: 0 <= i < |r| ==> r[i] !in Bad
  {
    var kept := RemoveChars(name, Bad);
    StripWithin(kept);
    assert forall i :: 0 <= i < |Strip(kept)| ==> Strip(kept)[i] in kept;
    Strip(kept)
  }

  /** The fallback sheet name. */
  const DefaultSheet: string := "Sheet"

  lemma {:induction false} DefaultSheetClean()
    ensures forall i :: 0 <= i < |DefaultSheet| ==> DefaultSheet[i] !in Bad
  {
    assert DefaultSheet == ['S', 'h', 'e', 'e', 't'];
  }

  /** `_sanitize_sheet_name`: the name without the refused characters, stripped, "Sheet"
      when nothing is left, cut to 31 characters. */
  function SanitizeSheetName(name: string): (r: string)
    ensures forall i :: 0 <= i < |r| ==> r[i] !in Bad
    ensures 0 < |r| <= MaxSheetName
    ensures SafeName(name) == [] ==> r == DefaultSheet
    ensures SafeName(name) != [] ==> r <= SafeName(name)
    ensures SafeName(name) != [] && |SafeName(name)| <= MaxSheetName ==> r == SafeName(name)
  {
    var safe := SafeName(name);
    DefaultSheetClean();
    if safe == [] then DefaultSheet
    else if |safe| <= MaxSheetName then safe
    else safe[..MaxSheetName]
  }

  // ---- opponent weights ----

  /** The blend weights with deck a's own weight set to 0. */
  function Zeroed(p: seq<Option<real>>, a: nat): seq<Option<real>>
    requires a < |p|
  {
    p[a := Some(0.0)]
  }

  /** Every defined entry divided by s; undefined ones stay undefined. */
  function DivRow(q: seq<Option<real>>, s: real): (r: seq<Option<real>>)
    requires s != 0.0
    ensures |r| == |q| && forall i :: 0 <= i < |q| ==> r[i] == (if q[i].Some? then Some(q[i].value / s) else None)
  {
    seq(|q|, i requires 0 <= i < |q| => if q[i].Some? then Some(q[i].value / s) else None)
  }

  /** v everywhere except 0 at position a. */
  function Uniform(n: nat, a: int, v: real): (r: seq<Option<real>>)
    ensures |r| == n && forall i :: 0 <= i < n ==> r[i] == Some(if i == a then 0.0 else v)
  {
    seq(n, i requires 0 <= i < n => Some(if i == a then 0.0 else v))
  }

  /** `_weights_row_for_A`: the blend weights over the axis with A's set to 0, divided by
      their sum (undefined ones skipped); when that sum is not positive, 0 for A and
      1/max(T-1, 1) for every other deck. */
  function WeightsRow(p: seq<Option<real>>, a: nat): (w: seq<Option<real>>)
    requires a < |p|
    ensures |w| == |p| && w[a] == Some(0.0)
    ensures SumSkipNa(Zeroed(p, a)) > 0.0 ==>
      forall b :: 0 <= b < |p| && b != a ==> w[b] == (if p[b].Some? then Some(p[b].value / SumSkipNa(Zeroed(p, a))) else None)
    ensures SumSkipNa(Zeroed(p, a)) <= 0.0 ==>
      forall b :: 0 <= b < |p| && b != a ==> w[b] == Some(1.0 / MaxInt(|p| - 1, 1) as real)
  {
    var z := Zeroed(p, a);
    var s := SumSkipNa(z);
    if s <= 0.0 then Uniform(|p|, a, 1.0 / MaxInt(|p| - 1, 1) as real)
    else DivRow(z, s)
  }

  lemma {:induction false} SumSkipNaCons(s: seq<Option<real>>)
    requires s != []
    ensures SumSkipNa(s) == Fill0(s[0]) + SumSkipNa(s[1..])
  {
    assert FillNa(s)[1..] == FillNa(s[1..]);
  }

  /** Dividing every entry by s divides the sum by s. */
  lemma {:induction false} SumDivRow(q: seq<Option<real>>, s: real)
    requires s != 0.0
    ensures SumSkipNa(DivRow(q, s)) == SumSkipNa(q) / s
  {
    if q != [] {
      var d := DivRow(q, s);
      SumSkipNaCons(q);
      SumSkipNaCons(d);
      assert d[1..] == DivRow(q[1..], s);
      SumDivRow(q[1..], s);
      assert Fill0(d[0]) == Fill0(q[0]) / s;
      DivAdd(Fill0(q[0]), SumSkipNa(q[1..]), s);
    }
  }

  lemma {:induction false} DivAdd(a: real, b: real, s: real)
    requires s != 0.0
    ensures (a + b) / s == a / s + b / s
  {
    var x, y := a / s, b / s;
    assert x * s == a && y * s == b;
    assert (x + y) * s == a + b;
  }

  lemma {:induction false} SumUniform(n: nat, a: int, v: real)
    ensures SumSkipNa(Uniform(n, a, v)) == (if 0 <= a < n then n - 1 else n) as real * v
  {
    if n > 0 {
      var u := Uniform(n, a, v);
      SumSkipNaCons(u);
      assert u[1..] == Uniform(n - 1, a - 1, v);
      SumUniform(n - 1, a - 1, v);
      var k1 := if 0 <= a - 1 < n - 1 then n - 2 else n - 1;
      var h := if a == 0 then 0 else 1;
      var k := if 0 <= a < n then n - 1 else n;
      assert Fill0(u[0]) == h as real * v;
      assert SumSkipNa(u[1..]) == k1 as real * v;
      assert k == h + k1 by {
        UniformCount(n, a);
      }
      Distrib(h as real, k1 as real, v);
      assert SumSkipNa(u) == h as real * v + k1 as real * v;
    }
  }

  lemma {:induction false} UniformCount(n: nat, a: int)
    requires n > 0
    ensures (if 0 <= a < n then n - 1 else n) == (if a == 0 then 0 else 1) + (if 0 <= a - 1 < n - 1 then n - 2 else n - 1)
  {
  }

  /** The weights of the opponents of A sum to 1, undefined ones skipped; only a one-deck
      axis with no positive weight gives 0. */
  lemma {:induction false} WeightsRowSum(p: seq<Option<real>>, a: nat)
    requires a < |p|
    ensures SumSkipNa(WeightsRow(p, a)) == (if SumSkipNa(Zeroed(p, a)) <= 0.0 && |p| == 1 then 0.0 else 1.0)
  {
    var z := Zeroed(p, a);
    var s := SumSkipNa(z);
    if s <= 0.0 {
      var v := 1.0 / MaxInt(|p| - 1, 1) as real;
      assert WeightsRow(p, a) == Uniform(|p|, a, v);
      SumUniform(|p|, a, v);
      UniformShare(|p|);
    } else {
      assert WeightsRow(p, a) == DivRow(z, s);
      SumDivRow(z, s);
      assert s / s == 1.0;
    }
  }

  /** n - 1 uniform opponent weights add up to 1, or to 0 when there is no opponent. */
  lemma {:induction false} UniformShare(n: nat)
    requires n > 0
    ensures (n - 1) as real * (1.0 / MaxInt(n - 1, 1) as real) == if n == 1 then 0.0 else 1.0
  {
    var m := MaxInt(n - 1, 1) as real;
    assert m > 0.0;
    assert n > 1 ==> (n - 1) as real == m;
    assert m * (1.0 / m) == 1.0;
  }

  // ---- the pair sheet of one deck ----

  /** One row of a deck's pair sheet: the opponent, the observed and the posterior win
      rate in percent, their gap, the opponent's weight in percent and its contribution
      to the deck's MAS in points. */
  datatype SheetRow = SheetRow(opponent: string, wrReal: Option<real>, pHat: Option<real>, gap: Option<real>,
                               weight: Option<real>, contrib: Option<real>)

  /** The posterior mean in percent of the cell's Beta(mu K + p N, (1 - mu) K + (1 - p) N),
      p the observed rate over 100 and N the directional count. */
  function PHat(wr: Option<real>, n: Option<real>, mu: real, k: real): Option<real>
  {
    if wr.None? || n.None? then None
    else
      var p := wr.value / 100.0;
      var a := mu * k + p * n.value;
      var b := (1.0 - mu) * k + (1.0 - p) * n.value;
      if a + b == 0.0 then None else Some(a / (a + b) * 100.0)
  }

  /** The posterior mean is the blend of the prior 100·mu, weighted K, and the observed
      rate, weighted N; with non-negative weights it lies between the two. */
  lemma {:induction false} PHatBlend(wr: real, n: real, mu: real, k: real)
    requires k + n != 0.0
    ensures PHat(Some(wr), Some(n), mu, k) == Some((k * (100.0 * mu) + n * wr) / (k + n))
    ensures k >= 0.0 && n >= 0.0 ==>
      Min(wr, 100.0 * mu) <= PHat(Some(wr), Some(n), mu, k).value <= Max(wr, 100.0 * mu)
  {
    var p := wr / 100.0;
    var a := mu * k + p * n;
    var b := (1.0 - mu) * k + (1.0 - p) * n;
    assert a + b == k + n;
    assert 100.0 * a == k * (100.0 * mu) + n * wr;
    DivScale(a, k + n);
    assert PHat(Some(wr), Some(n), mu, k).Some?;
    assert PHat(Some(wr), Some(n), mu, k).value == a / (a + b) * 100.0;
    assert a / (a + b) * 100.0 == (100.0 * a) / (k + n);
    if k >= 0.0 && n >= 0.0 {
      Between(100.0 * mu, wr, k, n);
    }
  }

  lemma {:induction false} DivScale(a: real, d: real)
    requires d != 0.0
    ensures a / d * 100.0 == (100.0 * a) / d
  {
  }

  /** A weighted mean of x and y with non-negative weights lies between them. */
  lemma {:induction false} Between(x: real, y: real, k: real, n: real)
    requires k >= 0.0 && n >= 0.0 && k + n != 0.0
    ensures Min(y, x) <= (k * x + n * y) / (k + n) <= Max(y, x)
  {
    var lo := Min(y, x);
    var hi := Max(y, x);
    var d := k + n;
    var s := k * x + n * y;
    MulLe(k, lo, x);
    MulLe(n, lo, y);
    MulLe(k, x, hi);
    MulLe(n, y, hi);
    assert lo * d == k * lo + n * lo;
    assert hi * d == k * hi + n * hi;
    LeDiv(lo, s, d);
    DivAtMost(s, d, hi);
  }

  lemma {:induction false} DivAtMost(s: real, d: real, hi: real)
    requires d > 0.0 && s <= hi * d
    ensures s / d <= hi
  {
    var m := s / d;
    assert m * d == s;
    if m > hi {
      MulLt(d, hi, m);
    }
  }

  lemma {:induction false} MulLe(c: real, a: real, b: real)
    requires c >= 0.0 && a <= b
    ensures c * a <= c * b
  {
  }

  lemma {:induction false} MulLt(c: real, a: real, b: real)
    requires c > 0.0 && a < b
    ensures c * a < c * b
  {
  }

  /** The product of an optional weight and rate, over 100. */
  function ContribOf(w: Option<real>, ph: Option<real>): Option<real>
  {
    if w.Some? && ph.Some? then Some(w.value * ph.value / 100.0) else None
  }

  /** The row for opponent B: the weight in percent, the gap p̂ − WR and the contribution
      w·p̂/100. */
  function PairRow(b: string, wr: Option<real>, ph: Option<real>, w: Option<real>): (r: SheetRow)
    ensures r.opponent == b && r.wrReal == wr && r.pHat == ph
    ensures r.weight == (if w.Some? then Some(w.value * 100.0) else None)
    ensures r.gap.Some? <==> wr.Some? && ph.Some?
    ensures r.gap.Some? ==> r.gap.value == ph.value - wr.value
    ensures r.contrib == ContribOf(r.weight, ph)
  {
    var weight := if w.Some? then Some(w.value * 100.0) else None;
    var gap := if wr.Some? && ph.Some? then Some(ph.value - wr.value) else None;
    SheetRow(b, wr, ph, gap, weight, ContribOf(weight, ph))
  }

  /** The row of the deck against itself: no rates, weight and contribution 0. */
  function MirrorRow(name: string): SheetRow
  {
    SheetRow(name, None, None, None, Some(0.0), Some(0.0))
  }

  /** What the sheet inputs hold: the deck axis, the T×T observed rates and directional
      counts, the blend weights over the axis, the prior, and the Mirror options. */
  datatype SheetInputs = SheetInputs(axis: seq<string>, wr: Mat, nDir: Mat, pBlend: seq<Option<real>>,
                                     mu: real, k: real, includeSelf: bool, mirror: string)

  predicate ValidInputs(x: SheetInputs)
  {
    IsSquare(x.wr, |x.axis|) && IsSquare(x.nDir, |x.axis|) && |x.pBlend| == |x.axis|
  }

  /** The first position of label b on the axis. */
  function IndexOf(axis: seq<string>, b: string): (r: Option<nat>)
    ensures r.Some? ==> r.value < |axis| && axis[r.value] == b && forall j :: 0 <= j < r.value ==> axis[j] != b
    ensures r.None? ==> forall j :: 0 <= j < |axis| ==> axis[j] != b
  {
    if axis == [] then None
    else if axis[0] == b then Some(0)
    else
      var r := IndexOf(axis[1..], b);
      if r.None? then None else Some(r.value + 1)
  }

  /** What one label of the row order contributes to deck a's sheet. */
  datatype Step = Skip | Emit(row: SheetRow) | Missing

  function RowFor(x: SheetInputs, a: nat, w: seq<Option<real>>, b: string): Step
    requires ValidInputs(x) && a < |x.axis| && |w| == |x.axis|
  {
    if b == x.axis[a] then (if x.includeSelf then Emit(MirrorRow(x.mirror)) else Skip)
    else
      var j := IndexOf(x.axis, b);
      if j.None? then Missing
      else Emit(PairRow(b, x.wr[a][j.value], PHat(x.wr[a][j.value], x.nDir[a][j.value], x.mu, x.k), w[j.value]))
  }

  /** What each label of the row order contributes to deck a's sheet. */
  function Steps(x: SheetInputs, a: nat, order: seq<string>): (r: seq<Step>)
    requires ValidInputs(x) && a < |x.axis|
    ensures |r| == |order| && forall k :: 0 <= k < |order| ==> r[k] == RowFor(x, a, WeightsRow(x.pBlend, a), order[k])
  {
    seq(|order|, k requires 0 <= k < |order| => RowFor(x, a, WeightsRow(x.pBlend, a), order[k]))
  }

  /** The rows of the steps in order; a missing label raises `KeyError`. */
  function Collect(steps: seq<Step>): (r: Result<seq<SheetRow>>)
    ensures r.Failure? ==> r.error == "KeyError"
  {
    if steps == [] then Success([])
    else
      var prev := Collect(steps[..|steps| - 1]);
      if prev.Failure? then prev
      else
        match steps[|steps| - 1]
        case Skip => prev
        case Emit(r) => Success(prev.value + [r])
        case Missing => Failure("KeyError")
  }

  /** Deck a's sheet for the row order: one row per label, the Mirror row for a itself
      (or none), and a `KeyError` for a label not on the axis. */
  function SheetRows(x: SheetInputs, a: nat, order: seq<string>): Result<seq<SheetRow>>
    requires ValidInputs(x) && a < |x.axis|
  {
    Collect(Steps(x, a, order))
  }

  /** A missing label fails the whole sheet. */
  lemma {:induction false} CollectFailExtends(steps: seq<Step>, i: nat)
    requires i <= |steps| && Collect(steps[..i]).Failure?
    ensures Collect(steps).Failure?
    decreases |steps|
  {
    if i < |steps| {
      assert steps[..|steps| - 1][..i] == steps[..i];
      CollectFailExtends(steps[..|steps| - 1], i);
    } else {
      assert steps[..i] == steps;
    }
  }

  /** The steps fail exactly when one of them is a missing label. */
  lemma {:induction false} CollectFailure(steps: seq<Step>)
    ensures Collect(steps).Failure? <==> exists k :: 0 <= k < |steps| && steps[k].Missing?
  {
    if steps != [] {
      var s := steps[..|steps| - 1];
      CollectFailure(s);
      if Collect(s).Failure? {
        var k :| 0 <= k < |s| && s[k].Missing?;
        assert steps[k] == s[k];
      } else if !Collect(steps).Failure? {
        forall k | 0 <= k < |steps| ensures !steps[k].Missing? {
          if k < |s| {
            assert steps[k] == s[k];
          }
        }
      }
    }
  }

  /** Every collected row is the row of one of the steps. */
  lemma {:induction false} CollectContent(steps: seq<Step>)
    requires Collect(steps).Success?
    ensures forall k :: 0 <= k < |Collect(steps).value| ==>
      exists i :: 0 <= i < |steps| && steps[i] == Emit(Collect(steps).value[k])
  {
    if steps != [] {
      var s := steps[..|steps| - 1];
      CollectContent(s);
      var rs := Collect(steps).value;
      forall k | 0 <= k < |rs| ensures exists i :: 0 <= i < |steps| && steps[i] == Emit(rs[k]) {
        if k < |Collect(s).value| {
          var i :| 0 <= i < |s| && s[i] == Emit(Collect(s).value[k]);
          assert steps[i] == s[i];
        } else {
          assert steps[|steps| - 1] == Emit(rs[k]);
        }
      }
    }
  }

  /** The steps of a prefix of the order are a prefix of the steps. */
  lemma {:induction false} StepsPrefix(x: SheetInputs, a: nat, order: seq<string>, n: nat)
    requires ValidInputs(x) && a < |x.axis| && n <= |order|
    ensures Steps(x, a, order[..n]) == Steps(x, a, order)[..n]
  {
  }

  /** The sheet fails exactly when some label other than the deck itself is not on the
      axis. */
  lemma {:induction false} SheetRowsFailure(x: SheetInputs, a: nat, order: seq<string>)
    requires ValidInputs(x) && a < |x.axis|
    ensures SheetRows(x, a, order).Failure? <==>
      exists k :: 0 <= k < |order| && order[k] != x.axis[a] && IndexOf(x.axis, order[k]).None?
  {
    var steps := Steps(x, a, order);
    CollectFailure(steps);
    if SheetRows(x, a, order).Failure? {
      var k :| 0 <= k < |steps| && steps[k].Missing?;
      assert order[k] != x.axis[a] && IndexOf(x.axis, order[k]).None?;
    }
  }

  /** The opponents of a sheet, one per label of the order: the Mirror label for the deck
      itself, or nothing when the self row is left out. */
  function Opponents(order: seq<string>, self: string, includeSelf: bool, mirror: string): seq<string>
  {
    if order == [] then []
    else
      var prev := Opponents(order[..|order| - 1], self, includeSelf, mirror);
      var b := order[|order| - 1];
      if b != self then prev + [b] else if includeSelf then prev + [mirror] else prev
  }

  /** The rows follow the order. */
  lemma {:induction false} SheetRowsOrder(x: SheetInputs, a: nat, order: seq<string>)
    requires ValidInputs(x) && a < |x.axis| && SheetRows(x, a, order).Success?
    ensures var rs := SheetRows(x, a, order).value;
      var ops := Opponents(order, x.axis[a], x.includeSelf, x.mirror);
      |rs| == |ops| && forall k :: 0 <= k < |rs| ==> rs[k].opponent == ops[k]
  {
    if order != [] {
      var n := |order| - 1;
      StepsPrefix(x, a, order, n);
      SheetRowsOrder(x, a, order[..n]);
    }
  }

  /** With the self row in, there is one row per label, in order. */
  lemma {:induction false} OpponentsWithSelf(order: seq<string>, self: string, mirror: string)
    ensures var ops := Opponents(order, self, true, mirror);
      |ops| == |order| && forall k :: 0 <= k < |order| ==> ops[k] == (if order[k] == self then mirror else order[k])
  {
    if order != [] {
      OpponentsWithSelf(order[..|order| - 1], self, mirror);
    }
  }

  /** A sheet row is either the Mirror row, weight and contribution 0, or the row of an
      axis deck j other than the deck itself, with its observed rate, its posterior mean,
      its gap, its weight in percent and its contribution. */
  predicate RowOk(x: SheetInputs, a: nat, r: SheetRow)
    requires ValidInputs(x) && a < |x.axis|
  {
    (x.includeSelf && r == MirrorRow(x.mirror)) ||
    exists j :: 0 <= j < |x.axis| && x.axis[j] != x.axis[a] && x.axis[j] == r.opponent &&
      r == PairRow(x.axis[j], x.wr[a][j], PHat(x.wr[a][j], x.nDir[a][j], x.mu, x.k), WeightsRow(x.pBlend, a)[j])
  }

  lemma {:induction false} SheetRowsContent(x: SheetInputs, a: nat, order: seq<string>)
    requires ValidInputs(x) && a < |x.axis| && SheetRows(x, a, order).Success?
    ensures forall k :: 0 <= k < |SheetRows(x, a, order).value| ==> RowOk(x, a, SheetRows(x, a, order).value[k])
  {
    var steps := Steps(x, a, order);
    var rs := Collect(steps).value;
    CollectContent(steps);
    forall k | 0 <= k < |rs| ensures RowOk(x, a, rs[k]) {
      var i :| 0 <= i < |steps| && steps[i] == Emit(rs[k]);
      var b := order[i];
      if b != x.axis[a] {
        var j := IndexOf(x.axis, b).value;
        assert x.axis[j] == b;
      }
    }
  }

  /** The row loop of `make_pairs_by_deck_tables` for deck a. */
  method DeckSheet(x: SheetInputs, a: nat, order: seq<string>) returns (r: Result<seq<SheetRow>>)
    requires ValidInputs(x) && a < |x.axis|
    ensures r == SheetRows(x, a, order)
  {
    var w := WeightsRow(x.pBlend, a);
    ghost var steps := Steps(x, a, order);
    var rows: seq<SheetRow> := [];
    var i := 0;
    while i < |order|
      invariant 0 <= i <= |order|
      invariant Collect(steps[..i]) == Success(rows)
    {
      assert steps[..i + 1][..i] == steps[..i];
      var step := RowFor(x, a, w, order[i]);
      assert steps[i] == step;
      if step.Missing? {
        CollectFailExtends(steps, i + 1);
        return Failure("KeyError");
      }
      if step.Emit? {
        rows := rows + [step.row];
      }
      i := i + 1;
    }
    assert steps[..|order|] == steps;
    r := Success(rows);
  }

  /** Labels of the axis itself are never missing: ordering by the axis cannot fail. */
  lemma {:induction false} AxisOrderSucceeds(x: SheetInputs, a: nat)
    requires ValidInputs(x) && a < |x.axis|
    ensures SheetRows(x, a, x.axis).Success?
  {
    SheetRowsFailure(x, a, x.axis);
    forall k | 0 <= k < |x.axis| ensures IndexOf(x.axis, x.axis[k]).Some? {
    }
  }

  /** Two cells agree up to the rounding to 2 decimals. */
  predicate Close(r: Option<real>, v: Option<real>)
  {
    (r.Some? <==> v.Some?) && (v.Some? ==> Abs(r.value - v.value) <= 0.005)
  }

  /** `round(2)` on one cell; undefined stays undefined. */
  function RoundCell(v: Option<real>): (r: Option<real>)
    ensures Close(r, v)
  {
    if v.Some? then
      assert Pow10(2) == 100;
      Some(RoundTo(v.value, 2))
    else None
  }

  /** A row with every number rounded to 2 decimals. */
  function RoundRow(r: SheetRow): (o: SheetRow)
    ensures o.opponent == r.opponent && Close(o.wrReal, r.wrReal) && Close(o.pHat, r.pHat) && Close(o.gap, r.gap)
    ensures Close(o.weight, r.weight) && Close(o.contrib, r.contrib)
  {
    SheetRow(r.opponent, RoundCell(r.wrReal), RoundCell(r.pHat), RoundCell(r.gap), RoundCell(r.weight), RoundCell(r.contrib))
  }

  function RoundRows(rs: seq<SheetRow>): (o: seq<SheetRow>)
    ensures |o| == |rs| && forall k :: 0 <= k < |rs| ==> o[k] == RoundRow(rs[k])
  {
    seq(|rs|, k requires 0 <= k < |rs| => RoundRow(rs[k]))
  }

  /** The row order: `global_order` when given, else the axis. */
  function RowOrder(x: SheetInputs, globalOrder: Option<seq<string>>): seq<string>
  {
    if globalOrder.Some? then globalOrder.value else x.axis
  }

  /** The per-deck loop of `make_pairs_by_deck_tables`: the sheets hold, in axis order,
      each deck's rows rounded to 2 decimals; they are built iff no deck's rows raise. */
  method PairSheets(x: SheetInputs, globalOrder: Option<seq<string>>) returns (r: Result<seq<(string, seq<SheetRow>)>>)
    requires ValidInputs(x)
    ensures r.Success? <==> forall a :: 0 <= a < |x.axis| ==> SheetRows(x, a, RowOrder(x, globalOrder)).Success?
    ensures r.Failure? ==> r.error == "KeyError"
    ensures r.Success? ==> |r.value| == |x.axis| && forall a :: 0 <= a < |x.axis| ==>
      r.value[a] == (x.axis[a], RoundRows(SheetRows(x, a, RowOrder(x, globalOrder)).value))
  {
    var order := RowOrder(x, globalOrder);
    var sheets: seq<(string, seq<SheetRow>)> := [];
    var a := 0;
    while a < |x.axis|
      invariant 0 <= a <= |x.axis| && |sheets| == a
      invariant forall b :: 0 <= b < a ==> SheetRows(x, b, order).Success?
      invariant forall b :: 0 <= b < a ==> sheets[b] == (x.axis[b], RoundRows(SheetRows(x, b, order).value))
    {
      var rows := DeckSheet(x, a, order);
      if rows.Failure? {
        return Failure(rows.error);
      }
      PairSheetsStep(x, order, a, sheets, rows.value);
      sheets := sheets + [(x.axis[a], RoundRows(rows.value))];
      a := a + 1;
    }
    r := Success(sheets);
  }

  /** One iteration of `PairSheets` keeps its invariant. */
  lemma {:induction false} PairSheetsStep(x: SheetInputs, order: seq<string>, a: nat, sheets: seq<(string, seq<SheetRow>)>, rows: seq<SheetRow>)
    requires ValidInputs(x) && a < |x.axis| && |sheets| == a
    requires forall b :: 0 <= b < a ==> SheetRows(x, b, order).Success?
    requires forall b :: 0 <= b < a ==> sheets[b] == (x.axis[b], RoundRows(SheetRows(x, b, order).value))
    requires SheetRows(x, a, order) == Success(rows)
    ensures forall b :: 0 <= b < a + 1 ==> SheetRows(x, b, order).Success?
    ensures var next := sheets + [(x.axis[a], RoundRows(rows))];
      forall b :: 0 <= b < a + 1 ==> next[b] == (x.axis[b], RoundRows(SheetRows(x, b, order).value))
  {
    var next := sheets + [(x.axis[a], RoundRows(rows))];
    forall b | 0 <= b < a + 1 ensures next[b] == (x.axis[b], RoundRows(SheetRows(x, b, order).value)) {
      if b < a {
        assert next[b] == sheets[b];
      } else {
        assert next[b] == (x.axis[a], RoundRows(rows));
        assert SheetRows(x, b, order).value == rows;
      }
    }
  }

  /** The ranking columns the summary keeps, in this order. */
  const KeepCols: seq<string> :=
    ["Deck", "Score_%", "MAS_%", "LB_%", "BT_%", "SE_%", "N_eff", "Opp_used", "Opp_total", "Coverage_%"]

  /** The summary columns rounded to 2 decimals. */
  const RoundCols: set<string> := {"Score_%", "MAS_%", "LB_%", "BT_%", "SE_%", "Coverage_%"}

  const ScoreCol: string := "Score_%"

  /** The names that are columns of f, in their listed order. */
  function Present(f: Frame, names: seq<string>): (r: seq<string>)
    ensures forall k :: 0 <= k < |r| ==> r[k] in names && HasCol(f, r[k])
    ensures forall k :: 0 <= k < |names| && HasCol(f, names[k]) ==> names[k] in r
  {
    if names == [] then []
    else
      var rest := Present(f, names[1..]);
      assert forall k :: 1 <= k < |names| ==> names[k] == names[1..][k - 1];
      if FindCol(f, names[0]).Some? then [names[0]] + rest else rest
  }

  /** Descending order with undefined values last (`ascending=False`, `na_position="last"`). */
  predicate NumGe(a: Option<real>, b: Option<real>)
  {
    b.None? || (a.Some? && a.value >= b.value)
  }

  /** A row position with its Score_% value. */
  predicate KeyGe(p: (nat, Option<real>), q: (nat, Option<real>))
  {
    NumGe(p.1, q.1)
  }

  lemma {:induction false} KeyGeTotalPreorder()
    ensures TotalPreorder(KeyGe)
  {
  }

  /** Every row position paired with its value in column sc. */
  function Keyed(f: Frame, sc: nat): (r: seq<(nat, Option<real>)>)
    requires WellFormed(f) && sc < |f.cols|
    ensures |r| == f.nrows && forall i :: 0 <= i < f.nrows ==> r[i] == (i, f.cols[sc].cells[i].num)
  {
    seq(f.nrows, i requires 0 <= i < f.nrows => (i, f.cols[sc].cells[i].num))
  }

  /** The row order of the summary: a stable sort by column sc, descending. */
  function SummaryOrder(f: Frame, sc: nat): seq<(nat, Option<real>)>
    requires WellFormed(f) && sc < |f.cols|
  {
    Sort(Keyed(f, sc), KeyGe)
  }

  /** The sorted rows are the rows of f, each once: a permutation of the row positions,
      each carrying its own Score_% value. */
  lemma {:induction false} SummaryOrderRows(f: Frame, sc: nat)
    requires WellFormed(f) && sc < |f.cols|
    ensures var o := SummaryOrder(f, sc);
      |o| == f.nrows && multiset(o) == multiset(Keyed(f, sc)) &&
      (forall i :: 0 <= i < |o| ==> o[i].0 < f.nrows && o[i].1 == f.cols[sc].cells[o[i].0].num) &&
      (forall i, j :: 0 <= i < j < |o| ==> o[i].0 != o[j].0)
  {
    var o := SummaryOrder(f, sc);
    var s := Keyed(f, sc);
    forall i | 0 <= i < |o| ensures o[i].0 < f.nrows && o[i].1 == f.cols[sc].cells[o[i].0].num {
      assert o[i] in multiset(s);
      var j :| 0 <= j < |s| && s[j] == o[i];
    }
    assert DistinctBy(s, (p: (nat, Option<real>)) => p.0);
    DistinctByPermutation(s, o, (p: (nat, Option<real>)) => p.0);
  }

  /** Column name's cell for one summary row: rounded when the column is one of RoundCols. */
  function Finish(name: string, c: Cell): Cell
  {
    if name in RoundCols then Cell(c.text, RoundCell(c.num)) else c
  }

  function CellAt(cells: seq<Cell>, i: nat): Cell
  {
    if i < |cells| then cells[i] else Cell("", None)
  }

  /** One summary column: the ranking's column reordered by the sort, then rounded. */
  function SummaryCol(f: Frame, sc: nat, name: string): (c: Col)
    requires WellFormed(f) && sc < |f.cols| && HasCol(f, name)
    ensures c.name == name && |c.cells| == f.nrows
  {
    var src := f.cols[FindCol(f, name).value];
    var o := SummaryOrder(f, sc);
    Col(name, src.isNumeric || name in RoundCols,
        seq(|o|, i requires 0 <= i < |o| => Finish(name, CellAt(src.cells, o[i].0))))
  }

  /** `build_summary_sheet`: the listed columns that are present, rows sorted stably by
      Score_% descending, the percentage columns rounded; no Score_% column raises. */
  function BuildSummarySheet(f: Frame): (r: Result<Frame>)
    requires WellFormed(f)
    ensures r.Failure? <==> !HasCol(f, ScoreCol)
    ensures r.Failure? ==> r.error == "KeyError"
    ensures r.Success? ==> WellFormed(r.value) && r.value.nrows == f.nrows
    ensures r.Success? ==> var names := Present(f, KeepCols);
      |r.value.cols| == |names| && forall k :: 0 <= k < |names| ==> r.value.cols[k].name == names[k]
  {
    var sc := FindCol(f, ScoreCol);
    if sc.None? then Failure("KeyError")
    else
      var names := Present(f, KeepCols);
      Success(Frame(seq(|names|, k requires 0 <= k < |names| => SummaryCol(f, sc.value, names[k])), f.nrows))
  }

  /** Summary row i is ranking row SummaryOrder(..)[i].0 in every kept column. */
  lemma {:induction false} SummaryRows(f: Frame)
    requires WellFormed(f) && HasCol(f, ScoreCol)
    ensures var sc := FindCol(f, ScoreCol).value;
      var o := SummaryOrder(f, sc);
      var s := BuildSummarySheet(f).value;
      forall k, i :: 0 <= k < |s.cols| && 0 <= i < f.nrows ==>
        o[i].0 < f.nrows && s.cols[k].cells[i] == Finish(s.cols[k].name, f.cols[FindCol(f, s.cols[k].name).value].cells[o[i].0])
  {
    SummaryOrderRows(f, FindCol(f, ScoreCol).value);
  }

  /** The summary rows go by Score_% descending, undefined values last. */
  lemma {:induction false} SummarySorted(f: Frame)
    requires WellFormed(f) && HasCol(f, ScoreCol)
    ensures var sc := FindCol(f, ScoreCol).value;
      var o := SummaryOrder(f, sc);
      forall i, j :: 0 <= i < j < f.nrows ==>
        o[i].0 < f.nrows && o[j].0 < f.nrows && NumGe(f.cols[sc].cells[o[i].0].num, f.cols[sc].cells[o[j].0].num)
  {
    var sc := FindCol(f, ScoreCol).value;
    KeyGeTotalPreorder();
    SortSorted(Keyed(f, sc), KeyGe);
    SummaryOrderRows(f, sc);
  }

  /** Rows with equal Score_% keep their ranking order (the sort is a mergesort). */
  lemma {:induction false} SummaryStable(f: Frame, k: (nat, Option<real>))
    requires WellFormed(f) && HasCol(f, ScoreCol)
    ensures var sc := FindCol(f, ScoreCol).value;
      Class(SummaryOrder(f, sc), k, KeyGe) == Class(Keyed(f, sc), k, KeyGe)
  {
    KeyGeTotalPreorder();
    SortStable(Keyed(f, FindCol(f, ScoreCol).value), k, KeyGe);
  }

  const LegendTitle: string := "00_Legenda"
  const SummaryTitle: string := "01_Summary"

  /** An `OrderedDict` of sheets: the titles in order and the sheet under each. */
  datatype Book<V> = Book(titles: seq<string>, sheets: seq<V>)

  predicate BookOk<V>(b: Book<V>) { |b.titles| == |b.sheets| }

  /** `OrderedDict` assignment: a title already present keeps its place and takes the new
      sheet; a new title goes last. */
  function Assign<V>(b: Book<V>, key: string, v: V): (r: Book<V>)
    requires BookOk(b)
    ensures BookOk(r)
  {
    var i := IndexOf(b.titles, key);
    if i.Some? then Book(b.titles, b.sheets[i.value := v]) else Book(b.titles + [key], b.sheets + [v])
  }

  /** The sheet under a title. */
  function Lookup<V>(b: Book<V>, key: string): Option<V>
    requires BookOk(b)
  {
    var i := IndexOf(b.titles, key);
    if i.Some? then Some(b.sheets[i.value]) else None
  }

  /** Looking a title up after appending one. */
  lemma {:induction false} IndexOfAppend(ts: seq<string>, key: string, t: string)
    ensures IndexOf(ts + [key], t) ==
      if IndexOf(ts, t).Some? then IndexOf(ts, t) else if t == key then Some(|ts|) else None
  {
    if ts != [] {
      assert (ts + [key])[1..] == ts[1..] + [key];
      IndexOfAppend(ts[1..], key, t);
    }
  }

  /** Assignment keeps the titles distinct, adds the title at the end when it is new, stores
      the sheet under it, and leaves every other title's sheet as it was. */
  lemma {:induction false} AssignSpec<V>(b: Book<V>, key: string, v: V)
    requires BookOk(b) && Distinct(b.titles)
    ensures var r := Assign(b, key, v);
      Distinct(r.titles) && Lookup(r, key) == Some(v) &&
      (key in b.titles ==> r.titles == b.titles) &&
      (key !in b.titles ==> r.titles == b.titles + [key]) &&
      (forall t :: t != key ==> Lookup(r, t) == Lookup(b, t))
  {
    if key !in b.titles {
      forall t ensures IndexOf(b.titles + [key], t) ==
        if IndexOf(b.titles, t).Some? then IndexOf(b.titles, t) else if t == key then Some(|b.titles|) else None
      {
        IndexOfAppend(b.titles, key, t);
      }
    }
  }

  /** The workbook before the deck sheets: the legend, then the summary when given. */
  function Front<V>(legend: V, summary: Option<V>): (b: Book<V>)
    ensures BookOk(b)
  {
    var b := Assign(Book([], []), LegendTitle, legend);
    if summary.Some? then Assign(b, SummaryTitle, summary.value) else b
  }

  /** The workbook after assigning, in order, each sheet from position i on under its title. */
  function AssignFrom<V>(b: Book<V>, titles: seq<string>, vals: seq<V>, i: nat): (r: Book<V>)
    requires BookOk(b) && |titles| == |vals| && i <= |titles|
    ensures BookOk(r)
    decreases |titles| - i
  {
    if i == |titles| then b
    else AssignFrom(Assign(b, titles[i], vals[i]), titles, vals, i + 1)
  }

  /** The deck sheets' titles: their sanitised deck names. */
  function DeckTitles<V>(sheets: seq<(string, V)>): (r: seq<string>)
    ensures |r| == |sheets| && forall i :: 0 <= i < |sheets| ==> r[i] == SanitizeSheetName(sheets[i].0)
  {
    seq(|sheets|, i requires 0 <= i < |sheets| => SanitizeSheetName(sheets[i].0))
  }

  function DeckSheets<V>(sheets: seq<(string, V)>): (r: seq<V>)
    ensures |r| == |sheets| && forall i :: 0 <= i < |sheets| ==> r[i] == sheets[i].1
  {
    seq(|sheets|, i requires 0 <= i < |sheets| => sheets[i].1)
  }

  /** `prepare_workbook` as a value. */
  function Workbook<V>(sheets: seq<(string, V)>, legend: V, summary: Option<V>): (r: Book<V>)
    ensures BookOk(r)
  {
    AssignFrom(Front(legend, summary), DeckTitles(sheets), DeckSheets(sheets), 0)
  }

  /** `prepare_workbook`: the legend, the summary when given, then one sheet per deck under
      its sanitised name. */
  method PrepareWorkbook<V>(sheets: seq<(string, V)>, legend: V, summary: Option<V>) returns (wb: Book<V>)
    ensures wb == Workbook(sheets, legend, summary)
  {
    var titles := DeckTitles(sheets);
    ghost var vals := DeckSheets(sheets);
    wb := Assign(Book([], []), LegendTitle, legend);
    if summary.Some? {
      wb := Assign(wb, SummaryTitle, summary.value);
    }
    var i := 0;
    while i < |sheets|
      invariant 0 <= i <= |sheets| && BookOk(wb)
      invariant AssignFrom(wb, titles, vals, i) == Workbook(sheets, legend, summary)
    {
      wb := Assign(wb, titles[i], sheets[i].1);
      i := i + 1;
    }
  }

  /** Assigning titles[i..] in order keeps the titles distinct and the earlier ones first;
      every assigned title is a title, and every other title was there before. */
  lemma {:induction false} AssignFromTitles<V>(b: Book<V>, titles: seq<string>, vals: seq<V>, i: nat)
    requires BookOk(b) && Distinct(b.titles) && |titles| == |vals| && i <= |titles|
    ensures var r := AssignFrom(b, titles, vals, i);
      Distinct(r.titles) && b.titles <= r.titles &&
      (forall k :: i <= k < |titles| ==> titles[k] in r.titles) &&
      (forall t :: t in r.titles ==> t in b.titles || exists k :: i <= k < |titles| && titles[k] == t)
    decreases |titles| - i
  {
    if i < |titles| {
      var b' := Assign(b, titles[i], vals[i]);
      AssignSpec(b, titles[i], vals[i]);
      AssignFromTitles(b', titles, vals, i + 1);
      var r := AssignFrom(b', titles, vals, i + 1);
      assert b.titles <= b'.titles <= r.titles;
      assert titles[i] in b'.titles;
      forall t | t in r.titles ensures t in b.titles || exists k :: i <= k < |titles| && titles[k] == t {
        if t in b'.titles && t !in b.titles {
          assert t == titles[i];
        }
      }
    }
  }

  /** A title not assigned again keeps its sheet. */
  lemma {:induction false} AssignFromKeeps<V>(b: Book<V>, titles: seq<string>, vals: seq<V>, i: nat, t: string)
    requires BookOk(b) && Distinct(b.titles) && |titles| == |vals| && i <= |titles|
    requires forall k :: i <= k < |titles| ==> titles[k] != t
    ensures Lookup(AssignFrom(b, titles, vals, i), t) == Lookup(b, t)
    decreases |titles| - i
  {
    if i < |titles| {
      AssignSpec(b, titles[i], vals[i]);
      AssignFromKeeps(Assign(b, titles[i], vals[i]), titles, vals, i + 1, t);
    }
  }

  /** Each title holds the last sheet assigned to it. */
  lemma {:induction false} AssignFromLast<V>(b: Book<V>, titles: seq<string>, vals: seq<V>, i: nat, k: nat)
    requires BookOk(b) && Distinct(b.titles) && |titles| == |vals| && i <= k < |titles|
    requires forall j :: k < j < |titles| ==> titles[j] != titles[k]
    ensures Lookup(AssignFrom(b, titles, vals, i), titles[k]) == Some(vals[k])
    decreases |titles| - i
  {
    AssignSpec(b, titles[i], vals[i]);
    if i < k {
      AssignFromLast(Assign(b, titles[i], vals[i]), titles, vals, i + 1, k);
    } else {
      AssignFromKeeps(Assign(b, titles[i], vals[i]), titles, vals, i + 1, titles[k]);
    }
  }

  /** Titles that are new and distinct follow the earlier ones, in order. */
  lemma {:induction false} AssignFromFresh<V>(b: Book<V>, titles: seq<string>, vals: seq<V>, i: nat)
    requires BookOk(b) && Distinct(b.titles) && |titles| == |vals| && i <= |titles|
    requires forall k :: i <= k < |titles| ==> titles[k] !in b.titles
    requires forall k, j :: i <= k < j < |titles| ==> titles[k] != titles[j]
    ensures AssignFrom(b, titles, vals, i).titles == b.titles + titles[i..]
    decreases |titles| - i
  {
    if i < |titles| {
      var b' := Assign(b, titles[i], vals[i]);
      AssignSpec(b, titles[i], vals[i]);
      AssignFromFresh(b', titles, vals, i + 1);
      assert titles[i..] == [titles[i]] + titles[i + 1..];
    }
  }

  /** The front of the workbook holds the legend, then the summary when given. */
  lemma {:induction false} FrontTitles<V>(legend: V, summary: Option<V>)
    ensures Front(legend, summary).titles == if summary.Some? then [LegendTitle, SummaryTitle] else [LegendTitle]
    ensures Distinct(Front(legend, summary).titles)
  {
    assert LegendTitle[1] != SummaryTitle[1];
  }

  /** Assigning titles after a front keeps the front titles first. */
  lemma {:induction false} BookFront<V>(f: Book<V>, ds: seq<string>, vs: seq<V>)
    requires BookOk(f) && Distinct(f.titles) && |ds| == |vs|
    ensures var w := AssignFrom(f, ds, vs, 0);
      Distinct(w.titles) && |w.titles| >= |f.titles| && forall k :: 0 <= k < |f.titles| ==> w.titles[k] == f.titles[k]
  {
    AssignFromTitles(f, ds, vs, 0);
    var w := AssignFrom(f, ds, vs, 0);
    forall k | 0 <= k < |f.titles| ensures w.titles[k] == f.titles[k] {
      assert w.titles[..|f.titles|][k] == w.titles[k];
    }
  }

  /** After a front, the titles are the front's and the assigned ones. */
  lemma {:induction false} BookDecks<V>(f: Book<V>, ds: seq<string>, vs: seq<V>)
    requires BookOk(f) && Distinct(f.titles) && |ds| == |vs|
    ensures var w := AssignFrom(f, ds, vs, 0);
      (forall i :: 0 <= i < |ds| ==> ds[i] in w.titles) &&
      (forall t :: t in w.titles ==> t in f.titles || exists i :: 0 <= i < |ds| && ds[i] == t)
  {
    AssignFromTitles(f, ds, vs, 0);
  }

  /** No title occurs twice; the legend is the first sheet and, when given, the summary the
      second. */
  lemma {:induction false} WorkbookFront<V>(sheets: seq<(string, V)>, legend: V, summary: Option<V>)
    ensures var w := Workbook(sheets, legend, summary);
      Distinct(w.titles) && |w.titles| > 0 && w.titles[0] == LegendTitle &&
      (summary.Some? ==> |w.titles| > 1 && w.titles[1] == SummaryTitle)
  {
    FrontTitles(legend, summary);
    BookFront(Front(legend, summary), DeckTitles(sheets), DeckSheets(sheets));
  }

  /** Every deck has a sheet under its sanitised name, and every title is the legend, the
      summary or a deck's. */
  lemma {:induction false} WorkbookDecks<V>(sheets: seq<(string, V)>, legend: V, summary: Option<V>)
    ensures var w := Workbook(sheets, legend, summary);
      var ds := DeckTitles(sheets);
      (forall i :: 0 <= i < |sheets| ==> ds[i] in w.titles) &&
      (forall t :: t in w.titles ==> t == LegendTitle || t == SummaryTitle || exists i :: 0 <= i < |sheets| && ds[i] == t)
  {
    var f := Front(legend, summary);
    FrontTitles(legend, summary);
    assert forall t :: t in f.titles ==> t == LegendTitle || t == SummaryTitle;
    BookDecks(f, DeckTitles(sheets), DeckSheets(sheets));
  }

  /** A deck's sheet is under its sanitised name unless a later deck has the same name. */
  lemma {:induction false} WorkbookLast<V>(sheets: seq<(string, V)>, legend: V, summary: Option<V>, i: nat)
    requires i < |sheets| && forall j :: i < j < |sheets| ==> DeckTitles(sheets)[j] != DeckTitles(sheets)[i]
    ensures Lookup(Workbook(sheets, legend, summary), DeckTitles(sheets)[i]) == Some(sheets[i].1)
  {
    FrontTitles(legend, summary);
    AssignFromLast(Front(legend, summary), DeckTitles(sheets), DeckSheets(sheets), 0, i);
  }

  /** When the decks' sanitised names are distinct and none is a front title, the deck
      sheets follow the front in deck order. */
  lemma {:induction false} WorkbookFresh<V>(sheets: seq<(string, V)>, legend: V, summary: Option<V>)
    requires forall i :: 0 <= i < |sheets| ==> DeckTitles(sheets)[i] != LegendTitle && DeckTitles(sheets)[i] != SummaryTitle
    requires forall i, j :: 0 <= i < j < |sheets| ==> DeckTitles(sheets)[i] != DeckTitles(sheets)[j]
    ensures Workbook(sheets, legend, summary).titles == Front(legend, summary).titles + DeckTitles(sheets)
  {
    FrontTitles(legend, summary);
    var ds := DeckTitles(sheets);
    AssignFromFresh(Front(legend, summary), ds, DeckSheets(sheets), 0);
    assert ds[0..] == ds;
  }

  // ---- sheet reordering ----

  /** The three ways a sanitised deck name can claim a sheet title: the same title, a title
      starting with it (Excel's "Name (2)"), or a title containing it, ignoring case. */
  datatype Match = Exact | Prefix | Substring

  predicate Fits(ops: TextOps, m: Match, t: string, d: string)
  {
    match m
    case Exact => t == d
    case Prefix => StartsWith(t, d)
    case Substring => Contains(ops.lower(t), ops.lower(d))
  }

  /** The first title of `existing` from position k on that is not used and fits d. */
  /** Title t sits at some position j ≥ k, is unused and fits, and no unused title before
      it from k on fits. */
  predicate FirstFitFrom(ops: TextOps, existing: seq<string>, used: set<string>, m: Match, d: string,
                         k: nat, t: string)
  {
    exists j :: k <= j < |existing| && existing[j] == t && t !in used && Fits(ops, m, t, d)
      && forall i :: k <= i < j ==> existing[i] in used || !Fits(ops, m, existing[i], d)
  }

  function FirstUnused(ops: TextOps, existing: seq<string>, used: set<string>, m: Match, d: string, k: nat := 0): (r: Option<string>)
    requires k <= |existing|
    ensures r.Some? ==> r.value in existing && r.value !in used && Fits(ops, m, r.value, d)
    ensures r.Some? ==> FirstFitFrom(ops, existing, used, m, d, k, r.value)
    ensures r.None? <==> forall j :: k <= j < |existing| ==> existing[j] in used || !Fits(ops, m, existing[j], d)
    decreases |existing| - k
  {
    if k == |existing| then None
    else if existing[k] !in used && Fits(ops, m, existing[k], d) then Some(existing[k])
    else FirstUnused(ops, existing, used, m, d, k + 1)
  }

  /** The title deck name d claims: an unused exact match, else an unused title starting with
      it, else an unused title containing it ignoring case; none when nothing fits. */
  function Claim(ops: TextOps, existing: seq<string>, used: set<string>, d: string): (r: Option<string>)
    ensures r.Some? ==> r.value in existing && r.value !in used
    ensures d in existing && d !in used ==> r == Some(d)
    ensures r.Some? && r.value != d ==> StartsWith(r.value, d) || Contains(ops.lower(r.value), ops.lower(d))
    ensures r.Some? && !StartsWith(r.value, d) ==>
      forall j :: 0 <= j < |existing| && existing[j] !in used ==> !StartsWith(existing[j], d)
    ensures r.None? <==> forall j :: 0 <= j < |existing| && existing[j] !in used ==>
      !StartsWith(existing[j], d) && !Contains(ops.lower(existing[j]), ops.lower(d))
    ensures r.Some? && r.value != d && StartsWith(r.value, d) ==> FirstFitFrom(ops, existing, used, Prefix, d, 0, r.value)
    ensures r.Some? && !StartsWith(r.value, d) ==> FirstFitFrom(ops, existing, used, Substring, d, 0, r.value)
  {
    var exact := FirstUnused(ops, existing, used, Exact, d);
    if exact.Some? then exact
    else
      assert d <= d;
      var starts := FirstUnused(ops, existing, used, Prefix, d);
      if starts.Some? then starts
      else FirstUnused(ops, existing, used, Substring, d)
  }

  /** The titles mapped so far, in order, and the set of titles used. */
  datatype Mapping = Mapping(mapped: seq<string>, used: set<string>)

  function ClaimStep(ops: TextOps, existing: seq<string>, st: Mapping, d: string): Mapping
  {
    var c := Claim(ops, existing, st.used, d);
    if c.Some? then Mapping(st.mapped + [c.value], st.used + {c.value}) else st
  }

  /** The mapping after the deck names from position i on have claimed their titles. */
  function Claims(ops: TextOps, existing: seq<string>, st: Mapping, ds: seq<string>, i: nat): Mapping
    requires i <= |ds|
    decreases |ds| - i
  {
    if i == |ds| then st else Claims(ops, existing, ClaimStep(ops, existing, st, ds[i]), ds, i + 1)
  }

  /** The fixed prefixes: the legend, then the summary, when present. */
  function Prefixes(existing: seq<string>): Mapping
  {
    var st := if LegendTitle in existing then Mapping([LegendTitle], {LegendTitle}) else Mapping([], {});
    if SummaryTitle in existing then Mapping(st.mapped + [SummaryTitle], st.used + {SummaryTitle}) else st
  }

  /** The titles not yet mapped, from position j of `existing` on, appended in order. */
  function Rest(existing: seq<string>, mapped: seq<string>, j: nat): seq<string>
    requires j <= |existing|
    decreases |existing| - j
  {
    if j == |existing| then mapped
    else Rest(existing, if existing[j] in mapped then mapped else mapped + [existing[j]], j + 1)
  }

  /** The sanitised desired deck names. */
  function SanitizedAll(desired: seq<string>): (r: seq<string>)
    ensures |r| == |desired| && forall i :: 0 <= i < |desired| ==> r[i] == SanitizeSheetName(desired[i])
  {
    seq(|desired|, i requires 0 <= i < |desired| => SanitizeSheetName(desired[i]))
  }

  /** The sheet order `_reorder_excel_sheets_robust` writes. */
  function Reordered(ops: TextOps, existing: seq<string>, desired: seq<string>): seq<string>
  {
    Rest(existing, Claims(ops, existing, Prefixes(existing), SanitizedAll(desired), 0).mapped, 0)
  }

  /** The claim loop: each deck name in turn claims a title. */
  method ClaimTitles(ops: TextOps, existing: seq<string>, mapped0: seq<string>, used0: set<string>, ds: seq<string>)
    returns (mapped: seq<string>, used: set<string>)
    ensures Mapping(mapped, used) == Claims(ops, existing, Mapping(mapped0, used0), ds, 0)
  {
    mapped, used := mapped0, used0;
    var i := 0;
    while i < |ds|
      invariant 0 <= i <= |ds|
      invariant Claims(ops, existing, Mapping(mapped, used), ds, i) == Claims(ops, existing, Mapping(mapped0, used0), ds, 0)
    {
      var d := ds[i];
      var exact := FirstUnused(ops, existing, used, Exact, d);
      if exact.Some? {
        mapped := mapped + [exact.value];
        used := used + {exact.value};
      } else {
        var starts := FirstUnused(ops, existing, used, Prefix, d);
        if starts.Some? {
          mapped := mapped + [starts.value];
          used := used + {starts.value};
        } else {
          var contains := FirstUnused(ops, existing, used, Substring, d);
          if contains.Some? {
            mapped := mapped + [contains.value];
            used := used + {contains.value};
          }
        }
      }
      i := i + 1;
    }
  }

  /** The closing loop: every title not yet mapped goes last, in order. */
  method AppendRest(existing: seq<string>, mapped0: seq<string>) returns (mapped: seq<string>)
    ensures mapped == Rest(existing, mapped0, 0)
  {
    mapped := mapped0;
    var j := 0;
    while j < |existing|
      invariant 0 <= j <= |existing|
      invariant Rest(existing, mapped, j) == Rest(existing, mapped0, 0)
    {
      if existing[j] !in mapped {
        mapped := mapped + [existing[j]];
      }
      j := j + 1;
    }
  }

  /** The title mapping of `_reorder_excel_sheets_robust`: the fixed prefixes, then the title
      each desired deck claims, then every title not yet mapped. */
  method ReorderTitles(ops: TextOps, existing: seq<string>, desired: seq<string>) returns (mapped: seq<string>)
    ensures mapped == Reordered(ops, existing, desired)
  {
    var used: set<string> := {};
    mapped := [];
    if LegendTitle in existing {
      mapped := mapped + [LegendTitle];
      used := used + {LegendTitle};
    }
    if SummaryTitle in existing {
      mapped := mapped + [SummaryTitle];
      used := used + {SummaryTitle};
    }
    assert Mapping(mapped, used) == Prefixes(existing);
    var ds := SanitizedAll(desired);
    mapped, used := ClaimTitles(ops, existing, mapped, used, ds);
    mapped := AppendRest(existing, mapped);
  }

  /** A mapping in progress: no title twice, `used` holds exactly the mapped titles, and
      every mapped title exists. */
  ghost predicate MappingOk(existing: seq<string>, st: Mapping)
  {
    Distinct(st.mapped) && (forall t :: t in st.used <==> t in st.mapped) &&
    (forall t :: t in st.mapped ==> t in existing)
  }

  /** A claim appends at most one title and keeps the mapping sound. */
  lemma {:induction false} ClaimStepOk(ops: TextOps, existing: seq<string>, st: Mapping, d: string)
    requires MappingOk(existing, st)
    ensures var r := ClaimStep(ops, existing, st, d);
      MappingOk(existing, r) && st.mapped <= r.mapped && |r.mapped| <= |st.mapped| + 1
  {
    var c := Claim(ops, existing, st.used, d);
    if c.Some? {
      var r := ClaimStep(ops, existing, st, d);
      assert r.mapped == st.mapped + [c.value];
      assert c.value !in st.mapped;
    }
  }

  /** The claims keep the mapping sound, extend it, and add at most one title per deck. */
  lemma {:induction false} ClaimsOk(ops: TextOps, existing: seq<string>, st: Mapping, ds: seq<string>, i: nat)
    requires i <= |ds| && MappingOk(existing, st)
    ensures var r := Claims(ops, existing, st, ds, i);
      MappingOk(existing, r) && st.mapped <= r.mapped && |r.mapped| <= |st.mapped| + (|ds| - i)
    decreases |ds| - i
  {
    if i < |ds| {
      ClaimStepOk(ops, existing, st, ds[i]);
      ClaimsOk(ops, existing, ClaimStep(ops, existing, st, ds[i]), ds, i + 1);
    }
  }

  /** The fixed prefixes come in order: the legend, then the summary, each when present. */
  lemma {:induction false} PrefixesOk(existing: seq<string>)
    ensures MappingOk(existing, Prefixes(existing))
    ensures Prefixes(existing).mapped ==
      (if LegendTitle in existing then [LegendTitle] else []) + (if SummaryTitle in existing then [SummaryTitle] else [])
  {
    assert LegendTitle[1] != SummaryTitle[1];
  }

  /** Appending the rest keeps the titles distinct, keeps the mapped ones first and adds
      exactly the titles from position j on. */
  lemma {:induction false} RestSpec(existing: seq<string>, m: seq<string>, j: nat)
    requires j <= |existing| && Distinct(m)
    ensures var r := Rest(existing, m, j);
      Distinct(r) && m <= r && (forall t :: t in r <==> t in m || t in existing[j..])
  {
    RestDistinct(existing, m, j);
    RestExtends(existing, m, j);
    RestMembers(existing, m, j);
  }

  lemma {:induction false} RestDistinct(existing: seq<string>, m: seq<string>, j: nat)
    requires j <= |existing| && Distinct(m)
    ensures Distinct(Rest(existing, m, j))
    decreases |existing| - j
  {
    if j < |existing| {
      var x := existing[j];
      if x !in m {
        DistinctSnoc(m, x);
      }
      RestDistinct(existing, if x in m then m else m + [x], j + 1);
    }
  }

  lemma {:induction false} RestExtends(existing: seq<string>, m: seq<string>, j: nat)
    requires j <= |existing|
    ensures m <= Rest(existing, m, j)
    decreases |existing| - j
  {
    if j < |existing| {
      var x := existing[j];
      var m' := if x in m then m else m + [x];
      RestExtends(existing, m', j + 1);
      var r := Rest(existing, m', j + 1);
      assert m' <= r;
      assert r[..|m|] == m' [..|m|] == m;
    }
  }

  lemma {:induction false} RestMembers(existing: seq<string>, m: seq<string>, j: nat)
    requires j <= |existing|
    ensures forall t :: t in Rest(existing, m, j) <==> t in m || t in existing[j..]
    decreases |existing| - j
  {
    if j < |existing| {
      var x := existing[j];
      var m' := if x in m then m else m + [x];
      RestMembers(existing, m', j + 1);
      assert existing[j..] == [x] + existing[j + 1..];
      assert forall t :: t in m' <==> t in m || t == x;
    }
  }

  /** The reordered titles are the existing ones, each once. */
  lemma {:induction false} ReorderTitlesOnce(ops: TextOps, existing: seq<string>, desired: seq<string>)
    ensures var r := Reordered(ops, existing, desired);
      Distinct(r) && forall t :: t in r <==> t in existing
  {
    var st := Claims(ops, existing, Prefixes(existing), SanitizedAll(desired), 0);
    PrefixesOk(existing);
    ClaimsOk(ops, existing, Prefixes(existing), SanitizedAll(desired), 0);
    RestSpec(existing, st.mapped, 0);
    assert existing[0..] == existing;
  }

  /** A sequence without repeats holds each of its elements once. */
  lemma {:induction false} DistinctOnce(s: seq<string>)
    requires Distinct(s)
    ensures forall t :: multiset(s)[t] == if t in s then 1 else 0
  {
    assert DistinctBy(s, (x: string) => x);
    DistinctByOnce(s, (x: string) => x);
  }

  /** With distinct existing titles (as a workbook has) the reordering is a permutation. */
  lemma {:induction false} ReorderPermutation(ops: TextOps, existing: seq<string>, desired: seq<string>)
    requires Distinct(existing)
    ensures multiset(Reordered(ops, existing, desired)) == multiset(existing)
    ensures |Reordered(ops, existing, desired)| == |existing|
  {
    var r := Reordered(ops, existing, desired);
    ReorderTitlesOnce(ops, existing, desired);
    DistinctOnce(r);
    DistinctOnce(existing);
    assert multiset(r) == multiset(existing);
    assert |multiset(r)| == |multiset(existing)|;
  }

  /** The legend comes first and the summary next, when present; then the claimed titles,
      at most one per desired deck; then titles no deck claimed. */
  lemma {:induction false} ReorderLayout(ops: TextOps, existing: seq<string>, desired: seq<string>)
    ensures var r := Reordered(ops, existing, desired);
      var p := Prefixes(existing).mapped;
      var c := Claims(ops, existing, Prefixes(existing), SanitizedAll(desired), 0).mapped;
      p <= c <= r && |c| <= |p| + |desired| &&
      (LegendTitle in existing ==> r[0] == LegendTitle) &&
      (SummaryTitle in existing ==> r[if LegendTitle in existing then 1 else 0] == SummaryTitle) &&
      forall k :: |c| <= k < |r| ==> r[k] !in c
  {
    var p := Prefixes(existing);
    var ds := SanitizedAll(desired);
    var c := Claims(ops, existing, p, ds, 0).mapped;
    PrefixesOk(existing);
    ClaimsOk(ops, existing, p, ds, 0);
    RestSpec(existing, c, 0);
    var r := Reordered(ops, existing, desired);
    assert r[..|p.mapped|] == p.mapped;
  }
}

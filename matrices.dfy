/** The deck-axis matrices built from the flat directional rows: the W, L and T count
    matrices, the win-rate matrix, the decisive-game matrix and the post-alias top-meta
    share table. */
module Matrices {
  import opened Wrappers
  import opened Numeric
  import opened Matrix
  import opened Text
  import opened Table
  import opened Sorting
  import opened Grouping
  import opened Symmetry
  import opened Normalize

  // ---- build_matrices ----

  /** The count column summed by a pivot. */
  datatype Field = FW | FL | FT

  function Get(c: Counts, f: Field): int
  {
    match f
    case FW => c.w
    case FL => c.l
    case FT => c.t
  }

  /** `pivot_table(..., aggfunc="sum", fill_value=0)` at (a, b): the sum over the rows of
      that direction, 0 when there is none. */
  function PairSum(rows: seq<Counts>, a: string, b: string, f: Field): int
  {
    if rows == [] then 0
    else
      var x := rows[|rows| - 1];
      PairSum(rows[..|rows| - 1], a, b, f) + (if x.a == a && x.b == b then Get(x, f) else 0)
  }

  /** A direction absent from the rows sums to 0; non-negative counts give a non-negative sum. */
  lemma {:induction false} PairSumBasics(rows: seq<Counts>, a: string, b: string, f: Field)
    ensures (forall x :: x in rows ==> ABKey(x) != (a, b)) ==> PairSum(rows, a, b, f) == 0
    ensures (forall x :: x in rows ==> Get(x, f) >= 0) ==> PairSum(rows, a, b, f) >= 0
  {
    if rows != [] {
      var front := rows[..|rows| - 1];
      assert forall x :: x in front ==> x in rows;
      PairSumBasics(front, a, b, f);
      assert rows[|rows| - 1] in rows;
    }
  }

  /** With one row per direction, the sum at a present direction is that row's count. */
  lemma {:induction false} PairSumUnique(rows: seq<Counts>, x: Counts, f: Field)
    requires DistinctBy(rows, ABKey) && x in rows
    ensures PairSum(rows, x.a, x.b, f) == Get(x, f)
  {
    var front, y := rows[..|rows| - 1], rows[|rows| - 1];
    assert rows == front + [y];
    DistinctByFront(rows, ABKey);
    assert PairSum(rows, x.a, x.b, f) == PairSum(front, x.a, x.b, f) + (if y.a == x.a && y.b == x.b then Get(y, f) else 0);
    if y == x {
      PairSumBasics(front, x.a, x.b, f);
    } else {
      assert x in front;
      PairSumUnique(front, x, f);
    }
  }

  /** `df[df["Deck A"].isin(axis) & df["Deck B"].isin(axis)]`, in order. */
  function OnAxisRows(rows: seq<Counts>, keep: set<string>): (r: seq<Counts>)
    ensures forall x :: x in r <==> x in rows && x.a in keep && x.b in keep
  {
    if rows == [] then []
    else
      var front, x := rows[..|rows| - 1], rows[|rows| - 1];
      assert forall y :: y in rows <==> y in front || y == x;
      OnAxisRows(front, keep) + (if x.a in keep && x.b in keep then [x] else [])
  }

  /** Dropping the rows with a deck outside the axis changes no sum on the axis. */
  lemma {:induction false} PairSumOnAxis(rows: seq<Counts>, keep: set<string>, a: string, b: string, f: Field)
    requires a in keep && b in keep
    ensures PairSum(OnAxisRows(rows, keep), a, b, f) == PairSum(rows, a, b, f)
  {
    if rows != [] {
      var front, x := rows[..|rows| - 1], rows[|rows| - 1];
      PairSumOnAxis(front, keep, a, b, f);
      var s := OnAxisRows(front, keep);
      assert PairSum(rows, a, b, f) == PairSum(front, a, b, f) + (if x.a == a && x.b == b then Get(x, f) else 0);
      if x.a in keep && x.b in keep {
        var t := s + [x];
        assert OnAxisRows(rows, keep) == t;
        assert t[..|t| - 1] == s && t[|t| - 1] == x;
        assert PairSum(t, a, b, f) == PairSum(s, a, b, f) + (if x.a == a && x.b == b then Get(x, f) else 0);
      } else {
        assert OnAxisRows(rows, keep) == s;
        assert x.a != a || x.b != b;
      }
    }
  }

  /** A pivoted count matrix on the axis (`reindex(index=axis, columns=axis, fill_value=0)`). */
  function Pivot(rows: seq<Counts>, axis: seq<string>, f: Field): (m: seq<seq<int>>)
    ensures |m| == |axis| && forall i :: 0 <= i < |axis| ==> |m[i]| == |axis|
    ensures forall i, j :: 0 <= i < |axis| && 0 <= j < |axis| ==> m[i][j] == PairSum(rows, axis[i], axis[j], f)
  {
    seq(|axis|, i requires 0 <= i < |axis| => seq(|axis|, j requires 0 <= j < |axis| => PairSum(rows, axis[i], axis[j], f)))
  }

  /** Win rate of the "half" mode: ties count as half a win. */
  function HalfShare(w: int, l: int, t: int): real
    requires w + l + t > 0
  {
    100.0 * (w as real + 0.5 * t as real) / (w + l + t) as real
  }

  /** One off-diagonal win-rate cell, rounded to 2 decimals: W / (W + L) in mode "exclude",
      (W + T/2) / (W + L + T) in mode "half"; undefined when the denominator is not positive. */
  function WrCell(w: int, l: int, t: int, half: bool): (r: Option<real>)
    ensures !half ==> (r.Some? <==> w + l > 0)
    ensures half ==> (r.Some? <==> w + l + t > 0)
    ensures !half && w + l > 0 ==> r == Some(DirWinrate(w, l, 2))
    ensures half && w + l + t > 0 ==> Abs(r.value - HalfShare(w, l, t)) <= 0.5 / Pow10(2) as real
    ensures w >= 0 && l >= 0 && t >= 0 && r.Some? ==> 0.0 <= r.value <= 100.0
  {
    if half then
      if w + l + t > 0 then
        var x := HalfShare(w, l, t);
        if w >= 0 && l >= 0 && t >= 0 then
          PercentWithin(w as real + 0.5 * t as real, (w + l + t) as real);
          RoundToWithin(x, 2, 0, 100);
          Some(RoundTo(x, 2))
        else Some(RoundTo(x, 2))
      else None
    else if w + l > 0 then Some(DirWinrate(w, l, 2)) else None
  }

  /** The diagonal: undefined without a mirror value, else that value rounded. */
  function DiagCell(mirror: Option<real>): Option<real>
  {
    if mirror.None? then None else Some(RoundTo(mirror.value, 2))
  }

  /** The win-rate matrix from the count matrices. */
  function WrMatrix(w: seq<seq<int>>, l: seq<seq<int>>, t: seq<seq<int>>, n: nat, half: bool, mirror: Option<real>): (m: Mat)
    requires |w| == n && |l| == n && |t| == n
    requires forall i :: 0 <= i < n ==> |w[i]| == n && |l[i]| == n && |t[i]| == n
    ensures IsSquare(m, n)
    ensures forall i :: 0 <= i < n ==> m[i][i] == DiagCell(mirror)
    ensures forall i, j :: 0 <= i < n && 0 <= j < n && i != j ==> m[i][j] == WrCell(w[i][j], l[i][j], t[i][j], half)
  {
    seq(n, i requires 0 <= i < n => seq(n, j requires 0 <= j < n =>
      if i == j then DiagCell(mirror) else WrCell(w[i][j], l[i][j], t[i][j], half)))
  }

  datatype Matrices = Matrices(w: seq<seq<int>>, l: seq<seq<int>>, t: seq<seq<int>>, wr: Mat)

  /** The four matrices are n by n. */
  predicate Shaped(m: Matrices, n: nat)
  {
    && |m.w| == n && |m.l| == n && |m.t| == n && IsSquare(m.wr, n)
    && forall i :: 0 <= i < n ==> |m.w[i]| == n && |m.l[i]| == n && |m.t[i]| == n
  }

  /** The decks of the axis as a set. */
  function AxisSet(axis: seq<string>): (k: set<string>)
    ensures forall x :: x in k <==> x in axis
  {
    set x | x in axis
  }

  /** `build_matrices`: an empty axis raises; otherwise the rows on the axis are pivoted
      into W, L and T, and WR is computed cell by cell in the given mode. */
  function BuildMatrices(rows: seq<Counts>, axis: seq<string>, mode: string, mirror: Option<real>): (r: Result<Matrices>)
    ensures r.Failure? <==> axis == []
    ensures r.Success? ==> Shaped(r.value, |axis|)
  {
    if axis == [] then Failure("RuntimeError")
    else
      var kept := OnAxisRows(rows, AxisSet(axis));
      var w, l, t := Pivot(kept, axis, FW), Pivot(kept, axis, FL), Pivot(kept, axis, FT);
      Success(Matrices(w, l, t, WrMatrix(w, l, t, |axis|, mode == "half", mirror)))
  }

  /** The count matrices are the per-direction sums over all the rows, so rows with a deck
      off the axis are ignored, and a direction without rows is 0. */
  lemma {:induction false} BuildMatricesCounts(rows: seq<Counts>, axis: seq<string>, mode: string, mirror: Option<real>)
    requires axis != []
    ensures var m := BuildMatrices(rows, axis, mode, mirror).value;
      forall i, j :: 0 <= i < |axis| && 0 <= j < |axis| ==>
        && m.w[i][j] == PairSum(rows, axis[i], axis[j], FW)
        && m.l[i][j] == PairSum(rows, axis[i], axis[j], FL)
        && m.t[i][j] == PairSum(rows, axis[i], axis[j], FT)
  {
    var keep := AxisSet(axis);
    forall i, j, f | 0 <= i < |axis| && 0 <= j < |axis|
      ensures PairSum(OnAxisRows(rows, keep), axis[i], axis[j], f) == PairSum(rows, axis[i], axis[j], f)
    {
      PairSumOnAxis(rows, keep, axis[i], axis[j], f);
    }
  }

  /** The win-rate cells: the diagonal is the mirror value, and an off-diagonal cell is
      defined exactly when its denominator is positive. */
  lemma {:induction false} BuildMatricesWrDefined(rows: seq<Counts>, axis: seq<string>, mode: string, mirror: Option<real>)
    requires axis != []
    ensures var m := BuildMatrices(rows, axis, mode, mirror).value;
      && (forall i :: 0 <= i < |axis| ==> m.wr[i][i] == DiagCell(mirror))
      && (forall i, j :: 0 <= i < |axis| && 0 <= j < |axis| && i != j ==>
            (m.wr[i][j].Some? <==> (if mode == "half" then m.w[i][j] + m.l[i][j] + m.t[i][j] else m.w[i][j] + m.l[i][j]) > 0))
  {
    var m := BuildMatrices(rows, axis, mode, mirror).value;
    assert m.wr == WrMatrix(m.w, m.l, m.t, |axis|, mode == "half", mirror);
  }

  /** Non-negative rows give non-negative count matrices. */
  lemma {:induction false} BuildMatricesNonNeg(rows: seq<Counts>, axis: seq<string>, mode: string, mirror: Option<real>)
    requires axis != [] && forall x :: x in rows ==> x.w >= 0 && x.l >= 0 && x.t >= 0
    ensures var m := BuildMatrices(rows, axis, mode, mirror).value;
      forall i, j :: 0 <= i < |axis| && 0 <= j < |axis| ==> m.w[i][j] >= 0 && m.l[i][j] >= 0 && m.t[i][j] >= 0
  {
    BuildMatricesCounts(rows, axis, mode, mirror);
    forall i, j | 0 <= i < |axis| && 0 <= j < |axis|
      ensures PairSum(rows, axis[i], axis[j], FW) >= 0 && PairSum(rows, axis[i], axis[j], FL) >= 0 && PairSum(rows, axis[i], axis[j], FT) >= 0
    {
      PairSumBasics(rows, axis[i], axis[j], FW);
      PairSumBasics(rows, axis[i], axis[j], FL);
      PairSumBasics(rows, axis[i], axis[j], FT);
    }
  }

  /** With non-negative counts every defined off-diagonal win rate lies in [0, 100]. */
  lemma {:induction false} BuildMatricesWrBounds(rows: seq<Counts>, axis: seq<string>, mode: string, mirror: Option<real>)
    requires axis != [] && forall x :: x in rows ==> x.w >= 0 && x.l >= 0 && x.t >= 0
    ensures var m := BuildMatrices(rows, axis, mode, mirror).value;
      forall i, j :: 0 <= i < |axis| && 0 <= j < |axis| && i != j && m.wr[i][j].Some? ==> 0.0 <= m.wr[i][j].value <= 100.0
  {
    var m := BuildMatrices(rows, axis, mode, mirror).value;
    assert m.wr == WrMatrix(m.w, m.l, m.t, |axis|, mode == "half", mirror);
    BuildMatricesNonNeg(rows, axis, mode, mirror);
  }

  /** A direction-symmetric table pivots into mirrored matrices: W at (b, a) is L at (a, b). */
  lemma {:induction false} PairSumMirrored(rows: seq<Counts>, a: string, b: string)
    requires Symmetric(rows)
    ensures PairSum(rows, b, a, FW) == PairSum(rows, a, b, FL)
    ensures PairSum(rows, b, a, FL) == PairSum(rows, a, b, FW)
  {
    if x :| x in rows && ABKey(x) == (a, b) {
      assert Mirror(x) in rows;
      PairSumUnique(rows, x, FW);
      PairSumUnique(rows, x, FL);
      PairSumUnique(rows, Mirror(x), FW);
      PairSumUnique(rows, Mirror(x), FL);
    } else {
      assert forall y :: y in rows ==> ABKey(y) != (b, a) by {
        forall y | y in rows ensures ABKey(y) != (b, a) {
          assert Mirror(y) in rows;
        }
      }
      PairSumBasics(rows, a, b, FW);
      PairSumBasics(rows, a, b, FL);
      PairSumBasics(rows, b, a, FW);
      PairSumBasics(rows, b, a, FL);
    }
  }

  /** On a direction-symmetric table in mode "exclude", the two directions' win rates of
      every observed pair add up to 100 within one rounding step. */
  lemma {:induction false} BuildMatricesMirror(rows: seq<Counts>, axis: seq<string>, mirror: Option<real>, i: nat, j: nat)
    requires Symmetric(rows) && axis != [] && i < |axis| && j < |axis| && i != j
    ensures var m := BuildMatrices(rows, axis, "exclude", mirror).value;
      && (m.wr[i][j].Some? <==> m.wr[j][i].Some?)
      && (m.wr[i][j].Some? ==> Abs(m.wr[i][j].value + m.wr[j][i].value - 100.0) <= 1.0 / Pow10(2) as real)
  {
    var m := BuildMatrices(rows, axis, "exclude", mirror).value;
    BuildMatricesCounts(rows, axis, "exclude", mirror);
    PairSumMirrored(rows, axis[i], axis[j]);
    assert "exclude" != "half";
    if m.w[i][j] + m.l[i][j] > 0 {
      DirWinrateMirror(m.w[i][j], m.l[i][j], 2);
    }
  }

  // ---- n_dir_from_WL ----

  /** `n_dir_from_WL`: W + L off the diagonal, an undefined diagonal. */
  function NDirFromWL(w: seq<seq<int>>, l: seq<seq<int>>, n: nat): (m: Mat)
    requires |w| == n && |l| == n && forall i :: 0 <= i < n ==> |w[i]| == n && |l[i]| == n
    ensures IsSquare(m, n) && DiagAllUndefined(m)
    ensures forall i, j :: 0 <= i < n && 0 <= j < n && i != j ==> m[i][j] == Some((w[i][j] + l[i][j]) as real)
  {
    seq(n, i requires 0 <= i < n => seq(n, j requires 0 <= j < n =>
      if i == j then None else Some((w[i][j] + l[i][j]) as real)))
  }

  /** With direction-mirrored W and L (W at (j, i) is L at (i, j)) the decisive-game
      matrix is symmetric. */
  lemma {:induction false} NDirSymmetric(w: seq<seq<int>>, l: seq<seq<int>>, n: nat)
    requires |w| == n && |l| == n && forall i :: 0 <= i < n ==> |w[i]| == n && |l[i]| == n
    requires forall i, j :: 0 <= i < n && 0 <= j < n ==> w[j][i] == l[i][j]
    ensures forall i, j :: 0 <= i < n && 0 <= j < n ==> NDirFromWL(w, l, n)[i][j] == NDirFromWL(w, l, n)[j][i]
  {
    var m := NDirFromWL(w, l, n);
    forall i, j | 0 <= i < n && 0 <= j < n ensures m[i][j] == m[j][i] {
      if i != j {
        assert w[j][i] == l[i][j] && w[i][j] == l[j][i];
      }
    }
  }

  /** The matrices of a direction-symmetric table give a symmetric decisive-game matrix. */
  lemma {:induction false} BuildMatricesNDirSymmetric(rows: seq<Counts>, axis: seq<string>, mode: string, mirror: Option<real>)
    requires Symmetric(rows) && axis != []
    ensures var m := BuildMatrices(rows, axis, mode, mirror).value;
      forall i, j :: 0 <= i < |axis| && 0 <= j < |axis| ==>
        NDirFromWL(m.w, m.l, |axis|)[i][j] == NDirFromWL(m.w, m.l, |axis|)[j][i]
  {
    var m := BuildMatrices(rows, axis, mode, mirror).value;
    BuildMatricesCounts(rows, axis, mode, mirror);
    forall i, j | 0 <= i < |axis| && 0 <= j < |axis| ensures m.w[j][i] == m.l[i][j] {
      PairSumMirrored(rows, axis[i], axis[j]);
    }
    NDirSymmetric(m.w, m.l, |axis|);
  }

  // ---- topmeta_post_alias ----

  /** One row of the post-alias top-meta table: the canonical deck, its share as a
      fraction and as a percentage. */
  datatype TopMetaRow = TopMetaRow(deck: string, frac: real, pct: real)

  /** The column names as the lookups compare them: `str(c).strip().lower()`. */
  function LowNames(ops: TextOps, f: Frame): (r: seq<string>)
    ensures |r| == |f.cols| && forall c :: 0 <= c < |f.cols| ==> r[c] == ops.lower(Strip(f.cols[c].name))
  {
    seq(|f.cols|, c requires 0 <= c < |f.cols| => ops.lower(Strip(f.cols[c].name)))
  }

  predicate IsDeckName(s: string) { s == "deck" || s == "archetype" || s == "name" }

  /** The first column whose name is a deck name. */
  function DeckNameCol(lows: seq<string>, from: nat := 0): (r: Option<nat>)
    requires from <= |lows|
    ensures r.Some? ==> (from <= r.value < |lows| && IsDeckName(lows[r.value]) &&
                         forall c :: from <= c < r.value ==> !IsDeckName(lows[c]))
    ensures r.None? ==> forall c :: from <= c < |lows| ==> !IsDeckName(lows[c])
    decreases |lows| - from
  {
    if from == |lows| then None
    else if IsDeckName(lows[from]) then Some(from)
    else DeckNameCol(lows, from + 1)
  }

  /** The first column of object (non-numeric) dtype. */
  function FirstObject(f: Frame, from: nat := 0): (r: Option<nat>)
    requires from <= |f.cols|
    ensures r.Some? ==> (from <= r.value < |f.cols| && !f.cols[r.value].isNumeric &&
                         forall c :: from <= c < r.value ==> f.cols[c].isNumeric)
    ensures r.None? ==> forall c :: from <= c < |f.cols| ==> f.cols[c].isNumeric
    decreases |f.cols| - from
  {
    if from == |f.cols| then None
    else if !f.cols[from].isNumeric then Some(from)
    else FirstObject(f, from + 1)
  }

  /** `lowmap[k]`: the dictionary keeps the last column whose lowered name is k. */
  function LastLow(lows: seq<string>, k: string, upto: nat): (r: Option<nat>)
    requires upto <= |lows|
    ensures r.Some? ==> (r.value < upto && lows[r.value] == k &&
                         forall c :: r.value < c < upto ==> lows[c] != k)
    ensures r.None? ==> forall c :: 0 <= c < upto ==> lows[c] != k
  {
    if upto == 0 then None
    else if lows[upto - 1] == k then Some(upto - 1)
    else LastLow(lows, k, upto - 1)
  }

  /** The share column names, in order of preference. */
  const ShareNames: seq<string> := ["share", "share_%", "usage_%", "share frac", "share_frac"]

  /** The first preferred name that some column has, as the last column of that name. */
  function ShareNameCol(lows: seq<string>, names: seq<string>): (r: Option<nat>)
    ensures r.Some? ==> exists i :: (0 <= i < |names| && r.value < |lows| && lows[r.value] == names[i] &&
      (forall c :: r.value < c < |lows| ==> lows[c] != names[i]) &&
      (forall i', c :: 0 <= i' < i && 0 <= c < |lows| ==> lows[c] != names[i']))
    ensures r.None? ==> forall i, c :: 0 <= i < |names| && 0 <= c < |lows| ==> lows[c] != names[i]
  {
    if names == [] then None
    else
      var c := LastLow(lows, names[0], |lows|);
      if c.Some? then c
      else
        var r := ShareNameCol(lows, names[1..]);
        assert forall i :: 1 <= i < |names| ==> names[i] == names[1..][i - 1];
        if r.Some? then
          var i :| (0 <= i < |names[1..]| && r.value < |lows| && lows[r.value] == names[1..][i] &&
            (forall c :: r.value < c < |lows| ==> lows[c] != names[1..][i]) &&
            (forall i', c :: 0 <= i' < i && 0 <= c < |lows| ==> lows[c] != names[1..][i']));
          assert lows[r.value] == names[i + 1];
          r
        else r
  }

  /** The deck column: a named one, else the first object column. */
  function DeckCol(ops: TextOps, f: Frame): Option<nat>
  {
    var lows := LowNames(ops, f);
    if DeckNameCol(lows).Some? then DeckNameCol(lows) else FirstObject(f)
  }

  /** The share column: a named one, else the first numeric column. */
  function ShareCol(ops: TextOps, f: Frame): Option<nat>
  {
    var lows := LowNames(ops, f);
    if ShareNameCol(lows, ShareNames).Some? then ShareNameCol(lows, ShareNames) else FirstNumeric(f)
  }

  /** The deck and share columns; a missing one raises. Picking one column for both makes
      the later rename lose "Deck_raw", which raises too. */
  function MetaColumns(ops: TextOps, f: Frame): (r: Result<(nat, nat)>)
    ensures r.Success? ==> (r.value.0 < |f.cols| && r.value.1 < |f.cols| && r.value.0 != r.value.1
                            && Some(r.value.0) == DeckCol(ops, f) && Some(r.value.1) == ShareCol(ops, f))
    ensures r.Failure? <==> DeckCol(ops, f).None? || ShareCol(ops, f).None? || DeckCol(ops, f) == ShareCol(ops, f)
  {
    var d := DeckCol(ops, f);
    var s := ShareCol(ops, f);
    if d.None? || s.None? || d.value == s.value then Failure("KeyError")
    else Success((d.value, s.value))
  }

  /** `Share_frac`: a share above 1 is read as a percentage, and the result is clipped to [0, 1]. */
  function ShareFrac(x: real): (r: real)
    ensures 0.0 <= r <= 1.0
    ensures 0.0 <= x <= 1.0 ==> r == x
    ensures 1.0 < x <= 100.0 ==> r == x / 100.0
    ensures x > 100.0 ==> r == 1.0
    ensures x < 0.0 ==> r == 0.0
  {
    Clip(if x <= 1.0 then x else x / 100.0, 0.0, 1.0)
  }

  /** One row as (canonical deck, share fraction): the deck text stripped and aliased, the
      share parsed with an unparsable value as 0. */
  function MetaPair(norm: string -> string, idx: map<string, string>, f: Frame, dc: nat, sc: nat, r: nat): (p: (string, real))
    requires WellFormed(f) && dc < |f.cols| && sc < |f.cols| && r < f.nrows
    ensures 0.0 <= p.1 <= 1.0
  {
    (ApplyAlias(norm, idx, Strip(f.cols[dc].cells[r].text)), ShareFrac(f.cols[sc].cells[r].num.GetOr(0.0)))
  }

  /** The rows of the table as (canonical deck, share fraction) pairs. */
  function MetaPairs(norm: string -> string, idx: map<string, string>, f: Frame, dc: nat, sc: nat): (s: seq<(string, real)>)
    requires WellFormed(f) && dc < |f.cols| && sc < |f.cols|
    ensures |s| == f.nrows && forall r :: 0 <= r < f.nrows ==> s[r] == MetaPair(norm, idx, f, dc, sc, r)
  {
    seq(f.nrows, r requires 0 <= r < f.nrows => MetaPair(norm, idx, f, dc, sc, r))
  }

  function DeckOf(p: (string, real)): string { p.0 }

  /** The total share of one deck (`groupby("Deck")["Share_frac"].sum()`). */
  function DeckTotal(s: seq<(string, real)>, k: string): real
  {
    if s == [] then 0.0
    else DeckTotal(s[..|s| - 1], k) + (if s[|s| - 1].0 == k then s[|s| - 1].1 else 0.0)
  }

  lemma {:induction false} DeckTotalNonNeg(s: seq<(string, real)>, k: string)
    requires forall i :: 0 <= i < |s| ==> s[i].1 >= 0.0
    ensures DeckTotal(s, k) >= 0.0
  {
    if s != [] {
      DeckTotalNonNeg(s[..|s| - 1], k);
    }
  }

  predicate StrLe(a: string, b: string) { LessEq(a, b) }

  lemma {:induction false} StrLeTotalPreorder()
    ensures TotalPreorder(StrLe)
  {
    forall a: string, b: string ensures StrLe(a, b) || StrLe(b, a) {
      LessEqTotal(a, b);
    }
    forall a: string, b: string, c: string | StrLe(a, b) && StrLe(b, c) ensures StrLe(a, c) {
      LessEqTransitive(a, b, c);
    }
  }

  /** `sort_values("Share_frac", ascending=False)`. */
  predicate FracGe(x: TopMetaRow, y: TopMetaRow) { x.frac >= y.frac }

  lemma {:induction false} FracGeTotalPreorder()
    ensures TotalPreorder(FracGe)
  {
  }

  /** The decks, in the sorted order of `groupby`. */
  function MetaDecks(s: seq<(string, real)>): seq<string>
  {
    Sort(Keys(s, DeckOf), StrLe)
  }

  /** One row per deck with its total share. */
  function Aggregated(s: seq<(string, real)>): (r: seq<TopMetaRow>)
    ensures |r| == |MetaDecks(s)|
    ensures forall i :: 0 <= i < |r| ==>
              (r[i].deck == MetaDecks(s)[i] && r[i].frac == DeckTotal(s, r[i].deck) && r[i].pct == RoundTo(r[i].frac * 100.0, 2))
  {
    var ks := MetaDecks(s);
    seq(|ks|, i requires 0 <= i < |ks| => DeckRow(s, ks[i]))
  }

  /** The row of deck k: its total share and that share in percent to two places. */
  function DeckRow(s: seq<(string, real)>, k: string): (r: TopMetaRow)
    ensures r.deck == k && r.frac == DeckTotal(s, k) && r.pct == RoundTo(r.frac * 100.0, 2)
  {
    var f := DeckTotal(s, k);
    TopMetaRow(k, f, RoundTo(f * 100.0, 2))
  }

  function TopDeck(r: TopMetaRow): string { r.deck }

  /** `topmeta_post_alias`: empty for no table or an empty one; a missing deck or share
      column raises; otherwise the aliased decks with their summed share fractions, the
      largest first. */
  function TopMetaPostAlias(ops: TextOps, norm: string -> string, idx: map<string, string>, t: Option<Frame>): (r: Result<seq<TopMetaRow>>)
    requires t.Some? ==> WellFormed(t.value)
    ensures t.None? || IsEmpty(t.value) ==> r == Success([])
    ensures r.Failure? <==> t.Some? && !IsEmpty(t.value) && MetaColumns(ops, t.value).Failure?
    ensures r.Success? && t.Some? && !IsEmpty(t.value) ==>
      var (dc, sc) := MetaColumns(ops, t.value).value;
      var s := MetaPairs(norm, idx, t.value, dc, sc);
      (forall i :: 0 <= i < |s| ==> 0.0 <= s[i].1 <= 1.0) && r.value == TopMetaOf(s)
  {
    if t.None? || IsEmpty(t.value) then Success([])
    else
      var cols := MetaColumns(ops, t.value);
      if cols.Failure? then Failure(cols.error)
      else
        MetaPairsInUnit(norm, idx, t.value, cols.value.0, cols.value.1);
        Success(TopMetaOf(MetaPairs(norm, idx, t.value, cols.value.0, cols.value.1)))
  }

  /** Every share fraction of the rows lies in [0, 1]. */
  lemma {:induction false} MetaPairsInUnit(norm: string -> string, idx: map<string, string>, f: Frame, dc: nat, sc: nat)
    requires WellFormed(f) && dc < |f.cols| && sc < |f.cols|
    ensures var s := MetaPairs(norm, idx, f, dc, sc); forall i :: 0 <= i < |s| ==> 0.0 <= s[i].1 <= 1.0
  {
    var s := MetaPairs(norm, idx, f, dc, sc);
    forall i | 0 <= i < |s| ensures 0.0 <= s[i].1 <= 1.0 {
      assert s[i] == MetaPair(norm, idx, f, dc, sc, i);
    }
  }

  /** The sorted decks are distinct and are exactly the decks of the rows. */
  lemma {:induction false} MetaDecksSpec(s: seq<(string, real)>)
    ensures Distinct(MetaDecks(s))
    ensures forall k :: k in MetaDecks(s) <==> exists i :: 0 <= i < |s| && s[i].0 == k
  {
    var ks := Keys(s, DeckOf);
    KeysSpec(s, DeckOf);
    StrLeTotalPreorder();
    var sorted := Sort(ks, StrLe);
    assert forall k :: k in ks <==> k in sorted by {
      assert forall k :: k in ks <==> k in multiset(ks);
      assert forall k :: k in sorted <==> k in multiset(sorted);
    }
    assert DistinctBy(ks, Ident) by {
      forall i, j | 0 <= i < j < |ks| ensures Ident(ks[i]) != Ident(ks[j]) {
      }
    }
    DistinctByPermutation(ks, sorted, Ident);
    forall i, j | 0 <= i < j < |sorted| ensures sorted[i] != sorted[j] {
      assert Ident(sorted[i]) != Ident(sorted[j]);
    }
    forall k | k in sorted ensures exists i :: 0 <= i < |s| && s[i].0 == k {
      assert k in ks;
    }
    forall k | (exists i :: 0 <= i < |s| && s[i].0 == k) ensures k in sorted {
      var i :| 0 <= i < |s| && s[i].0 == k;
      assert DeckOf(s[i]) in ks;
    }
  }

  /** The aggregated rows have one row per deck of the input, and only those. */
  lemma {:induction false} AggregatedDecks(s: seq<(string, real)>)
    ensures DistinctBy(Aggregated(s), TopDeck)
    ensures forall x :: x in Aggregated(s) ==> exists i :: 0 <= i < |s| && s[i].0 == x.deck
    ensures forall i :: 0 <= i < |s| ==> exists x :: x in Aggregated(s) && x.deck == s[i].0
  {
    var ds := MetaDecks(s);
    var a := Aggregated(s);
    MetaDecksSpec(s);
    assert forall i :: 0 <= i < |a| ==> TopDeck(a[i]) == ds[i];
    forall i, j | 0 <= i < j < |a| ensures TopDeck(a[i]) != TopDeck(a[j]) {
      assert ds[i] != ds[j];
    }
    forall x | x in a ensures exists i :: 0 <= i < |s| && s[i].0 == x.deck {
      var k :| 0 <= k < |a| && a[k] == x;
      assert ds[k] in ds;
    }
    forall i | 0 <= i < |s| ensures exists x :: x in a && x.deck == s[i].0 {
      assert s[i].0 in ds;
      var k :| 0 <= k < |ds| && ds[k] == s[i].0;
      assert a[k] in a;
    }
  }

  function Ident(s: string): string { s }

  /** The table for (deck, share fraction) pairs: one row per deck, largest share first. */
  function TopMetaOf(s: seq<(string, real)>): seq<TopMetaRow>
  {
    Sort(Aggregated(s), FracGe)
  }

  /** The table is ordered by share fraction, largest first. */
  lemma {:induction false} TopMetaSorted(s: seq<(string, real)>)
    ensures Sorted(TopMetaOf(s), FracGe)
  {
    FracGeTotalPreorder();
    SortSorted(Aggregated(s), FracGe);
  }

  /** The rows of `Aggregated` are those of the table. */
  lemma {:induction false} TopMetaRows(s: seq<(string, real)>)
    ensures forall x :: x in TopMetaOf(s) <==> x in Aggregated(s)
  {
    var a := Aggregated(s);
    var o := TopMetaOf(s);
    FracGeTotalPreorder();
    SortSorted(a, FracGe);
    assert forall x :: x in a <==> x in multiset(a);
    assert forall x :: x in o <==> x in multiset(o);
  }

  /** No deck appears twice in the table. */
  lemma {:induction false} TopMetaDistinct(s: seq<(string, real)>)
    ensures DistinctBy(TopMetaOf(s), TopDeck)
  {
    FracGeTotalPreorder();
    SortSorted(Aggregated(s), FracGe);
    AggregatedDecks(s);
    DistinctByPermutation(Aggregated(s), TopMetaOf(s), TopDeck);
  }

  /** Each row holds its deck's total share fraction, non-negative when the shares are,
      and that total as a percentage rounded to 2 decimals. */
  lemma {:induction false} TopMetaTotals(s: seq<(string, real)>)
    requires forall i :: 0 <= i < |s| ==> s[i].1 >= 0.0
    ensures forall x :: x in TopMetaOf(s) ==>
              (x.frac == DeckTotal(s, x.deck) && x.frac >= 0.0 && x.pct == RoundTo(x.frac * 100.0, 2))
  {
    TopMetaRows(s);
    forall k: string ensures DeckTotal(s, k) >= 0.0 {
      DeckTotalNonNeg(s, k);
    }
  }

  /** The table has a row for every deck of the input and for no other. */
  lemma {:induction false} TopMetaDecks(s: seq<(string, real)>)
    ensures forall x :: x in TopMetaOf(s) ==> exists i :: 0 <= i < |s| && s[i].0 == x.deck
    ensures forall i :: 0 <= i < |s| ==> exists x :: x in TopMetaOf(s) && x.deck == s[i].0
  {
    TopMetaRows(s);
    AggregatedDecks(s);
  }
}

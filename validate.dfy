/** The contract check run on the final filtered win-rate matrix and the W+L matrix:
    identical shape and axes and undefined diagonals are fatal; the win-rate and volume
    symmetry checks are advisory and only add an issue. */
module Validate {
  import opened Wrappers
  import opened Numeric
  import opened Matrix
  import opened Text

  /** A labelled matrix (a frame indexed by deck on both axes): row labels, column labels
      and the cells, row by row. */
  datatype LabelledMatrix = LabelledMatrix(index: seq<string>, columns: seq<string>, cells: Mat)

  predicate WellShaped(f: LabelledMatrix)
  {
    |f.cells| == |f.index| && forall i :: 0 <= i < |f.index| ==> |f.cells[i]| == |f.columns|
  }

  /** Position of a label. */
  function Pos(labels: seq<string>, x: string): (r: Option<nat>)
    ensures r.Some? <==> x in labels
    ensures r.Some? ==> r.value < |labels| && labels[r.value] == x
  {
    if labels == [] then None
    else if labels[0] == x then Some(0)
    else
      var t := Pos(labels[1..], x);
      if t.Some? then Some(t.value + 1) else None
  }

  /** The cell at (row label r, column label c) of `f.T`, in `f`'s coordinates, when both
      labels exist on the other axis. */
  function TransposedCell(f: LabelledMatrix, i: nat, j: nat): Option<real>
    requires WellShaped(f) && i < |f.index| && j < |f.columns|
  {
    var ti := Pos(f.index, f.columns[j]);
    var tj := Pos(f.columns, f.index[i]);
    if ti.Some? && tj.Some? then f.cells[ti.value][tj.value] else None
  }

  /** Some cell of `f + f.T` (aligned by label) is defined and differs from 100 by more
      than one point. */
  predicate WrSymmetryOff(f: LabelledMatrix)
    requires WellShaped(f)
  {
    exists i, j :: 0 <= i < |f.index| && 0 <= j < |f.columns|
      && f.cells[i][j].Some? && TransposedCell(f, i, j).Some?
      && Abs(f.cells[i][j].value + TransposedCell(f, i, j).value - 100.0) > 1.0
  }

  /** `f.fillna(0) - f.T.fillna(0)` has a non-zero cell: either the label alignment adds
      cells (undefined, hence truthy), or two mirrored cells differ once undefined is 0. */
  predicate NotSymmetric(f: LabelledMatrix)
    requires WellShaped(f)
  {
    (exists x :: x in f.index && x !in f.columns) || (exists x :: x in f.columns && x !in f.index)
    || exists i, j :: 0 <= i < |f.index| && 0 <= j < |f.columns| && Fill0(f.cells[i][j]) != Fill0(TransposedCell(f, i, j))
  }

  predicate SameShape(wr: LabelledMatrix, nd: LabelledMatrix) { |wr.index| == |nd.index| && |wr.columns| == |nd.columns| }

  predicate SameAxes(wr: LabelledMatrix, nd: LabelledMatrix) { wr.index == nd.index && wr.columns == nd.columns }

  /** The issues, in the order the checks run. */
  datatype Issue = ShapeIssue | AxisIssue | WrDiagIssue | NDiagIssue | WrSymIssue | NSymIssue

  /** The text reported for each issue. */
  function Message(e: Issue): string
  {
    match e
    case ShapeIssue => "shape mismatch"
    case AxisIssue => "axis mismatch"
    case WrDiagIssue => "filtered_wr diag not NaN"
    case NDiagIssue => "n_dir diag not NaN"
    case WrSymIssue => "WR symmetry off >1.0pp"
    case NSymIssue => "n_dir not symmetric"
  }

  /** The issues whose text contains "mismatch". */
  predicate IsMismatch(e: Issue) { e.ShapeIssue? || e.AxisIssue? }

  /** The issue of the k-th check. */
  function IssueAt(k: nat): (e: Issue)
    requires k < 6
  {
    [ShapeIssue, AxisIssue, WrDiagIssue, NDiagIssue, WrSymIssue, NSymIssue][k]
  }

  /** The check each issue belongs to. */
  function Rank(e: Issue): (k: nat)
    ensures k < 6 && IssueAt(k) == e
  {
    match e
    case ShapeIssue => 0
    case AxisIssue => 1
    case WrDiagIssue => 2
    case NDiagIssue => 3
    case WrSymIssue => 4
    case NSymIssue => 5
  }

  /** Some fatal check fires. */
  predicate Fatal(wr: LabelledMatrix, nd: LabelledMatrix)
  {
    !SameShape(wr, nd) || !SameAxes(wr, nd) || !DiagAllUndefined(wr.cells) || !DiagAllUndefined(nd.cells)
  }

  /** The outcome of each check, in check order. */
  function Checks(wr: LabelledMatrix, nd: LabelledMatrix): (c: seq<bool>)
    requires WellShaped(wr) && WellShaped(nd)
    ensures |c| == 6
  {
    [!SameShape(wr, nd), !SameAxes(wr, nd), !DiagAllUndefined(wr.cells), !DiagAllUndefined(nd.cells),
     WrSymmetryOff(wr), NotSymmetric(nd)]
  }

  /** The issues of the first |c| checks that fired, in check order. */
  function Reported(c: seq<bool>): seq<Issue>
    requires |c| <= 6
  {
    if c == [] then [] else Reported(c[..|c| - 1]) + (if c[|c| - 1] then [IssueAt(|c| - 1)] else [])
  }

  /** An issue is reported exactly when its check fired, and the issues come in check order. */
  lemma {:induction false} ReportedExactlyFired(c: seq<bool>)
    requires |c| <= 6
    ensures forall e :: e in Reported(c) <==> Rank(e) < |c| && c[Rank(e)]
    ensures forall k, l :: 0 <= k < l < |Reported(c)| ==> Rank(Reported(c)[k]) < Rank(Reported(c)[l])
  {
    if c != [] {
      ReportedExactlyFired(c[..|c| - 1]);
    }
  }

  lemma {:induction false} ReportedStep(c: seq<bool>, k: nat)
    requires k < |c| <= 6
    ensures Reported(c[..k + 1]) == Reported(c[..k]) + (if c[k] then [IssueAt(k)] else [])
  {
    assert c[..k + 1][..k] == c[..k];
  }

  /** Six checks report, in order, the issue of each one that fired. */
  lemma {:induction false} ReportedSix(c: seq<bool>)
    requires |c| == 6
    ensures Reported(c) == [] + (if c[0] then [ShapeIssue] else []) + (if c[1] then [AxisIssue] else [])
      + (if c[2] then [WrDiagIssue] else []) + (if c[3] then [NDiagIssue] else [])
      + (if c[4] then [WrSymIssue] else []) + (if c[5] then [NSymIssue] else [])
  {
    assert c[..0] == [];
    ReportedStep(c, 0);
    ReportedStep(c, 1);
    ReportedStep(c, 2);
    ReportedStep(c, 3);
    ReportedStep(c, 4);
    ReportedStep(c, 5);
    assert c[..6] == c;
  }

  /** Only the shape and axis checks report a mismatch. */
  lemma {:induction false} MismatchOnlyFromAxes(c: seq<bool>)
    requires |c| == 6
    ensures (forall e :: e in Reported(c) ==> !IsMismatch(e)) <==> !c[0] && !c[1]
  {
    ReportedExactlyFired(c);
    assert Rank(ShapeIssue) == 0 && Rank(AxisIssue) == 1;
    if !c[0] && !c[1] {
      forall e | e in Reported(c) ensures !IsMismatch(e) {
        assert c[Rank(e)];
      }
    } else {
      assert ShapeIssue in Reported(c) || AxisIssue in Reported(c);
    }
  }

  /** One check: a firing check adds its issue, and a fatal one also clears `ok`. */
  method Record(ok: bool, issues: seq<Issue>, fired: bool, e: Issue, fatal: bool)
    returns (ok': bool, issues': seq<Issue>)
    ensures ok' == (ok && !(fired && fatal))
    ensures issues' == issues + (if fired then [e] else [])
  {
    ok', issues' := ok, issues;
    if fired {
      if fatal {
        ok' := false;
      }
      issues' := issues' + [e];
    }
  }

  /** `validate_contract` on the outcomes of the checks. */
  method Collect(c: seq<bool>) returns (ok: bool, issues: seq<Issue>)
    requires |c| == 6
    ensures ok <==> !(c[0] || c[1] || c[2] || c[3])
    ensures issues == Reported(c)
  {
    ok, issues := Record(true, [], c[0], ShapeIssue, true);
    ok, issues := Record(ok, issues, c[1], AxisIssue, true);
    ok, issues := Record(ok, issues, c[2], WrDiagIssue, true);
    ok, issues := Record(ok, issues, c[3], NDiagIssue, true);
    ok, issues := Record(ok, issues, c[4], WrSymIssue, false);
    ok, issues := Record(ok, issues, c[5], NSymIssue, false);
    ReportedSix(c);
    MismatchOnlyFromAxes(c);
    ok := ok && forall e :: e in issues ==> !IsMismatch(e);
  }

  /** `validate_contract`: the issues of the checks that fire, in check order (so each
      issue exactly when its check fires, by `ReportedExactlyFired`), and `ok` exactly when
      no fatal check fired: the advisory checks never affect it. */
  method ValidateContract(wr: LabelledMatrix, nd: LabelledMatrix) returns (ok: bool, issues: seq<Issue>)
    requires WellShaped(wr) && WellShaped(nd)
    ensures ok <==> !Fatal(wr, nd)
    ensures issues == Reported(Checks(wr, nd))
  {
    ok, issues := Collect(Checks(wr, nd));
  }
}

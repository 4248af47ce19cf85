/** Deck-axis matrices. A T×T table indexed by the same deck axis on rows and columns is
    a sequence of rows; `None` is an undefined cell (NaN in the source). */
module Matrix {
  import opened Wrappers
  import opened Numeric

  type Mat = seq<seq<Option<real>>>

  predicate IsSquare(m: Mat, n: nat)
  {
    |m| == n && forall i :: 0 <= i < n ==> |m[i]| == n
  }

  /** `fillna(0.0)` on one cell. */
  function Fill0(x: Option<real>): real { x.GetOr(0.0) }

  function FillNa(s: seq<Option<real>>): (r: seq<real>)
    ensures |r| == |s| && forall i :: 0 <= i < |s| ==> r[i] == Fill0(s[i])
  {
    seq(|s|, i requires 0 <= i < |s| => Fill0(s[i]))
  }

  /** pandas `sum(skipna=True)`: undefined entries are skipped, so an all-undefined
      sequence sums to 0. */
  function SumSkipNa(s: seq<Option<real>>): real
  {
    Sum(FillNa(s))
  }

  /** The product of two cells, undefined when either is. */
  function MulOpt(a: Option<real>, b: Option<real>): Option<real>
  {
    if a.Some? && b.Some? then Some(a.value * b.value) else None
  }

  /** Cell-wise product of two rows. */
  function MulRow(a: seq<Option<real>>, b: seq<Option<real>>): (r: seq<Option<real>>)
    requires |a| == |b|
    ensures |r| == |a| && forall i :: 0 <= i < |a| ==> r[i] == MulOpt(a[i], b[i])
  {
    seq(|a|, i requires 0 <= i < |a| => MulOpt(a[i], b[i]))
  }

  /** A NaN-skipping sum of products is the weighted sum with undefined cells read as 0. */
  lemma {:induction false} SumSkipNaMulRow(a: seq<Option<real>>, b: seq<Option<real>>)
    requires |a| == |b|
    ensures SumSkipNa(MulRow(a, b)) == Dot(FillNa(a), FillNa(b))
  {
    if a != [] {
      assert FillNa(MulRow(a, b))[1..] == FillNa(MulRow(a[1..], b[1..]));
      assert FillNa(a)[1..] == FillNa(a[1..]);
      assert FillNa(b)[1..] == FillNa(b[1..]);
      SumSkipNaMulRow(a[1..], b[1..]);
    }
  }

  /** A row of undefined cells. */
  function NoneRow(n: nat): (r: seq<Option<real>>)
    ensures |r| == n && forall i :: 0 <= i < n ==> r[i].None?
  {
    seq(n, i => None)
  }

  lemma {:induction false} SumSkipNaAllUndefined(s: seq<Option<real>>)
    requires forall i :: 0 <= i < |s| ==> s[i].None?
    ensures SumSkipNa(s) == 0.0
  {
    assert FillNa(s) == Const(|s|, 0.0);
    SumConst(|s|, 0.0);
  }

  /** The cell is a positive count once NaN is read as 0: `fillna(0) > 0`. */
  predicate PositiveCell(x: Option<real>) { Fill0(x) > 0.0 }

  /** Column j of a square matrix. */
  function Column(m: Mat, j: nat): (r: seq<Option<real>>)
    requires forall i :: 0 <= i < |m| ==> j < |m[i]|
    ensures |r| == |m| && forall i :: 0 <= i < |m| ==> r[i] == m[i][j]
  {
    seq(|m|, i requires 0 <= i < |m| => m[i][j])
  }

  /** The transpose of a square matrix. */
  function Transpose(m: Mat, n: nat): (r: Mat)
    requires IsSquare(m, n)
    ensures IsSquare(r, n) && forall i, j :: 0 <= i < n && 0 <= j < n ==> r[i][j] == m[j][i]
  {
    seq(n, i requires 0 <= i < n => Column(m, i))
  }

  /** `np.diag`: the cells m[i][i] for i below both dimensions. */
  predicate DiagAllUndefined(m: Mat)
  {
    forall i :: 0 <= i < |m| && i < |m[i]| ==> m[i][i].None?
  }
}

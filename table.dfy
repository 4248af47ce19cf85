/** A minimal DataFrame: named columns of equal length. A cell carries the two views the
    modelled code takes of it: its text (`astype(str)`) and its numeric value
    (`pd.to_numeric(errors="coerce")`, None when it does not parse). */
module Table {
  import opened Wrappers

  datatype Cell = Cell(text: string, num: Option<real>)
  datatype Col = Col(name: string, isNumeric: bool, cells: seq<Cell>)
  datatype Frame = Frame(cols: seq<Col>, nrows: nat)

  predicate WellFormed(f: Frame)
  {
    forall c :: 0 <= c < |f.cols| ==> |f.cols[c].cells| == f.nrows
  }

  /** `DataFrame.empty`: no rows or no columns. */
  predicate IsEmpty(f: Frame) { f.nrows == 0 || |f.cols| == 0 }

  predicate HasCol(f: Frame, name: string)
  {
    exists c :: 0 <= c < |f.cols| && f.cols[c].name == name
  }

  /** The first column called `name`. */
  function FindCol(f: Frame, name: string, from: nat := 0): (r: Option<nat>)
    requires from <= |f.cols|
    ensures r.Some? ==> (from <= r.value < |f.cols| && f.cols[r.value].name == name &&
                         forall c :: from <= c < r.value ==> f.cols[c].name != name)
    ensures r.None? ==> forall c :: from <= c < |f.cols| ==> f.cols[c].name != name
    decreases |f.cols| - from
  {
    if from == |f.cols| then None
    else if f.cols[from].name == name then Some(from)
    else FindCol(f, name, from + 1)
  }

  /** The first name of a preference list that is a column, as a column index
      (`next((c for c in names if c in df.columns), None)`). */
  function FirstPresent(f: Frame, names: seq<string>): (r: Option<nat>)
    ensures r.Some? ==> r.value < |f.cols| && f.cols[r.value].name in names
    ensures r.None? <==> forall k :: 0 <= k < |names| ==> !HasCol(f, names[k])
  {
    if names == [] then None
    else
      var c := FindCol(f, names[0]);
      if c.Some? then Some(c.value)
      else
        var rest := FirstPresent(f, names[1..]);
        assert !HasCol(f, names[0]);
        assert forall k :: 1 <= k < |names| ==> names[k] == names[1..][k - 1];
        rest
  }

  /** The column found carries the earliest listed name that is present, and is the first
      column with that name. */
  lemma {:induction false} FirstPresentPriority(f: Frame, names: seq<string>)
    requires FirstPresent(f, names).Some?
    ensures var c := FirstPresent(f, names).value;
      exists k :: (0 <= k < |names| && f.cols[c].name == names[k] &&
                   (forall k' :: 0 <= k' < k ==> !HasCol(f, names[k'])) &&
                   (forall c' :: 0 <= c' < c ==> f.cols[c'].name != names[k]))
  {
    var c := FirstPresent(f, names).value;
    if FindCol(f, names[0]).Some? {
      assert f.cols[c].name == names[0];
    } else {
      FirstPresentPriority(f, names[1..]);
      var k :| 0 <= k < |names[1..]| && f.cols[c].name == names[1..][k] &&
               (forall k' :: 0 <= k' < k ==> !HasCol(f, names[1..][k'])) &&
               (forall c' :: 0 <= c' < c ==> f.cols[c'].name != names[1..][k]);
      assert f.cols[c].name == names[k + 1];
      assert forall k' :: 1 <= k' < k + 1 ==> names[k'] == names[1..][k' - 1];
    }
  }

  /** The first column with a numeric dtype. */
  function FirstNumeric(f: Frame, from: nat := 0): (r: Option<nat>)
    requires from <= |f.cols|
    ensures r.Some? ==> (from <= r.value < |f.cols| && f.cols[r.value].isNumeric &&
                         forall c :: from <= c < r.value ==> !f.cols[c].isNumeric)
    ensures r.None? ==> forall c :: from <= c < |f.cols| ==> !f.cols[c].isNumeric
    decreases |f.cols| - from
  {
    if from == |f.cols| then None
    else if f.cols[from].isNumeric then Some(from)
    else FirstNumeric(f, from + 1)
  }
}

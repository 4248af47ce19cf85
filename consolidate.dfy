/** Match-data consolidation: raw directional W/L/T rows become one row per (Deck A,
    Deck B) (`maxN_flat`), then an aliased, aggregated, direction-symmetric table
    (`apply_alias_and_aggregate`), and finally the score table restricted to the kept
    deck axis (`build_score_table_filtered`). */
module Consolidate {
  import opened Wrappers
  import opened Numeric
  import opened Text
  import opened Sorting
  import opened Grouping
  import opened Symmetry

  // ---- Raw tables ----

  /** One raw row; a count cell is None when it is missing or does not parse as a number. */
  datatype RawRow = RawRow(deckA: string, deckB: string, w: Option<int>, l: Option<int>, t: Option<int>)

  /** A table: its column names and its rows. */
  datatype RawTable = RawTable(columns: set<string>, rows: seq<RawRow>)

  /** `REQUIRED_RAW`. */
  const RequiredRaw: set<string> := {"Deck A", "Deck B", "W", "L", "T"}

  /** pandas `.empty`: no rows or no columns. */
  predicate IsEmpty(t: RawTable) { t.rows == [] || t.columns == {} }

  /** `pd.to_numeric(errors="coerce").fillna(0)`, then `.clip(lower=0)` when `clip`. */
  function CoerceCount(x: Option<int>, clip: bool): (r: int)
    ensures clip ==> r >= 0
    ensures x.None? ==> r == 0
    ensures x.Some? && (!clip || x.value >= 0) ==> r == x.value
    ensures x.Some? && clip && x.value < 0 ==> r == 0
  {
    var v := x.GetOr(0);
    if clip then MaxInt(v, 0) else v
  }

  /** One row of `_coerce_counts`: clipped counts and stripped names (N is `Symmetry.N`). */
  function CoerceRow(r: RawRow): (c: Counts)
    ensures c.a == Strip(r.deckA) && c.b == Strip(r.deckB)
    ensures c.w >= 0 && c.l >= 0 && c.t >= 0
    ensures c.w == CoerceCount(r.w, true) && c.l == CoerceCount(r.l, true) && c.t == CoerceCount(r.t, true)
  {
    Counts(Strip(r.deckA), Strip(r.deckB), CoerceCount(r.w, true), CoerceCount(r.l, true), CoerceCount(r.t, true))
  }

  /** `_coerce_counts` over a table. */
  function CoerceCounts(rows: seq<RawRow>): (d: seq<Counts>)
    ensures |d| == |rows| && forall i :: 0 <= i < |rows| ==> d[i] == CoerceRow(rows[i])
  {
    seq(|rows|, i requires 0 <= i < |rows| => CoerceRow(rows[i]))
  }

  lemma {:induction false} CoercedNonNegative(rows: seq<RawRow>)
    ensures NonNegative(CoerceCounts(rows))
  {
    var d := CoerceCounts(rows);
    forall x | x in d ensures x.w >= 0 && x.l >= 0 && x.t >= 0 {
      var i :| 0 <= i < |d| && d[i] == x;
    }
  }

  // ---- Column sums ----

  function CW(c: Counts): int { c.w }
  function CL(c: Counts): int { c.l }
  function CT(c: Counts): int { c.t }

  /** The sum of one count column. */
  function Total(s: seq<Counts>, f: Counts -> int): int
  {
    if s == [] then 0 else Total(s[..|s| - 1], f) + f(s[|s| - 1])
  }

  lemma {:induction false} TotalNonNeg(s: seq<Counts>, f: Counts -> int)
    requires forall x :: x in s ==> f(x) >= 0
    ensures Total(s, f) >= 0
  {
    if s != [] {
      assert forall x :: x in s[..|s| - 1] ==> x in s;
      TotalNonNeg(s[..|s| - 1], f);
      assert s[|s| - 1] in s;
    }
  }

  /** The sum of a column over rows sharing one value m is |s| times m. */
  lemma {:induction false} TotalConst(s: seq<Counts>, f: Counts -> int, m: int)
    requires forall x :: x in s ==> f(x) == m
    ensures Total(s, f) == |s| * m
  {
    if s != [] {
      assert forall x :: x in s[..|s| - 1] ==> x in s;
      TotalConst(s[..|s| - 1], f, m);
      assert s[|s| - 1] in s;
    }
  }

  lemma {:induction false} TotalN(s: seq<Counts>)
    ensures Total(s, N) == Total(s, CW) + Total(s, CL) + Total(s, CT)
  {
    if s != [] {
      TotalN(s[..|s| - 1]);
    }
  }

  // ---- maxN_flat ----

  /** `grp["N"].max()`. */
  function MaxN(g: seq<Counts>): (m: int)
    requires g != []
    ensures forall x :: x in g ==> N(x) <= m
  {
    if |g| == 1 then
      assert g == [g[0]];
      N(g[0])
    else
      var front := g[..|g| - 1];
      assert forall x :: x in g ==> x in front || x == g[|g| - 1];
      MaxInt(MaxN(front), N(g[|g| - 1]))
  }

  /** Some row of the group attains the maximum. */
  lemma {:induction false} MaxNAttained(g: seq<Counts>)
    requires g != []
    ensures exists i :: 0 <= i < |g| && N(g[i]) == MaxN(g)
  {
    if |g| > 1 {
      var front := g[..|g| - 1];
      MaxNAttained(front);
      if MaxN(front) >= N(g[|g| - 1]) {
        var i :| 0 <= i < |front| && N(front[i]) == MaxN(front);
        assert g[i] == front[i];
      } else {
        assert N(g[|g| - 1]) == MaxN(g);
      }
    } else {
      assert N(g[0]) == MaxN(g);
    }
  }

  /** `grp[grp["N"] == nmax]`: the rows with N equal to m, in order. */
  function Top(g: seq<Counts>, m: int): seq<Counts>
  {
    if g == [] then [] else Top(g[..|g| - 1], m) + (if N(g[|g| - 1]) == m then [g[|g| - 1]] else [])
  }

  lemma {:induction false} TopSpec(g: seq<Counts>, m: int)
    ensures forall x :: x in Top(g, m) <==> x in g && N(x) == m
    ensures forall i :: 0 <= i < |g| && N(g[i]) == m ==> g[i] in Top(g, m)
  {
    if g != [] {
      var front := g[..|g| - 1];
      TopSpec(front, m);
      assert forall x :: x in g <==> x in front || x == g[|g| - 1];
      forall i | 0 <= i < |g| && N(g[i]) == m ensures g[i] in Top(g, m) {
        if i < |front| {
          assert front[i] == g[i];
        }
      }
    }
  }

  /** One row of `maxN_flat`'s output. */
  datatype FlatRow = FlatRow(a: string, b: string, w: int, l: int, t: int, n: int, winrate: real)

  /** The informative win rate of `maxN_flat`: `round(100 * W / N, 2)`, or 0 without games. */
  function FlatWinrate(w: int, n: int): (r: real)
    ensures 0 <= w <= n ==> 0.0 <= r <= 100.0
    ensures n <= 0 ==> r == 0.0
    ensures n > 0 ==> Abs(r - 100.0 * w as real / n as real) <= 0.5 / Pow10(2) as real
  {
    if n > 0 then
      var x := 100.0 * w as real / n as real;
      if 0 <= w <= n then
        PercentWithin(w as real, n as real);
        RoundToWithin(x, 2, 0, 100);
        RoundTo(x, 2)
      else
        RoundTo(x, 2)
    else 0.0
  }

  /** The row kept for the group g of key k: the row of maximal N when it is unique, and
      otherwise the sums of W, L and T over the rows tied at the maximum, with N recomputed. */
  function PickMaxN(k: (string, string), g: seq<Counts>): (r: FlatRow)
    requires g != []
    ensures (r.a, r.b) == k
  {
    var top := Top(g, MaxN(g));
    if |top| == 1 then
      var x := top[0];
      FlatRow(k.0, k.1, x.w, x.l, x.t, N(x), FlatWinrate(x.w, N(x)))
    else
      var w, l, t := Total(top, CW), Total(top, CL), Total(top, CT);
      FlatRow(k.0, k.1, w, l, t, w + l + t, FlatWinrate(w, w + l + t))
  }

  /** Rows with non-negative counts. */
  predicate NonNegative(g: seq<Counts>)
  {
    forall x :: x in g ==> x.w >= 0 && x.l >= 0 && x.t >= 0
  }

  /** The tied rows are exactly the rows of maximal N, and there is at least one. */
  lemma {:induction false} TopOfMax(g: seq<Counts>)
    requires g != []
    ensures Top(g, MaxN(g)) != []
    ensures forall x :: x in Top(g, MaxN(g)) <==> x in g && N(x) == MaxN(g)
  {
    MaxNAttained(g);
    TopSpec(g, MaxN(g));
    var i :| 0 <= i < |g| && N(g[i]) == MaxN(g);
    assert g[i] in Top(g, MaxN(g));
  }

  /** A unique maximum: the kept row is that row, whose N is larger than every other row's. */
  lemma {:induction false} PickMaxNUnique(k: (string, string), g: seq<Counts>)
    requires g != [] && |Top(g, MaxN(g))| == 1
    ensures var r := PickMaxN(k, g); var x := Top(g, MaxN(g))[0];
      && x in g
      && r.w == x.w && r.l == x.l && r.t == x.t && r.n == N(x)
      && (forall y :: y in g ==> N(y) <= r.n)
      && (forall y :: y in g && y != x ==> N(y) < r.n)
  {
    var top := Top(g, MaxN(g));
    TopOfMax(g);
    assert top[0] in top;
    forall y | y in g && N(y) == MaxN(g) ensures y == top[0] {
      assert y in top;
    }
  }

  /** A tie at the maximum: the kept counts are the sums over the tied rows, and N is the
      number of tied rows times the maximum. */
  lemma {:induction false} PickMaxNTie(k: (string, string), g: seq<Counts>)
    requires g != [] && |Top(g, MaxN(g))| != 1
    ensures var r := PickMaxN(k, g); var top := Top(g, MaxN(g));
      && |top| > 1
      && r.w == Total(top, CW) && r.l == Total(top, CL) && r.t == Total(top, CT)
      && r.n == |top| * MaxN(g)
  {
    var top := Top(g, MaxN(g));
    TopOfMax(g);
    TotalConst(top, N, MaxN(g));
    TotalN(top);
  }

  /** The kept row's N is its W + L + T and its win rate is `round(100 * W / N, 2)`, or 0
      without games; with non-negative counts the counts stay non-negative and the win rate
      lies in [0, 100]. */
  lemma {:induction false} PickMaxNBounds(k: (string, string), g: seq<Counts>)
    requires g != []
    ensures var r := PickMaxN(k, g);
      && r.n == r.w + r.l + r.t
      && (r.n > 0 ==> Abs(r.winrate - 100.0 * r.w as real / r.n as real) <= 0.5 / Pow10(2) as real)
      && (r.n <= 0 ==> r.winrate == 0.0)
    ensures NonNegative(g) ==> var r := PickMaxN(k, g);
      r.w >= 0 && r.l >= 0 && r.t >= 0 && 0.0 <= r.winrate <= 100.0
  {
    var top := Top(g, MaxN(g));
    TopOfMax(g);
    if |top| == 1 {
      assert top[0] in top;
    } else if NonNegative(g) {
      TotalNonNeg(top, CW);
      TotalNonNeg(top, CL);
      TotalNonNeg(top, CT);
    }
  }

  /** The rows of the groups of keys ks, in key order; an empty group is skipped. */
  function PickAll(d: seq<Counts>, ks: seq<(string, string)>): seq<FlatRow>
  {
    if ks == [] then []
    else
      var g := Group(d, ABKey, ks[0]);
      (if g == [] then [] else [PickMaxN(ks[0], g)]) + PickAll(d, ks[1..])
  }

  function FKey(r: FlatRow): (string, string) { (r.a, r.b) }

  /** The emitted rows are the kept rows of the non-empty groups of ks, one per key. */
  lemma {:induction false} PickAllSpec(d: seq<Counts>, ks: seq<(string, string)>)
    requires Distinct(ks)
    ensures forall r :: r in PickAll(d, ks) ==>
      FKey(r) in ks && Group(d, ABKey, FKey(r)) != [] && r == PickMaxN(FKey(r), Group(d, ABKey, FKey(r)))
    ensures forall k :: k in ks && Group(d, ABKey, k) != [] ==> PickMaxN(k, Group(d, ABKey, k)) in PickAll(d, ks)
    ensures DistinctBy(PickAll(d, ks), FKey)
    ensures (forall k :: k in ks ==> Group(d, ABKey, k) != []) ==> |PickAll(d, ks)| == |ks|
  {
    if ks != [] {
      var rest := ks[1..];
      assert Distinct(rest);
      PickAllSpec(d, rest);
      assert forall k :: k in ks <==> k == ks[0] || k in rest;
      var g := Group(d, ABKey, ks[0]);
      var h := if g == [] then [] else [PickMaxN(ks[0], g)];
      assert ks[0] !in rest;
      assert PickAll(d, ks) == h + PickAll(d, rest);
      DistinctByConcat(h, PickAll(d, rest), FKey);
    }
  }

  /** The order of `sort_values(["Deck A", "N"], ascending=[True, False])`. */
  predicate FlatLe(x: FlatRow, y: FlatRow)
  {
    Less(x.a, y.a) || (x.a == y.a && x.n >= y.n)
  }

  lemma {:induction false} FlatLeTotalPreorder()
    ensures TotalPreorder(FlatLe)
  {
    forall x: FlatRow, y: FlatRow ensures FlatLe(x, y) || FlatLe(y, x) {
      LessTotal(x.a, y.a);
    }
    forall x: FlatRow, y: FlatRow, z: FlatRow | FlatLe(x, y) && FlatLe(y, z) ensures FlatLe(x, z) {
      if x.a != y.a && y.a != z.a {
        LessTransitive(x.a, y.a, z.a);
      }
    }
  }

  /** `maxN_flat` as a function of the raw table. */
  function MaxNTable(t: RawTable): (r: Result<seq<FlatRow>>)
    ensures r.Failure? <==> !(RequiredRaw <= t.columns)
  {
    if !(RequiredRaw <= t.columns) then Failure("KeyError")
    else
      var d := CoerceCounts(t.rows);
      Success(Sort(PickAll(d, Keys(d, ABKey)), FlatLe))
  }

  /** The sorted rows are the rows the group loop emits. */
  lemma {:induction false} MaxNTableMembers(t: RawTable)
    requires RequiredRaw <= t.columns
    ensures var d := CoerceCounts(t.rows);
      forall r :: r in MaxNTable(t).value <==> r in PickAll(d, Keys(d, ABKey))
  {
    var d := CoerceCounts(t.rows);
    var e := PickAll(d, Keys(d, ABKey));
    var rows := Sort(e, FlatLe);
    assert forall r :: r in rows <==> r in multiset(rows);
    assert forall r :: r in e <==> r in multiset(e);
  }

  /** `maxN_flat` emits one row per (Deck A, Deck B) of the coerced table, sorted by Deck A
      and then N descending. */
  lemma {:induction false} MaxNTableShape(t: RawTable)
    requires RequiredRaw <= t.columns
    ensures var d := CoerceCounts(t.rows); var rows := MaxNTable(t).value;
      && |rows| == |Keys(d, ABKey)|
      && DistinctBy(rows, FKey)
      && Sorted(rows, FlatLe)
  {
    var d := CoerceCounts(t.rows);
    var ks := Keys(d, ABKey);
    var e := PickAll(d, ks);
    KeysSpec(d, ABKey);
    forall k | k in ks ensures Group(d, ABKey, k) != [] {
      GroupNonEmpty(d, ABKey, k);
    }
    PickAllSpec(d, ks);
    FlatLeTotalPreorder();
    SortSorted(e, FlatLe);
    DistinctByPermutation(e, Sort(e, FlatLe), FKey);
  }

  /** Each emitted row is the kept row of its (Deck A, Deck B) group, and every input
      direction has a row. */
  lemma {:induction false} MaxNTableRows(t: RawTable)
    requires RequiredRaw <= t.columns
    ensures var d := CoerceCounts(t.rows); var rows := MaxNTable(t).value;
      && (forall r :: r in rows ==>
           Group(d, ABKey, FKey(r)) != [] && r == PickMaxN(FKey(r), Group(d, ABKey, FKey(r))))
      && (forall i :: 0 <= i < |d| ==> exists r :: r in rows && FKey(r) == ABKey(d[i]))
  {
    var d := CoerceCounts(t.rows);
    var ks := Keys(d, ABKey);
    KeysSpec(d, ABKey);
    PickAllSpec(d, ks);
    MaxNTableMembers(t);
    forall i | 0 <= i < |d| ensures exists r :: r in MaxNTable(t).value && FKey(r) == ABKey(d[i]) {
      var k := ABKey(d[i]);
      GroupNonEmpty(d, ABKey, k);
      assert PickMaxN(k, Group(d, ABKey, k)) in PickAll(d, ks);
    }
  }

  /** The emitted counts are non-negative and the win rates lie in [0, 100]. */
  lemma {:induction false} MaxNTableBounds(t: RawTable)
    requires RequiredRaw <= t.columns
    ensures forall r :: r in MaxNTable(t).value ==> r.w >= 0 && r.l >= 0 && r.t >= 0 && 0.0 <= r.winrate <= 100.0
  {
    var d := CoerceCounts(t.rows);
    MaxNTableRows(t);
    CoercedNonNegative(t.rows);
    forall r | r in MaxNTable(t).value ensures r.w >= 0 && r.l >= 0 && r.t >= 0 && 0.0 <= r.winrate <= 100.0 {
      var g := Group(d, ABKey, FKey(r));
      GroupSpec(d, ABKey, FKey(r));
      assert NonNegative(g);
      PickMaxNBounds(FKey(r), g);
    }
  }

  /** `maxN_flat`: the column check, then the group loop and the sort. */
  method MaxNFlat(t: RawTable) returns (r: Result<seq<FlatRow>>)
    ensures r == MaxNTable(t)
  {
    if !(RequiredRaw <= t.columns) {
      return Failure("KeyError");
    }
    var d := CoerceCounts(t.rows);
    var out := PickGroups(d, Keys(d, ABKey));
    return Success(Sort(out, FlatLe));
  }

  /** The loop of `maxN_flat` over the (Deck A, Deck B) groups in order of first appearance. */
  method PickGroups(d: seq<Counts>, ks: seq<(string, string)>) returns (out: seq<FlatRow>)
    ensures out == PickAll(d, ks)
  {
    out := [];
    var i := 0;
    assert ks[i..] == ks;
    while i < |ks|
      invariant i <= |ks| && out + PickAll(d, ks[i..]) == PickAll(d, ks)
    {
      var grp := Group(d, ABKey, ks[i]);
      PickGroupsStep(d, ks, i, out);
      if grp != [] {
        out := out + [PickMaxN(ks[i], grp)];
      }
      i := i + 1;
    }
    assert ks[i..] == [];
  }

  /** One iteration of `PickGroups` keeps its invariant. */
  lemma {:induction false} PickGroupsStep(d: seq<Counts>, ks: seq<(string, string)>, i: nat, out: seq<FlatRow>)
    requires i < |ks| && out + PickAll(d, ks[i..]) == PickAll(d, ks)
    ensures var g := Group(d, ABKey, ks[i]);
      (if g == [] then out else out + [PickMaxN(ks[i], g)]) + PickAll(d, ks[i + 1..]) == PickAll(d, ks)
  {
    PickAllStep(d, ks, i);
    var g := Group(d, ABKey, ks[i]);
    if g != [] {
      var row := PickMaxN(ks[i], g);
      assert out + ([row] + PickAll(d, ks[i + 1..])) == (out + [row]) + PickAll(d, ks[i + 1..]);
    } else {
      assert [] + PickAll(d, ks[i + 1..]) == PickAll(d, ks[i + 1..]);
    }
  }

  lemma {:induction false} PickAllStep(d: seq<Counts>, ks: seq<(string, string)>, i: nat)
    requires i < |ks|
    ensures PickAll(d, ks[i..]) ==
      (if Group(d, ABKey, ks[i]) == [] then [] else [PickMaxN(ks[i], Group(d, ABKey, ks[i]))]) + PickAll(d, ks[i + 1..])
  {
    assert ks[i..][1..] == ks[i + 1..];
    assert ks[i..][0] == ks[i];
  }

  // ---- Aggregation ----

  /** The summed row of the group g of direction k. */
  function SumGroup(k: (string, string), g: seq<Counts>): (c: Counts)
    ensures ABKey(c) == k
  {
    Counts(k.0, k.1, Total(g, CW), Total(g, CL), Total(g, CT))
  }

  function AggregateKeys(c: seq<Counts>, ks: seq<(string, string)>): seq<Counts>
  {
    if ks == [] then [] else [SumGroup(ks[0], Group(c, ABKey, ks[0]))] + AggregateKeys(c, ks[1..])
  }

  /** `groupby(["Deck A", "Deck B"], sort=False)[["W", "L", "T", "N"]].sum()`: one summed row
      per direction, in order of first appearance. */
  function Aggregate(c: seq<Counts>): seq<Counts>
  {
    AggregateKeys(c, Keys(c, ABKey))
  }

  lemma {:induction false} AggregateKeysAt(c: seq<Counts>, ks: seq<(string, string)>)
    ensures |AggregateKeys(c, ks)| == |ks|
    ensures forall i :: 0 <= i < |ks| ==> AggregateKeys(c, ks)[i] == SumGroup(ks[i], Group(c, ABKey, ks[i]))
  {
    if ks != [] {
      AggregateKeysAt(c, ks[1..]);
    }
  }

  /** The aggregate holds one row per direction of the input, each the sums of W, L and T
      over that direction's rows, and every input direction has its row. */
  lemma {:induction false} AggregateSpec(c: seq<Counts>)
    ensures DistinctBy(Aggregate(c), ABKey)
    ensures |Aggregate(c)| == |Keys(c, ABKey)|
    ensures forall x :: x in Aggregate(c) ==>
      Group(c, ABKey, ABKey(x)) != [] && x == SumGroup(ABKey(x), Group(c, ABKey, ABKey(x)))
    ensures forall i :: 0 <= i < |c| ==> exists x :: x in Aggregate(c) && ABKey(x) == ABKey(c[i])
  {
    var ks := Keys(c, ABKey);
    var a := Aggregate(c);
    KeysSpec(c, ABKey);
    AggregateKeysAt(c, ks);
    forall x | x in a ensures Group(c, ABKey, ABKey(x)) != [] && x == SumGroup(ABKey(x), Group(c, ABKey, ABKey(x))) {
      var i :| 0 <= i < |a| && a[i] == x;
      GroupNonEmpty(c, ABKey, ks[i]);
    }
    forall i | 0 <= i < |c| ensures exists x :: x in a && ABKey(x) == ABKey(c[i]) {
      var j :| 0 <= j < |ks| && ks[j] == ABKey(c[i]);
      assert a[j] in a;
    }
  }

  lemma {:induction false} TotalSingle(x: Counts, f: Counts -> int)
    ensures Total([x], f) == f(x)
  {
    assert [x][..0] == [];
  }

  /** A table with one row per direction aggregates to itself. */
  lemma {:induction false} AggregateIdentity(c: seq<Counts>)
    requires DistinctBy(c, ABKey)
    ensures Aggregate(c) == c
  {
    var ks := Keys(c, ABKey);
    DistinctKeysGroups(c, ABKey);
    AggregateKeysAt(c, ks);
    forall i | 0 <= i < |c| ensures Aggregate(c)[i] == c[i] {
      TotalSingle(c[i], CW);
      TotalSingle(c[i], CL);
      TotalSingle(c[i], CT);
    }
  }

  /** Aggregating rows with non-negative counts, none a mirror match, gives such rows. */
  lemma {:induction false} AggregateKeeps(c: seq<Counts>)
    requires NonNegative(c) && forall x :: x in c ==> x.a != x.b
    ensures NonNegative(Aggregate(c)) && forall x :: x in Aggregate(c) ==> x.a != x.b
    ensures forall x :: x in Aggregate(c) ==> exists y :: y in c && ABKey(y) == ABKey(x)
  {
    AggregateSpec(c);
    forall x | x in Aggregate(c)
      ensures x.w >= 0 && x.l >= 0 && x.t >= 0 && x.a != x.b && exists y :: y in c && ABKey(y) == ABKey(x)
    {
      var g := Group(c, ABKey, ABKey(x));
      GroupSpec(c, ABKey, ABKey(x));
      assert NonNegative(g);
      TotalNonNeg(g, CW);
      TotalNonNeg(g, CL);
      TotalNonNeg(g, CT);
      assert g[0] in g;
    }
  }

  // ---- Aliasing ----

  /** `_norm_key`: NFKC, strip, then case folding; inner whitespace is left as it is. */
  function NormKey(ops: TextOps, s: string): string
  {
    ops.casefold(Strip(ops.nfkc(s)))
  }

  /** `_apply_alias_series` on one name: an empty index only strips; otherwise a hit gives
      the canonical name, and a miss the stripped name. */
  function AliasName(ops: TextOps, idx: map<string, string>, s: string): (r: string)
    ensures |idx| > 0 && NormKey(ops, s) in idx ==> r == idx[NormKey(ops, s)]
    ensures |idx| == 0 || NormKey(ops, s) !in idx ==> r == Strip(s)
  {
    if |idx| == 0 then Strip(s)
    else if NormKey(ops, s) in idx then idx[NormKey(ops, s)]
    else Strip(s)
  }

  /** Both names of every row aliased. */
  function AliasRows(ops: TextOps, idx: map<string, string>, rows: seq<RawRow>): (r: seq<RawRow>)
    ensures |r| == |rows|
    ensures forall i :: 0 <= i < |rows| ==>
      r[i] == rows[i].(deckA := AliasName(ops, idx, rows[i].deckA), deckB := AliasName(ops, idx, rows[i].deckB))
  {
    seq(|rows|, i requires 0 <= i < |rows| =>
      rows[i].(deckA := AliasName(ops, idx, rows[i].deckA), deckB := AliasName(ops, idx, rows[i].deckB)))
  }

  /** `d[d["Deck A"] != d["Deck B"]]`: the rows that are not mirror matches, in order. */
  function OffDiagonal(rows: seq<RawRow>): (r: seq<RawRow>)
    ensures forall x :: x in r <==> x in rows && x.deckA != x.deckB
    ensures (forall x :: x in rows ==> x.deckA != x.deckB) ==> r == rows
  {
    if rows == [] then []
    else
      var front, x := rows[..|rows| - 1], rows[|rows| - 1];
      assert forall y :: y in rows <==> y in front || y == x;
      assert rows == front + [x];
      OffDiagonal(front) + (if x.deckA != x.deckB then [x] else [])
  }

  /** The count columns coerced, the names as they are: lines 174-176 (no clip) and
      240-242 (clip). */
  function CoerceKept(rows: seq<RawRow>, clip: bool): (c: seq<Counts>)
    ensures |c| == |rows|
    ensures forall i :: 0 <= i < |rows| ==>
      c[i] == Counts(rows[i].deckA, rows[i].deckB, CoerceCount(rows[i].w, clip), CoerceCount(rows[i].l, clip), CoerceCount(rows[i].t, clip))
  {
    seq(|rows|, i requires 0 <= i < |rows| =>
      Counts(rows[i].deckA, rows[i].deckB, CoerceCount(rows[i].w, clip), CoerceCount(rows[i].l, clip), CoerceCount(rows[i].t, clip)))
  }

  /** The win-rate column of `_enforce_directional_symmetry` added to each row. */
  function WithWinrates(s: seq<Counts>): (o: seq<FlatOut>)
    ensures |o| == |s| && forall i :: 0 <= i < |s| ==> o[i] == WithWinrate(s[i])
  {
    seq(|s|, i requires 0 <= i < |s| => WithWinrate(s[i]))
  }

  /** The aggregated directions of the aliased rows that are not mirror matches. */
  function AliasCounts(ops: TextOps, idx: map<string, string>, rows: seq<RawRow>): seq<Counts>
  {
    Aggregate(CoerceKept(OffDiagonal(AliasRows(ops, idx, rows)), false))
  }

  /** `apply_alias_and_aggregate`: a missing or empty table gives an empty table; a missing
      name column raises; rows that alias to a mirror match are dropped (an empty result
      returns before the count columns are read, so a missing count column raises only after
      that); then counts are coerced without clipping, duplicate directions summed and
      directional symmetry imposed. */
  function AliasAggregate(ops: TextOps, idx: map<string, string>, flat: Option<RawTable>): (r: Result<seq<FlatOut>>)
  {
    if flat.None? || IsEmpty(flat.value) then Success([])
    else if !({"Deck A", "Deck B"} <= flat.value.columns) then Failure("KeyError")
    else if OffDiagonal(AliasRows(ops, idx, flat.value.rows)) == [] then Success([])
    else if !({"W", "L", "T"} <= flat.value.columns) then Failure("KeyError")
    else Success(WithWinrates(Symmetrize(AliasCounts(ops, idx, flat.value.rows))))
  }

  /** The aggregated directions have no mirror match and come from aliased input rows. */
  lemma {:induction false} AliasCountsSpec(ops: TextOps, idx: map<string, string>, rows: seq<RawRow>)
    ensures forall x :: x in AliasCounts(ops, idx, rows) ==> x.a != x.b
    ensures forall x :: x in AliasCounts(ops, idx, rows) ==> exists i :: (0 <= i < |rows| &&
      x.a == AliasName(ops, idx, rows[i].deckA) && x.b == AliasName(ops, idx, rows[i].deckB))
  {
    var named := AliasRows(ops, idx, rows);
    var kept := OffDiagonal(named);
    var c := CoerceKept(kept, false);
    AggregateFrom(c);
    forall x | x in AliasCounts(ops, idx, rows)
      ensures x.a != x.b && exists i :: (0 <= i < |rows| &&
        x.a == AliasName(ops, idx, rows[i].deckA) && x.b == AliasName(ops, idx, rows[i].deckB))
    {
      var j :| 0 <= j < |c| && ABKey(c[j]) == ABKey(x);
      assert c[j].a == kept[j].deckA && c[j].b == kept[j].deckB;
      assert kept[j] in kept;
      assert kept[j] in named && kept[j].deckA != kept[j].deckB;
      var i :| 0 <= i < |named| && named[i] == kept[j];
      assert named[i].deckA == AliasName(ops, idx, rows[i].deckA);
    }
  }

  /** Every aggregated direction is the direction of an input row. */
  lemma {:induction false} AggregateFrom(c: seq<Counts>)
    ensures forall x :: x in Aggregate(c) ==> exists j :: 0 <= j < |c| && ABKey(c[j]) == ABKey(x)
  {
    AggregateSpec(c);
    forall x | x in Aggregate(c) ensures exists j :: 0 <= j < |c| && ABKey(c[j]) == ABKey(x) {
      var g := Group(c, ABKey, ABKey(x));
      GroupSpec(c, ABKey, ABKey(x));
      assert g[0] in g;
      var j :| 0 <= j < |c| && c[j] == g[0];
    }
  }

  /** The aliased table is symmetric: sorted by (Deck A, Deck B), one row per direction,
      no mirror match, and every row's mirror (W and L swapped) present; its win rates are
      the directional ones, undefined without decisive games. */
  lemma {:induction false} AliasAggregateSymmetric(ops: TextOps, idx: map<string, string>, flat: Option<RawTable>, o: seq<FlatOut>)
    requires AliasAggregate(ops, idx, flat) == Success(o)
    ensures o == [] || exists s :: Symmetric(s) && o == WithWinrates(s)
  {
    if o != [] {
      var s := Symmetrize(AliasCounts(ops, idx, flat.value.rows));
      AliasCountsSpec(ops, idx, flat.value.rows);
      SymmetrizeSymmetric(AliasCounts(ops, idx, flat.value.rows));
      assert Symmetric(s) && o == WithWinrates(s);
    }
  }

  /** Every row of the aliased table carries aliased input names, in their direction or
      swapped, and its counts are the summed counts of one direction or their mirror. */
  lemma {:induction false} AliasAggregateOrigin(ops: TextOps, idx: map<string, string>, flat: Option<RawTable>, o: seq<FlatOut>)
    requires AliasAggregate(ops, idx, flat) == Success(o)
    ensures forall r :: r in o ==> exists x :: (x in AliasCounts(ops, idx, flat.value.rows) &&
      (WithWinrate(x) == r || WithWinrate(Mirror(x)) == r))
  {
    if o != [] {
      var a := AliasCounts(ops, idx, flat.value.rows);
      assert o == WithWinrates(Symmetrize(a));
      SymmetrizedFrom(a);
    }
  }

  /** The rows with win rates of the symmetrized table come from its directions. */
  lemma {:induction false} SymmetrizedFrom(a: seq<Counts>)
    ensures forall r :: r in WithWinrates(Symmetrize(a)) ==>
      exists x :: x in a && (WithWinrate(x) == r || WithWinrate(Mirror(x)) == r)
  {
    var s := Symmetrize(a);
    var o := WithWinrates(s);
    SymmetrizeFrom(a);
    forall r | r in o ensures exists x :: x in a && (WithWinrate(x) == r || WithWinrate(Mirror(x)) == r) {
      var i :| 0 <= i < |o| && o[i] == r;
      assert r == WithWinrate(s[i]);
      assert s[i] in s;
      var y :| y in a && (s[i] == y || s[i] == Mirror(y));
    }
  }

  /** Every aliased direction that is not a mirror match has its aggregated row. */
  lemma {:induction false} AliasCountsCovers(ops: TextOps, idx: map<string, string>, rows: seq<RawRow>, i: nat)
    requires i < |rows| && AliasName(ops, idx, rows[i].deckA) != AliasName(ops, idx, rows[i].deckB)
    ensures OffDiagonal(AliasRows(ops, idx, rows)) != []
    ensures exists x :: (x in AliasCounts(ops, idx, rows) &&
      ABKey(x) == (AliasName(ops, idx, rows[i].deckA), AliasName(ops, idx, rows[i].deckB)))
  {
    var named := AliasRows(ops, idx, rows);
    var kept := OffDiagonal(named);
    var c := CoerceKept(kept, false);
    assert named[i] in named;
    assert named[i] in kept;
    var j :| 0 <= j < |kept| && kept[j] == named[i];
    AggregateSpec(c);
    var x :| x in Aggregate(c) && ABKey(x) == ABKey(c[j]);
  }

  /** Every aliased direction that is not a mirror match appears in the aliased table. */
  lemma {:induction false} AliasAggregateCovers(ops: TextOps, idx: map<string, string>, flat: Option<RawTable>, o: seq<FlatOut>)
    requires AliasAggregate(ops, idx, flat) == Success(o)
    ensures flat.Some? && !IsEmpty(flat.value) ==> forall i :: 0 <= i < |flat.value.rows| ==>
      var x := AliasName(ops, idx, flat.value.rows[i].deckA);
      var y := AliasName(ops, idx, flat.value.rows[i].deckB);
      x != y ==> exists r :: r in o && r.a == x && r.b == y
  {
    if flat.Some? && !IsEmpty(flat.value) {
      var rows := flat.value.rows;
      var a := AliasCounts(ops, idx, rows);
      var s := Symmetrize(a);
      forall i | 0 <= i < |rows| && AliasName(ops, idx, rows[i].deckA) != AliasName(ops, idx, rows[i].deckB)
        ensures exists r :: r in o && r.a == AliasName(ops, idx, rows[i].deckA) && r.b == AliasName(ops, idx, rows[i].deckB)
      {
        AliasCountsCovers(ops, idx, rows, i);
        var x :| x in a && ABKey(x) == (AliasName(ops, idx, rows[i].deckA), AliasName(ops, idx, rows[i].deckB));
        SymmetrizeMembersCover(a, x);
        var k :| 0 <= k < |s| && ABKey(s[k]) == ABKey(x);
        assert o[k] in o;
      }
    }
  }

  // ---- The filtered score table ----

  /** One row of the score table; `winrate` is the legacy `Winrate` copy of WR_dir, present
      only when it is asked for. */
  datatype ScoreRow = ScoreRow(a: string, b: string, w: int, l: int, t: int, n: int, wrDir: real, winrate: Option<real>)

  /** The direction and counts of a score row. */
  function Dir(r: ScoreRow): Counts { Counts(r.a, r.b, r.w, r.l, r.t) }

  function SKey(r: ScoreRow): (string, string) { (r.a, r.b) }

  /** A row with its WR_dir = round(100 * W / (W + L), round_wr) and the legacy copy. */
  function Score(c: Counts, rw: nat, legacy: bool): (r: ScoreRow)
    requires NDir(c) > 0
    ensures Dir(r) == c && r.n == N(c)
    ensures r.wrDir == DirWinrate(c.w, c.l, rw)
    ensures r.winrate == if legacy then Some(r.wrDir) else None
  {
    var wr := DirWinrate(c.w, c.l, rw);
    ScoreRow(c.a, c.b, c.w, c.l, c.t, N(c), wr, if legacy then Some(wr) else None)
  }

  /** `d[denom > 0]` with WR_dir added: the rows with a decisive game, scored, in order. */
  function Scored(s: seq<Counts>, rw: nat, legacy: bool): seq<ScoreRow>
  {
    if s == [] then []
    else Scored(s[..|s| - 1], rw, legacy) + (if NDir(s[|s| - 1]) > 0 then [Score(s[|s| - 1], rw, legacy)] else [])
  }

  /** The scored rows are the scores of exactly the rows with a decisive game, one per
      direction when the input has one row per direction. */
  lemma {:induction false} ScoredSpec(s: seq<Counts>, rw: nat, legacy: bool)
    ensures forall r :: r in Scored(s, rw, legacy) ==> exists x :: x in s && NDir(x) > 0 && r == Score(x, rw, legacy)
    ensures forall x :: x in s && NDir(x) > 0 ==> Score(x, rw, legacy) in Scored(s, rw, legacy)
    ensures DistinctBy(s, ABKey) ==> DistinctBy(Scored(s, rw, legacy), SKey)
  {
    if s != [] {
      var front, x := s[..|s| - 1], s[|s| - 1];
      ScoredSpec(front, rw, legacy);
      assert forall y :: y in s <==> y in front || y == x;
      if DistinctBy(s, ABKey) {
        assert DistinctBy(front, ABKey);
        var h := if NDir(x) > 0 then [Score(x, rw, legacy)] else [];
        forall r, q | r in Scored(front, rw, legacy) && q in h ensures SKey(r) != SKey(q) {
          var y :| y in front && NDir(y) > 0 && r == Score(y, rw, legacy);
          var j :| 0 <= j < |front| && front[j] == y;
          assert s[j] == y;
        }
        DistinctByConcat(Scored(front, rw, legacy), h, SKey);
      }
    }
  }

  /** With a decisive game in every row, scoring keeps every row in place. */
  lemma {:induction false} ScoredAll(s: seq<Counts>, rw: nat, legacy: bool)
    requires forall x :: x in s ==> NDir(x) > 0
    ensures |Scored(s, rw, legacy)| == |s|
    ensures forall i :: 0 <= i < |s| ==> Scored(s, rw, legacy)[i] == Score(s[i], rw, legacy)
  {
    if s != [] {
      var front, x := s[..|s| - 1], s[|s| - 1];
      assert forall y :: y in front ==> y in s;
      ScoredAll(front, rw, legacy);
      assert x in s;
      var p := Scored(front, rw, legacy);
      var r := Scored(s, rw, legacy);
      assert r == p + [Score(x, rw, legacy)];
      forall i | 0 <= i < |s| ensures r[i] == Score(s[i], rw, legacy) {
        if i < |front| {
          assert r[i] == p[i] && s[i] == front[i];
        }
      }
    }
  }

  /** `sort_values(["Deck A", "Deck B"])` on score rows. */
  predicate ScoreLe(x: ScoreRow, y: ScoreRow) { ABLe(Dir(x), Dir(y)) }

  lemma {:induction false} ScoreLeTotalPreorder()
    ensures TotalPreorder(ScoreLe)
  {
    forall x: ScoreRow, y: ScoreRow ensures ScoreLe(x, y) || ScoreLe(y, x) {
      ABLeTotal(Dir(x), Dir(y));
    }
    forall x: ScoreRow, y: ScoreRow, z: ScoreRow | ScoreLe(x, y) && ScoreLe(y, z) ensures ScoreLe(x, z) {
      ABLeTransitive(Dir(x), Dir(y), Dir(z));
    }
  }

  /** `d[d["Deck A"].isin(kept_set) & d["Deck B"].isin(kept_set)]`, in order. */
  function OnAxis(rows: seq<RawRow>, keep: set<string>): (r: seq<RawRow>)
    ensures forall x :: x in r <==> x in rows && x.deckA in keep && x.deckB in keep
    ensures (forall x :: x in rows ==> x.deckA in keep && x.deckB in keep) ==> r == rows
  {
    if rows == [] then []
    else
      var front, x := rows[..|rows| - 1], rows[|rows| - 1];
      assert forall y :: y in rows <==> y in front || y == x;
      assert rows == front + [x];
      OnAxis(front, keep) + (if x.deckA in keep && x.deckB in keep then [x] else [])
  }

  /** The decks of the axis as a set (`kept_set`). */
  function KeptSet(axis: seq<string>): (k: set<string>)
    ensures forall x :: x in k <==> x in axis
  {
    set x | x in axis
  }

  /** The symmetric counts the score table is built from: on-axis rows that are not mirror
      matches, counts coerced and clipped at 0, duplicate directions summed, directional
      symmetry imposed. */
  function ScoreCounts(rows: seq<RawRow>, axis: seq<string>): seq<Counts>
  {
    Symmetrize(Aggregate(CoerceKept(OffDiagonal(OnAxis(rows, KeptSet(axis))), true)))
  }

  /** `build_score_table_filtered`: empty for a missing or empty table or an axis of fewer
      than two decks; a missing required column raises; otherwise the symmetric on-axis
      counts, the rows without decisive games dropped, sorted by (Deck A, Deck B). */
  function BuildScoreTable(t: Option<RawTable>, axis: seq<string>, rw: nat, legacy: bool): (r: Result<seq<ScoreRow>>)
    ensures r.Failure? <==> t.Some? && !IsEmpty(t.value) && |axis| >= 2 && !(RequiredRaw <= t.value.columns)
    ensures t.None? || IsEmpty(t.value) || |axis| < 2 ==> r == Success([])
  {
    if t.None? || IsEmpty(t.value) || |axis| < 2 then Success([])
    else if !(RequiredRaw <= t.value.columns) then Failure("KeyError")
    else
      var on := OnAxis(t.value.rows, KeptSet(axis));
      if on == [] then Success([])
      else if OffDiagonal(on) == [] then Success([])
      else Success(Sort(Scored(ScoreCounts(t.value.rows, axis), rw, legacy), ScoreLe))
  }

  /** What every row of the score table satisfies. */
  predicate ScoreRowOk(r: ScoreRow, axis: seq<string>, rw: nat, legacy: bool)
  {
    && r.a in axis && r.b in axis && r.a != r.b
    && r.w >= 0 && r.l >= 0 && r.t >= 0 && r.w + r.l > 0 && r.n == r.w + r.l + r.t
    && r.wrDir == DirWinrate(r.w, r.l, rw)
    && r.winrate == (if legacy then Some(r.wrDir) else None)
  }

  /** The score table contract: valid rows, sorted by (Deck A, Deck B) with one row per
      direction, and every row's mirror present. */
  predicate ScoreTableOk(o: seq<ScoreRow>, axis: seq<string>, rw: nat, legacy: bool)
  {
    && (forall r :: r in o ==> ScoreRowOk(r, axis, rw, legacy))
    && Sorted(o, ScoreLe)
    && DistinctBy(o, SKey)
    && (forall r :: r in o ==> r.w + r.l > 0 && Score(Mirror(Dir(r)), rw, legacy) in o)
  }

  /** The coerced on-axis rows are on the axis, not mirror matches, and non-negative. */
  lemma {:induction false} CoercedOnAxis(rows: seq<RawRow>, axis: seq<string>)
    ensures var c := CoerceKept(OffDiagonal(OnAxis(rows, KeptSet(axis))), true);
      NonNegative(c) && forall x :: x in c ==> x.a != x.b && x.a in axis && x.b in axis
  {
    var off := OffDiagonal(OnAxis(rows, KeptSet(axis)));
    var c := CoerceKept(off, true);
    forall x | x in c ensures x.w >= 0 && x.l >= 0 && x.t >= 0 && x.a != x.b && x.a in axis && x.b in axis {
      var i :| 0 <= i < |c| && c[i] == x;
      assert off[i] in off;
    }
  }

  /** The symmetric counts are symmetric, non-negative and on the axis. */
  lemma {:induction false} ScoreCountsSpec(rows: seq<RawRow>, axis: seq<string>)
    ensures Symmetric(ScoreCounts(rows, axis)) && NonNegative(ScoreCounts(rows, axis))
    ensures forall x :: x in ScoreCounts(rows, axis) ==> x.a in axis && x.b in axis
  {
    var c := CoerceKept(OffDiagonal(OnAxis(rows, KeptSet(axis))), true);
    var a := Aggregate(c);
    CoercedOnAxis(rows, axis);
    AggregateKeeps(c);
    SymmetrizeSymmetric(a);
    SymmetrizeFrom(a);
    forall x | x in ScoreCounts(rows, axis) ensures x.w >= 0 && x.l >= 0 && x.t >= 0 && x.a in axis && x.b in axis {
      var y :| y in a && (x == y || x == Mirror(y));
      var z :| z in c && ABKey(z) == ABKey(y);
    }
  }

  /** Every row of a successful score table is valid and has its mirror. */
  lemma {:induction false} BuildScoreTableRows(t: Option<RawTable>, axis: seq<string>, rw: nat, legacy: bool, o: seq<ScoreRow>)
    requires BuildScoreTable(t, axis, rw, legacy) == Success(o)
    ensures forall r :: r in o ==> ScoreRowOk(r, axis, rw, legacy)
    ensures forall r :: r in o ==> r.w + r.l > 0 && Score(Mirror(Dir(r)), rw, legacy) in o
  {
    if o != [] {
      assert o == Sort(Scored(ScoreCounts(t.value.rows, axis), rw, legacy), ScoreLe);
      SortedRowsOk(t.value.rows, axis, rw, legacy, o);
    }
  }

  /** The sorted scored rows are valid and have their mirrors. */
  lemma {:induction false} SortedRowsOk(rows: seq<RawRow>, axis: seq<string>, rw: nat, legacy: bool, o: seq<ScoreRow>)
    requires o == Sort(Scored(ScoreCounts(rows, axis), rw, legacy), ScoreLe)
    ensures forall r :: r in o ==> ScoreRowOk(r, axis, rw, legacy)
    ensures forall r :: r in o ==> r.w + r.l > 0 && Score(Mirror(Dir(r)), rw, legacy) in o
  {
    var e := Scored(ScoreCounts(rows, axis), rw, legacy);
    ScoredRowsOk(rows, axis, rw, legacy);
    SameMembers(e, o);
    RowsOkTransfer(e, o, axis, rw, legacy);
  }

  /** Permuted sequences have the same members. */
  lemma {:induction false} SameMembers<T>(e: seq<T>, o: seq<T>)
    requires multiset(o) == multiset(e)
    ensures forall r :: r in o <==> r in e
  {
    assert forall r :: r in o <==> r in multiset(o);
    assert forall r :: r in e <==> r in multiset(e);
  }

  /** Row validity and mirror presence depend only on the set of rows. */
  lemma {:induction false} RowsOkTransfer(e: seq<ScoreRow>, o: seq<ScoreRow>, axis: seq<string>, rw: nat, legacy: bool)
    requires forall r :: r in o <==> r in e
    requires forall r :: r in e ==> ScoreRowOk(r, axis, rw, legacy) && r.w + r.l > 0 && Score(Mirror(Dir(r)), rw, legacy) in e
    ensures forall r :: r in o ==> ScoreRowOk(r, axis, rw, legacy)
    ensures forall r :: r in o ==> r.w + r.l > 0 && Score(Mirror(Dir(r)), rw, legacy) in o
  {
  }

  /** Every scored row of the symmetric counts is valid and has its mirror. */
  lemma {:induction false} ScoredRowsOk(rows: seq<RawRow>, axis: seq<string>, rw: nat, legacy: bool)
    ensures var e := Scored(ScoreCounts(rows, axis), rw, legacy);
      forall r :: r in e ==> ScoreRowOk(r, axis, rw, legacy) && r.w + r.l > 0 && Score(Mirror(Dir(r)), rw, legacy) in e
  {
    var s := ScoreCounts(rows, axis);
    var e := Scored(s, rw, legacy);
    ScoreCountsSpec(rows, axis);
    ScoredSpec(s, rw, legacy);
    forall r | r in e ensures ScoreRowOk(r, axis, rw, legacy) && r.w + r.l > 0 && Score(Mirror(Dir(r)), rw, legacy) in e {
      var x :| x in s && NDir(x) > 0 && r == Score(x, rw, legacy);
      MirrorInvolution(x);
      assert Mirror(x) in s;
    }
  }

  /** A successful score table is sorted by (Deck A, Deck B) with one row per direction. */
  lemma {:induction false} BuildScoreTableOrder(t: Option<RawTable>, axis: seq<string>, rw: nat, legacy: bool, o: seq<ScoreRow>)
    requires BuildScoreTable(t, axis, rw, legacy) == Success(o)
    ensures Sorted(o, ScoreLe) && DistinctBy(o, SKey)
  {
    if o != [] {
      var s := ScoreCounts(t.value.rows, axis);
      var e := Scored(s, rw, legacy);
      ScoreCountsSpec(t.value.rows, axis);
      ScoredSpec(s, rw, legacy);
      ScoreLeTotalPreorder();
      SortSorted(e, ScoreLe);
      DistinctByPermutation(e, o, SKey);
    }
  }

  /** What `build_score_table_filtered` promises of its output. */
  lemma {:induction false} BuildScoreTableSpec(t: Option<RawTable>, axis: seq<string>, rw: nat, legacy: bool, o: seq<ScoreRow>)
    requires BuildScoreTable(t, axis, rw, legacy) == Success(o)
    ensures ScoreTableOk(o, axis, rw, legacy)
  {
    BuildScoreTableRows(t, axis, rw, legacy, o);
    BuildScoreTableOrder(t, axis, rw, legacy, o);
  }

  // ---- Idempotence ----

  /** A score table read back as a raw table. */
  function ToTable(o: seq<ScoreRow>, legacy: bool): (t: RawTable)
    ensures |t.rows| == |o|
    ensures forall i :: 0 <= i < |o| ==> t.rows[i] == RawRow(o[i].a, o[i].b, Some(o[i].w), Some(o[i].l), Some(o[i].t))
  {
    RawTable(RequiredRaw + {"N", "WR_dir"} + (if legacy then {"Winrate"} else {}),
             seq(|o|, i requires 0 <= i < |o| => RawRow(o[i].a, o[i].b, Some(o[i].w), Some(o[i].l), Some(o[i].t))))
  }

  /** The directions and counts of a score table. */
  function CountsOf(o: seq<ScoreRow>): (c: seq<Counts>)
    ensures |c| == |o| && forall i :: 0 <= i < |o| ==> c[i] == Dir(o[i])
  {
    seq(|o|, i requires 0 <= i < |o| => Dir(o[i]))
  }

  /** Every row of the table, by position, is valid. */
  predicate RowsOk(o: seq<ScoreRow>, axis: seq<string>, rw: nat, legacy: bool)
  {
    forall i :: 0 <= i < |o| ==> ScoreRowOk(o[i], axis, rw, legacy)
  }

  lemma {:induction false} ValidRows(o: seq<ScoreRow>, axis: seq<string>, rw: nat, legacy: bool)
    requires ScoreTableOk(o, axis, rw, legacy)
    ensures RowsOk(o, axis, rw, legacy)
  {
    forall i | 0 <= i < |o| ensures ScoreRowOk(o[i], axis, rw, legacy) {
      assert o[i] in o;
    }
  }

  /** Reading valid rows back passes the axis filter and the diagonal filter unchanged. */
  lemma {:induction false} ToTableFilters(o: seq<ScoreRow>, axis: seq<string>, rw: nat, legacy: bool)
    requires RowsOk(o, axis, rw, legacy)
    ensures var rows := ToTable(o, legacy).rows;
      OnAxis(rows, KeptSet(axis)) == rows && OffDiagonal(rows) == rows
  {
    var rows := ToTable(o, legacy).rows;
    forall x | x in rows ensures x.deckA in KeptSet(axis) && x.deckB in KeptSet(axis) && x.deckA != x.deckB {
      var i :| 0 <= i < |rows| && rows[i] == x;
      assert ScoreRowOk(o[i], axis, rw, legacy);
    }
  }

  /** Coercing valid rows read back gives their directions and counts. */
  lemma {:induction false} ToTableCounts(o: seq<ScoreRow>, axis: seq<string>, rw: nat, legacy: bool)
    requires RowsOk(o, axis, rw, legacy)
    ensures CoerceKept(ToTable(o, legacy).rows, true) == CountsOf(o)
  {
    var rows := ToTable(o, legacy).rows;
    forall i | 0 <= i < |o| ensures CoerceKept(rows, true)[i] == CountsOf(o)[i] {
      assert ScoreRowOk(o[i], axis, rw, legacy);
      assert rows[i] == RawRow(o[i].a, o[i].b, Some(o[i].w), Some(o[i].l), Some(o[i].t));
    }
  }

  /** The directions of a valid table form a symmetric table. */
  lemma {:induction false} CountsOfSymmetric(o: seq<ScoreRow>, axis: seq<string>, rw: nat, legacy: bool)
    requires ScoreTableOk(o, axis, rw, legacy)
    ensures Symmetric(CountsOf(o))
  {
    var c := CountsOf(o);
    forall x | x in c ensures x.a != x.b && Mirror(x) in c {
      var i :| 0 <= i < |c| && c[i] == x;
      assert o[i] in o;
      var m := Score(Mirror(Dir(o[i])), rw, legacy);
      var j :| 0 <= j < |o| && o[j] == m;
      assert c[j] == Mirror(x);
    }
    assert DistinctBy(c, ABKey) by {
      forall i, j | 0 <= i < j < |c| ensures ABKey(c[i]) != ABKey(c[j]) {
        assert SKey(o[i]) != SKey(o[j]);
      }
    }
  }

  /** Scoring the directions of valid rows gives the rows back. */
  lemma {:induction false} ScoredCountsOf(o: seq<ScoreRow>, axis: seq<string>, rw: nat, legacy: bool)
    requires RowsOk(o, axis, rw, legacy)
    ensures Scored(CountsOf(o), rw, legacy) == o
  {
    var c := CountsOf(o);
    forall x | x in c ensures NDir(x) > 0 {
      var i :| 0 <= i < |c| && c[i] == x;
      assert ScoreRowOk(o[i], axis, rw, legacy);
    }
    ScoredAll(c, rw, legacy);
    forall i | 0 <= i < |o| ensures Scored(c, rw, legacy)[i] == o[i] {
      assert ScoreRowOk(o[i], axis, rw, legacy);
      assert Score(c[i], rw, legacy) == o[i];
    }
  }

  /** A valid table is already in its sorted order. */
  lemma {:induction false} SortValid(o: seq<ScoreRow>, axis: seq<string>, rw: nat, legacy: bool)
    requires ScoreTableOk(o, axis, rw, legacy)
    ensures Sort(o, ScoreLe) == o
  {
    SortSortedDistinct(o);
  }

  /** Sorting rows already in order, one per direction, changes nothing. */
  lemma {:induction false} SortSortedDistinct(o: seq<ScoreRow>)
    requires Sorted(o, ScoreLe) && DistinctBy(o, SKey)
    ensures Sort(o, ScoreLe) == o
  {
    ScoreLeTotalPreorder();
    SortSorted(o, ScoreLe);
    forall x, y | x in o && y in o && ScoreLe(x, y) && ScoreLe(y, x) ensures x == y {
      ABLeTies(Dir(x), Dir(y));
      var i :| 0 <= i < |o| && o[i] == x;
      var j :| 0 <= j < |o| && o[j] == y;
      assert SKey(o[i]) == SKey(o[j]);
    }
    SortedUnique(o, Sort(o, ScoreLe), ScoreLe);
  }

  /** A valid table with a row has an axis of at least two decks. */
  lemma {:induction false} TwoDecks(axis: seq<string>, x: string, y: string)
    requires x in axis && y in axis && x != y
    ensures |axis| >= 2
  {
  }

  /** A table read back has the required columns. */
  lemma {:induction false} ToTableColumns(o: seq<ScoreRow>, legacy: bool)
    ensures RequiredRaw <= ToTable(o, legacy).columns
  {
  }

  /** Read back, the symmetric counts of a valid table are its own directions. */
  lemma {:induction false} ToTableScoreCounts(o: seq<ScoreRow>, axis: seq<string>, rw: nat, legacy: bool)
    requires ScoreTableOk(o, axis, rw, legacy)
    ensures ScoreCounts(ToTable(o, legacy).rows, axis) == CountsOf(o)
  {
    var rows := ToTable(o, legacy).rows;
    ValidRows(o, axis, rw, legacy);
    ToTableFilters(o, axis, rw, legacy);
    ToTableCounts(o, axis, rw, legacy);
    var c := CountsOf(o);
    assert CoerceKept(OffDiagonal(OnAxis(rows, KeptSet(axis))), true) == c;
    CountsOfSymmetric(o, axis, rw, legacy);
    AggregateIdentity(c);
    SymmetricFixed(c);
  }

  /** On a non-empty table with the required columns whose rows all pass both filters, the
      score table is the sorted scored symmetric counts. */
  lemma {:induction false} BuildScoreTableFull(t: RawTable, axis: seq<string>, rw: nat, legacy: bool)
    requires !IsEmpty(t) && |axis| >= 2 && RequiredRaw <= t.columns
    requires OnAxis(t.rows, KeptSet(axis)) == t.rows && OffDiagonal(t.rows) == t.rows
    ensures BuildScoreTable(Some(t), axis, rw, legacy) == Success(Sort(Scored(ScoreCounts(t.rows, axis), rw, legacy), ScoreLe))
  {
  }

  /** The table is a fixed point: building the score table from a valid score table gives
      it back, so `build_score_table_filtered` applied to its own output returns the same rows. */
  lemma {:induction false} ScoreTableFixed(o: seq<ScoreRow>, axis: seq<string>, rw: nat, legacy: bool)
    requires ScoreTableOk(o, axis, rw, legacy)
    ensures BuildScoreTable(Some(ToTable(o, legacy)), axis, rw, legacy) == Success(o)
  {
    if o != [] {
      var t := ToTable(o, legacy);
      assert o[0] in o;
      TwoDecks(axis, o[0].a, o[0].b);
      ToTableColumns(o, legacy);
      ValidRows(o, axis, rw, legacy);
      ToTableFilters(o, axis, rw, legacy);
      BuildScoreTableFull(t, axis, rw, legacy);
      ToTableScoreCounts(o, axis, rw, legacy);
      ScoredCountsOf(o, axis, rw, legacy);
      SortValid(o, axis, rw, legacy);
    }
  }

  /** Idempotence: re-applying `build_score_table_filtered` to its output changes nothing. */
  lemma {:induction false} BuildScoreTableIdempotent(t: Option<RawTable>, axis: seq<string>, rw: nat, legacy: bool, o: seq<ScoreRow>)
    requires BuildScoreTable(t, axis, rw, legacy) == Success(o)
    ensures BuildScoreTable(Some(ToTable(o, legacy)), axis, rw, legacy) == Success(o)
  {
    BuildScoreTableSpec(t, axis, rw, legacy, o);
    ScoreTableFixed(o, axis, rw, legacy);
  }
}

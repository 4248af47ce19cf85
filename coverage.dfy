/** Observed coverage of the final deck axis: for every deck, how many opponents it has
    data against, how many are missing, and the long list of missing directed pairs. The
    W+L matrix is given already reindexed on the axis. */
module Coverage {
  import opened Wrappers
  import opened Numeric
  import opened Matrix
  import opened Text
  import opened Sorting

  /** A → B is observed: another deck with a positive count once undefined is read as 0. */
  predicate Observed(m: Mat, a: nat, b: nat)
    requires a < |m| && b < |m[a]|
  {
    a != b && PositiveCell(m[a][b])
  }

  /** A → B is listed as missing: another deck whose count is ≤ 0 or undefined. */
  predicate MissingCell(m: Mat, a: nat, b: nat)
    requires a < |m| && b < |m[a]|
  {
    a != b && (m[a][b].None? || m[a][b].value <= 0.0)
  }

  /** Number of observed opponents among the first j columns of row a. */
  function ObsCount(m: Mat, a: nat, j: nat): (r: nat)
    requires a < |m| && j <= |m[a]|
    ensures r <= j - (if a < j then 1 else 0)
  {
    if j == 0 then 0 else ObsCount(m, a, j - 1) + (if Observed(m, a, j - 1) then 1 else 0)
  }

  /** The missing opponents among the first j columns of row a, in axis order. */
  function MissingIdx(m: Mat, a: nat, j: nat): (r: seq<nat>)
    requires a < |m| && j <= |m[a]|
    ensures forall k :: 0 <= k < |r| ==> r[k] < j && MissingCell(m, a, r[k])
  {
    if j == 0 then [] else MissingIdx(m, a, j - 1) + (if MissingCell(m, a, j - 1) then [j - 1] else [])
  }

  /** Every missing column below j is in the missing list. */
  lemma {:induction false} MissingIdxComplete(m: Mat, a: nat, j: nat)
    requires a < |m| && j <= |m[a]|
    ensures forall b: nat :: b < j && MissingCell(m, a, b) ==> b in MissingIdx(m, a, j)
  {
    if j > 0 {
      MissingIdxComplete(m, a, j - 1);
    }
  }

  /** The missing list is in axis order. */
  lemma {:induction false} MissingIdxAscending(m: Mat, a: nat, j: nat)
    requires a < |m| && j <= |m[a]|
    ensures forall k, l :: 0 <= k < l < |MissingIdx(m, a, j)| ==> MissingIdx(m, a, j)[k] < MissingIdx(m, a, j)[l]
  {
    if j > 0 {
      MissingIdxAscending(m, a, j - 1);
    }
  }

  /** With the observed opponents the missing ones account for every other deck. */
  lemma {:induction false} MissingIdxCount(m: Mat, a: nat, j: nat)
    requires a < |m| && j <= |m[a]|
    ensures |MissingIdx(m, a, j)| + ObsCount(m, a, j) == j - (if a < j then 1 else 0)
  {
    if j > 0 {
      MissingIdxCount(m, a, j - 1);
    }
  }

  /** `Opp_used`: observed opponents of deck a. */
  function OppUsed(m: Mat, a: nat): (r: nat)
    requires IsSquare(m, |m|) && a < |m|
    ensures r <= |m| - 1
  {
    ObsCount(m, a, |m|)
  }

  /** One line of the coverage table. */
  datatype CoverageRow = CoverageRow(deck: string, oppUsed: nat, oppTotal: int, missing: int,
                                     coveragePct: real, nEff: real, missingSample: string)

  /** The first five missing opponents of deck a, in axis order, joined by ", ". */
  function SampleNames(axis: seq<string>, m: Mat, a: nat): (r: seq<string>)
    requires IsSquare(m, |axis|) && a < |axis|
  {
    var idx := MissingIdx(m, a, |axis|);
    seq(MinInt(5, |idx|), k requires 0 <= k < MinInt(5, |idx|) => axis[idx[k]])
  }

  /** The sample is the start of the missing list: as many names as there are missing
      opponents, up to five, each the name of the missing opponent at that place. */
  lemma {:induction false} SampleIsMissing(axis: seq<string>, m: Mat, a: nat)
    requires IsSquare(m, |axis|) && a < |axis|
    ensures |SampleNames(axis, m, a)| == MinInt(5, |axis| - 1 - OppUsed(m, a))
    ensures forall k :: 0 <= k < |SampleNames(axis, m, a)| ==>
      k < |MissingIdx(m, a, |axis|)| && SampleNames(axis, m, a)[k] == axis[MissingIdx(m, a, |axis|)[k]]
  {
    MissingIdxCount(m, a, |axis|);
  }

  /** With at most five missing opponents, the sample names every one of them. */
  lemma {:induction false} SampleIsComplete(axis: seq<string>, m: Mat, a: nat)
    requires IsSquare(m, |axis|) && a < |axis|
    requires |axis| - 1 - OppUsed(m, a) <= 5
    ensures forall b :: 0 <= b < |axis| && MissingCell(m, a, b) ==> axis[b] in SampleNames(axis, m, a)
  {
    var idx := MissingIdx(m, a, |axis|);
    MissingIdxCount(m, a, |axis|);
    MissingIdxComplete(m, a, |axis|);
    var s := SampleNames(axis, m, a);
    forall b | 0 <= b < |axis| && MissingCell(m, a, b) ensures axis[b] in s {
      var k :| 0 <= k < |idx| && idx[k] == b;
      assert s[k] == axis[b];
    }
  }

  /** The coverage line of deck a before sorting. */
  function RowOf(axis: seq<string>, m: Mat, a: nat): (r: CoverageRow)
    requires IsSquare(m, |axis|) && a < |axis|
  {
    var used := OppUsed(m, a);
    var total := |axis| - 1;
    CoverageRow(axis[a], used, total, total - used,
                used as real / MaxInt(total, 1) as real * 100.0,
                SumSkipNa(m[a]), Join(", ", SampleNames(axis, m, a)))
  }

  /** Each line: the deck's name, T-1 possible opponents, Missing = Opp_total - Opp_used
      = the number of listed missing opponents, and a coverage percentage in [0, 100]. */
  lemma {:induction false} RowOfFacts(axis: seq<string>, m: Mat, a: nat)
    requires IsSquare(m, |axis|) && a < |axis|
    ensures RowOf(axis, m, a).deck == axis[a]
    ensures RowOf(axis, m, a).oppTotal == |axis| - 1 >= RowOf(axis, m, a).oppUsed
    ensures RowOf(axis, m, a).missing == RowOf(axis, m, a).oppTotal - RowOf(axis, m, a).oppUsed
    ensures RowOf(axis, m, a).missing == |MissingIdx(m, a, |axis|)|
    ensures 0.0 <= RowOf(axis, m, a).coveragePct <= 100.0
  {
    MissingIdxCount(m, a, |axis|);
    PercentOf(OppUsed(m, a), MaxInt(|axis| - 1, 1));
  }

  /** A count out of at most d, as a percentage of d. */
  lemma {:induction false} PercentOf(x: nat, d: int)
    requires x <= d && d > 0
    ensures 0.0 <= x as real / d as real * 100.0 <= 100.0
  {
    var q := x as real / d as real;
    assert 0.0 <= q <= 1.0 by {
      DivLessThanOrOne(x as real, d as real);
    }
  }

  lemma {:induction false} DivLessThanOrOne(x: real, d: real)
    requires 0.0 <= x <= d && d > 0.0
    ensures 0.0 <= x / d <= 1.0
  {
  }

  /** Sort key of the coverage table: Missing descending, then Opp_used ascending, then
      the deck name ascending. */
  predicate CoverageLe(x: CoverageRow, y: CoverageRow)
  {
    x.missing > y.missing
    || (x.missing == y.missing && (x.oppUsed < y.oppUsed || (x.oppUsed == y.oppUsed && LessEq(x.deck, y.deck))))
  }

  lemma {:induction false} CoverageLeTotalPreorder()
    ensures TotalPreorder(CoverageLe)
  {
    forall x: CoverageRow, y: CoverageRow ensures CoverageLe(x, y) || CoverageLe(y, x) {
      LessEqTotal(x.deck, y.deck);
    }
    forall x: CoverageRow, y: CoverageRow, z: CoverageRow | CoverageLe(x, y) && CoverageLe(y, z)
      ensures CoverageLe(x, z)
    {
      if x.missing == y.missing == z.missing && x.oppUsed == y.oppUsed == z.oppUsed {
        LessEqTransitive(x.deck, y.deck, z.deck);
      }
    }
  }

  /** Sort key of the missing-pairs table: (Deck, Missing_opponent) ascending. */
  predicate PairLe(x: (string, string), y: (string, string))
  {
    Less(x.0, y.0) || (x.0 == y.0 && LessEq(x.1, y.1))
  }

  lemma {:induction false} PairLeTotalPreorder()
    ensures TotalPreorder(PairLe)
  {
    forall x: (string, string), y: (string, string) ensures PairLe(x, y) || PairLe(y, x) {
      LessTotal(x.0, y.0);
      LessEqTotal(x.1, y.1);
    }
    forall x: (string, string), y: (string, string), z: (string, string) | PairLe(x, y) && PairLe(y, z)
      ensures PairLe(x, z)
    {
      LessIrreflexive(x.0);
      LessIrreflexive(y.0);
      if x.0 == y.0 == z.0 {
        LessEqTransitive(x.1, y.1, z.1);
      } else if x.0 == y.0 || y.0 == z.0 {
      } else {
        LessTransitive(x.0, y.0, z.0);
      }
    }
  }

  /** The missing pairs of row a among the first j columns, as the inner loop appends them. */
  function RowPairs(axis: seq<string>, m: Mat, a: nat, j: nat): seq<(string, string)>
    requires IsSquare(m, |axis|) && a < |axis| && j <= |axis|
  {
    if j == 0 then []
    else RowPairs(axis, m, a, j - 1) + (if MissingCell(m, a, j - 1) then [(axis[a], axis[j - 1])] else [])
  }

  /** The missing pairs of the first i rows. */
  function PairsBefore(axis: seq<string>, m: Mat, i: nat): seq<(string, string)>
    requires IsSquare(m, |axis|) && i <= |axis|
  {
    if i == 0 then [] else PairsBefore(axis, m, i - 1) + RowPairs(axis, m, i - 1, |axis|)
  }

  /** Row a contributes its missing opponents in axis order, each tagged with deck a. */
  lemma {:induction false} RowPairsAreMissing(axis: seq<string>, m: Mat, a: nat, j: nat)
    requires IsSquare(m, |axis|) && a < |axis| && j <= |axis|
    ensures |RowPairs(axis, m, a, j)| == |MissingIdx(m, a, j)|
    ensures forall k :: 0 <= k < |RowPairs(axis, m, a, j)| ==>
      RowPairs(axis, m, a, j)[k] == (axis[a], axis[MissingIdx(m, a, j)[k]])
  {
    if j > 0 {
      RowPairsAreMissing(axis, m, a, j - 1);
    }
  }

  /** Every missing cell of the first i rows is listed. */
  lemma {:induction false} PairsBeforeComplete(axis: seq<string>, m: Mat, i: nat)
    requires IsSquare(m, |axis|) && i <= |axis|
    ensures forall a, b :: 0 <= a < i && 0 <= b < |axis| && MissingCell(m, a, b) ==>
      (axis[a], axis[b]) in PairsBefore(axis, m, i)
  {
    if i > 0 {
      PairsBeforeComplete(axis, m, i - 1);
      var a := i - 1;
      var prev := PairsBefore(axis, m, a);
      var rp := RowPairs(axis, m, a, |axis|);
      assert PairsBefore(axis, m, i) == prev + rp;
      var idx := MissingIdx(m, a, |axis|);
      RowPairsAreMissing(axis, m, a, |axis|);
      MissingIdxComplete(m, a, |axis|);
      forall x, b | 0 <= x < i && 0 <= b < |axis| && MissingCell(m, x, b)
        ensures (axis[x], axis[b]) in prev + rp
      {
        if x < a {
          assert (axis[x], axis[b]) in prev;
        } else {
          assert b in idx;
          var k :| 0 <= k < |idx| && idx[k] == b;
          assert rp[k] == (axis[a], axis[b]);
          assert rp[k] in rp;
        }
      }
    }
  }

  /** Every listed pair is a missing cell of the first i rows. */
  lemma {:induction false} PairsBeforeSound(axis: seq<string>, m: Mat, i: nat)
    requires IsSquare(m, |axis|) && i <= |axis|
    ensures forall p :: p in PairsBefore(axis, m, i) ==>
      exists a, b :: 0 <= a < i && 0 <= b < |axis| && MissingCell(m, a, b) && p == (axis[a], axis[b])
  {
    if i > 0 {
      PairsBeforeSound(axis, m, i - 1);
      var a := i - 1;
      var rp := RowPairs(axis, m, a, |axis|);
      var idx := MissingIdx(m, a, |axis|);
      RowPairsAreMissing(axis, m, a, |axis|);
      forall p | p in rp
        ensures exists b :: 0 <= b < |axis| && MissingCell(m, a, b) && p == (axis[a], axis[b])
      {
        var k :| 0 <= k < |rp| && rp[k] == p;
        assert p == (axis[a], axis[idx[k]]);
      }
    }
  }

  /** Number of pairs whose first deck is u. */
  function CountFirst(ps: seq<(string, string)>, u: string): nat
  {
    if ps == [] then 0 else CountFirst(ps[..|ps| - 1], u) + (if ps[|ps| - 1].0 == u then 1 else 0)
  }

  lemma {:induction false} CountFirstAppend(ps: seq<(string, string)>, qs: seq<(string, string)>, u: string)
    ensures CountFirst(ps + qs, u) == CountFirst(ps, u) + CountFirst(qs, u)
  {
    if qs != [] {
      assert (ps + qs)[..|ps + qs| - 1] == ps + qs[..|qs| - 1];
      assert (ps + qs)[|ps + qs| - 1] == qs[|qs| - 1];
      CountFirstAppend(ps, qs[..|qs| - 1], u);
    } else {
      assert ps + qs == ps;
    }
  }

  /** All pairs of row a start with axis[a]. */
  lemma {:induction false} CountFirstRow(axis: seq<string>, m: Mat, a: nat, j: nat, u: string)
    requires IsSquare(m, |axis|) && a < |axis| && j <= |axis|
    ensures CountFirst(RowPairs(axis, m, a, j), u) == if u == axis[a] then |MissingIdx(m, a, j)| else 0
  {
    if j > 0 {
      CountFirstRow(axis, m, a, j - 1, u);
      var tail := if MissingCell(m, a, j - 1) then [(axis[a], axis[j - 1])] else [];
      CountFirstAppend(RowPairs(axis, m, a, j - 1), tail, u);
      if tail != [] {
        assert tail[..0] == [];
      }
    }
  }

  predicate Distinct(axis: seq<string>)
  {
    forall x, y :: 0 <= x < y < |axis| ==> axis[x] != axis[y]
  }

  /** On an axis without duplicates, each deck has as many missing pairs as its Missing. */
  lemma {:induction false} PairsPerDeck(axis: seq<string>, m: Mat, i: nat, a: nat)
    requires IsSquare(m, |axis|) && i <= |axis| && a < |axis| && Distinct(axis)
    ensures CountFirst(PairsBefore(axis, m, i), axis[a]) == if a < i then |axis| - 1 - OppUsed(m, a) else 0
  {
    if i > 0 {
      var x := i - 1;
      PairsPerDeck(axis, m, x, a);
      var prev := PairsBefore(axis, m, x);
      var rp := RowPairs(axis, m, x, |axis|);
      assert PairsBefore(axis, m, i) == prev + rp;
      CountFirstAppend(prev, rp, axis[a]);
      CountFirstRow(axis, m, x, |axis|, axis[a]);
      if x == a {
        MissingIdxCount(m, a, |axis|);
      } else {
        assert axis[x] != axis[a];
      }
    }
  }

  /** The per-deck loop collecting the "Missing_sample" strings. */
  method MissSamples(axis: seq<string>, m: Mat) returns (samples: seq<string>)
    requires IsSquare(m, |axis|)
    ensures |samples| == |axis|
    ensures forall a :: 0 <= a < |axis| ==> samples[a] == Join(", ", SampleNames(axis, m, a))
  {
    samples := [];
    for a := 0 to |axis|
      invariant |samples| == a
      invariant forall x :: 0 <= x < a ==> samples[x] == Join(", ", SampleNames(axis, m, x))
    {
      samples := samples + [Join(", ", SampleNames(axis, m, a))];
    }
  }

  /** The nested loop collecting the missing directed pairs, rows in axis order. */
  method MissingPairs(axis: seq<string>, m: Mat) returns (pairs: seq<(string, string)>)
    requires IsSquare(m, |axis|)
    ensures pairs == PairsBefore(axis, m, |axis|)
  {
    pairs := [];
    var a := 0;
    while a < |axis|
      invariant a <= |axis| && pairs == PairsBefore(axis, m, a)
    {
      var b := 0;
      while b < |axis|
        invariant b <= |axis| && pairs == PairsBefore(axis, m, a) + RowPairs(axis, m, a, b)
      {
        if a != b && (m[a][b].None? || m[a][b].value <= 0.0) {
          pairs := pairs + [(axis[a], axis[b])];
        }
        b := b + 1;
      }
      a := a + 1;
    }
  }

  /** `coverage_tables`: the coverage lines sorted by (Missing desc, Opp_used asc, Deck
      asc), and the missing pairs sorted by (Deck, Missing_opponent). */
  method CoverageTables(axis: seq<string>, m: Mat)
    returns (coverage: seq<CoverageRow>, missingPairs: seq<(string, string)>)
    requires IsSquare(m, |axis|)
    ensures multiset(coverage) == multiset(seq(|axis|, a requires 0 <= a < |axis| => RowOf(axis, m, a)))
    ensures Sorted(coverage, CoverageLe)
    ensures multiset(missingPairs) == multiset(PairsBefore(axis, m, |axis|))
    ensures Sorted(missingPairs, PairLe)
  {
    var samples := MissSamples(axis, m);
    var rows := seq(|axis|, a requires 0 <= a < |axis| =>
      var used := OppUsed(m, a);
      var total := |axis| - 1;
      CoverageRow(axis[a], used, total, total - used,
                  used as real / MaxInt(total, 1) as real * 100.0, SumSkipNa(m[a]), samples[a]));
    assert rows == seq(|axis|, a requires 0 <= a < |axis| => RowOf(axis, m, a));
    CoverageLeTotalPreorder();
    SortSorted(rows, CoverageLe);
    coverage := Sort(rows, CoverageLe);
    var pairs := MissingPairs(axis, m);
    PairLeTotalPreorder();
    SortSorted(pairs, PairLe);
    missingPairs := Sort(pairs, PairLe);
  }
}

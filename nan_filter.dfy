/** The iterative NaN filter on the win-rate matrix: while more than two decks remain and
    some deck has more undefined opponents than a threshold fixed from the initial size,
    every deck with the largest excess is dropped as both row and column.

    Decks are addressed by their position on the original axis; the current matrix is the
    original one restricted to the positions in `cur`. */
module NanFilter {
  import opened Wrappers
  import opened Numeric
  import opened Matrix

  /** A win-rate matrix with its deck axis on both rows and columns. */
  datatype WrFrame = WrFrame(axis: seq<string>, cells: Mat)

  predicate Valid(f: WrFrame) { IsSquare(f.cells, |f.axis|) }

  /** Positions below n. */
  predicate InRange(cur: seq<nat>, n: nat) { forall j :: 0 <= j < |cur| ==> cur[j] < n }

  /** Positions in axis order. */
  predicate Increasing(cur: seq<nat>) { forall i, j :: 0 <= i < j < |cur| ==> cur[i] < cur[j] }

  /** The positions of the whole axis. */
  function Range(n: nat): (r: seq<nat>)
    ensures |r| == n && InRange(r, n) && Increasing(r)
    ensures forall j :: 0 <= j < n ==> r[j] == j
  {
    seq(n, j => j)
  }

  /** The threshold: the opponents times the ratio, rounded down (or up with `use_ceil`),
      and at least `min_nan_allowed`. It depends only on the initial axis length. */
  function Allowed(n: nat, ratio: real, minAllowed: int, useCeil: bool): (a: int)
    ensures a >= minAllowed
    ensures var base := (if n > 0 then n - 1 else 0) as real * ratio;
      && (useCeil ==> base <= a as real)
      && (!useCeil ==> base < a as real + 1.0)
      && (a == minAllowed || (useCeil && (a - 1) as real < base) || (!useCeil && a as real <= base))
  {
    var base := (if n > 0 then n - 1 else 0) as real * ratio;
    MaxInt(minAllowed, if useCeil then Ceil(base) else base.Floor)
  }

  /** `isna().sum(axis=1)` of row i over the columns in cur. */
  function RowNan(m: Mat, n: nat, i: nat, cur: seq<nat>): (c: nat)
    requires IsSquare(m, n) && i < n && InRange(cur, n)
    ensures c <= |cur|
  {
    if cur == [] then 0
    else RowNan(m, n, i, cur[..|cur| - 1]) + (if m[i][cur[|cur| - 1]].None? then 1 else 0)
  }

  /** The undefined cells of row i against the other decks of cur. */
  function Gaps(m: Mat, n: nat, i: nat, cur: seq<nat>): (c: nat)
    requires IsSquare(m, n) && i < n && InRange(cur, n)
    ensures c <= |cur|
  {
    if cur == [] then 0
    else
      var j := cur[|cur| - 1];
      Gaps(m, n, i, cur[..|cur| - 1]) + (if j != i && m[i][j].None? then 1 else 0)
  }

  /** `_offdiag_nan_counts`: the row count minus the diagonal's own undefined cell. */
  function OffDiagNan(m: Mat, n: nat, i: nat, cur: seq<nat>): int
    requires IsSquare(m, n) && i < n && InRange(cur, n)
  {
    RowNan(m, n, i, cur) - (if m[i][i].None? then 1 else 0)
  }

  /** The row count is the count over the other decks plus the diagonal cell when i is
      one of the decks once. */
  lemma {:induction false} RowNanSplit(m: Mat, n: nat, i: nat, cur: seq<nat>)
    requires IsSquare(m, n) && i < n && InRange(cur, n) && Increasing(cur)
    ensures RowNan(m, n, i, cur) == Gaps(m, n, i, cur) + (if i in cur && m[i][i].None? then 1 else 0)
  {
    if cur != [] {
      var front := cur[..|cur| - 1];
      RowNanSplit(m, n, i, front);
      assert forall x :: x in cur <==> x in front || x == cur[|cur| - 1];
      if cur[|cur| - 1] == i {
        assert i !in front by {
          forall k | 0 <= k < |front| ensures front[k] != i {
            assert cur[k] < cur[|cur| - 1];
          }
        }
      }
    }
  }

  /** The per-deck count excludes the diagonal cell: it is the count of undefined cells
      against the other current decks. */
  lemma {:induction false} OffDiagNanExcludesDiagonal(m: Mat, n: nat, i: nat, cur: seq<nat>)
    requires IsSquare(m, n) && i < n && InRange(cur, n) && Increasing(cur) && i in cur
    ensures OffDiagNan(m, n, i, cur) == Gaps(m, n, i, cur)
  {
    RowNanSplit(m, n, i, cur);
  }

  /** `counts - allowed`: the excess of every current deck, in the order of cur. */
  function Over(m: Mat, n: nat, cur: seq<nat>, allowed: int): (ex: seq<int>)
    requires IsSquare(m, n) && InRange(cur, n)
    ensures |ex| == |cur| && forall k :: 0 <= k < |cur| ==> ex[k] == OffDiagNan(m, n, cur[k], cur) - allowed
  {
    seq(|cur|, k requires 0 <= k < |cur| => OffDiagNan(m, n, cur[k], cur) - allowed)
  }

  /** The largest entry (`over.max()`). */
  function MaxOf(ex: seq<int>): (e: int)
    requires ex != []
    ensures forall k :: 0 <= k < |ex| ==> ex[k] <= e
    ensures exists k :: 0 <= k < |ex| && ex[k] == e
  {
    if |ex| == 1 then ex[0]
    else
      var front := ex[..|ex| - 1];
      assert forall k :: 0 <= k < |front| ==> ex[k] == front[k];
      MaxInt(MaxOf(front), ex[|ex| - 1])
  }

  /** The decks whose excess is e (`over[over == exceed].index`), in order. */
  function Pick(cur: seq<nat>, ex: seq<int>, e: int): (r: seq<nat>)
    requires |ex| == |cur|
  {
    if cur == [] then []
    else Pick(cur[..|cur| - 1], ex[..|ex| - 1], e) + (if ex[|ex| - 1] == e then [cur[|cur| - 1]] else [])
  }

  /** The decks whose excess is not e: what `drop` leaves, in order. */
  function Rest(cur: seq<nat>, ex: seq<int>, e: int): (r: seq<nat>)
    requires |ex| == |cur|
  {
    if cur == [] then []
    else Rest(cur[..|cur| - 1], ex[..|ex| - 1], e) + (if ex[|ex| - 1] != e then [cur[|cur| - 1]] else [])
  }

  /** A deck is picked exactly when its excess is e. */
  lemma {:induction false} PickMembers(cur: seq<nat>, ex: seq<int>, e: int)
    requires |ex| == |cur|
    ensures forall k :: 0 <= k < |cur| && ex[k] == e ==> cur[k] in Pick(cur, ex, e)
    ensures forall x :: x in Pick(cur, ex, e) ==> exists k :: 0 <= k < |cur| && cur[k] == x && ex[k] == e
  {
    if cur != [] {
      var front, fx := cur[..|cur| - 1], ex[..|ex| - 1];
      PickMembers(front, fx, e);
      assert forall k :: 0 <= k < |front| ==> cur[k] == front[k] && ex[k] == fx[k];
    }
  }

  /** The rest holds decks of cur. */
  lemma {:induction false} RestMembers(cur: seq<nat>, ex: seq<int>, e: int)
    requires |ex| == |cur|
    ensures forall x :: x in Rest(cur, ex, e) ==> exists k :: 0 <= k < |cur| && cur[k] == x
  {
    if cur != [] {
      var front, fx := cur[..|cur| - 1], ex[..|ex| - 1];
      RestMembers(front, fx, e);
      assert forall k :: 0 <= k < |front| ==> cur[k] == front[k];
    }
  }

  /** Every deck goes to exactly one side. */
  lemma {:induction false} PickSplit(cur: seq<nat>, ex: seq<int>, e: int)
    requires |ex| == |cur|
    ensures multiset(Pick(cur, ex, e)) + multiset(Rest(cur, ex, e)) == multiset(cur)
  {
    if cur != [] {
      var front, fx, x := cur[..|cur| - 1], ex[..|ex| - 1], cur[|cur| - 1];
      PickSplit(front, fx, e);
      assert cur == front + [x];
      var h, g := if ex[|ex| - 1] == e then [x] else [], if ex[|ex| - 1] != e then [x] else [];
      assert multiset(h) + multiset(g) == multiset{x};
      calc {
        multiset(Pick(cur, ex, e)) + multiset(Rest(cur, ex, e));
        multiset(Pick(front, fx, e) + h) + multiset(Rest(front, fx, e) + g);
        multiset(Pick(front, fx, e)) + multiset(Rest(front, fx, e)) + (multiset(h) + multiset(g));
        multiset(front) + multiset{x};
      }
    }
  }

  /** Both sides keep the axis order. */
  lemma {:induction false} PickIncreasing(cur: seq<nat>, ex: seq<int>, e: int)
    requires |ex| == |cur| && Increasing(cur)
    ensures Increasing(Pick(cur, ex, e)) && Increasing(Rest(cur, ex, e))
  {
    if cur != [] {
      var front, fx, x := cur[..|cur| - 1], ex[..|ex| - 1], cur[|cur| - 1];
      assert Increasing(front);
      PickIncreasing(front, fx, e);
      PickMembers(front, fx, e);
      RestMembers(front, fx, e);
      assert forall k :: 0 <= k < |front| ==> front[k] < x by {
        forall k | 0 <= k < |front| ensures front[k] < x {
          assert cur[k] == front[k];
        }
      }
      IncreasingSnoc(Pick(front, fx, e), x);
      IncreasingSnoc(Rest(front, fx, e), x);
    }
  }

  lemma {:induction false} IncreasingSnoc(s: seq<nat>, x: nat)
    requires Increasing(s) && forall y :: y in s ==> y < x
    ensures Increasing(s + [x])
  {
    forall i, j | 0 <= i < j < |s + [x]| ensures (s + [x])[i] < (s + [x])[j] {
      if j == |s| {
        assert s[i] in s;
      }
    }
  }

  /** The outcome of the loop: the remaining decks and the dropped ones, in drop order. */
  datatype Outcome = Outcome(kept: seq<nat>, dropped: seq<nat>)

  /** A round is due: more than two decks remain and some deck exceeds the threshold. */
  predicate Due(m: Mat, n: nat, cur: seq<nat>, allowed: int)
    requires IsSquare(m, n) && InRange(cur, n)
  {
    |cur| > 2 && MaxOf(Over(m, n, cur, allowed)) > 0
  }

  /** The decks a due round drops: those with the largest excess. */
  function Dropped(m: Mat, n: nat, cur: seq<nat>, allowed: int): (r: seq<nat>)
    requires IsSquare(m, n) && InRange(cur, n) && Due(m, n, cur, allowed)
    ensures InRange(r, n)
  {
    var ex := Over(m, n, cur, allowed);
    RestBounds(cur, ex, MaxOf(ex), n);
    Pick(cur, ex, MaxOf(ex))
  }

  /** The decks a due round keeps, a strictly shorter list. */
  function Remaining(m: Mat, n: nat, cur: seq<nat>, allowed: int): (r: seq<nat>)
    requires IsSquare(m, n) && InRange(cur, n) && Due(m, n, cur, allowed)
    ensures InRange(r, n) && |r| < |cur|
    ensures multiset(Dropped(m, n, cur, allowed)) + multiset(r) == multiset(cur)
    ensures Increasing(cur) ==> Increasing(r)
  {
    var ex := Over(m, n, cur, allowed);
    RestBounds(cur, ex, MaxOf(ex), n);
    Rest(cur, ex, MaxOf(ex))
  }

  /** When some excess is e the rest is shorter, and it stays within range and in order. */
  lemma {:induction false} RestBounds(cur: seq<nat>, ex: seq<int>, e: int, n: nat)
    requires |ex| == |cur| && InRange(cur, n) && exists k :: 0 <= k < |ex| && ex[k] == e
    ensures InRange(Rest(cur, ex, e), n) && InRange(Pick(cur, ex, e), n) && |Rest(cur, ex, e)| < |cur|
    ensures multiset(Pick(cur, ex, e)) + multiset(Rest(cur, ex, e)) == multiset(cur)
    ensures Increasing(cur) ==> Increasing(Rest(cur, ex, e))
  {
    var p, r := Pick(cur, ex, e), Rest(cur, ex, e);
    PickSplit(cur, ex, e);
    if Increasing(cur) {
      PickIncreasing(cur, ex, e);
    }
    PickNonEmpty(cur, ex, e);
    SplitLengths(p, r, cur);
    SubInRange(p, cur, n);
    SubInRange(r, cur, n);
  }

  /** Some deck has the excess e, so the pick is not empty. */
  lemma {:induction false} PickNonEmpty(cur: seq<nat>, ex: seq<int>, e: int)
    requires |ex| == |cur| && exists k :: 0 <= k < |ex| && ex[k] == e
    ensures Pick(cur, ex, e) != []
  {
    PickMembers(cur, ex, e);
    var k :| 0 <= k < |ex| && ex[k] == e;
    assert cur[k] in Pick(cur, ex, e);
  }

  /** The parts of a split with a non-empty first part have a shorter second part. */
  lemma {:induction false} SplitLengths(p: seq<nat>, r: seq<nat>, cur: seq<nat>)
    requires multiset(p) + multiset(r) == multiset(cur) && p != []
    ensures |r| < |cur|
  {
    assert |multiset(p)| + |multiset(r)| == |multiset(cur)|;
    assert p[0] in multiset(p);
  }

  /** A sub-multiset of in-range decks is in range. */
  lemma {:induction false} SubInRange(p: seq<nat>, cur: seq<nat>, n: nat)
    requires InRange(cur, n) && multiset(p) <= multiset(cur)
    ensures InRange(p, n)
  {
    forall j | 0 <= j < |p| ensures p[j] < n {
      assert p[j] in multiset(cur);
    }
  }

  /** One round drops the decks with the largest positive excess; the loop stops at two
      decks or fewer, or when no deck exceeds the threshold. Each round drops at least
      one deck, so the recursion ends. */
  function Rounds(m: Mat, n: nat, cur: seq<nat>, allowed: int): (o: Outcome)
    requires IsSquare(m, n) && InRange(cur, n)
    ensures InRange(o.kept, n) && InRange(o.dropped, n)
    decreases |cur|
  {
    if !Due(m, n, cur, allowed) then Outcome(cur, [])
    else
      var o := Rounds(m, n, Remaining(m, n, cur, allowed), allowed);
      Outcome(o.kept, Dropped(m, n, cur, allowed) + o.dropped)
  }

  /** On exit, more than two decks remain only when none exceeds the threshold. */
  lemma {:induction false} RoundsExit(m: Mat, n: nat, cur: seq<nat>, allowed: int)
    requires IsSquare(m, n) && InRange(cur, n)
    ensures var k := Rounds(m, n, cur, allowed).kept;
      InRange(k, n) && (|k| <= 2 || forall j :: 0 <= j < |k| ==> OffDiagNan(m, n, k[j], k) <= allowed)
    decreases |cur|
  {
    if Due(m, n, cur, allowed) {
      RoundsExit(m, n, Remaining(m, n, cur, allowed), allowed);
    } else if |cur| > 2 {
      var ex := Over(m, n, cur, allowed);
      assert forall j :: 0 <= j < |cur| ==> ex[j] <= 0;
    }
  }

  /** The remaining decks, in axis order, and the dropped decks partition the decks the
      loop starts from. */
  lemma {:induction false} RoundsPartition(m: Mat, n: nat, cur: seq<nat>, allowed: int)
    requires IsSquare(m, n) && InRange(cur, n)
    ensures var o := Rounds(m, n, cur, allowed);
      multiset(o.kept) + multiset(o.dropped) == multiset(cur)
      && (Increasing(cur) ==> Increasing(o.kept))
    decreases |cur|
  {
    if Due(m, n, cur, allowed) {
      RoundsPartition(m, n, Remaining(m, n, cur, allowed), allowed);
    }
  }

  /** A round drops exactly the decks whose excess equals the largest one, which is
      positive; the others all have a smaller excess. */
  lemma {:induction false} DroppedSpec(m: Mat, n: nat, cur: seq<nat>, allowed: int)
    requires IsSquare(m, n) && InRange(cur, n) && Due(m, n, cur, allowed)
    ensures var e := MaxOf(Over(m, n, cur, allowed));
      && e > 0
      && (forall k :: 0 <= k < |cur| ==> OffDiagNan(m, n, cur[k], cur) - allowed <= e)
      && (forall k :: 0 <= k < |cur| && OffDiagNan(m, n, cur[k], cur) - allowed == e ==> cur[k] in Dropped(m, n, cur, allowed))
      && (forall x :: x in Dropped(m, n, cur, allowed) ==> exists k :: 0 <= k < |cur| && cur[k] == x && OffDiagNan(m, n, x, cur) - allowed == e)
  {
    var ex := Over(m, n, cur, allowed);
    PickMembers(cur, ex, MaxOf(ex));
  }

  /** From the whole axis: the remaining decks in axis order and the dropped decks
      partition it, and when more than two decks remain each has at most `allowed`
      undefined cells against the other remaining decks. */
  lemma {:induction false} FilterOutcome(m: Mat, n: nat, allowed: int)
    requires IsSquare(m, n)
    ensures var o := Rounds(m, n, Range(n), allowed);
      && Increasing(o.kept)
      && multiset(o.kept) + multiset(o.dropped) == multiset(Range(n))
      && (|o.kept| <= 2 || forall j :: 0 <= j < |o.kept| ==> Gaps(m, n, o.kept[j], o.kept) <= allowed)
  {
    var k := Rounds(m, n, Range(n), allowed).kept;
    RoundsPartition(m, n, Range(n), allowed);
    RoundsExit(m, n, Range(n), allowed);
    forall j | 0 <= j < |k| ensures Gaps(m, n, k[j], k) == OffDiagNan(m, n, k[j], k) {
      OffDiagNanExcludesDiagonal(m, n, k[j], k);
    }
  }

  /** The decks at the given positions. */
  function Labels(axis: seq<string>, ks: seq<nat>): (r: seq<string>)
    requires InRange(ks, |axis|)
    ensures |r| == |ks| && forall j :: 0 <= j < |ks| ==> r[j] == axis[ks[j]]
  {
    seq(|ks|, j requires 0 <= j < |ks| => axis[ks[j]])
  }

  /** The matrix restricted to the decks at the given positions, as both rows and columns. */
  function Restrict(f: WrFrame, ks: seq<nat>): (r: WrFrame)
    requires Valid(f) && InRange(ks, |f.axis|)
    ensures Valid(r) && r.axis == Labels(f.axis, ks)
    ensures forall i, j :: 0 <= i < |ks| && 0 <= j < |ks| ==> r.cells[i][j] == f.cells[ks[i]][ks[j]]
  {
    WrFrame(Labels(f.axis, ks),
            seq(|ks|, i requires 0 <= i < |ks| => seq(|ks|, j requires 0 <= j < |ks| => f.cells[ks[i]][ks[j]])))
  }

  /** The `while True` loop: rounds are run from `cur0` until it stops, the dropped decks
      collected in drop order. */
  method DropRounds(m: Mat, n: nat, cur0: seq<nat>, allowed: int) returns (cur: seq<nat>, gone: seq<nat>)
    requires IsSquare(m, n) && InRange(cur0, n)
    ensures InRange(cur, n)
    ensures Outcome(cur, gone) == Rounds(m, n, cur0, allowed)
  {
    cur, gone := cur0, [];
    var it := 0;
    while true
      invariant InRange(cur, n) && Reached(m, n, cur0, cur, gone, allowed)
      decreases |cur|
    {
      var stop, toDrop, rest := Round(m, n, cur, allowed);
      if stop {
        RoundStop(m, n, cur0, cur, gone, allowed);
        break;
      }
      RoundStep(m, n, cur0, cur, gone, allowed);
      cur, gone := rest, gone + toDrop;
      it := it + 1;
    }
  }

  /** The loop so far: the rounds from cur, after the decks already gone, are the rounds
      from cur0. */
  predicate Reached(m: Mat, n: nat, cur0: seq<nat>, cur: seq<nat>, gone: seq<nat>, allowed: int)
    requires IsSquare(m, n) && InRange(cur0, n) && InRange(cur, n)
  {
    var o := Rounds(m, n, cur, allowed);
    Rounds(m, n, cur0, allowed) == Outcome(o.kept, gone + o.dropped)
  }

  lemma {:induction false} RoundStop(m: Mat, n: nat, cur0: seq<nat>, cur: seq<nat>, gone: seq<nat>, allowed: int)
    requires IsSquare(m, n) && InRange(cur0, n) && InRange(cur, n)
    requires Reached(m, n, cur0, cur, gone, allowed) && !Due(m, n, cur, allowed)
    ensures Rounds(m, n, cur0, allowed) == Outcome(cur, gone)
  {
    assert Rounds(m, n, cur, allowed) == Outcome(cur, []);
  }

  lemma {:induction false} RoundStep(m: Mat, n: nat, cur0: seq<nat>, cur: seq<nat>, gone: seq<nat>, allowed: int)
    requires IsSquare(m, n) && InRange(cur0, n) && InRange(cur, n)
    requires Reached(m, n, cur0, cur, gone, allowed) && Due(m, n, cur, allowed)
    ensures Reached(m, n, cur0, Remaining(m, n, cur, allowed), gone + Dropped(m, n, cur, allowed), allowed)
  {
    var d, r := Dropped(m, n, cur, allowed), Remaining(m, n, cur, allowed);
    OutcomeChain(Rounds(m, n, cur0, allowed), Rounds(m, n, cur, allowed), Rounds(m, n, r, allowed), gone, d);
  }

  /** Dropping gone and then d is dropping gone + d. */
  lemma {:induction false} OutcomeChain(a: Outcome, b: Outcome, c: Outcome, gone: seq<nat>, d: seq<nat>)
    requires a == Outcome(b.kept, gone + b.dropped) && b == Outcome(c.kept, d + c.dropped)
    ensures a == Outcome(c.kept, (gone + d) + c.dropped)
  {
    assert gone + (d + c.dropped) == (gone + d) + c.dropped;
  }


  /** One pass of the loop body: stop at two decks or fewer or without a positive excess,
      otherwise the decks to drop and the decks that remain. */
  method Round(m: Mat, n: nat, cur: seq<nat>, allowed: int) returns (stop: bool, toDrop: seq<nat>, rest: seq<nat>)
    requires IsSquare(m, n) && InRange(cur, n)
    ensures stop <==> !Due(m, n, cur, allowed)
    ensures !stop ==> toDrop == Dropped(m, n, cur, allowed) && rest == Remaining(m, n, cur, allowed)
  {
    if |cur| <= 2 {
      return true, [], cur;
    }
    var over := Over(m, n, cur, allowed);
    var exceed := MaxOf(over);
    if exceed <= 0 {
      return true, [], cur;
    }
    toDrop := Pick(cur, over, exceed);
    rest := Remaining(m, n, cur, allowed);
    stop := false;
  }

  /** `filter_wr_nan_iterative`: no input or an empty matrix comes back as it is with no
      drops; otherwise the rounds are run from the whole axis, and the result is the
      matrix on the remaining decks with the dropped decks in drop order. */
  method FilterWrNanIterative(wr: Option<WrFrame>, ratio: real, minAllowed: int, useCeil: bool)
    returns (out: Option<WrFrame>, dropped: seq<string>)
    requires wr.Some? ==> Valid(wr.value)
    ensures wr.None? || wr.value.axis == [] ==> out == wr && dropped == []
    ensures wr.Some? && wr.value.axis != [] ==>
      var n := |wr.value.axis|;
      var o := Rounds(wr.value.cells, n, Range(n), Allowed(n, ratio, minAllowed, useCeil));
      out == Some(Restrict(wr.value, o.kept)) && dropped == Labels(wr.value.axis, o.dropped)
  {
    if wr.None? || wr.value.axis == [] {
      return wr, [];
    }
    var f := wr.value;
    var n := |f.axis|;
    var allowed := Allowed(n, ratio, minAllowed, useCeil);
    var cur, gone := DropRounds(f.cells, n, Range(n), allowed);
    out := Some(Restrict(f, cur));
    dropped := Labels(f.axis, gone);
  }
}

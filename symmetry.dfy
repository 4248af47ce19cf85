/** `_enforce_directional_symmetry`: for every unordered pair of decks one direction is
    kept (most decisive games, then most games, then the smaller names) and emitted with
    its mirror (W and L swapped); the table comes out sorted by (Deck A, Deck B). */
module Symmetry {
  import opened Wrappers
  import opened Numeric
  import opened Text
  import opened Sorting
  import opened Grouping

  /** One directional row: deck a against deck b, W, L and T counted from a's side. */
  datatype Counts = Counts(a: string, b: string, w: int, l: int, t: int)

  /** N: every game of the row. */
  function N(c: Counts): int { c.w + c.l + c.t }

  /** N_dir: the decisive games. */
  function NDir(c: Counts): int { c.w + c.l }

  /** The same games seen from b's side. */
  function Mirror(c: Counts): (m: Counts)
    ensures m.a == c.b && m.b == c.a && m.w == c.l && m.l == c.w && m.t == c.t
  {
    Counts(c.b, c.a, c.l, c.w, c.t)
  }

  /** Mirroring twice gives the row back and keeps both totals. */
  lemma {:induction false} MirrorInvolution(c: Counts)
    ensures Mirror(Mirror(c)) == c && N(Mirror(c)) == N(c) && NDir(Mirror(c)) == NDir(c)
  {
  }

  function ABKey(c: Counts): (string, string) { (c.a, c.b) }

  /** The order of `sort_values(["Deck A", "Deck B"])`. */
  predicate ABLe(x: Counts, y: Counts)
  {
    Less(x.a, y.a) || (x.a == y.a && LessEq(x.b, y.b))
  }

  lemma {:induction false} ABLeTotal(x: Counts, y: Counts)
    ensures ABLe(x, y) || ABLe(y, x)
  {
    LessTotal(x.a, y.a);
    LessEqTotal(x.b, y.b);
  }

  lemma {:induction false} ABLeTransitive(x: Counts, y: Counts, z: Counts)
    requires ABLe(x, y) && ABLe(y, z)
    ensures ABLe(x, z)
  {
    LessIrreflexive(x.a);
    LessIrreflexive(y.a);
    if x.a == y.a == z.a {
      LessEqTransitive(x.b, y.b, z.b);
    } else if x.a == y.a || y.a == z.a {
    } else {
      LessTransitive(x.a, y.a, z.a);
    }
  }

  lemma {:induction false} ABLeTotalPreorder()
    ensures TotalPreorder(ABLe)
  {
    forall x: Counts, y: Counts ensures ABLe(x, y) || ABLe(y, x) {
      ABLeTotal(x, y);
    }
    forall x: Counts, y: Counts, z: Counts | ABLe(x, y) && ABLe(y, z) ensures ABLe(x, z) {
      ABLeTransitive(x, y, z);
    }
  }

  /** The (A, B) order only ties rows of the same direction. */
  lemma {:induction false} ABLeTies(x: Counts, y: Counts)
    requires ABLe(x, y) && ABLe(y, x)
    ensures ABKey(x) == ABKey(y)
  {
    if Less(x.a, y.a) {
      LessAsymmetric(x.a, y.a);
    } else if Less(y.a, x.a) {
      LessAsymmetric(y.a, x.a);
    } else if x.b != y.b {
      LessAsymmetric(x.b, y.b);
    }
  }

  /** With one row per direction, a table has a single order by (A, B). */
  lemma {:induction false} SortedByABUnique(s: seq<Counts>, t: seq<Counts>)
    requires Sorted(s, ABLe) && Sorted(t, ABLe) && multiset(s) == multiset(t) && DistinctBy(s, ABKey)
    ensures s == t
  {
    forall x, y | x in s && y in s && ABLe(x, y) && ABLe(y, x) ensures x == y {
      ABLeTies(x, y);
      var i :| 0 <= i < |s| && s[i] == x;
      var j :| 0 <= j < |s| && s[j] == y;
    }
    SortedUnique(s, t, ABLe);
  }

  // ---- The unordered pair key ----

  /** The unordered pair {a, b} as a key: the two names, smaller first. */
  function PairKey(a: string, b: string): (string, string)
  {
    if LessEq(a, b) then (a, b) else (b, a)
  }

  lemma {:induction false} PairKeySymmetric(a: string, b: string)
    ensures PairKey(a, b) == PairKey(b, a)
  {
    if a != b {
      LessTotal(a, b);
      if Less(a, b) {
        LessAsymmetric(a, b);
      } else {
        LessAsymmetric(b, a);
      }
    }
  }

  /** Two directions share a key exactly when they are the same unordered pair. */
  lemma {:induction false} PairKeyUnordered(a: string, b: string, c: string, d: string)
    ensures PairKey(a, b) == PairKey(c, d) <==> (a == c && b == d) || (a == d && b == c)
  {
    PairKeySymmetric(a, b);
    PairKeySymmetric(c, d);
  }

  /** The key of the unordered pair of a row. */
  function UKey(c: Counts): (string, string) { PairKey(c.a, c.b) }

  /** The key as the source builds it, the two names joined by "||", smaller first. */
  function PairKeyText(a: string, b: string): string
  {
    if LessEq(a, b) then a + "||" + b else b + "||" + a
  }

  /** The joined key merges two different unordered pairs: {"x||y", "z"} and {"x", "y||z"}. */
  lemma {:induction false} PairKeyTextCollides()
    ensures PairKeyText("x||y", "z") == PairKeyText("x", "y||z")
    ensures PairKey("x||y", "z") != PairKey("x", "y||z")
  {
    assert Less("x||y", "z");
    assert Less("x", "y||z");
    assert "x||y" + "||" + "z" == "x" + "||" + "y||z";
  }

  // ---- Choosing the direction ----

  /** The order of `_tie_sort`: more decisive games first, then more games, then (A, B). */
  predicate TieLe(x: Counts, y: Counts)
  {
    NDir(x) > NDir(y) || (NDir(x) == NDir(y) && (N(x) > N(y) || (N(x) == N(y) && ABLe(x, y))))
  }

  lemma {:induction false} TieLeTotal(x: Counts, y: Counts)
    ensures TieLe(x, y) || TieLe(y, x)
  {
    ABLeTotal(x, y);
  }

  lemma {:induction false} TieLeTransitive(x: Counts, y: Counts, z: Counts)
    requires TieLe(x, y) && TieLe(y, z)
    ensures TieLe(x, z)
  {
    if NDir(x) == NDir(y) == NDir(z) && N(x) == N(y) == N(z) {
      ABLeTransitive(x, y, z);
    }
  }

  lemma {:induction false} TieLeBelowAll(a: Counts, r: Counts, s: seq<Counts>)
    requires TieLe(a, r) && forall x :: x in s ==> TieLe(r, x)
    ensures forall x :: x in s ==> TieLe(a, x)
  {
    forall x | x in s ensures TieLe(a, x) {
      TieLeTransitive(a, r, x);
    }
  }

  /** The first row of a group in `_tie_sort` order. */
  function Choose(g: seq<Counts>): (c: Counts)
    requires g != []
    ensures c in g
    ensures forall x :: x in g ==> TieLe(c, x)
  {
    if |g| == 1 then
      TieLeTotal(g[0], g[0]);
      g[0]
    else
      var r := Choose(g[1..]);
      assert g == [g[0]] + g[1..];
      TieLeTotal(g[0], r);
      if TieLe(g[0], r) then
        TieLeBelowAll(g[0], r, g[1..]);
        TieLeTotal(g[0], g[0]);
        g[0]
      else
        r
  }

  /** The chosen row of a pair's group and its mirror (nothing for a key with no rows). */
  function Chosen(d: seq<Counts>, k: (string, string)): seq<Counts>
  {
    var g := Group(d, UKey, k);
    if g == [] then [] else [Choose(g), Mirror(Choose(g))]
  }

  /** The rows emitted for the keys ks, in key order. */
  function EmitAll(d: seq<Counts>, ks: seq<(string, string)>): seq<Counts>
  {
    if ks == [] then [] else Chosen(d, ks[0]) + EmitAll(d, ks[1..])
  }

  lemma {:induction false} EmitAllAppend(d: seq<Counts>, ks: seq<(string, string)>, k: (string, string))
    ensures EmitAll(d, ks + [k]) == EmitAll(d, ks) + Chosen(d, k)
  {
    if ks == [] {
      assert [k][1..] == [];
    } else {
      assert (ks + [k])[1..] == ks[1..] + [k];
      EmitAllAppend(d, ks[1..], k);
    }
  }

  /** The symmetric table: one chosen direction per pair plus its mirror, sorted by (A, B). */
  function Symmetrize(d: seq<Counts>): seq<Counts>
  {
    Sort(EmitAll(d, Keys(d, UKey)), ABLe)
  }

  /** A symmetric table: sorted by (A, B), one row per direction, no mirror match, and
      every row's mirror present. */
  predicate Symmetric(s: seq<Counts>)
  {
    && Sorted(s, ABLe)
    && DistinctBy(s, ABKey)
    && forall x :: x in s ==> x.a != x.b && Mirror(x) in s
  }

  // ---- What the symmetric table is ----

  lemma {:induction false} ChosenSpec(d: seq<Counts>, k: (string, string))
    requires Group(d, UKey, k) != []
    ensures var c := Choose(Group(d, UKey, k));
      Chosen(d, k) == [c, Mirror(c)] && c in d && UKey(c) == k && UKey(Mirror(c)) == k
  {
    var c := Choose(Group(d, UKey, k));
    GroupSpec(d, UKey, k);
    PairKeySymmetric(c.a, c.b);
  }

  /** Every emitted row is the chosen direction of its pair or that direction's mirror,
      and its mirror is emitted too. */
  lemma {:induction false} EmitAllMembers(d: seq<Counts>, ks: seq<(string, string)>)
    ensures forall x :: x in EmitAll(d, ks) ==>
      UKey(x) in ks && Group(d, UKey, UKey(x)) != [] &&
      (x == Choose(Group(d, UKey, UKey(x))) || x == Mirror(Choose(Group(d, UKey, UKey(x)))))
    ensures forall x :: x in EmitAll(d, ks) ==> Mirror(x) in EmitAll(d, ks)
  {
    if ks != [] {
      EmitAllMembers(d, ks[1..]);
      if Group(d, UKey, ks[0]) != [] {
        ChosenSpec(d, ks[0]);
        MirrorInvolution(Choose(Group(d, UKey, ks[0])));
      }
    }
  }

  /** Emitted rows of pairs that do not match themselves have one row per direction. */
  lemma {:induction false} EmitAllDistinct(d: seq<Counts>, ks: seq<(string, string)>)
    requires Distinct(ks) && forall x :: x in d ==> x.a != x.b
    ensures DistinctBy(EmitAll(d, ks), ABKey)
  {
    if ks != [] {
      var h, r := Chosen(d, ks[0]), EmitAll(d, ks[1..]);
      assert Distinct(ks[1..]);
      EmitAllDistinct(d, ks[1..]);
      EmitAllMembers(d, ks[1..]);
      assert ks[0] !in ks[1..];
      if Group(d, UKey, ks[0]) != [] {
        ChosenSpec(d, ks[0]);
      }
      assert forall x :: x in h ==> UKey(x) == ks[0];
      if Group(d, UKey, ks[0]) != [] {
        var c := Choose(Group(d, UKey, ks[0]));
        assert ABKey(c) != ABKey(Mirror(c));
      }
      DistinctByConcat(h, r, ABKey);
    }
  }

  lemma {:induction false} EmitAllLength(d: seq<Counts>, ks: seq<(string, string)>)
    requires forall k :: k in ks ==> Group(d, UKey, k) != []
    ensures |EmitAll(d, ks)| == 2 * |ks|
  {
    if ks != [] {
      EmitAllLength(d, ks[1..]);
    }
  }

  lemma {:induction false} EmitAllContains(d: seq<Counts>, ks: seq<(string, string)>, k: (string, string))
    requires k in ks
    ensures forall x :: x in Chosen(d, k) ==> x in EmitAll(d, ks)
  {
    if ks[0] != k {
      EmitAllContains(d, ks[1..], k);
    }
  }

  /** The symmetric table holds exactly the emitted rows. */
  lemma {:induction false} SymmetrizeMembers(d: seq<Counts>)
    ensures forall x :: x in Symmetrize(d) <==> x in EmitAll(d, Keys(d, UKey))
  {
    var e := EmitAll(d, Keys(d, UKey));
    var s := Symmetrize(d);
    assert multiset(s) == multiset(e);
    forall x ensures x in s <==> x in e {
      assert x in s <==> x in multiset(s);
      assert x in e <==> x in multiset(e);
    }
  }

  /** Each row of the symmetric table is the chosen direction of its pair (the most
      decisive games, by `Choose`) or that direction's mirror. */
  lemma {:induction false} SymmetrizeChosen(d: seq<Counts>)
    ensures forall x :: x in Symmetrize(d) ==>
      (Group(d, UKey, UKey(x)) != [] &&
       (x == Choose(Group(d, UKey, UKey(x))) || x == Mirror(Choose(Group(d, UKey, UKey(x))))))
  {
    SymmetrizeMembers(d);
    EmitAllMembers(d, Keys(d, UKey));
  }

  /** Every row of the table is an input row or the mirror of one. */
  lemma {:induction false} SymmetrizeFrom(d: seq<Counts>)
    ensures forall x :: x in Symmetrize(d) ==> exists y :: y in d && (x == y || x == Mirror(y))
  {
    SymmetrizeChosen(d);
    forall x | x in Symmetrize(d) ensures exists y :: y in d && (x == y || x == Mirror(y)) {
      var g := Group(d, UKey, UKey(x));
      GroupSpec(d, UKey, UKey(x));
      assert Choose(g) in d;
    }
  }

  /** The direction of an input row is the direction of some row of the table. */
  lemma {:induction false} SymmetrizeMembersCover(d: seq<Counts>, x: Counts)
    requires x in d
    ensures exists k :: 0 <= k < |Symmetrize(d)| && ABKey(Symmetrize(d)[k]) == ABKey(x)
  {
    SymmetrizeCovers(d);
    var i :| 0 <= i < |d| && d[i] == x;
    var y :| y in Symmetrize(d) && ABKey(y) == ABKey(d[i]);
    var k :| 0 <= k < |Symmetrize(d)| && Symmetrize(d)[k] == y;
  }

  /** Two rows per unordered pair of the input. */
  lemma {:induction false} SymmetrizeLength(d: seq<Counts>)
    ensures |Symmetrize(d)| == 2 * |Keys(d, UKey)|
  {
    var ks := Keys(d, UKey);
    forall k | k in ks ensures Group(d, UKey, k) != [] {
      GroupNonEmpty(d, UKey, k);
    }
    EmitAllLength(d, ks);
  }

  /** Without mirror matches in the input the table is `Symmetric`. */
  lemma {:induction false} SymmetrizeSymmetric(d: seq<Counts>)
    requires forall x :: x in d ==> x.a != x.b
    ensures Symmetric(Symmetrize(d))
  {
    var ks := Keys(d, UKey);
    var e := EmitAll(d, ks);
    var s := Symmetrize(d);
    KeysSpec(d, UKey);
    SymmetrizeMembers(d);
    EmitAllMembers(d, ks);
    EmitAllDistinct(d, ks);
    ABLeTotalPreorder();
    SortSorted(e, ABLe);
    DistinctByPermutation(e, s, ABKey);
    forall x | x in s ensures x.a != x.b {
      GroupSpec(d, UKey, UKey(x));
    }
  }

  /** Every direction of the input appears in the table. */
  lemma {:induction false} SymmetrizeCovers(d: seq<Counts>)
    ensures forall i :: 0 <= i < |d| ==> exists x :: x in Symmetrize(d) && ABKey(x) == ABKey(d[i])
  {
    var ks := Keys(d, UKey);
    KeysSpec(d, UKey);
    SymmetrizeMembers(d);
    forall i | 0 <= i < |d| ensures exists x :: x in Symmetrize(d) && ABKey(x) == ABKey(d[i]) {
      var k := UKey(d[i]);
      GroupNonEmpty(d, UKey, k);
      ChosenSpec(d, k);
      EmitAllContains(d, ks, k);
      var c := Choose(Group(d, UKey, k));
      PairKeyUnordered(c.a, c.b, d[i].a, d[i].b);
      if ABKey(c) == ABKey(d[i]) {
        assert c in Symmetrize(d);
      } else {
        assert Mirror(c) in Symmetrize(d) && ABKey(Mirror(c)) == ABKey(d[i]);
      }
    }
  }

  // ---- Idempotence ----

  /** Three rows of one unordered pair repeat a direction. */
  lemma {:induction false} ThreeRowsClash(x: Counts, y: Counts, z: Counts)
    requires UKey(x) == UKey(y) == UKey(z)
    ensures ABKey(x) == ABKey(y) || ABKey(x) == ABKey(z) || ABKey(y) == ABKey(z)
  {
    PairKeyUnordered(x.a, x.b, y.a, y.b);
    PairKeyUnordered(x.a, x.b, z.a, z.b);
  }

  /** Rows of one unordered pair with one row per direction are at most two. */
  lemma {:induction false} TwoDirections(g: seq<Counts>, k: (string, string))
    requires DistinctBy(g, ABKey) && forall y :: y in g ==> UKey(y) == k
    ensures |g| <= 2
  {
    if |g| > 2 {
      ThreeRowsClash(g[0], g[1], g[2]);
    }
  }

  /** A group of at most two rows starting with x and holding x's mirror is x and its mirror. */
  lemma {:induction false} MirrorPair(g: seq<Counts>, x: Counts)
    requires |g| <= 2 && g != [] && g[0] == x && Mirror(x) in g && Mirror(x) != x
    ensures g == [x, Mirror(x)]
  {
  }

  /** Emitting either row of a mirror pair gives the pair back. */
  lemma {:induction false} ChosenOfMirrorPair(x: Counts, c: Counts)
    requires c == x || c == Mirror(x)
    ensures multiset([c, Mirror(c)]) == multiset([x, Mirror(x)])
  {
    MirrorInvolution(x);
  }

  /** In a symmetric table a pair's group is one direction and its mirror, so emitting the
      chosen direction and its mirror gives the group back. */
  lemma {:induction false} MirrorPairGroup(s: seq<Counts>, k: (string, string))
    requires Symmetric(s) && Group(s, UKey, k) != []
    ensures multiset(Chosen(s, k)) == multiset(Group(s, UKey, k))
  {
    var g := Group(s, UKey, k);
    GroupSpec(s, UKey, k);
    GroupDistinctBy(s, UKey, k, ABKey);
    TwoDirections(g, k);
    var x := g[0];
    assert x in g;
    PairKeySymmetric(x.a, x.b);
    assert Mirror(x) in s && UKey(Mirror(x)) == k;
    assert Mirror(x) in g by {
      var i :| 0 <= i < |s| && s[i] == Mirror(x);
    }
    MirrorPair(g, x);
    var c := Choose(g);
    ChosenOfMirrorPair(x, c);
  }

  lemma {:induction false} EmitAllPermutes(s: seq<Counts>, ks: seq<(string, string)>)
    requires Symmetric(s)
    ensures multiset(EmitAll(s, ks)) == multiset(GroupsConcat(s, UKey, ks))
  {
    if ks != [] {
      EmitAllPermutes(s, ks[1..]);
      if Group(s, UKey, ks[0]) != [] {
        MirrorPairGroup(s, ks[0]);
      }
    }
  }

  /** A symmetric table is its own symmetrisation. */
  lemma {:induction false} SymmetricFixed(s: seq<Counts>)
    requires Symmetric(s)
    ensures Symmetrize(s) == s
  {
    var e := EmitAll(s, Keys(s, UKey));
    EmitAllPermutes(s, Keys(s, UKey));
    Partition(s, UKey);
    ABLeTotalPreorder();
    SortSorted(e, ABLe);
    SortedByABUnique(s, Symmetrize(s));
  }

  /** Symmetrising twice is symmetrising once. */
  lemma {:induction false} SymmetrizeIdempotent(d: seq<Counts>)
    requires forall x :: x in d ==> x.a != x.b
    ensures Symmetrize(Symmetrize(d)) == Symmetrize(d)
  {
    SymmetrizeSymmetric(d);
    SymmetricFixed(Symmetrize(d));
  }

  // ---- Grouping by the joined text key, as written ----

  /** The text key of a row's unordered pair, as `_pair` builds it. */
  function UKeyText(c: Counts): string { PairKeyText(c.a, c.b) }

  /** The chosen row and its mirror of one text-keyed group. */
  function ChosenAsWritten(d: seq<Counts>, k: string): seq<Counts>
  {
    var g := Group(d, UKeyText, k);
    if g == [] then [] else [Choose(g), Mirror(Choose(g))]
  }

  function EmitAllAsWritten(d: seq<Counts>, ks: seq<string>): seq<Counts>
  {
    if ks == [] then [] else ChosenAsWritten(d, ks[0]) + EmitAllAsWritten(d, ks[1..])
  }

  /** `_enforce_directional_symmetry` grouping by the joined text key. */
  function SymmetrizeAsWritten(d: seq<Counts>): seq<Counts>
  {
    Sort(EmitAllAsWritten(d, Keys(d, UKeyText)), ABLe)
  }

  /** The joined text of a two-name key. */
  function JoinKey(k: (string, string)): string { k.0 + "||" + k.1 }

  /** Names without '|' can be read back from their joined key. */
  lemma {:induction false} JoinKeyInjective(k: (string, string), m: (string, string))
    requires '|' !in k.0 && '|' !in m.0 && JoinKey(k) == JoinKey(m)
    ensures k == m
  {
    var u := JoinKey(k);
    assert u[|k.0|] == '|' && forall i :: 0 <= i < |k.0| ==> u[i] == k.0[i];
    assert u[|m.0|] == '|' && forall i :: 0 <= i < |m.0| ==> u[i] == m.0[i];
    assert |k.0| == |m.0|;
    assert k.0 == u[..|k.0|] == m.0;
    assert k.1 == u[|k.0| + 2..] == m.1;
  }

  /** The emitted rows of the text keys are those of the two-name keys they join. */
  lemma {:induction false} EmitAllAsWrittenAgrees(d: seq<Counts>, ks: seq<(string, string)>)
    requires Relabels(d, UKey, UKeyText, JoinKey)
    requires forall k :: k in ks ==> exists x :: x in d && UKey(x) == k
    ensures EmitAllAsWritten(d, Relabel(JoinKey, ks)) == EmitAll(d, ks)
  {
    if ks != [] {
      assert ks[0] in ks;
      var x :| x in d && UKey(x) == ks[0];
      assert Relabel(JoinKey, ks)[1..] == Relabel(JoinKey, ks[1..]);
      GroupRelabel(d, UKey, UKeyText, JoinKey, ks[0]);
      assert forall k :: k in ks[1..] ==> k in ks;
      EmitAllAsWrittenAgrees(d, ks[1..]);
    }
  }

  /** When no deck name contains '|', grouping by the text key is grouping by the pair. */
  lemma {:induction false} SymmetrizeAsWrittenAgrees(d: seq<Counts>)
    requires forall x :: x in d ==> '|' !in x.a && '|' !in x.b
    ensures SymmetrizeAsWritten(d) == Symmetrize(d)
  {
    forall x | x in d ensures UKeyText(x) == JoinKey(UKey(x)) {
    }
    forall x, y | x in d && y in d && JoinKey(UKey(x)) == JoinKey(UKey(y)) ensures UKey(x) == UKey(y) {
      JoinKeyInjective(UKey(x), UKey(y));
    }
    assert Relabels(d, UKey, UKeyText, JoinKey);
    KeysRelabel(d, UKey, UKeyText, JoinKey);
    KeysSpec(d, UKey);
    forall k | k in Keys(d, UKey) ensures exists x :: x in d && UKey(x) == k {
      var i :| 0 <= i < |d| && UKey(d[i]) == k;
      assert d[i] in d;
    }
    EmitAllAsWrittenAgrees(d, Keys(d, UKey));
  }

  /** Grouping by the text key loses a pair: for ("x||y", "z") and ("x", "y||z") it emits
      two rows, where grouping by the two names emits four. */
  lemma {:induction false} SymmetrizeAsWrittenMerges()
    ensures var d := [Counts("x||y", "z", 1, 0, 0), Counts("x", "y||z", 1, 0, 0)];
      |SymmetrizeAsWritten(d)| == 2 && |Symmetrize(d)| == 4
  {
    var d := [Counts("x||y", "z", 1, 0, 0), Counts("x", "y||z", 1, 0, 0)];
    PairKeyTextCollides();
    TwoRowsOneTextKey(d[0], d[1]);
    assert d == [d[0], d[1]];
    KeysOfTwo(d[0], d[1], UKey);
    SymmetrizeLength(d);
  }

  /** Two rows whose text keys agree emit one chosen row and its mirror. */
  lemma {:induction false} TwoRowsOneTextKey(x: Counts, y: Counts)
    requires UKeyText(x) == UKeyText(y)
    ensures |SymmetrizeAsWritten([x, y])| == 2
  {
    var d := [x, y];
    KeysOfTwo(x, y, UKeyText);
    var kt := [UKeyText(x)];
    assert Keys(d, UKeyText) == kt;
    GroupSpec(d, UKeyText, kt[0]);
    assert d[0] in Group(d, UKeyText, kt[0]);
    assert kt[1..] == [];
    assert EmitAllAsWritten(d, kt) == ChosenAsWritten(d, kt[0]);
  }

  /** The keys of a two-row table. */
  lemma {:induction false} KeysOfTwo<K>(x: Counts, y: Counts, key: Counts -> K)
    ensures Keys([x, y], key) == if key(y) == key(x) then [key(x)] else [key(x), key(y)]
  {
    var d := [x, y];
    assert d[..|d| - 1] == [x] && [x][..0] == [];
    assert Keys([x], key) == [key(x)];
    assert d[|d| - 1] == y;
  }

  // ---- Win rates ----

  /** The exact share of decisive games won, in percent. */
  function Share(w: int, l: int): real
    requires w + l > 0
  {
    100.0 * w as real / (w + l) as real
  }

  /** `round(100 * W / (W + L), digits)`: the share of decisive games won, in percent. */
  function DirWinrate(w: int, l: int, digits: nat): (r: real)
    requires w + l > 0
    ensures w >= 0 && l >= 0 ==> 0.0 <= r <= 100.0
    ensures Abs(r - Share(w, l)) <= 0.5 / Pow10(digits) as real
  {
    var x := Share(w, l);
    if w >= 0 && l >= 0 then
      PercentWithin(w as real, (w + l) as real);
      RoundToWithin(x, digits, 0, 100);
      RoundTo(x, digits)
    else
      RoundTo(x, digits)
  }

  /** The two directions' win rates add up to 100 up to one rounding step. */
  lemma {:induction false} DirWinrateMirror(w: int, l: int, digits: nat)
    requires w + l > 0
    ensures Abs(DirWinrate(w, l, digits) + DirWinrate(l, w, digits) - 100.0) <= 1.0 / Pow10(digits) as real
  {
    SharesAddUp(w, l);
    HalfSteps(Pow10(digits) as real);
  }

  lemma {:induction false} HalfSteps(p: real)
    requires p > 0.0
    ensures 0.5 / p + 0.5 / p == 1.0 / p
  {
  }

  /** The exact shares of the two directions add up to 100. */
  lemma {:induction false} SharesAddUp(w: int, l: int)
    requires w + l > 0
    ensures Share(w, l) + Share(l, w) == 100.0
  {
    var t := (w + l) as real;
    assert (l + w) as real == t;
    var x, y := Share(w, l), Share(l, w);
    assert x * t == 100.0 * w as real;
    assert y * t == 100.0 * l as real;
    Distrib(x, y, t);
    assert (x + y) * t == 100.0 * w as real + 100.0 * l as real;
    MulCancel(x + y, 100.0, t);
  }

  lemma {:induction false} MulCancel(z: real, q: real, t: real)
    requires t > 0.0 && z * t == q * t
    ensures z == q
  {
    assert (z - q) * t == 0.0;
  }

  /** One row of the symmetric table with its win rate over decisive games, rounded to two
      places; undefined when the row has no decisive game. */
  datatype FlatOut = FlatOut(a: string, b: string, w: int, l: int, t: int, n: int, winrate: Option<real>)

  function WithWinrate(c: Counts): (r: FlatOut)
    ensures r.a == c.a && r.b == c.b && r.w == c.w && r.l == c.l && r.t == c.t && r.n == N(c)
    ensures r.winrate.None? <==> NDir(c) <= 0
    ensures r.winrate.Some? ==> r.winrate.value == DirWinrate(c.w, c.l, 2)
  {
    FlatOut(c.a, c.b, c.w, c.l, c.t, N(c), if NDir(c) > 0 then Some(DirWinrate(c.w, c.l, 2)) else None)
  }

  /** The loop of `_enforce_directional_symmetry`: one pass over the pair groups in order
      of first appearance, appending the chosen direction and its mirror. */
  method EmitPairs(d: seq<Counts>) returns (rows: seq<Counts>)
    ensures rows == EmitAll(d, Keys(d, UKey))
  {
    var ks := Keys(d, UKey);
    rows := [];
    var i := 0;
    assert ks[i..] == ks;
    while i < |ks|
      invariant i <= |ks| && rows + EmitAll(d, ks[i..]) == EmitAll(d, ks)
    {
      var g := Group(d, UKey, ks[i]);
      GroupNonEmpty(d, UKey, ks[i]);
      var chosen := Choose(g);
      EmitPairsStep(d, ks, i, chosen, rows);
      rows := rows + [chosen, Mirror(chosen)];
      i := i + 1;
    }
    assert ks[i..] == [];
  }

  /** The rows still to emit from key i on: key i's chosen row and mirror, then the rest. */
  lemma {:induction false} EmitStep(d: seq<Counts>, ks: seq<(string, string)>, i: nat, c: Counts)
    requires i < |ks| && Group(d, UKey, ks[i]) != [] && c == Choose(Group(d, UKey, ks[i]))
    ensures EmitAll(d, ks[i..]) == [c, Mirror(c)] + EmitAll(d, ks[i + 1..])
  {
    assert ks[i..][1..] == ks[i + 1..];
    assert ks[i..][0] == ks[i];
    assert Chosen(d, ks[i]) == [c, Mirror(c)];
  }

  /** One iteration of `EmitPairs` keeps its invariant. */
  lemma {:induction false} EmitPairsStep(d: seq<Counts>, ks: seq<(string, string)>, i: nat, c: Counts, rows: seq<Counts>)
    requires i < |ks| && Group(d, UKey, ks[i]) != [] && c == Choose(Group(d, UKey, ks[i]))
    requires rows + EmitAll(d, ks[i..]) == EmitAll(d, ks)
    ensures (rows + [c, Mirror(c)]) + EmitAll(d, ks[i + 1..]) == EmitAll(d, ks)
  {
    EmitStep(d, ks, i, c);
    AppendAssoc(rows, [c, Mirror(c)], EmitAll(d, ks[i + 1..]));
  }

  /** `_enforce_directional_symmetry`: the emitted rows sorted by (A, B), with win rates. */
  method EnforceSymmetry(d: seq<Counts>) returns (out: seq<FlatOut>)
    ensures |out| == |Symmetrize(d)|
    ensures forall i :: 0 <= i < |out| ==> out[i] == WithWinrate(Symmetrize(d)[i])
  {
    if d == [] {
      return [];
    }
    var rows := EmitPairs(d);
    var sorted := Sort(rows, ABLe);
    out := seq(|sorted|, j requires 0 <= j < |sorted| => WithWinrate(sorted[j]));
  }
}

/** Deck-label normalisation and the alias index: every canonical deck name and each of
    its variants is keyed by its normalised label, the first canonical to claim a key
    keeping it. Unicode normalisation and case folding come from `TextOps`. */
module Normalize {
  import opened Wrappers
  import opened Text
  import Numeric

  /** `" ".join(nfkc(s).strip().split())`: the label before case folding. */
  function Collapsed(ops: TextOps, s: string): (r: string)
    ensures Text.Collapsed(r)
  {
    CollapseSpaces(Strip(ops.nfkc(s)))
  }

  /** `normalize_label`: a missing label is ""; otherwise NFKC, trimmed, whitespace runs
      collapsed to one space, then case-folded. */
  function NormalizeLabel(ops: TextOps, s: Option<string>): (r: string)
    ensures s.None? ==> r == ""
    ensures s.Some? ==> r == ops.casefold(Collapsed(ops, s.value))
  {
    if s.None? then "" else ops.casefold(Collapsed(ops, s.value))
  }

  /** The lookup key of a name: its normalised label. */
  function LabelKey(ops: TextOps): (key: string -> string)
    ensures forall s :: key(s) == NormalizeLabel(ops, Some(s))
  {
    s => NormalizeLabel(ops, Some(s))
  }

  // The alias index is stated for any key function `norm`; `LabelKey(ops)` is the one
  // `build_alias_index` uses.

  /** One entry of the alias map: a canonical name and its variants. */
  datatype AliasEntry = AliasEntry(canon: string, variants: seq<string>)

  /** The names an entry claims: the canonical and every variant. */
  function Pool(e: AliasEntry): seq<string> { [e.canon] + e.variants }

  predicate Claims(norm: string -> string, e: AliasEntry, k: string)
  {
    exists n :: n in Pool(e) && norm(n) == k
  }

  /** The inner loop: each name of the pool whose key is still free gets `canon`. */
  function InsertPool(norm: string -> string, idx: map<string, string>, names: seq<string>, canon: string): map<string, string>
  {
    if names == [] then idx
    else
      var acc := InsertPool(norm, idx, names[..|names| - 1], canon);
      var key := norm(names[|names| - 1]);
      if key in acc then acc else acc[key := canon]
  }

  /** A pool only adds its free keys, all pointing at its canonical name. */
  lemma {:induction false} InsertPoolSpec(norm: string -> string, idx: map<string, string>, names: seq<string>, canon: string)
    ensures forall k :: k in InsertPool(norm, idx, names, canon) <==> k in idx || exists n :: n in names && norm(n) == k
    ensures forall k :: k in InsertPool(norm, idx, names, canon) ==>
      InsertPool(norm, idx, names, canon)[k] == if k in idx then idx[k] else canon
  {
    if names != [] {
      var front := names[..|names| - 1];
      InsertPoolSpec(norm, idx, front, canon);
      assert forall n :: n in names <==> n in front || n == names[|names| - 1];
    }
  }

  /** `build_alias_index` as the loops compute it, entry by entry. */
  function AliasIndex(norm: string -> string, entries: seq<AliasEntry>): map<string, string>
  {
    if entries == [] then map[]
    else
      var e := entries[|entries| - 1];
      InsertPool(norm, AliasIndex(norm, entries[..|entries| - 1]), Pool(e), e.canon)
  }

  /** The canonical name of the first entry claiming key k. */
  function FirstClaim(norm: string -> string, entries: seq<AliasEntry>, k: string): Option<string>
  {
    if entries == [] then None
    else if Claims(norm, entries[0], k) then Some(entries[0].canon)
    else FirstClaim(norm, entries[1..], k)
  }

  lemma {:induction false} FirstClaimAppend(norm: string -> string, entries: seq<AliasEntry>, e: AliasEntry, k: string)
    ensures FirstClaim(norm, entries + [e], k) ==
      if FirstClaim(norm, entries, k).Some? then FirstClaim(norm, entries, k)
      else if Claims(norm, e, k) then Some(e.canon) else None
  {
    if entries != [] {
      assert (entries + [e])[1..] == entries[1..] + [e];
      FirstClaimAppend(norm, entries[1..], e, k);
    } else {
      assert [e][1..] == [];
    }
  }

  /** First wins: a key is in the index exactly when some entry claims it, and it maps to
      the canonical name of the first entry that does. */
  lemma {:induction false} AliasIndexFirstWins(norm: string -> string, entries: seq<AliasEntry>)
    ensures forall k :: k in AliasIndex(norm, entries) <==> FirstClaim(norm, entries, k).Some?
    ensures forall k :: k in AliasIndex(norm, entries) ==> AliasIndex(norm, entries)[k] == FirstClaim(norm, entries, k).value
  {
    if entries != [] {
      var front := entries[..|entries| - 1];
      var e := entries[|entries| - 1];
      assert entries == front + [e];
      AliasIndexFirstWins(norm, front);
      InsertPoolSpec(norm, AliasIndex(norm, front), Pool(e), e.canon);
      forall k ensures FirstClaim(norm, entries, k) ==
        if FirstClaim(norm, front, k).Some? then FirstClaim(norm, front, k)
        else if Claims(norm, e, k) then Some(e.canon) else None
      {
        FirstClaimAppend(norm, front, e, k);
      }
    }
  }

  /** A canonical name maps to itself unless an earlier entry already claimed its key. */
  lemma {:induction false} CanonicalMapsToItself(norm: string -> string, entries: seq<AliasEntry>, i: nat)
    requires i < |entries|
    ensures norm(entries[i].canon) in AliasIndex(norm, entries)
    ensures FirstClaim(norm, entries[..i], norm(entries[i].canon)).None? ==>
      AliasIndex(norm, entries)[norm(entries[i].canon)] == entries[i].canon
  {
    var k := norm(entries[i].canon);
    AliasIndexFirstWins(norm, entries);
    assert Claims(norm, entries[i], k) by {
      assert entries[i].canon in Pool(entries[i]);
    }
    FirstClaimSplit(norm, entries, i, k);
  }

  /** Skipping the first i entries, none of which claims k, lands on entry i's claim. */
  lemma {:induction false} FirstClaimSplit(norm: string -> string, entries: seq<AliasEntry>, i: nat, k: string)
    requires i < |entries| && Claims(norm, entries[i], k)
    ensures FirstClaim(norm, entries, k).Some?
    ensures FirstClaim(norm, entries[..i], k).None? ==> FirstClaim(norm, entries, k) == Some(entries[i].canon)
  {
    if i > 0 {
      if !Claims(norm, entries[0], k) {
        assert entries[1..][i - 1] == entries[i];
        FirstClaimSplit(norm, entries[1..], i - 1, k);
        assert entries[..i][1..] == entries[1..][..i - 1];
      }
    }
  }

  /** The nested loop of `build_alias_index`; a colliding key (already claimed by another
      canonical) is skipped, an already-present key is left as it is. */
  method BuildAliasIndex(norm: string -> string, entries: seq<AliasEntry>) returns (idx: map<string, string>)
    ensures idx == AliasIndex(norm, entries)
  {
    idx := map[];
    var i := 0;
    while i < |entries|
      invariant i <= |entries| && idx == AliasIndex(norm, entries[..i])
    {
      var e := entries[i];
      var pool := Pool(e);
      var j := 0;
      while j < |pool|
        invariant j <= |pool| && idx == InsertPool(norm, AliasIndex(norm, entries[..i]), pool[..j], e.canon)
      {
        var key := norm(pool[j]);
        assert pool[..j + 1][..j] == pool[..j];
        if key in idx && idx[key] != e.canon {
          // collision: the first canonical keeps the key
        } else if key !in idx {
          idx := idx[key := e.canon];
        }
        j := j + 1;
      }
      assert pool[..j] == pool;
      assert entries[..i + 1][..i] == entries[..i];
      i := i + 1;
    }
    assert entries[..i] == entries;
  }

  /** `apply_alias_series` on one value: an empty index only strips; otherwise a hit gives
      the canonical name and a miss leaves the value as it is, unstripped. */
  function ApplyAlias(norm: string -> string, idx: map<string, string>, x: string): (r: string)
    ensures |idx| == 0 ==> r == Strip(x)
    ensures |idx| > 0 && norm(x) in idx ==> r == idx[norm(x)]
    ensures |idx| > 0 && norm(x) !in idx ==> r == x
  {
    if |idx| == 0 then Strip(x) else if norm(x) in idx then idx[norm(x)] else x
  }

  /** Every canonical name of the index keys back to itself. */
  predicate SelfKeyed(norm: string -> string, idx: map<string, string>)
  {
    forall k :: k in idx ==> norm(idx[k]) in idx && idx[norm(idx[k])] == idx[k]
  }

  /** With self-keyed canonicals, aliasing a second time changes nothing. */
  lemma {:induction false} ApplyAliasIdempotent(norm: string -> string, idx: map<string, string>, x: string)
    requires SelfKeyed(norm, idx)
    ensures ApplyAlias(norm, idx, ApplyAlias(norm, idx, x)) == ApplyAlias(norm, idx, x)
  {
    if |idx| == 0 {
      StripIdempotent(x);
    }
  }

  function Hits(norm: string -> string, idx: map<string, string>, values: seq<string>): (r: nat)
    ensures r <= |values|
  {
    if values == [] then 0
    else Hits(norm, idx, values[..|values| - 1]) + (if norm(values[|values| - 1]) in idx then 1 else 0)
  }

  /** Hits count exactly the values whose key is in the index: all of them, or none. */
  lemma {:induction false} HitsExtremes(norm: string -> string, idx: map<string, string>, values: seq<string>)
    ensures Hits(norm, idx, values) == |values| <==> forall i :: 0 <= i < |values| ==> norm(values[i]) in idx
    ensures Hits(norm, idx, values) == 0 <==> forall i :: 0 <= i < |values| ==> norm(values[i]) !in idx
  {
    if values != [] {
      HitsExtremes(norm, idx, values[..|values| - 1]);
    }
  }

  /** The present values, in order (`dropna`). */
  function Present(series: seq<Option<string>>): (r: seq<string>)
    ensures |r| <= |series|
  {
    if series == [] then []
    else Present(series[..|series| - 1]) + (if series[|series| - 1].Some? then [series[|series| - 1].value] else [])
  }

  /** `alias_coverage`: the percentage of present values whose key is in the index; 0 for
      an empty index or no present value. */
  function AliasCoverage(norm: string -> string, idx: map<string, string>, series: seq<Option<string>>): (r: real)
    ensures 0.0 <= r <= 100.0
    ensures |idx| == 0 || Present(series) == [] ==> r == 0.0
    ensures |idx| > 0 && Present(series) != [] ==>
      r == 100.0 * Hits(norm, idx, Present(series)) as real / |Present(series)| as real
  {
    if |idx| == 0 then 0.0
    else
      var values := Present(series);
      var hits := Hits(norm, idx, values);
      if |values| == 0 then 0.0
      else
        Numeric.PercentWithin(hits as real, |values| as real);
        100.0 * hits as real / |values| as real
  }

  /** Full coverage exactly when every present value hits, none exactly when none does. */
  lemma {:induction false} AliasCoverageExtremes(norm: string -> string, idx: map<string, string>, series: seq<Option<string>>)
    requires |idx| > 0 && Present(series) != []
    ensures AliasCoverage(norm, idx, series) == 100.0 <==>
      forall i :: 0 <= i < |Present(series)| ==> norm(Present(series)[i]) in idx
    ensures AliasCoverage(norm, idx, series) == 0.0 <==>
      forall i :: 0 <= i < |Present(series)| ==> norm(Present(series)[i]) !in idx
  {
    var values := Present(series);
    HitsExtremes(norm, idx, values);
    PercentExtremes(Hits(norm, idx, values) as real, |values| as real);
  }

  lemma {:induction false} PercentExtremes(h: real, t: real)
    requires t > 0.0
    ensures 100.0 * h / t == 100.0 <==> h == t
    ensures 100.0 * h / t == 0.0 <==> h == 0.0
  {
    var q := 100.0 * h / t;
    assert q * t == 100.0 * h;
  }
}

/** The top-meta cut of a decklist (`filter_top_meta`): parse each deck's share, sort by
    share, largest first, and keep the shortest prefix whose cumulative share reaches the
    threshold. `pd.to_numeric` is a parameter of the model. */
module Decklist {
  import opened Wrappers
  import opened Text
  import opened Sorting

  /** One row of the canonical decklist: rank, deck, share as scraped, count and URL. */
  datatype Entry = Entry(rank: Option<int>, deck: string, share: string, count: Option<int>, url: string)

  /** A kept row: the entry, its parsed share and the cumulative share up to it. */
  datatype Ranked = Ranked(entry: Entry, share: real, cum: real)

  const Nbsp: char := '\U{A0}'

  /** The cleaning before parsing: non-breaking spaces and '%' removed, ',' read as the
      decimal point, surrounding whitespace stripped. */
  function CleanPercent(s: string): (r: string)
    ensures Nbsp !in r && '%' !in r && ',' !in r
  {
    var u := RemoveChars(s, {Nbsp, '%'});
    var t := ReplaceChar(u, ',', '.');
    assert forall i :: 0 <= i < |t| ==> t[i] != Nbsp && t[i] != '%' && t[i] != ',' by {
      forall i | 0 <= i < |t| ensures t[i] != Nbsp && t[i] != '%' && t[i] != ',' {
        assert u[i] !in {Nbsp, '%'};
      }
    }
    StripWithin(t);
    Strip(t)
  }

  /** A share as a number; an unparsable one counts as 0. */
  function ParseShare(parse: string -> Option<real>, s: string): real
  {
    parse(CleanPercent(s)).GetOr(0.0)
  }

  /** The entries paired with their parsed shares. */
  function Parsed(parse: string -> Option<real>, es: seq<Entry>): (r: seq<(Entry, real)>)
    ensures |r| == |es| && forall i :: 0 <= i < |es| ==> r[i] == (es[i], ParseShare(parse, es[i].share))
  {
    seq(|es|, i requires 0 <= i < |es| => (es[i], ParseShare(parse, es[i].share)))
  }

  /** `sort_values("share", ascending=False, kind="mergesort")`. */
  predicate ShareGe(p: (Entry, real), q: (Entry, real)) { p.1 >= q.1 }

  lemma {:induction false} ShareGeTotalPreorder()
    ensures TotalPreorder(ShareGe)
  {
  }

  /** The sum of the shares of s. */
  function Total(s: seq<(Entry, real)>): real
  {
    if s == [] then 0.0 else Total(s[..|s| - 1]) + s[|s| - 1].1
  }

  /** `cumsum`: row i carries the total share of rows 0..i. */
  function Cumulate(s: seq<(Entry, real)>): (r: seq<Ranked>)
    ensures |r| == |s|
    ensures forall i :: 0 <= i < |s| ==> r[i] == Ranked(s[i].0, s[i].1, Total(s[..i + 1]))
  {
    seq(|s|, i requires 0 <= i < |s| => Ranked(s[i].0, s[i].1, Total(s[..i + 1])))
  }

  /** The idxmax of `share_cum >= threshold`: the first row that reaches the threshold,
      else the last row. */
  function Cutoff(rs: seq<Ranked>, threshold: real, from: nat := 0): (k: nat)
    requires from < |rs|
    ensures from <= k < |rs|
    ensures forall i :: from <= i < k ==> rs[i].cum < threshold
    ensures rs[k].cum >= threshold || (k == |rs| - 1 && forall i :: from <= i < |rs| ==> rs[i].cum < threshold)
    decreases |rs| - from
  {
    if rs[from].cum >= threshold || from == |rs| - 1 then from
    else Cutoff(rs, threshold, from + 1)
  }

  /** The entries sorted by share, largest first, with their cumulative shares. */
  function Ranking(parse: string -> Option<real>, es: seq<Entry>): (r: seq<Ranked>)
    ensures |r| == |es|
  {
    Cumulate(Sort(Parsed(parse, es), ShareGe))
  }

  /** The front of a ranking that `filter_top_meta` keeps: as few rows as reach the
      threshold. Every row before the last is below it, and the last reaches it unless no
      row does, in which case all rows are kept; the cut is never empty. */
  function Cut(rs: seq<Ranked>, threshold: real): (o: seq<Ranked>)
    requires rs != []
    ensures 0 < |o| && o <= rs
    ensures forall i :: 0 <= i < |o| - 1 ==> o[i].cum < threshold
    ensures o[|o| - 1].cum >= threshold <==> exists i :: 0 <= i < |rs| && rs[i].cum >= threshold
    ensures o[|o| - 1].cum < threshold ==> o == rs
  {
    var k := Cutoff(rs, threshold);
    assert rs[..k + 1][k] == rs[k];
    rs[..k + 1]
  }

  /** `filter_top_meta`: a missing or empty decklist raises; otherwise the cut of its
      ranking. */
  function FilterTopMeta(parse: string -> Option<real>, t: Option<seq<Entry>>, threshold: real): (r: Result<seq<Ranked>>)
    ensures r.Failure? <==> t.None? || t.value == []
    ensures r.Failure? ==> r.error == "ValueError"
    ensures r.Success? ==> r.value == Cut(Ranking(parse, t.value), threshold)
  {
    if t.None? || t.value == [] then Failure("ValueError")
    else Success(Cut(Ranking(parse, t.value), threshold))
  }

  /** Each row's cumulative share is the previous one's plus its own share. */
  lemma {:induction false} CumulateStep(s: seq<(Entry, real)>)
    ensures var r := Cumulate(s);
      (|r| > 0 ==> r[0].cum == r[0].share) &&
      forall i :: 0 < i < |r| ==> r[i].cum == r[i - 1].cum + r[i].share
  {
    var r := Cumulate(s);
    if |r| > 0 {
      assert s[..1][..0] == [] && s[..1][0] == s[0];
      assert Total(s[..1]) == Total(s[..1][..0]) + s[..1][0].1;
    }
    forall i | 0 < i < |r| ensures r[i].cum == r[i - 1].cum + r[i].share {
      assert s[..i + 1][..i] == s[..i] && s[..i + 1][i] == s[i];
      assert Total(s[..i + 1]) == Total(s[..i + 1][..i]) + s[..i + 1][i].1;
    }
  }

  /** The ranking's cumulative shares are running totals of its shares. */
  lemma {:induction false} RankingCumulative(parse: string -> Option<real>, es: seq<Entry>)
    ensures var r := Ranking(parse, es);
      (|r| > 0 ==> r[0].cum == r[0].share) &&
      forall i :: 0 < i < |r| ==> r[i].cum == r[i - 1].cum + r[i].share
  {
    CumulateStep(Sort(Parsed(parse, es), ShareGe));
  }

  /** The ranking is ordered by share, largest first. */
  lemma {:induction false} RankingSorted(parse: string -> Option<real>, es: seq<Entry>)
    ensures var r := Ranking(parse, es);
      forall i, j :: 0 <= i < j < |r| ==> r[i].share >= r[j].share
  {
    var s := Sort(Parsed(parse, es), ShareGe);
    ShareGeTotalPreorder();
    SortSorted(Parsed(parse, es), ShareGe);
    var r := Cumulate(s);
    forall i, j | 0 <= i < j < |r| ensures r[i].share >= r[j].share {
      assert ShareGe(s[i], s[j]);
      assert r[i].share == s[i].1 && r[j].share == s[j].1;
    }
  }

  /** The (entry, share) pairs of ranked rows. */
  function Unranked(r: seq<Ranked>): (s: seq<(Entry, real)>)
    ensures |s| == |r| && forall i :: 0 <= i < |r| ==> s[i] == (r[i].entry, r[i].share)
  {
    seq(|r|, i requires 0 <= i < |r| => (r[i].entry, r[i].share))
  }

  /** The ranking holds every entry once with its parsed share, reordered. */
  lemma {:induction false} RankingPermutation(parse: string -> Option<real>, es: seq<Entry>)
    ensures multiset(Unranked(Ranking(parse, es))) == multiset(Parsed(parse, es))
  {
    var s := Sort(Parsed(parse, es), ShareGe);
    assert Unranked(Cumulate(s)) == s;
  }

  /** Entries of equal share keep their decklist order (the sort is a mergesort). */
  lemma {:induction false} RankingStable(parse: string -> Option<real>, es: seq<Entry>, k: (Entry, real))
    ensures Class(Sort(Parsed(parse, es), ShareGe), k, ShareGe) == Class(Parsed(parse, es), k, ShareGe)
  {
    ShareGeTotalPreorder();
    SortStable(Parsed(parse, es), k, ShareGe);
  }
}

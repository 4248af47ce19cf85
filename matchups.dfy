/** The matchup scraper's pure helpers: the rewrite of a deck URL into its matchups page
    (`to_matchup_url`), the normalisation of one parsed matchup row, and the
    de-duplication of the URLs to fetch. `urlsplit`, `urlunsplit` and `urljoin` are
    parameters of the model. */
module Matchups {
  import opened Wrappers
  import opened Numeric
  import opened Text

  /** The five components `urlsplit` returns. */
  datatype SplitUrl = SplitUrl(scheme: string, netloc: string, path: string, query: string, fragment: string)

  /** `urllib.parse.urlsplit`, `urlunsplit` and `urljoin`. */
  datatype UrlOps = UrlOps(split: string -> SplitUrl, unsplit: SplitUrl -> string, join: (string, string) -> string)

  const BaseUrl: string := "https://play.limitlesstcg.com"
  const Suffix: string := "/matchups"

  /** The path of a matchups page: trailing slashes dropped, "/matchups" appended unless
      the path already ends with it. */
  function MatchupPath(p: string): (r: string)
    ensures EndsWith(r, Suffix)
    ensures RStripChar(p, '/') <= r
    ensures r == RStripChar(p, '/') || r == RStripChar(p, '/') + Suffix
    ensures EndsWith(RStripChar(p, '/'), Suffix) ==> r == RStripChar(p, '/')
  {
    var q := RStripChar(p, '/');
    if EndsWith(q, Suffix) then q else q + Suffix
  }

  /** Rewriting a matchups path changes nothing. */
  lemma {:induction false} MatchupPathIdempotent(p: string)
    ensures MatchupPath(MatchupPath(p)) == MatchupPath(p)
  {
    var r := MatchupPath(p);
    assert r[|r| - 1] == Suffix[|Suffix| - 1];
    assert RStripChar(r, '/') == r;
  }

  /** The split URL: the input itself when it has a scheme and a host, else the input with
      its leading slashes dropped, resolved against the site's base URL. */
  function Resolved(ops: UrlOps, v: string): (s: SplitUrl)
    ensures ops.split(v).scheme != [] && ops.split(v).netloc != [] ==> s == ops.split(v)
  {
    var s := ops.split(v);
    if s.scheme == [] || s.netloc == [] then ops.split(ops.join(RStripChar(BaseUrl, '/') + "/", LStripChar(v, '/')))
    else s
  }

  /** The components of the matchups URL for a stripped, non-blank input. */
  function MatchupParts(ops: UrlOps, v: string): (x: SplitUrl)
    ensures var s := Resolved(ops, v);
      x.scheme == s.scheme && x.netloc == s.netloc && x.query == s.query && x.fragment == s.fragment
    ensures x.path == MatchupPath(Resolved(ops, v).path)
  {
    var s := Resolved(ops, v);
    SplitUrl(s.scheme, s.netloc, MatchupPath(s.path), s.query, s.fragment)
  }

  /** `to_matchup_url`: nothing for a non-string (None) or blank input; otherwise the
      resolved URL with its path moved to the matchups page and the query and fragment
      kept. */
  function ToMatchupUrl(ops: UrlOps, u: Option<string>): (r: Option<string>)
    ensures r.None? <==> u.None? || Strip(u.value) == []
    ensures r.Some? ==> r.value == ops.unsplit(MatchupParts(ops, Strip(u.value)))
  {
    if u.None? then None
    else
      var v := Strip(u.value);
      if v == [] then None else Some(ops.unsplit(MatchupParts(ops, v)))
  }

  /** Applying `to_matchup_url` to its own result gives that result again, given that
      `urlunsplit` writes an absolute URL without surrounding whitespace that `urlsplit`
      reads back. */
  lemma {:induction false} ToMatchupUrlIdempotent(ops: UrlOps, u: string)
    requires Strip(u) != []
    requires Resolved(ops, Strip(u)).scheme != [] && Resolved(ops, Strip(u)).netloc != []
    requires Strip(ops.unsplit(MatchupParts(ops, Strip(u)))) == ops.unsplit(MatchupParts(ops, Strip(u))) != []
    requires ops.split(ops.unsplit(MatchupParts(ops, Strip(u)))) == MatchupParts(ops, Strip(u))
    ensures ToMatchupUrl(ops, ToMatchupUrl(ops, Some(u))) == ToMatchupUrl(ops, Some(u))
  {
    var x := MatchupParts(ops, Strip(u));
    var w := ops.unsplit(x);
    assert Resolved(ops, w) == x;
    MatchupPathIdempotent(Resolved(ops, Strip(u)).path);
    assert MatchupParts(ops, w) == x;
  }

  // ---- one matchup row ----

  /** The matchup row `extract_matchups_from_html` emits. */
  datatype MatchupRow = MatchupRow(deckA: string, deckB: string, w: nat, l: nat, t: nat, n: nat, winrate: real)

  /** A record "W-L" or "W-L-T" as read from the page; a missing T is absent. */
  datatype Record = Record(w: nat, l: nat, t: Option<nat>)

  /** The fallback win rate 100·W/N, or 0 when N is 0. */
  function FallbackRate(w: nat, n: nat): real
  {
    if n > 0 then 100.0 * w as real / n as real else 0.0
  }

  /** One row from the parsed cells: the opponent's name ("Unknown" when blank), the digits
      of the match count (0 when none), the record (W = L = T = 0 when none) and the win
      rate (the fallback when none), rounded to 2 decimals. N is raised to W+L+T. */
  function NormalizeRow(deckName: string, opp: string, nDigits: nat, rec: Option<Record>, wr: Option<real>): (r: MatchupRow)
    ensures r.deckA == deckName && r.deckB == (if opp == "" then "Unknown" else opp)
    ensures rec.None? ==> r.w == 0 && r.l == 0 && r.t == 0
    ensures rec.Some? ==> r.w == rec.value.w && r.l == rec.value.l && r.t == rec.value.t.GetOr(0)
    ensures r.n >= r.w + r.l + r.t && r.n >= nDigits && (r.n == nDigits || r.n == r.w + r.l + r.t)
    ensures wr.Some? ==> Abs(r.winrate - wr.value) <= 0.005
    ensures wr.None? ==> Abs(r.winrate - FallbackRate(r.w, r.n)) <= 0.005
  {
    var (w, l, t) := if rec.None? then (0, 0, 0) else (rec.value.w, rec.value.l, rec.value.t.GetOr(0));
    var n := if nDigits < w + l + t then w + l + t else nDigits;
    var rate := if wr.Some? then wr.value else FallbackRate(w, n);
    MatchupRow(deckName, if opp == "" then "Unknown" else opp, w, l, t, n, RoundTo(rate, 2))
  }

  /** Without a win-rate cell the row's rate is a percentage: in [0, 100]. */
  lemma {:induction false} NormalizeRowFallbackBounds(deckName: string, opp: string, nDigits: nat, rec: Option<Record>)
    ensures var r := NormalizeRow(deckName, opp, nDigits, rec, None);
      0.0 <= r.winrate <= 100.0
  {
    var r := NormalizeRow(deckName, opp, nDigits, rec, None);
    var rate := FallbackRate(r.w, r.n);
    if r.n > 0 {
      PercentWithin(r.w as real, r.n as real);
    }
    RoundToWithin(rate, 2, 0, 100);
  }

  // ---- URL de-duplication ----

  /** A URL cell as `(u or "").strip()`. */
  function CleanUrl(u: Option<string>): string
  {
    Strip(u.GetOr(""))
  }

  function CleanPair(p: (string, Option<string>)): (string, string)
  {
    (p.0, CleanUrl(p.1))
  }

  /** The input pairs with their URLs cleaned. */
  function Cleaned(urls: seq<(string, Option<string>)>): (c: seq<(string, string)>)
    ensures |c| == |urls| && forall i :: 0 <= i < |urls| ==> c[i] == CleanPair(urls[i])
  {
    seq(|urls|, i requires 0 <= i < |urls| => CleanPair(urls[i]))
  }

  /** Pair i is kept: its URL is non-blank and no earlier pair has it. */
  predicate IsFirst(c: seq<(string, string)>, i: nat)
    requires i < |c|
  {
    c[i].1 != [] && forall j :: 0 <= j < i ==> c[j].1 != c[i].1
  }

  /** The kept pairs, in input order. */
  function Firsts(c: seq<(string, string)>): (r: seq<(string, string)>)
  {
    if c == [] then []
    else Firsts(c[..|c| - 1]) + (if IsFirst(c, |c| - 1) then [c[|c| - 1]] else [])
  }

  /** The pairs kept are exactly the first pairs of their URLs. */
  lemma {:induction false} FirstsMembers(c: seq<(string, string)>)
    ensures forall x :: x in Firsts(c) <==> exists i :: 0 <= i < |c| && IsFirst(c, i) && c[i] == x
  {
    if c != [] {
      var s := c[..|c| - 1];
      FirstsMembers(s);
      forall i | 0 <= i < |s| ensures IsFirst(s, i) == IsFirst(c, i) {
        assert forall j :: 0 <= j <= i ==> s[j] == c[j];
      }
    }
  }

  /** A URL is kept once, with the deck name of its first pair, whenever some pair has it. */
  lemma {:induction false} FirstsUrls(c: seq<(string, string)>, u: string)
    requires u != []
    ensures (exists x :: x in Firsts(c) && x.1 == u) <==> exists i :: 0 <= i < |c| && c[i].1 == u
  {
    FirstsMembers(c);
    if exists i :: 0 <= i < |c| && c[i].1 == u {
      var i := FirstIndex(c, u);
      assert IsFirst(c, i);
      assert c[i] in Firsts(c);
    }
  }

  /** The index of the first pair with URL u. */
  function FirstIndex(c: seq<(string, string)>, u: string): (i: nat)
    requires exists i :: 0 <= i < |c| && c[i].1 == u
    ensures i < |c| && c[i].1 == u && forall j :: 0 <= j < i ==> c[j].1 != u
  {
    if c[0].1 == u then 0
    else
      assert exists i :: 0 <= i < |c[1..]| && c[1..][i].1 == u by {
        var i :| 0 <= i < |c| && c[i].1 == u;
        assert c[1..][i - 1] == c[i];
      }
      1 + FirstIndex(c[1..], u)
  }

  /** No URL is kept twice. */
  lemma {:induction false} FirstsDistinct(c: seq<(string, string)>)
    ensures var r := Firsts(c);
      forall k, k' :: 0 <= k < k' < |r| ==> r[k].1 != r[k'].1
  {
    if c != [] {
      var s := c[..|c| - 1];
      FirstsDistinct(s);
      if IsFirst(c, |c| - 1) {
        var r := Firsts(c);
        FirstsMembers(s);
        forall k | 0 <= k < |r| - 1 ensures r[k].1 != c[|c| - 1].1 {
          assert r[k] in Firsts(s);
        }
      }
    }
  }

  /** `seen` holds the non-blank URLs of the first i pairs. */
  ghost predicate SeenUpTo(c: seq<(string, string)>, i: nat, seen: set<string>)
    requires i <= |c|
  {
    forall u :: u != [] ==> (u in seen <==> exists j :: 0 <= j < i && c[j].1 == u)
  }

  /** The de-duplication of `scrape_matchups`: URLs cleaned, then each kept the first time
      it is seen, with the deck name it came with; `total` is the number of pages to fetch. */
  method Dedup(urls: seq<(string, Option<string>)>) returns (dedup: seq<(string, string)>, total: nat)
    ensures dedup == Firsts(Cleaned(urls)) && total == |dedup|
  {
    dedup, total := DedupCleaned(Cleaned(urls));
  }

  /** The loop over cleaned pairs, with the `seen` set. */
  method DedupCleaned(c: seq<(string, string)>) returns (dedup: seq<(string, string)>, total: nat)
    ensures dedup == Firsts(c) && total == |dedup|
  {
    var seen: set<string> := {};
    dedup := [];
    var i := 0;
    while i < |c|
      invariant 0 <= i <= |c|
      invariant dedup == Firsts(c[..i])
      invariant SeenUpTo(c, i, seen)
    {
      var (name, u) := c[i];
      DedupStep(c, i, seen);
      ghost var before := seen;
      ghost var next := Firsts(c[..i + 1]);
      if u != [] && u !in seen {
        seen := seen + {u};
        dedup := dedup + [(name, u)];
      }
      assert dedup == next;
      SeenStep(c, i, before, seen);
      i := i + 1;
    }
    assert c[..|c|] == c;
    total := |dedup|;
  }

  /** One step of the loop: pair i is kept exactly when its URL is non-blank and unseen. */
  lemma {:induction false} DedupStep(c: seq<(string, string)>, i: nat, seen: set<string>)
    requires i < |c| && SeenUpTo(c, i, seen)
    ensures Firsts(c[..i + 1]) == Firsts(c[..i]) + (if c[i].1 != [] && c[i].1 !in seen then [c[i]] else [])
  {
    var s := c[..i + 1];
    assert s[..i] == c[..i] && s[i] == c[i];
    assert IsFirst(s, i) <==> c[i].1 != [] && c[i].1 !in seen;
  }

  /** After the step, `seen` holds the URLs of the first i + 1 pairs. */
  lemma {:induction false} SeenStep(c: seq<(string, string)>, i: nat, before: set<string>, seen: set<string>)
    requires i < |c| && SeenUpTo(c, i, before)
    requires seen == if c[i].1 != [] then before + {c[i].1} else before
    ensures SeenUpTo(c, i + 1, seen)
  {
  }
}

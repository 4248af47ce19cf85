/** `groupby(key, sort=False)`: the groups of a table in order of first appearance, with
    the facts the consolidation steps need about them (each row in exactly one group,
    one group per key), and when two sorted tables are the same. */
module Grouping {
  import opened Sorting

  /** The distinct keys of s in order of first appearance. */
  function Keys<T, K(==)>(s: seq<T>, key: T -> K): seq<K>
  {
    if s == [] then []
    else
      var ks := Keys(s[..|s| - 1], key);
      if key(s[|s| - 1]) in ks then ks else ks + [key(s[|s| - 1])]
  }

  predicate Distinct<K(==)>(ks: seq<K>)
  {
    forall i, j :: 0 <= i < j < |ks| ==> ks[i] != ks[j]
  }

  /** Keys are distinct and are exactly the keys of the rows. */
  lemma {:induction false} KeysSpec<T, K>(s: seq<T>, key: T -> K)
    ensures Distinct(Keys(s, key))
    ensures forall i :: 0 <= i < |s| ==> key(s[i]) in Keys(s, key)
    ensures forall k :: k in Keys(s, key) ==> exists i :: 0 <= i < |s| && key(s[i]) == k
  {
    if s != [] {
      var front := s[..|s| - 1];
      KeysSpec(front, key);
      var ks := Keys(front, key);
      assert Keys(s, key) == if key(s[|s| - 1]) in ks then ks else ks + [key(s[|s| - 1])];
      forall i | 0 <= i < |s| ensures key(s[i]) in Keys(s, key) {
        if i < |front| {
          assert front[i] == s[i];
          assert key(front[i]) in ks;
        }
      }
      forall k | k in Keys(s, key) ensures exists i :: 0 <= i < |s| && key(s[i]) == k {
        if k in ks {
          var i :| 0 <= i < |front| && key(front[i]) == k;
          assert s[i] == front[i];
        } else {
          assert key(s[|s| - 1]) == k;
        }
      }
    }
  }

  /** The rows with key k, in order. */
  function Group<T, K(==)>(s: seq<T>, key: T -> K, k: K): seq<T>
  {
    if s == [] then [] else Group(s[..|s| - 1], key, k) + (if key(s[|s| - 1]) == k then [s[|s| - 1]] else [])
  }

  lemma {:induction false} GroupSpec<T, K>(s: seq<T>, key: T -> K, k: K)
    ensures forall x :: x in Group(s, key, k) ==> x in s && key(x) == k
    ensures forall i :: 0 <= i < |s| && key(s[i]) == k ==> s[i] in Group(s, key, k)
    ensures multiset(Group(s, key, k)) <= multiset(s)
  {
    if s != [] {
      var front := s[..|s| - 1];
      GroupSpec(front, key, k);
      assert s == front + [s[|s| - 1]];
      forall i | 0 <= i < |s| && key(s[i]) == k ensures s[i] in Group(s, key, k) {
        if i < |front| {
          assert s[i] == front[i];
        }
      }
    }
  }

  /** A group of a key that occurs is not empty. */
  lemma {:induction false} GroupNonEmpty<T, K>(s: seq<T>, key: T -> K, k: K)
    requires k in Keys(s, key)
    ensures Group(s, key, k) != []
  {
    KeysSpec(s, key);
    var i :| 0 <= i < |s| && key(s[i]) == k;
    GroupSpec(s, key, k);
  }

  /** key2 is key followed by h, and h is one-to-one on the keys of s. */
  ghost predicate Relabels<T, K, L>(s: seq<T>, key: T -> K, key2: T -> L, h: K -> L)
  {
    && (forall x :: x in s ==> key2(x) == h(key(x)))
    && (forall x, y :: x in s && y in s && h(key(x)) == h(key(y)) ==> key(x) == key(y))
  }

  /** The keys ks renamed by h. */
  function Relabel<K, L>(h: K -> L, ks: seq<K>): seq<L>
  {
    seq(|ks|, i requires 0 <= i < |ks| => h(ks[i]))
  }

  /** Grouping by a relabelled key finds the same keys, renamed. */
  lemma {:induction false} KeysRelabel<T, K, L>(s: seq<T>, key: T -> K, key2: T -> L, h: K -> L)
    requires Relabels(s, key, key2, h)
    ensures Keys(s, key2) == Relabel(h, Keys(s, key))
  {
    if s != [] {
      var front := s[..|s| - 1];
      var z := s[|s| - 1];
      assert forall x :: x in front ==> x in s;
      KeysRelabel(front, key, key2, h);
      KeysSpec(front, key);
      var ks := Keys(front, key);
      if key(z) in ks {
        var i :| 0 <= i < |ks| && ks[i] == key(z);
        assert Relabel(h, ks)[i] == key2(z);
      } else {
        forall i | 0 <= i < |ks| ensures Relabel(h, ks)[i] != key2(z) {
          assert ks[i] in ks;
          var j :| 0 <= j < |front| && key(front[j]) == ks[i];
          assert front[j] in s;
        }
        assert Relabel(h, ks + [key(z)]) == Relabel(h, ks) + [key2(z)];
      }
    }
  }

  /** The group of a relabelled key is the group of the key. */
  lemma {:induction false} GroupRelabel<T, K, L>(s: seq<T>, key: T -> K, key2: T -> L, h: K -> L, k: K)
    requires Relabels(s, key, key2, h)
    requires forall x :: x in s && h(key(x)) == h(k) ==> key(x) == k
    ensures Group(s, key2, h(k)) == Group(s, key, k)
  {
    if s != [] {
      var front := s[..|s| - 1];
      assert forall x :: x in front ==> x in s;
      GroupRelabel(front, key, key2, h, k);
      assert s[|s| - 1] in s;
    }
  }

  /** The groups of the keys ks, one after the other. */
  function GroupsConcat<T, K(==)>(s: seq<T>, key: T -> K, ks: seq<K>): seq<T>
  {
    if ks == [] then [] else Group(s, key, ks[0]) + GroupsConcat(s, key, ks[1..])
  }

  lemma {:induction false} GroupsConcatSnoc<T, K>(s: seq<T>, x: T, key: T -> K, ks: seq<K>)
    requires Distinct(ks)
    ensures multiset(GroupsConcat(s + [x], key, ks))
         == multiset(GroupsConcat(s, key, ks)) + (if key(x) in ks then multiset{x} else multiset{})
  {
    if ks != [] {
      var t := s + [x];
      assert t[..|t| - 1] == s && t[|t| - 1] == x;
      var add := if key(x) == ks[0] then [x] else [];
      assert Group(t, key, ks[0]) == Group(s, key, ks[0]) + add;
      DistinctTail(ks);
      GroupsConcatSnoc(s, x, key, ks[1..]);
      assert GroupsConcat(t, key, ks) == Group(t, key, ks[0]) + GroupsConcat(t, key, ks[1..]);
      assert GroupsConcat(s, key, ks) == Group(s, key, ks[0]) + GroupsConcat(s, key, ks[1..]);
      assert key(x) in ks <==> key(x) == ks[0] || key(x) in ks[1..];
    }
  }

  /** A new key at the end keeps the keys distinct. */
  lemma {:induction false} DistinctSnoc<K>(ks: seq<K>, k: K)
    requires Distinct(ks) && k !in ks
    ensures Distinct(ks + [k])
  {
    var t := ks + [k];
    forall i, j | 0 <= i < j < |t| ensures t[i] != t[j] {
      assert t[i] == ks[i];
      if j < |ks| {
        assert t[j] == ks[j];
      }
    }
  }

  /** The head of a list of distinct keys is not in its tail, which is distinct too. */
  lemma {:induction false} DistinctTail<K>(ks: seq<K>)
    requires Distinct(ks) && ks != []
    ensures ks[0] !in ks[1..] && Distinct(ks[1..])
  {
    forall j | 0 <= j < |ks[1..]| ensures ks[1..][j] != ks[0] {
      assert ks[1..][j] == ks[j + 1];
    }
  }

  lemma {:induction false} GroupsConcatAppendKey<T, K>(s: seq<T>, key: T -> K, ks: seq<K>, k: K)
    ensures GroupsConcat(s, key, ks + [k]) == GroupsConcat(s, key, ks) + Group(s, key, k)
  {
    if ks == [] {
      assert [k][1..] == [];
    } else {
      assert (ks + [k])[1..] == ks[1..] + [k];
      GroupsConcatAppendKey(s, key, ks[1..], k);
    }
  }

  /** A group with a key that is not listed adds nothing. */
  lemma {:induction false} GroupEmptyOfNewKey<T, K>(s: seq<T>, key: T -> K, k: K)
    requires k !in Keys(s, key)
    ensures Group(s, key, k) == []
  {
    if s != [] {
      var front := s[..|s| - 1];
      var ks := Keys(front, key);
      assert Keys(s, key) == if key(s[|s| - 1]) in ks then ks else ks + [key(s[|s| - 1])];
      GroupEmptyOfNewKey(front, key, k);
    }
  }

  /** Every row lands in exactly one group: the groups together are a permutation of s. */
  lemma {:induction false} Partition<T, K>(s: seq<T>, key: T -> K)
    ensures multiset(GroupsConcat(s, key, Keys(s, key))) == multiset(s)
  {
    if s != [] {
      var front := s[..|s| - 1];
      var x := s[|s| - 1];
      assert s == front + [x];
      Partition(front, key);
      var ks := Keys(front, key);
      KeysSpec(front, key);
      assert Keys(s, key) == if key(x) in ks then ks else ks + [key(x)];
      GroupsConcatSnoc(front, x, key, ks);
      if key(x) !in ks {
        GroupsConcatAppendKey(s, key, ks, key(x));
        GroupEmptyOfNewKey(front, key, key(x));
        assert Group(s, key, key(x)) == Group(front, key, key(x)) + [x];
      }
    }
  }

  /** No two rows share a key. */
  predicate DistinctBy<T, K(==)>(s: seq<T>, key: T -> K)
  {
    forall i, j :: 0 <= i < j < |s| ==> key(s[i]) != key(s[j])
  }

  /** Dropping the last row of a table with distinct keys leaves distinct keys, none of
      them the last row's. */
  lemma {:induction false} DistinctByFront<T, K>(s: seq<T>, key: T -> K)
    requires DistinctBy(s, key) && s != []
    ensures DistinctBy(s[..|s| - 1], key)
    ensures forall z :: z in s[..|s| - 1] ==> key(z) != key(s[|s| - 1])
  {
    var front := s[..|s| - 1];
    forall i, j | 0 <= i < j < |front| ensures key(front[i]) != key(front[j]) {
      assert s[i] == front[i] && s[j] == front[j];
    }
    forall z | z in front ensures key(z) != key(s[|s| - 1]) {
      var k :| 0 <= k < |front| && front[k] == z;
      assert s[k] == z;
    }
  }

  /** A group of a table with distinct keys has distinct keys. */
  lemma {:induction false} GroupDistinctBy<T, K, J>(s: seq<T>, key: T -> K, k: K, key2: T -> J)
    requires DistinctBy(s, key2)
    ensures DistinctBy(Group(s, key, k), key2)
  {
    if s != [] {
      var front := s[..|s| - 1];
      var x := s[|s| - 1];
      assert DistinctBy(front, key2);
      GroupDistinctBy(front, key, k, key2);
      GroupSpec(front, key, k);
      var g := Group(front, key, k);
      assert Group(s, key, k) == g + (if key(x) == k then [x] else []);
      if key(x) == k {
        forall y | y in g ensures key2(y) != key2(x) {
          var r :| 0 <= r < |front| && front[r] == y;
          assert s[r] == y;
        }
        DistinctByConcat(g, [x], key2);
      }
    }
  }

  /** Two tables with distinct keys and no key in common concatenate to one with distinct keys. */
  lemma {:induction false} DistinctByConcat<T, K>(h: seq<T>, r: seq<T>, key: T -> K)
    requires DistinctBy(h, key) && DistinctBy(r, key)
    requires forall x, y :: x in h && y in r ==> key(x) != key(y)
    ensures DistinctBy(h + r, key)
  {
    forall i, j | 0 <= i < j < |h + r| ensures key((h + r)[i]) != key((h + r)[j]) {
      if j < |h| {
        assert (h + r)[i] == h[i] && (h + r)[j] == h[j];
      } else if i < |h| {
        assert (h + r)[i] == h[i] && (h + r)[j] == r[j - |h|];
      } else {
        assert (h + r)[i] == r[i - |h|] && (h + r)[j] == r[j - |h|];
      }
    }
  }

  /** Two places holding the same value count twice in the multiset. */
  lemma {:induction false} TwoPlaces<T>(s: seq<T>, i: nat, j: nat)
    requires i < j < |s| && s[i] == s[j]
    ensures multiset(s)[s[i]] >= 2
  {
    assert s == s[..j] + [s[j]] + s[j + 1..];
    assert s[i] in s[..j];
  }

  /** With distinct keys no row occurs twice. */
  lemma {:induction false} DistinctByOnce<T, K>(s: seq<T>, key: T -> K)
    requires DistinctBy(s, key)
    ensures forall x :: multiset(s)[x] <= 1
  {
    if s != [] {
      var front := s[..|s| - 1];
      assert DistinctBy(front, key);
      DistinctByOnce(front, key);
      assert s == front + [s[|s| - 1]];
      assert s[|s| - 1] !in front by {
        forall r | 0 <= r < |front| ensures front[r] != s[|s| - 1] {
          assert front[r] == s[r];
        }
      }
    }
  }

  /** Distinct keys survive any permutation. */
  lemma {:induction false} DistinctByPermutation<T, K>(s: seq<T>, t: seq<T>, key: T -> K)
    requires DistinctBy(s, key) && multiset(s) == multiset(t)
    ensures DistinctBy(t, key)
  {
    DistinctByOnce(s, key);
    forall i, j | 0 <= i < j < |t| ensures key(t[i]) != key(t[j]) {
      assert t[i] in multiset(s) && t[j] in multiset(s);
      var p :| 0 <= p < |s| && s[p] == t[i];
      var q :| 0 <= q < |s| && s[q] == t[j];
      if t[i] == t[j] {
        TwoPlaces(t, i, j);
      } else if p < q {
        assert key(s[p]) != key(s[q]);
      } else {
        assert key(s[q]) != key(s[p]);
      }
    }
  }

  /** With distinct keys, the key list follows the rows and each group is one row. */
  lemma {:induction false} DistinctKeysGroups<T, K>(s: seq<T>, key: T -> K)
    requires DistinctBy(s, key)
    ensures |Keys(s, key)| == |s| && forall i :: 0 <= i < |s| ==> Keys(s, key)[i] == key(s[i])
    ensures forall i :: 0 <= i < |s| ==> Group(s, key, key(s[i])) == [s[i]]
  {
    if s != [] {
      var front := s[..|s| - 1];
      var x := s[|s| - 1];
      assert DistinctBy(front, key);
      DistinctKeysGroups(front, key);
      assert key(x) !in Keys(front, key);
      forall i | 0 <= i < |s| ensures Group(s, key, key(s[i])) == [s[i]] {
        if i < |front| {
          assert front[i] == s[i];
          assert key(x) != key(s[i]);
        } else {
          KeysSpec(front, key);
          GroupEmptyOfNewKey(front, key, key(x));
        }
      }
    }
  }

  /** The tail of a sorted sequence is sorted. */
  lemma {:induction false} SortedTail<T>(s: seq<T>, le: (T, T) -> bool)
    requires s != [] && Sorted(s, le)
    ensures Sorted(s[1..], le)
  {
    forall i, j | 0 <= i < j < |s[1..]| ensures le(s[1..][i], s[1..][j]) {
      assert s[1..][i] == s[i + 1] && s[1..][j] == s[j + 1];
    }
  }

  /** Two sorted permutations start with rows that `le` ties both ways. */
  lemma {:induction false} SortedHeads<T>(s: seq<T>, t: seq<T>, le: (T, T) -> bool)
    requires s != [] && Sorted(s, le) && Sorted(t, le) && multiset(s) == multiset(t)
    ensures t != [] && t[0] in s
    ensures s[0] == t[0] || (le(s[0], t[0]) && le(t[0], s[0]))
  {
    assert s[0] in multiset(t);
    assert t[0] in multiset(s);
    var p :| 0 <= p < |s| && s[p] == t[0];
    var q :| 0 <= q < |t| && t[q] == s[0];
    if p > 0 && q > 0 {
      assert le(s[0], s[p]) && le(t[0], t[q]);
    }
  }

  /** Permutations with the same head have permuted tails. */
  lemma {:induction false} TailMultiset<T>(s: seq<T>, t: seq<T>)
    requires s != [] && t != [] && s[0] == t[0] && multiset(s) == multiset(t)
    ensures multiset(s[1..]) == multiset(t[1..])
  {
    assert s == [s[0]] + s[1..] && t == [t[0]] + t[1..];
    assert multiset(s) == multiset{s[0]} + multiset(s[1..]);
    assert multiset(t) == multiset{t[0]} + multiset(t[1..]);
    assert multiset(s[1..]) == multiset(s) - multiset{s[0]};
    assert multiset(t[1..]) == multiset(t) - multiset{t[0]};
  }

  /** Two sorted permutations of each other are equal when `le` only ties equal rows. */
  lemma {:induction false} SortedUnique<T>(s: seq<T>, t: seq<T>, le: (T, T) -> bool)
    requires Sorted(s, le) && Sorted(t, le) && multiset(s) == multiset(t)
    requires forall x, y :: x in s && y in s && le(x, y) && le(y, x) ==> x == y
    ensures s == t
  {
    if s != [] {
      SortedHeads(s, t, le);
      assert s[0] in s;
      assert s[0] == t[0];
      SortedTail(s, le);
      SortedTail(t, le);
      TailMultiset(s, t);
      assert forall x :: x in s[1..] ==> x in s;
      SortedUnique(s[1..], t[1..], le);
    }
  }
}

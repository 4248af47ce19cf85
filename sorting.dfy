/** A stable sort over a total preorder `le`, the model of pandas
    `sort_values(..., kind="mergesort")` and of Python's `sorted`. */
module Sorting {

  ghost predicate TotalPreorder<T(!new)>(le: (T, T) -> bool)
  {
    && (forall a, b :: le(a, b) || le(b, a))
    && (forall a, b, c :: le(a, b) && le(b, c) ==> le(a, c))
  }

  predicate Sorted<T>(s: seq<T>, le: (T, T) -> bool)
  {
    forall i, j :: 0 <= i < j < |s| ==> le(s[i], s[j])
  }

  /** x goes in front of the first element it is not strictly greater than. */
  function Insert<T>(x: T, s: seq<T>, le: (T, T) -> bool): (r: seq<T>)
    ensures multiset(r) == multiset(s) + multiset{x}
  {
    if s == [] then [x]
    else if le(x, s[0]) then [x] + s
    else
      assert s == [s[0]] + s[1..];
      [s[0]] + Insert(x, s[1..], le)
  }

  function Sort<T>(s: seq<T>, le: (T, T) -> bool): (r: seq<T>)
    ensures multiset(r) == multiset(s) && |r| == |s|
  {
    if s == [] then []
    else
      assert s == [s[0]] + s[1..];
      Insert(s[0], Sort(s[1..], le), le)
  }

  lemma {:induction false} InsertSorted<T(!new)>(x: T, s: seq<T>, le: (T, T) -> bool)
    requires TotalPreorder(le) && Sorted(s, le)
    ensures Sorted(Insert(x, s, le), le)
  {
    if s != [] && !le(x, s[0]) {
      InsertSorted(x, s[1..], le);
      var r := Insert(x, s, le);
      var t := Insert(x, s[1..], le);
      assert r == [s[0]] + t;
      forall j | 0 < j < |r| ensures le(s[0], r[j]) {
        assert r[j] == t[j - 1];
        assert r[j] in multiset(t);
        assert r[j] in multiset(s[1..]) || r[j] == x;
        if r[j] != x {
          var m :| 0 <= m < |s[1..]| && s[1..][m] == r[j];
          assert s[m + 1] == r[j];
        }
      }
    }
  }

  lemma {:induction false} SortSorted<T(!new)>(s: seq<T>, le: (T, T) -> bool)
    requires TotalPreorder(le)
    ensures Sorted(Sort(s, le), le)
  {
    if s != [] {
      SortSorted(s[1..], le);
      InsertSorted(s[0], Sort(s[1..], le), le);
    }
  }

  /** The elements of s equivalent to k under le, in their order in s. */
  function Class<T>(s: seq<T>, k: T, le: (T, T) -> bool): seq<T>
  {
    if s == [] then [] else (if le(s[0], k) && le(k, s[0]) then [s[0]] else []) + Class(s[1..], k, le)
  }

  /** Sequence facts that are cheap on their own and costly inside a large proof. */
  lemma {:induction false} AppendAssoc<T>(a: seq<T>, b: seq<T>, c: seq<T>)
    ensures a + (b + c) == (a + b) + c
  {
  }

  lemma {:induction false} SwapEmpty<T>(a: seq<T>, b: seq<T>, c: seq<T>)
    requires a == [] || b == []
    ensures a + (b + c) == b + (a + c)
  {
  }

  /** An element not below `b` is not equivalent to `k` when `b` is. */
  lemma {:induction false} NotBothEquivalent<T(!new)>(le: (T, T) -> bool, a: T, b: T, k: T)
    requires TotalPreorder(le) && !le(a, b)
    ensures !(le(a, k) && le(b, k) && le(k, b))
  {
  }

  lemma {:induction false} InsertClass<T(!new)>(x: T, s: seq<T>, k: T, le: (T, T) -> bool)
    requires TotalPreorder(le)
    ensures Class(Insert(x, s, le), k, le)
            == (if le(x, k) && le(k, x) then [x] else []) + Class(s, k, le)
  {
    var cx := if le(x, k) && le(k, x) then [x] else [];
    if s == [] {
      assert [x][1..] == [];
    } else if le(x, s[0]) {
      assert ([x] + s)[0] == x && ([x] + s)[1..] == s;
    } else {
      var r := Insert(x, s, le);
      var t := Insert(x, s[1..], le);
      assert r == [s[0]] + t;
      assert r[0] == s[0] && r[1..] == t;
      InsertClass(x, s[1..], k, le);
      var c0 := if le(s[0], k) && le(k, s[0]) then [s[0]] else [];
      assert Class(r, k, le) == c0 + (cx + Class(s[1..], k, le));
      assert Class(s, k, le) == c0 + Class(s[1..], k, le);
      NotBothEquivalent(le, x, s[0], k);
      SwapEmpty(c0, cx, Class(s[1..], k, le));
    }
  }

  /** Stability: equivalent elements keep their relative order. */
  lemma {:induction false} SortStable<T(!new)>(s: seq<T>, k: T, le: (T, T) -> bool)
    requires TotalPreorder(le)
    ensures Class(Sort(s, le), k, le) == Class(s, k, le)
  {
    if s != [] {
      SortStable(s[1..], k, le);
      InsertClass(s[0], Sort(s[1..], le), k, le);
    }
  }
}

/** Sequence facts shared by the pipeline: duplicate-freedom, first occurrence,
    and `Distinct`, the model of pandas' `Series.unique()`. */
module Sequences {

  /** No value occurs twice in `s`. */
  predicate NoDup<T(==)>(s: seq<T>) {
    forall i, j :: 0 <= i < j < |s| ==> s[i] != s[j]
  }

  /** The position of the first occurrence of `x` in `s`. */
  function FirstIndex<T(==)>(s: seq<T>, x: T): (r: nat)
    requires x in s
    ensures r < |s| && s[r] == x
    ensures x !in s[..r]
    decreases |s|
  {
    var n := |s| - 1;
    if x in s[..n] then
      var r := FirstIndex(s[..n], x);
      assert s[..n][..r] == s[..r];
      r
    else
      assert s == s[..n] + [s[n]];
      n
  }

  /** The values of `s` without repetitions, each kept where it is first seen:
      what pandas' `unique()` returns for a column. */
  function Distinct<T(==)>(s: seq<T>): seq<T>
    decreases |s|
  {
    if s == [] then []
    else
      var n := |s| - 1;
      var prefix := Distinct(s[..n]);
      if s[n] in prefix then prefix else prefix + [s[n]]
  }

  /** The first occurrence of a value of `s[..n]` is the same in `s`. */
  lemma FirstIndexPrefix<T>(s: seq<T>, n: nat, x: T)
    requires n <= |s| && x in s[..n]
    ensures FirstIndex(s, x) == FirstIndex(s[..n], x)
  {
    var q := FirstIndex(s[..n], x);
    assert s[..n][..q] == s[..q];
  }

  /** `e` lists the values of `s` once each, in the order of their first
      occurrence in `s`: the contract of pandas' `unique()`. */
  ghost predicate ListsFirstSeen<T(!new)>(s: seq<T>, e: seq<T>) {
    && NoDup(e)
    && (forall x :: x in e <==> x in s)
    && (forall i, j :: 0 <= i < j < |e| ==> FirstIndex(s, e[i]) < FirstIndex(s, e[j]))
  }

  /** `Distinct(s)` meets the contract of `unique()`. */
  lemma {:induction false} DistinctListsFirstSeen<T(!new)>(s: seq<T>)
    ensures ListsFirstSeen(s, Distinct(s))
  {
    if s != [] {
      var n := |s| - 1;
      var prefix := Distinct(s[..n]);
      DistinctListsFirstSeen(s[..n]);
      assert s == s[..n] + [s[n]];
      forall y | y in prefix
        ensures FirstIndex(s, y) == FirstIndex(s[..n], y) < n
      {
        FirstIndexPrefix(s, n, y);
      }
      if s[n] !in prefix {
        assert s[n] !in s[..n];
        assert FirstIndex(s, s[n]) == n;
      }
    }
  }

  /** When the last value of `s` occurred before, a listing for `s` is one for
      `s` without its last value. */
  lemma ListsFirstSeenRepeated<T(!new)>(s: seq<T>, e: seq<T>)
    requires |s| > 0 && s[|s| - 1] in s[..|s| - 1]
    requires ListsFirstSeen(s, e)
    ensures ListsFirstSeen(s[..|s| - 1], e)
  {
    var n := |s| - 1;
    var p := s[..n];
    assert s == p + [s[n]];
    forall y | y in p
      ensures FirstIndex(s, y) == FirstIndex(p, y)
    {
      FirstIndexPrefix(s, n, y);
    }
  }

  /** When the last value of `s` is new, a listing for `s` ends with it, and
      what comes before is a listing for `s` without its last value. */
  lemma ListsFirstSeenFresh<T(!new)>(s: seq<T>, e: seq<T>)
    requires |s| > 0 && s[|s| - 1] !in s[..|s| - 1]
    requires ListsFirstSeen(s, e)
    ensures |e| > 0 && e[|e| - 1] == s[|s| - 1]
    ensures ListsFirstSeen(s[..|s| - 1], e[..|e| - 1])
  {
    var n := |s| - 1;
    var p := s[..n];
    assert s == p + [s[n]];
    forall y | y in p
      ensures FirstIndex(s, y) == FirstIndex(p, y) < n
    {
      FirstIndexPrefix(s, n, y);
    }
    assert s[n] in e;
    assert FirstIndex(s, s[n]) == n;
    var last := |e| - 1;
    var e' := e[..last];
    assert e == e' + [s[n]];
    forall x ensures x in e' <==> x in p {
      if x in p {
        assert x in s;
        var k :| 0 <= k < |e| && e[k] == x;
        assert k < last && e'[k] == x;
      }
    }
  }

  /** A non-empty sequence holds its first element. */
  lemma HeadIsMember<T>(e: seq<T>)
    ensures e == [] || e[0] in e
  {
  }

  /** `Distinct(s)` is the only listing of `s` in first-seen order. */
  lemma {:induction false} DistinctIsUnique<T(!new)>(s: seq<T>, e: seq<T>)
    requires ListsFirstSeen(s, e)
    ensures e == Distinct(s)
    decreases |s|
  {
    if s == [] {
      HeadIsMember(e);
    } else {
      var n := |s| - 1;
      if s[n] in s[..n] {
        ListsFirstSeenRepeated(s, e);
        DistinctIsUnique(s[..n], e);
      } else {
        ListsFirstSeenFresh(s, e);
        DistinctIsUnique(s[..n], e[..|e| - 1]);
        assert e == e[..|e| - 1] + [s[n]];
      }
    }
  }

  /** Two duplicate-free sequences with no common value concatenate to a
      duplicate-free sequence. */
  lemma NoDupConcat<T>(a: seq<T>, b: seq<T>)
    requires NoDup(a) && NoDup(b)
    requires forall x :: x in a ==> x !in b
    ensures NoDup(a + b)
  {
    forall i, j | 0 <= i < j < |a + b| ensures (a + b)[i] != (a + b)[j] {
      if i < |a| && |a| <= j {
        assert (a + b)[i] in a && (a + b)[j] == b[j - |a|];
      }
    }
  }

  /** In a duplicate-free sequence every value is counted at most once. */
  lemma {:induction false} NoDupCount<T>(s: seq<T>, x: T)
    requires NoDup(s)
    ensures multiset(s)[x] == if x in s then 1 else 0
    decreases |s|
  {
    if s != [] {
      var n := |s| - 1;
      assert s == s[..n] + [s[n]];
      NoDupCount(s[..n], x);
      if x == s[n] {
        assert x !in s[..n];
      }
    }
  }
}

/**
 * Python's `sorted(...)` and `list.sort()`: a stable sort, written here as an
 * insertion sort over a strict "must come first" relation. Each caller in the
 * core fixes the relation: higher score first, higher `(score, id)` first,
 * lower chunk index first.
 */
module Sorting {

  /** `precedes` is a strict order: irreflexive and transitive. */
  ghost predicate StrictOrder<T(!new)>(precedes: (T, T) -> bool) {
    && (forall a :: !precedes(a, a))
    && (forall a, b, c :: precedes(a, b) && precedes(b, c) ==> precedes(a, c))
  }

  /** No element is followed by one that must come before it. */
  predicate SortedBy<T>(s: seq<T>, precedes: (T, T) -> bool) {
    forall i, j :: 0 <= i < j < |s| ==> !precedes(s[j], s[i])
  }

  /** No two elements share a key. */
  predicate DistinctBy<T, K(==)>(s: seq<T>, key: T -> K) {
    forall i, j :: 0 <= i < j < |s| ==> key(s[i]) != key(s[j])
  }

  /** No id occurs twice. */
  predicate NoDup(xs: seq<int>) {
    forall i, j :: 0 <= i < j < |xs| ==> xs[i] != xs[j]
  }

  /** Puts `x` just before the first element it must precede (after its equals: stable). */
  function Insert<T>(x: T, s: seq<T>, precedes: (T, T) -> bool): (r: seq<T>)
    ensures |r| == |s| + 1
    ensures multiset(r) == multiset(s) + multiset{x}
  {
    if s == [] then [x]
    else if precedes(x, s[0]) then [x] + s
    else
      assert s == [s[0]] + s[1..];
      [s[0]] + Insert(x, s[1..], precedes)
  }

  /** Inserting into a sorted sequence keeps it sorted. */
  lemma {:induction false} InsertSorted<T(!new)>(x: T, s: seq<T>, precedes: (T, T) -> bool)
    requires StrictOrder(precedes) && SortedBy(s, precedes)
    ensures SortedBy(Insert(x, s, precedes), precedes)
  {
    if s == [] {
    } else if precedes(x, s[0]) {
      forall i | 0 <= i < |s| ensures !precedes(s[i], x) {
        assert i == 0 || !precedes(s[i], s[0]);
      }
      PrependSorted(x, s, precedes);
    } else {
      var rest := Insert(x, s[1..], precedes);
      InsertSorted(x, s[1..], precedes);
      forall i | 0 <= i < |rest| ensures !precedes(rest[i], s[0]) {
        var e := rest[i];
        assert e in multiset(rest);
        if e != x {
          assert e in multiset(s[1..]);
          var k :| 0 <= k < |s[1..]| && s[1..][k] == e;
          assert s[k + 1] == e;
        }
      }
      PrependSorted(s[0], rest, precedes);
    }
  }

  /** An element that nothing in a sorted sequence must precede can go in front of it. */
  lemma PrependSorted<T>(x: T, s: seq<T>, precedes: (T, T) -> bool)
    requires SortedBy(s, precedes)
    requires forall i :: 0 <= i < |s| ==> !precedes(s[i], x)
    ensures SortedBy([x] + s, precedes)
  {
    var r := [x] + s;
    forall i, j | 0 <= i < j < |r| ensures !precedes(r[j], r[i]) {
      assert r[j] == s[j - 1];
      if i > 0 {
        assert r[i] == s[i - 1];
      }
    }
  }

  /** The sorted permutation of `s`. */
  function Sort<T>(s: seq<T>, precedes: (T, T) -> bool): (r: seq<T>)
    ensures |r| == |s|
    ensures multiset(r) == multiset(s)
  {
    if s == [] then []
    else
      assert s == s[..|s| - 1] + [s[|s| - 1]];
      Insert(s[|s| - 1], Sort(s[..|s| - 1], precedes), precedes)
  }

  /** Under a strict order, `Sort` really sorts. */
  lemma {:induction false} SortSorted<T(!new)>(s: seq<T>, precedes: (T, T) -> bool)
    requires StrictOrder(precedes)
    ensures SortedBy(Sort(s, precedes), precedes)
  {
    if s != [] {
      SortSorted(s[..|s| - 1], precedes);
      InsertSorted(s[|s| - 1], Sort(s[..|s| - 1], precedes), precedes);
    }
  }

  lemma {:induction false} InsertKeepsDistinct<T, K>(x: T, s: seq<T>, precedes: (T, T) -> bool, key: T -> K)
    requires DistinctBy(s, key)
    requires forall i :: 0 <= i < |s| ==> key(s[i]) != key(x)
    ensures DistinctBy(Insert(x, s, precedes), key)
  {
    if s != [] && !precedes(x, s[0]) {
      var rest := Insert(x, s[1..], precedes);
      InsertKeepsDistinct(x, s[1..], precedes, key);
      forall e | e in rest ensures key(e) != key(s[0]) {
        assert e in multiset(rest);
        if e != x {
          var j :| 0 <= j < |s[1..]| && s[1..][j] == e;
          assert s[j + 1] == e;
        }
      }
    }
  }

  /** Sorting a sequence whose keys are distinct leaves the keys distinct. */
  lemma {:induction false} SortKeepsDistinct<T, K>(s: seq<T>, precedes: (T, T) -> bool, key: T -> K)
    requires DistinctBy(s, key)
    ensures DistinctBy(Sort(s, precedes), key)
  {
    if s != [] {
      var init := s[..|s| - 1];
      var sorted := Sort(init, precedes);
      SortKeepsDistinct(init, precedes, key);
      forall i | 0 <= i < |sorted| ensures key(sorted[i]) != key(s[|s| - 1]) {
        assert sorted[i] in multiset(init);
        var j :| 0 <= j < |init| && init[j] == sorted[i];
      }
      InsertKeepsDistinct(s[|s| - 1], sorted, precedes, key);
    }
  }
}

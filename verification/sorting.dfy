/**
 * Kotlin's `sortedBy`/`sortedByDescending` are stable sorts. They are modelled by
 * stable insertion sort over a total preorder `le` ("may come before"): the result
 * is ordered, is a permutation of the input, and keeps the input order of
 * elements that `le` cannot tell apart.
 */
module Sorting {

  ghost predicate TotalPreorder<T(!new)>(le: (T, T) -> bool) {
    && (forall a, b :: le(a, b) || le(b, a))
    && (forall a, b, c :: le(a, b) && le(b, c) ==> le(a, c))
  }

  predicate Sorted<T>(s: seq<T>, le: (T, T) -> bool) {
    forall i, j :: 0 <= i < j < |s| ==> le(s[i], s[j])
  }

  predicate Equiv<T>(le: (T, T) -> bool, a: T, b: T) {
    le(a, b) && le(b, a)
  }

  /** The elements of `s` that `le` cannot tell apart from `x`, in their order in `s`. */
  function EquivRun<T>(s: seq<T>, x: T, le: (T, T) -> bool): seq<T> {
    if s == [] then []
    else (if Equiv(le, s[0], x) then [s[0]] else []) + EquivRun(s[1..], x, le)
  }

  /** Inserts `x` before the first element it may precede. */
  function Insert<T>(x: T, s: seq<T>, le: (T, T) -> bool): seq<T> {
    if s == [] then [x]
    else if le(x, s[0]) then [x] + s
    else [s[0]] + Insert(x, s[1..], le)
  }

  function StableSort<T>(s: seq<T>, le: (T, T) -> bool): seq<T> {
    if s == [] then [] else Insert(s[0], StableSort(s[1..], le), le)
  }

  lemma {:induction false} InsertPerm<T>(x: T, s: seq<T>, le: (T, T) -> bool)
    ensures multiset(Insert(x, s, le)) == multiset(s) + multiset{x}
  {
    if s == [] {
      assert Insert(x, s, le) == [x];
    } else if le(x, s[0]) {
      assert Insert(x, s, le) == [x] + s;
    } else {
      var t := Insert(x, s[1..], le);
      InsertPerm(x, s[1..], le);
      assert Insert(x, s, le) == [s[0]] + t;
      assert multiset(s) == multiset{s[0]} + multiset(s[1..]) by {
        assert s == [s[0]] + s[1..];
      }
    }
  }

  lemma {:induction false} InsertSorted<T(!new)>(x: T, s: seq<T>, le: (T, T) -> bool)
    requires TotalPreorder(le) && Sorted(s, le)
    ensures Sorted(Insert(x, s, le), le)
  {
    if s != [] && !le(x, s[0]) {
      var t := Insert(x, s[1..], le);
      InsertSorted(x, s[1..], le);
      InsertPerm(x, s[1..], le);
      assert le(s[0], x);
      forall j | 0 <= j < |t| ensures le(s[0], t[j]) {
        assert t[j] in multiset(t);
        if t[j] != x {
          assert t[j] in multiset(s[1..]);
          var k :| 0 <= k < |s[1..]| && s[1..][k] == t[j];
          assert s[k + 1] == t[j];
        }
      }
    }
  }

  /** The run of a list with a known first element. */
  lemma EquivRunCons<T>(h: T, t: seq<T>, e: T, le: (T, T) -> bool)
    ensures EquivRun([h] + t, e, le) == (if Equiv(le, h, e) then [h] else []) + EquivRun(t, e, le)
  {
    assert ([h] + t)[1..] == t;
  }

  /**
   * Inserting `x` keeps the run of elements equivalent to `e` in order, with `x` at its
   * front when `x` belongs to it. Only transitivity through `e` is needed.
   */
  lemma {:induction false} InsertRun<T(!new)>(x: T, s: seq<T>, e: T, le: (T, T) -> bool)
    requires forall y :: le(x, e) && le(e, y) ==> le(x, y)
    ensures EquivRun(Insert(x, s, le), e, le)
         == (if Equiv(le, x, e) then [x] else []) + EquivRun(s, e, le)
  {
    var runX := if Equiv(le, x, e) then [x] else [];
    if s == [] {
      EquivRunCons(x, [], e, le);
      assert [x] + [] == [x];
    } else if le(x, s[0]) {
      EquivRunCons(x, s, e, le);
    } else {
      var h, rest := s[0], s[1..];
      assert s == [h] + rest;
      InsertRun(x, rest, e, le);
      var t := Insert(x, rest, le);
      var runH := if Equiv(le, h, e) then [h] else [];
      EquivRunCons(h, t, e, le);
      EquivRunCons(h, rest, e, le);
      // h comes strictly before x, so the two cannot both be equivalent to e.
      assert le(x, e) && le(e, h) ==> le(x, h);
      if runH == [] {
        assert runH + (runX + EquivRun(rest, e, le)) == runX + EquivRun(rest, e, le);
      } else {
        assert runX == [];
        assert runH + (runX + EquivRun(rest, e, le)) == runH + EquivRun(rest, e, le);
      }
    }
  }

  /** The stable sort is ordered, a permutation of its input, and stable. */
  lemma {:induction false} StableSortCorrect<T(!new)>(s: seq<T>, le: (T, T) -> bool)
    requires TotalPreorder(le)
    ensures Sorted(StableSort(s, le), le)
    ensures multiset(StableSort(s, le)) == multiset(s)
    ensures forall e :: EquivRun(StableSort(s, le), e, le) == EquivRun(s, e, le)
  {
    if s != [] {
      StableSortCorrect(s[1..], le);
      InsertSorted(s[0], StableSort(s[1..], le), le);
      InsertPerm(s[0], StableSort(s[1..], le), le);
      assert s == [s[0]] + s[1..];
      forall e ensures EquivRun(StableSort(s, le), e, le) == EquivRun(s, e, le) {
        InsertRun(s[0], StableSort(s[1..], le), e, le);
      }
    }
  }

  /** Sorting keeps the length. */
  lemma StableSortLength<T(!new)>(s: seq<T>, le: (T, T) -> bool)
    requires TotalPreorder(le)
    ensures |StableSort(s, le)| == |s|
  {
    StableSortCorrect(s, le);
    assert |multiset(StableSort(s, le))| == |multiset(s)|;
  }
}

/** Kotlin's `filter`, `count`, `find`, `asReversed().map` and `take` on lists, as used by the screens and data layers. */
module Lists {
  import opened Wrappers

  /** `filter(p)`: the elements satisfying `p`, in their original order. */
  function Filter<T>(s: seq<T>, p: T -> bool): (r: seq<T>)
    ensures |r| <= |s|
    ensures forall i :: 0 <= i < |r| ==> p(r[i])
    ensures forall i :: 0 <= i < |r| ==> r[i] in s
    ensures forall i :: 0 <= i < |s| && p(s[i]) ==> s[i] in r
  {
    if s == [] then [] else (if p(s[0]) then [s[0]] else []) + Filter(s[1..], p)
  }

  /** Filtering distributes over concatenation. */
  lemma {:induction false} FilterConcat<T>(a: seq<T>, b: seq<T>, p: T -> bool)
    ensures Filter(a + b, p) == Filter(a, p) + Filter(b, p)
  {
    if a == [] {
      assert a + b == b;
    } else {
      assert (a + b)[0] == a[0];
      assert (a + b)[1..] == a[1..] + b;
      FilterConcat(a[1..], b, p);
    }
  }

  /** A filtered list is a sub-multiset of its source. */
  lemma {:induction false} FilterSubMultiset<T>(s: seq<T>, p: T -> bool)
    ensures multiset(Filter(s, p)) <= multiset(s)
  {
    if s != [] {
      FilterSubMultiset(s[1..], p);
      assert s == [s[0]] + s[1..];
    }
  }

  /** A predicate that holds everywhere keeps the whole list. */
  lemma {:induction false} FilterAll<T>(s: seq<T>, p: T -> bool)
    requires forall i :: 0 <= i < |s| ==> p(s[i])
    ensures Filter(s, p) == s
  {
    if s != [] {
      FilterAll(s[1..], p);
    }
  }

  /** A predicate that holds nowhere keeps nothing. */
  lemma {:induction false} FilterNone<T>(s: seq<T>, p: T -> bool)
    requires forall i :: 0 <= i < |s| ==> !p(s[i])
    ensures Filter(s, p) == []
  {
    if s != [] {
      FilterNone(s[1..], p);
    }
  }

  /** Filtering for a predicate that implies the first filter's predicate ignores the first filter. */
  lemma {:induction false} FilterOfFilter<T>(s: seq<T>, p: T -> bool, q: T -> bool)
    requires forall x :: q(x) ==> p(x)
    ensures Filter(Filter(s, p), q) == Filter(s, q)
  {
    if s != [] {
      FilterOfFilter(s[1..], p, q);
      var head := if q(s[0]) then [s[0]] else [];
      assert Filter(s, q) == head + Filter(s[1..], q);
      if p(s[0]) {
        var x := Filter(s, p);
        assert x == [s[0]] + Filter(s[1..], p);
        assert x[0] == s[0] && x[1..] == Filter(s[1..], p);
        assert Filter(x, q) == head + Filter(x[1..], q);
      } else {
        assert !q(s[0]) && Filter(s, p) == Filter(s[1..], p);
      }
    }
  }

  /** `count(p)`. */
  function Count<T>(s: seq<T>, p: T -> bool): (n: nat)
    ensures n <= |s|
  {
    |Filter(s, p)|
  }

  /** Two predicates that never hold together count at most one element each. */
  lemma {:induction false} CountDisjoint<T>(s: seq<T>, p: T -> bool, q: T -> bool)
    requires forall x :: p(x) ==> !q(x)
    ensures Count(s, p) + Count(s, q) <= |s|
  {
    if s != [] {
      CountDisjoint(s[1..], p, q);
      assert Filter(s, p) == (if p(s[0]) then [s[0]] else []) + Filter(s[1..], p);
      assert Filter(s, q) == (if q(s[0]) then [s[0]] else []) + Filter(s[1..], q);
    }
  }

  /** `asReversed().map(f)`: the images of the elements, the last one first. */
  function MapReversed<A, B>(s: seq<A>, f: A -> B): (r: seq<B>)
    ensures |r| == |s|
    ensures forall i :: 0 <= i < |r| ==> r[i] == f(s[|s| - 1 - i])
  {
    if s == [] then []
    else [f(s[|s| - 1])] + MapReversed(s[..|s| - 1], f)
  }

  /** `firstOrNull { p(it) }` and `find { p(it) }`. */
  function Find<T>(s: seq<T>, p: T -> bool): (r: Option<T>)
    ensures r.None? <==> forall i :: 0 <= i < |s| ==> !p(s[i])
    ensures r.Some? ==> p(r.value) && exists i :: 0 <= i < |s| && s[i] == r.value
  {
    if s == [] then None
    else if p(s[0]) then Some(s[0])
    else
      var r := Find(s[1..], p);
      assert forall i :: 1 <= i < |s| ==> s[i] == s[1..][i - 1];
      r
  }

  /** The element found is the first that satisfies `p`, not a later one. */
  lemma {:induction false} FindFirst<T>(s: seq<T>, p: T -> bool, i: nat)
    requires i < |s| && p(s[i])
    requires forall j :: 0 <= j < i ==> !p(s[j])
    ensures Find(s, p) == Some(s[i])
  {
    if i > 0 {
      FindFirst(s[1..], p, i - 1);
    }
  }

  /** `take(n)`: the first `n` elements, or all of them. */
  function TakeList<T>(s: seq<T>, n: nat): (r: seq<T>)
    ensures |r| == if |s| < n then |s| else n
    ensures r == s[..|r|]
  {
    if |s| <= n then s else s[..n]
  }
}

/**
 * CollectionsUtils and the stable sort of java.util.List.sort. A Java
 * collection whose iteration order matters is a `seq` in that order.
 */
module CollectionsUtils {
  import opened Wrappers

  /** unionAll: every element of every argument set. */
  function UnionAll<T(!new)>(items: seq<set<T>>): (r: set<T>)
    ensures forall x :: x in r <==> exists i :: 0 <= i < |items| && x in items[i]
  {
    if |items| == 0 then {}
    else
      var rest := UnionAll(items[1..]);
      assert forall x :: (exists i :: 1 <= i < |items| && x in items[i]) ==> x in rest by {
        forall x | exists i :: 1 <= i < |items| && x in items[i]
          ensures x in rest
        {
          var i :| 1 <= i < |items| && x in items[i];
          assert x in items[1..][i - 1];
        }
      }
      items[0] + rest
  }

  /** any: the first element in iteration order; an empty collection has no next element. */
  function Any<T>(items: seq<T>): (r: Result<T>)
    ensures r.Success? <==> |items| > 0
    ensures r.Success? ==> r.value in items
    ensures r.Failure? ==> r.error == NoSuchElement
  {
    if |items| == 0 then Failure(NoSuchElement) else Success(items[0])
  }

  /** first: element 0 of a list; an empty list is rejected. */
  function First<T>(items: seq<T>): (r: Result<T>)
    ensures |items| == 0 <==> r == Failure(IllegalArgument)
    ensures |items| > 0 ==> r == Success(items[0])
  {
    if |items| == 0 then Failure(IllegalArgument) else Success(items[0])
  }

  /** optionalAny: empty exactly for an empty collection, otherwise one of its elements. */
  function OptionalAny<T>(items: seq<T>): (r: Option<T>)
    ensures r.None? <==> |items| == 0
    ensures r.Some? ==> r.value in items
  {
    if |items| == 0 then None else Some(items[0])
  }

  /**
   * stream().map(f).collect(toList()) for an `f` that may throw: the
   * results appended to `acc` in order, or the first failure.
   */
  function MapAllFrom<A, B>(f: A -> Result<B>, acc: seq<B>, xs: seq<A>): (r: Result<seq<B>>)
    decreases |xs|
  {
    if |xs| == 0 then Success(acc)
    else
      var y :- f(xs[0]);
      MapAllFrom(f, acc + [y], xs[1..])
  }

  /** A successful map keeps `acc` and adds exactly one result per element, each the element's image. */
  lemma {:induction false} MapAllFromResults<A, B>(f: A -> Result<B>, acc: seq<B>, xs: seq<A>)
    requires MapAllFrom(f, acc, xs).Success?
    ensures var r := MapAllFrom(f, acc, xs).value;
      && |r| == |acc| + |xs|
      && r[..|acc|] == acc
      && forall i :: 0 <= i < |xs| ==> f(xs[i]) == Success(r[|acc| + i])
    decreases |xs|
  {
    if |xs| > 0 {
      var y := f(xs[0]).value;
      var next := acc + [y];
      MapAllFromResults(f, next, xs[1..]);
      var r := MapAllFrom(f, acc, xs).value;
      assert r == MapAllFrom(f, next, xs[1..]).value;
      assert r[..|acc|] == next[..|acc|];
      forall i | 0 <= i < |xs|
        ensures f(xs[i]) == Success(r[|acc| + i])
      {
        if i == 0 {
          assert r[|acc|] == next[|acc|];
        } else {
          assert xs[1..][i - 1] == xs[i];
          assert |next| + (i - 1) == |acc| + i;
        }
      }
    }
  }

  /** A successful map from an empty start holds exactly the images of the elements, in order. */
  lemma MapAllResults<A, B>(f: A -> Result<B>, xs: seq<A>, r: seq<B>)
    requires MapAllFrom(f, [], xs) == Success(r)
    ensures |r| == |xs| && forall i :: 0 <= i < |xs| ==> f(xs[i]) == Success(r[i])
  {
    MapAllFromResults(f, [], xs);
  }

  /** A map fails exactly with the failure of the first element that fails. */
  lemma {:induction false} MapAllFromFailure<A, B>(f: A -> Result<B>, acc: seq<B>, xs: seq<A>)
    ensures MapAllFrom(f, acc, xs).Failure? <==> exists i :: 0 <= i < |xs| && f(xs[i]).Failure?
    ensures forall i :: 0 <= i < |xs| && f(xs[i]).Failure? && (forall j :: 0 <= j < i ==> f(xs[j]).Success?) ==>
              MapAllFrom(f, acc, xs) == Failure(f(xs[i]).error)
    decreases |xs|
  {
    if |xs| > 0 {
      var rest := xs[1..];
      if f(xs[0]).Success? {
        MapAllFromFailure(f, acc + [f(xs[0]).value], rest);
        forall i | 0 <= i < |xs| && f(xs[i]).Failure?
          ensures i > 0 && f(rest[i - 1]).Failure?
        {
          assert rest[i - 1] == xs[i];
        }
        forall i | 0 <= i < |rest| && f(rest[i]).Failure?
          ensures f(xs[i + 1]).Failure?
        {
          assert rest[i] == xs[i + 1];
        }
        forall i | 0 <= i < |xs| && f(xs[i]).Failure? && (forall j :: 0 <= j < i ==> f(xs[j]).Success?)
          ensures MapAllFrom(f, acc, xs) == Failure(f(xs[i]).error)
        {
          assert rest[i - 1] == xs[i];
          forall j | 0 <= j < i - 1
            ensures f(rest[j]).Success?
          {
            assert rest[j] == xs[j + 1];
          }
        }
      }
    }
  }

  /** A property holds of every element exactly when it holds of the head and of every element of the tail. */
  lemma AllCons<A>(p: A -> bool, xs: seq<A>)
    requires |xs| > 0
    ensures (forall i :: 0 <= i < |xs| ==> p(xs[i])) <==> p(xs[0]) && forall i :: 0 <= i < |xs[1..]| ==> p(xs[1..][i])
  {
    assert forall i :: 1 <= i < |xs| ==> xs[1..][i - 1] == xs[i];
  }

  /** A relation holds pairwise of two equally long sequences when it holds of their heads and pairwise of their tails. */
  lemma PairwiseCons<A, B>(q: (A, B) -> bool, xs: seq<A>, ys: seq<B>)
    requires |xs| > 0 && |ys| == |xs|
    requires q(xs[0], ys[0]) && forall i :: 0 <= i < |xs| - 1 ==> q(xs[1..][i], ys[1..][i])
    ensures forall i :: 0 <= i < |xs| ==> q(xs[i], ys[i])
  {
    forall i | 0 < i < |xs|
      ensures q(xs[i], ys[i])
    {
      assert xs[1..][i - 1] == xs[i] && ys[1..][i - 1] == ys[i];
    }
  }

  /** The first failure in the tail, after a head that succeeds, is the first failure of the whole sequence. */
  lemma FirstFailureOfTail<A, B>(f: A -> Result<B>, xs: seq<A>, i: int, e: Exception)
    requires |xs| > 0 && f(xs[0]).Success?
    requires 0 <= i < |xs| - 1 && f(xs[1..][i]) == Failure(e)
    requires forall j :: 0 <= j < i ==> f(xs[1..][j]).Success?
    ensures f(xs[i + 1]) == Failure(e)
    ensures forall j :: 0 <= j < i + 1 ==> f(xs[j]).Success?
  {
    assert xs[1..][i] == xs[i + 1];
    forall j | 0 < j < i + 1
      ensures f(xs[j]).Success?
    {
      assert xs[1..][j - 1] == xs[j];
    }
  }

  /** `cmp` is a comparator in the sense of java.util.Comparator over the elements of `s`. */
  ghost predicate IsTotalPreorder<T>(cmp: (T, T) -> int, s: seq<T>)
  {
    (forall a, b :: a in s && b in s ==> cmp(a, b) <= 0 || cmp(b, a) <= 0)
    && (forall a, b, c :: a in s && b in s && c in s && cmp(a, b) <= 0 && cmp(b, c) <= 0 ==> cmp(a, c) <= 0)
  }

  ghost predicate SortedBy<T>(cmp: (T, T) -> int, s: seq<T>)
  {
    forall i, j :: 0 <= i < j < |s| ==> cmp(s[i], s[j]) <= 0
  }

  /** Inserts `x` before the first element that is not smaller than it. */
  function Insert<T(!new)>(cmp: (T, T) -> int, x: T, sorted: seq<T>): (r: seq<T>)
    ensures multiset(r) == multiset(sorted) + multiset{x}
    ensures forall y :: y in r <==> y == x || y in sorted
  {
    if |sorted| == 0 then [x]
    else if cmp(x, sorted[0]) <= 0 then [x] + sorted
    else
      assert sorted == [sorted[0]] + sorted[1..];
      [sorted[0]] + Insert(cmp, x, sorted[1..])
  }

  /**
   * List.sort: a stable sort. Insertion from the back keeps an element
   * ahead of the later elements it is equal to.
   */
  function Sort<T(!new)>(cmp: (T, T) -> int, s: seq<T>): (r: seq<T>)
    ensures multiset(r) == multiset(s)
    ensures forall y :: y in r <==> y in s
  {
    if |s| == 0 then []
    else
      assert s == [s[0]] + s[1..];
      Insert(cmp, s[0], Sort(cmp, s[1..]))
  }

  /** An element below every element of a sorted sequence can go in front of it. */
  lemma ConsSorted<T>(cmp: (T, T) -> int, h: T, tail: seq<T>)
    requires SortedBy(cmp, tail) && forall y :: y in tail ==> cmp(h, y) <= 0
    ensures SortedBy(cmp, [h] + tail)
  {
    var r := [h] + tail;
    forall i, j | 0 <= i < j < |r|
      ensures cmp(r[i], r[j]) <= 0
    {
      if i == 0 {
        assert r[j] == tail[j - 1];
      } else {
        assert r[i] == tail[i - 1] && r[j] == tail[j - 1];
      }
    }
  }

  lemma {:induction false} InsertSorted<T(!new)>(cmp: (T, T) -> int, x: T, sorted: seq<T>, all: seq<T>)
    requires IsTotalPreorder(cmp, all)
    requires x in all && forall y :: y in sorted ==> y in all
    requires SortedBy(cmp, sorted)
    ensures SortedBy(cmp, Insert(cmp, x, sorted))
    decreases |sorted|
  {
    if |sorted| == 0 {
    } else if cmp(x, sorted[0]) <= 0 {
      forall y | y in sorted
        ensures cmp(x, y) <= 0
      {
        var k :| 0 <= k < |sorted| && sorted[k] == y;
        if k > 0 {
          assert cmp(sorted[0], sorted[k]) <= 0;
          assert sorted[0] in all;
        }
      }
      ConsSorted(cmp, x, sorted);
    } else {
      var rest := sorted[1..];
      assert SortedBy(cmp, rest);
      InsertSorted(cmp, x, rest, all);
      var tail := Insert(cmp, x, rest);
      assert sorted[0] in all;
      forall y | y in tail
        ensures cmp(sorted[0], y) <= 0
      {
        if y != x {
          var k :| 0 <= k < |rest| && rest[k] == y;
          assert cmp(sorted[0], sorted[k + 1]) <= 0;
        }
      }
      ConsSorted(cmp, sorted[0], tail);
    }
  }

  lemma {:induction false} SortSorted<T(!new)>(cmp: (T, T) -> int, s: seq<T>)
    requires IsTotalPreorder(cmp, s)
    ensures SortedBy(cmp, Sort(cmp, s))
    decreases |s|
  {
    if |s| > 0 {
      assert forall y :: y in s[1..] ==> y in s;
      assert IsTotalPreorder(cmp, s[1..]);
      SortSorted(cmp, s[1..]);
      InsertSorted(cmp, s[0], Sort(cmp, s[1..]), s);
    }
  }

  /** sortAndGetFirst: the first element of a sorted copy. */
  function SortAndGetFirst<T(!new)>(cmp: (T, T) -> int, elements: seq<T>): (r: Result<T>)
    ensures |elements| == 0 <==> r == Failure(IllegalArgument)
    ensures r.Success? ==> r.value in elements
  {
    First(Sort(cmp, elements))
  }

  /** Under a comparator, sortAndGetFirst yields an element no greater than any other. */
  lemma SortAndGetFirstIsMinimal<T(!new)>(cmp: (T, T) -> int, elements: seq<T>)
    requires IsTotalPreorder(cmp, elements)
    requires |elements| > 0
    ensures SortAndGetFirst(cmp, elements).Success?
    ensures forall x :: x in elements ==> cmp(SortAndGetFirst(cmp, elements).value, x) <= 0
  {
    var sorted := Sort(cmp, elements);
    SortSorted(cmp, elements);
    forall x | x in elements
      ensures cmp(sorted[0], x) <= 0
    {
      var k :| 0 <= k < |sorted| && sorted[k] == x;
      if k == 0 {
        assert sorted[0] in elements;
      }
    }
  }

  /** stream().filter(keep): the elements that pass, in order. */
  function Filter<T>(keep: T -> bool, xs: seq<T>): (r: seq<T>)
    ensures |r| <= |xs|
  {
    if |xs| == 0 then []
    else if keep(xs[0]) then [xs[0]] + Filter(keep, xs[1..])
    else Filter(keep, xs[1..])
  }

  /** The filtered elements are exactly the elements that pass. */
  lemma {:induction false} FilterMembers<T(!new)>(keep: T -> bool, xs: seq<T>)
    ensures forall x :: x in Filter(keep, xs) <==> x in xs && keep(x)
    decreases |xs|
  {
    if |xs| > 0 {
      FilterMembers(keep, xs[1..]);
      assert forall x :: x in xs <==> x == xs[0] || x in xs[1..];
    }
  }

  /** The elements of a set in some iteration order, each once. */
  method Elements<T(==)>(s: set<T>) returns (r: seq<T>)
    ensures forall x :: x in r <==> x in s
    ensures |r| == |s|
  {
    r := [];
    var rest := s;
    while rest != {}
      invariant rest <= s
      invariant forall x :: x in r <==> x in s && x !in rest
      invariant |r| + |rest| == |s|
      decreases |rest|
    {
      var x :| x in rest;
      r := r + [x];
      rest := rest - {x};
    }
  }
}

/** Facts about sequences, most of them about sequences without repetitions. */
module Sequences {

  ghost predicate Distinct<T>(xs: seq<T>) {
    forall i, j :: 0 <= i < j < |xs| ==> xs[i] != xs[j]
  }

  function Elements<T(==)>(xs: seq<T>): set<T> {
    set x | x in xs
  }

  lemma {:induction false} DistinctSize<T>(xs: seq<T>)
    requires Distinct(xs)
    ensures |Elements(xs)| == |xs|
  {
    if xs != [] {
      var front := xs[..|xs| - 1];
      DistinctSize(front);
      assert Elements(xs) == Elements(front) + {xs[|xs| - 1]};
    }
  }

  lemma {:induction false} ElementsSize<T>(xs: seq<T>)
    ensures |Elements(xs)| <= |xs|
  {
    if xs != [] {
      var front := xs[..|xs| - 1];
      ElementsSize(front);
      assert Elements(xs) == Elements(front) + {xs[|xs| - 1]};
    }
  }

  lemma {:induction false} SubsetSize<T>(a: set<T>, b: set<T>)
    requires a <= b
    ensures |a| <= |b|
    ensures a != b ==> |a| < |b|
  {
    if a != {} {
      var x :| x in a;
      SubsetSize(a - {x}, b - {x});
      assert a == b || a - {x} != b - {x};
    }
  }

  /** Pigeonhole: distinct elements of ys cannot outnumber ys. */
  lemma DistinctWithin<T>(xs: seq<T>, ys: seq<T>)
    requires Distinct(xs)
    requires forall x :: x in xs ==> x in ys
    ensures |xs| <= |ys|
    ensures (exists y :: y in ys && y !in xs) ==> |xs| < |ys|
  {
    DistinctSize(xs);
    ElementsSize(ys);
    SubsetSize(Elements(xs), Elements(ys));
    if y :| y in ys && y !in xs {
      assert y in Elements(ys) && y !in Elements(xs);
    }
  }

  lemma DistinctAppend<T>(xs: seq<T>, ys: seq<T>)
    requires Distinct(xs) && Distinct(ys)
    requires forall x :: x in xs ==> x !in ys
    ensures Distinct(xs + ys)
  {
    forall i, j | 0 <= i < j < |xs + ys|
      ensures (xs + ys)[i] != (xs + ys)[j]
    {
      if i < |xs| <= j {
        assert (xs + ys)[i] in xs && (xs + ys)[j] in ys;
      }
    }
  }

  /** `xs.filter(x => x !== k)` */
  function Without<T(==)>(xs: seq<T>, k: T): seq<T> {
    if xs == [] then [] else (if xs[0] == k then [] else [xs[0]]) + Without(xs[1..], k)
  }

  lemma {:induction false} WithoutSnoc<T>(xs: seq<T>, last: T, k: T)
    ensures Without(xs + [last], k) == Without(xs, k) + (if last == k then [] else [last])
  {
    if xs == [] {
      assert xs + [last] == [last];
    } else {
      assert (xs + [last])[1..] == xs[1..] + [last];
      WithoutSnoc(xs[1..], last, k);
    }
  }

  lemma {:induction false} WithoutIn<T>(xs: seq<T>, x: T, k: T)
    ensures x in Without(xs, k) <==> x in xs && x != k
  {
    if xs != [] {
      WithoutIn(xs[1..], x, k);
      assert xs == [xs[0]] + xs[1..];
    }
  }

  lemma {:induction false} WithoutFacts<T>(xs: seq<T>, k: T)
    requires Distinct(xs)
    ensures Distinct(Without(xs, k))
    ensures forall x :: x in Without(xs, k) <==> x in xs && x != k
    ensures k !in xs ==> Without(xs, k) == xs
    ensures k in xs ==> |Without(xs, k)| == |xs| - 1
  {
    if xs != [] {
      assert xs == [xs[0]] + xs[1..];
      WithoutFacts(xs[1..], k);
      assert xs[0] !in xs[1..];
    }
  }
}

// Finite sums over sets, and the size of a subset.
module Sums {

  ghost function SumOver<T>(xs: set<T>, f: T -> int): int {
    if xs == {} then 0
    else
      var x :| x in xs;
      f(x) + SumOver(xs - {x}, f)
  }

  // Any element may be taken out first.
  lemma {:induction false} SumTake<T>(xs: set<T>, f: T -> int, y: T)
    requires y in xs
    ensures SumOver(xs, f) == f(y) + SumOver(xs - {y}, f)
    decreases xs
  {
    var x :| x in xs && SumOver(xs, f) == f(x) + SumOver(xs - {x}, f);
    if x != y {
      SumTake(xs - {x}, f, y);
      SumTake(xs - {y}, f, x);
      assert xs - {x} - {y} == xs - {y} - {x};
    }
  }

  lemma SumAdd<T>(xs: set<T>, f: T -> int, y: T)
    requires y !in xs
    ensures SumOver(xs + {y}, f) == SumOver(xs, f) + f(y)
  {
    SumTake(xs + {y}, f, y);
    assert xs + {y} - {y} == xs;
  }

  lemma {:induction false} SumLe<T>(xs: set<T>, f: T -> int, g: T -> int)
    requires forall x :: x in xs ==> f(x) <= g(x)
    ensures SumOver(xs, f) <= SumOver(xs, g)
    decreases xs
  {
    if xs != {} {
      var x :| x in xs;
      SumTake(xs, f, x);
      SumTake(xs, g, x);
      SumLe(xs - {x}, f, g);
    }
  }

  lemma SumSame<T>(xs: set<T>, f: T -> int, g: T -> int)
    requires forall x :: x in xs ==> f(x) == g(x)
    ensures SumOver(xs, f) == SumOver(xs, g)
  {
    SumLe(xs, f, g);
    SumLe(xs, g, f);
  }

  lemma {:induction false} SumUnion<T>(xs: set<T>, ys: set<T>, f: T -> int)
    requires xs !! ys
    ensures SumOver(xs + ys, f) == SumOver(xs, f) + SumOver(ys, f)
    decreases xs
  {
    if xs == {} {
      assert xs + ys == ys;
    } else {
      var x :| x in xs;
      SumUnion(xs - {x}, ys, f);
      SumTake(xs, f, x);
      SumTake(xs + ys, f, x);
      assert xs + ys - {x} == (xs - {x}) + ys;
    }
  }

  lemma SumNonNegative<T>(xs: set<T>, f: T -> int)
    requires forall x :: x in xs ==> f(x) >= 0
    ensures SumOver(xs, f) >= 0
    decreases xs
  {
    if xs != {} {
      var x :| x in xs;
      SumTake(xs, f, x);
      SumNonNegative(xs - {x}, f);
    }
  }

  lemma SumLess<T>(xs: set<T>, f: T -> int, g: T -> int, x: T)
    requires x in xs && f(x) < g(x)
    requires forall y :: y in xs ==> f(y) <= g(y)
    ensures SumOver(xs, f) < SumOver(xs, g)
  {
    SumTake(xs, f, x);
    SumTake(xs, g, x);
    SumLe(xs - {x}, f, g);
  }

  lemma {:induction false} SumConstant<T>(xs: set<T>, f: T -> int, c: int)
    requires forall x :: x in xs ==> f(x) == c
    ensures SumOver(xs, f) == c * |xs|
    decreases xs
  {
    if xs != {} {
      var x :| x in xs;
      SumTake(xs, f, x);
      SumConstant(xs - {x}, f, c);
      assert c * |xs| == c * (|xs| - 1) + c;
    }
  }

  lemma {:induction false} SumShift<T>(xs: set<T>, f: T -> int, g: T -> int)
    requires forall x :: x in xs ==> f(x) == g(x) + 1
    ensures SumOver(xs, f) == SumOver(xs, g) + |xs|
    decreases xs
  {
    if xs != {} {
      var x :| x in xs;
      SumTake(xs, f, x);
      SumTake(xs, g, x);
      SumShift(xs - {x}, f, g);
    }
  }

  lemma SumBump<T>(xs: set<T>, f: T -> int, g: T -> int, y: T, c: int)
    requires y in xs && f(y) == g(y) + c && forall x :: x in xs && x != y ==> f(x) == g(x)
    ensures SumOver(xs, f) == SumOver(xs, g) + c
  {
    SumTake(xs, f, y);
    SumTake(xs, g, y);
    SumSame(xs - {y}, f, g);
  }

  lemma SumExtend<T>(xs: set<T>, f: T -> int, g: T -> int, y: T)
    requires y !in xs && f(y) == 0 && forall x :: x in xs ==> f(x) == g(x)
    ensures SumOver(xs + {y}, f) == SumOver(xs, g)
  {
    SumAdd(xs, f, y);
    SumSame(xs, f, g);
  }

  lemma SumPart<T>(part: set<T>, xs: set<T>, f: T -> int)
    requires part <= xs && forall x :: x in xs && x !in part ==> f(x) == 0
    ensures SumOver(xs, f) == SumOver(part, f)
  {
    SumUnion(part, xs - part, f);
    SumConstant(xs - part, f, 0);
    assert part + (xs - part) == xs;
  }

  lemma SubsetSize<T>(a: set<T>, b: set<T>)
    requires a <= b
    ensures |a| <= |b|
  {
    assert b == a + (b - a);
    assert |b| == |a| + |b - a|;
  }
}

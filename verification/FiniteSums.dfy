/** Sums of a measure over finite sets, in no particular order. */
module FiniteSums {
  ghost function Pick<T>(s: set<T>): (x: T)
    requires s != {}
    ensures x in s
  {
    var x :| x in s;
    x
  }

  ghost function Sum<T>(s: set<T>, f: T -> int): int {
    if s == {} then 0 else
      var x := Pick(s);
      f(x) + Sum(s - {x}, f)
  }

  /** Any element may be split off first. */
  lemma {:induction false} SumSplit<T>(s: set<T>, f: T -> int, x: T)
    requires x in s
    ensures Sum(s, f) == f(x) + Sum(s - {x}, f)
  {
    var y := Pick(s);
    if y != x {
      SumSplit(s - {y}, f, x);
      SumSplit(s - {x}, f, y);
      assert s - {y} - {x} == s - {x} - {y};
    }
  }

  lemma SumInsert<T>(s: set<T>, f: T -> int, x: T)
    requires x !in s
    ensures Sum(s + {x}, f) == f(x) + Sum(s, f)
  {
    SumSplit(s + {x}, f, x);
    assert s + {x} - {x} == s;
  }

  lemma {:induction false} SumSame<T>(s: set<T>, f: T -> int, g: T -> int)
    requires forall x :: x in s ==> f(x) == g(x)
    ensures Sum(s, f) == Sum(s, g)
  {
    if s != {} {
      SumSame(s - {Pick(s)}, f, g);
    }
  }

  lemma {:induction false} SumMonotone<T>(s: set<T>, f: T -> int, g: T -> int)
    requires forall x :: x in s ==> f(x) <= g(x)
    ensures Sum(s, f) <= Sum(s, g)
  {
    if s != {} {
      SumMonotone(s - {Pick(s)}, f, g);
    }
  }

  /** Two measures that differ at one element only. */
  lemma SumChange<T>(s: set<T>, f: T -> int, g: T -> int, x: T)
    requires x in s && forall y :: y in s && y != x ==> f(y) == g(y)
    ensures Sum(s, g) == Sum(s, f) - f(x) + g(x)
  {
    SumSplit(s, f, x);
    SumSplit(s, g, x);
    SumSame(s - {x}, f, g);
  }

  lemma {:induction false} SumNonNegative<T>(s: set<T>, f: T -> int)
    requires forall x :: x in s ==> f(x) >= 0
    ensures Sum(s, f) >= 0
  {
    if s != {} {
      SumNonNegative(s - {Pick(s)}, f);
    }
  }

  lemma {:induction false} SumUnion<T>(s: set<T>, t: set<T>, f: T -> int)
    requires s !! t
    ensures Sum(s + t, f) == Sum(s, f) + Sum(t, f)
  {
    if s == {} {
      assert s + t == t;
    } else {
      var x := Pick(s);
      SumSplit(s + t, f, x);
      assert s + t - {x} == (s - {x}) + t;
      SumUnion(s - {x}, t, f);
    }
  }

  lemma SumAtLeast<T>(s: set<T>, f: T -> int, x: T)
    requires (forall y :: y in s ==> f(y) >= 0) && (x !in s ==> f(x) == 0)
    ensures f(x) <= Sum(s, f)
  {
    if x in s {
      SumSplit(s, f, x);
      SumNonNegative(s - {x}, f);
    } else {
      SumNonNegative(s, f);
    }
  }

  lemma {:induction false} SumZero<T>(s: set<T>, f: T -> int)
    requires forall x :: x in s ==> f(x) == 0
    ensures Sum(s, f) == 0
  {
    if s != {} {
      SumZero(s - {Pick(s)}, f);
    }
  }

  /** Sums are linear. */
  lemma {:induction false} SumPlus<T>(s: set<T>, f: T -> int, g: T -> int, fg: T -> int, w: int)
    requires forall x :: x in s ==> fg(x) == f(x) + w * g(x)
    ensures Sum(s, fg) == Sum(s, f) + w * Sum(s, g)
  {
    if s != {} {
      var x := Pick(s);
      SumPlus(s - {x}, f, g, fg, w);
      assert w * (g(x) + Sum(s - {x}, g)) == w * g(x) + w * Sum(s - {x}, g);
    }
  }

  lemma CardinalityBelow<T>(a: set<T>, b: set<T>)
    requires a <= b
    ensures |a| <= |b|
  {
    assert b == a + (b - a);
  }

  lemma CardinalityUnion<T>(a: set<T>, b: set<T>)
    ensures |a + b| <= |a| + |b|
  {
    assert a + b == a + (b - a);
    CardinalityBelow(b - a, b);
  }

  lemma NewOnes<T>(old_: set<T>, more: set<T>)
    ensures |old_ + more| - |old_| == |more - old_|
  {
    assert old_ + more == old_ + (more - old_);
  }

  lemma GoneOnes<T>(old_: set<T>, less: set<T>)
    ensures |old_| - |old_ - less| == |less * old_| && old_ - less == old_ - less * old_
  {
    assert old_ == (old_ - less) + less * old_;
  }

  lemma OneMoreTime(a: int, b: int)
    ensures a * (b + 1) == a * b + a && (b + 1) * a == b * a + a
  {
  }
}

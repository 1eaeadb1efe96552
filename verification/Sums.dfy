/** Sums of an integer-valued function over a finite set. */
module Sums {

  ghost function Sum(w: nat -> int, s: set<nat>): int {
    if s == {} then 0 else
    var x :| x in s;
    Sum(w, s - {x}) + w(x)
  }

  lemma {:induction false} SumRemove(w: nat -> int, s: set<nat>, x: nat)
    requires x in s
    ensures Sum(w, s) == Sum(w, s - {x}) + w(x)
    decreases |s|
  {
    var y :| y in s && Sum(w, s) == Sum(w, s - {y}) + w(y);
    if y != x {
      SumRemove(w, s - {y}, x);
      SumRemove(w, s - {x}, y);
      assert s - {y} - {x} == s - {x} - {y};
    }
  }

  lemma {:induction false} SumAdd(w: nat -> int, s: set<nat>, x: nat)
    requires x !in s
    ensures Sum(w, s + {x}) == Sum(w, s) + w(x)
  {
    SumRemove(w, s + {x}, x);
    assert s + {x} - {x} == s;
  }

  lemma {:induction false} SumUnion(w: nat -> int, a: set<nat>, b: set<nat>)
    requires a !! b
    ensures Sum(w, a + b) == Sum(w, a) + Sum(w, b)
    decreases |b|
  {
    if b == {} {
      assert a + b == a;
    } else {
      var x :| x in b;
      SumUnion(w, a, b - {x});
      SumRemove(w, b, x);
      SumRemove(w, a + b, x);
      assert a + b - {x} == a + (b - {x});
    }
  }

  lemma {:induction false} SumMinus(w: nat -> int, a: set<nat>, b: set<nat>)
    requires b <= a
    ensures Sum(w, a) == Sum(w, a - b) + Sum(w, b)
  {
    SumUnion(w, a - b, b);
    assert a - b + b == a;
  }

  /** A function that is positive everywhere has a positive sum over every non-empty set. */
  lemma {:induction false} SumPositive(w: nat -> int, s: set<nat>)
    requires forall x :: w(x) > 0
    ensures Sum(w, s) >= 0
    ensures Sum(w, s) > 0 <==> s != {}
    decreases |s|
  {
    if s != {} {
      var x :| x in s;
      SumRemove(w, s, x);
      SumPositive(w, s - {x});
    }
  }

  /** Sums are linear: if w is the combination a*u + b*v on s, so is its sum. */
  lemma {:induction false} SumLinear(w: nat -> int, a: int, u: nat -> int, b: int, v: nat -> int, s: set<nat>)
    requires forall x | x in s :: w(x) == a * u(x) + b * v(x)
    ensures Sum(w, s) == a * Sum(u, s) + b * Sum(v, s)
    decreases |s|
  {
    if s != {} {
      var x :| x in s;
      SumLinear(w, a, u, b, v, s - {x});
      SumRemove(w, s, x);
      SumRemove(u, s, x);
      SumRemove(v, s, x);
      LinearStep(a, Sum(u, s - {x}), u(x), b, Sum(v, s - {x}), v(x));
    }
  }

  lemma LinearStep(a: int, su: int, u: int, b: int, sv: int, v: int)
    ensures a * (su + u) + b * (sv + v) == (a * su + b * sv) + (a * u + b * v)
  {
  }
}

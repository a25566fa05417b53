/** Facts of real multiplication, stated once so that the solver never meets them inside a larger proof. */
module RealArith {

  lemma {:induction false} Distrib(a: real, b: real, c: real)
    ensures a * (b + c) == a * b + a * c
    ensures a * (b - c) == a * b - a * c
  {
  }

  lemma {:induction false} Positive(a: real, b: real)
    requires a > 0.0 && b > 0.0
    ensures a * b > 0.0
  {
  }

  lemma {:induction false} Monotone(a: real, b: real, c: real)
    requires a >= 0.0 && b <= c
    ensures a * b <= a * c
  {
  }

  /** The two forms of x moved towards one by the fraction r. */
  lemma {:induction false} TowardsOne(x: real, r: real)
    ensures x + r * (1.0 - x) == (1.0 - r) * x + r
  {
  }

  /** Multiplication under a name, so that equal arguments give equal products by congruence. */
  function Times(a: real, b: real): real { a * b }

  lemma {:induction false} TimesDistrib(q: real, x: real, y: real)
    ensures Times(q, x + y) == Times(q, x) + Times(q, y)
    ensures Times(q, x - y) == Times(q, x) - Times(q, y)
  {
  }

  lemma {:induction false} TimesAssoc(q: real, p: real, x: real)
    ensures Times(q, Times(p, x)) == Times(Times(q, p), x)
  {
  }

  lemma {:induction false} TimesOrder(q: real, x: real, y: real)
    requires q > 0.0
    ensures x < y ==> Times(q, x) < Times(q, y)
    ensures x <= y ==> Times(q, x) <= Times(q, y)
    ensures Times(q, 0.0) == 0.0 && Times(q, 1.0) == q
  {
  }
}

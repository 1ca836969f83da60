/** Products and quotients of reals. Each lemma is about plain numbers, so that proofs about sequences of
    rates, weights and times need not reason about multiplication. */
module Reals {

  function Abs(x: real): real { if x < 0.0 then -x else x }

  function Lower(a: real, b: real): real { if b < a then b else a }
  function Upper(a: real, b: real): real { if b > a then b else a }

  // ----- Products

  lemma {:induction false} Distribute(a: real, x: real, y: real)
    ensures a * (x + y) == a * x + a * y
  {}

  lemma {:induction false} SquareNonNegative(x: real)
    ensures x * x >= 0.0
  {}

  lemma {:induction false} ProductPositive(a: real, b: real)
    requires a > 0.0 && b > 0.0
    ensures a * b > 0.0
  {}

  lemma {:induction false} ProductGrows(a: real, b: real)
    requires a > 0.0 && b >= 1.0
    ensures a * b >= a
  {}

  lemma {:induction false} ProductMonotone(a: real, b: real, c: real)
    requires a >= 0.0 && b <= c
    ensures a * b <= a * c
  {}

  /** The same with names for the products. */
  lemma {:induction false} ProductsOrdered(a: real, b: real, c: real, p: real, q: real)
    requires a >= 0.0 && b <= c && p == a * b && q == a * c
    ensures p <= q
  {
    ProductMonotone(a, b, c);
  }

  lemma {:induction false} Order(x: real, y: real, b: real)
    requires x < y && b > 0.0
    ensures x * b < y * b
  {}

  lemma {:induction false} Scaled(a: real, b: real, x: real)
    requires 0.0 <= a <= b
    ensures Abs(a * x) <= b * Abs(x)
  {
    ProductMonotone(Abs(x), 0.0, a);
    ProductMonotone(Abs(x), a, b);
  }

  lemma {:induction false} Halves(alfa: real, beta: real, x: real, p: real, q: real)
    requires alfa + beta == 1.0 && p == alfa * x && q == beta * x
    ensures p + q == x
  {
    Distribute(x, alfa, beta);
  }

  lemma {:induction false} BlendOfOrdered(alfa: real, beta: real, a: real, b: real)
    requires alfa >= 0.0 && beta >= 0.0 && alfa + beta == 1.0 && a <= b
    ensures a <= alfa * a + beta * b <= b
  {
    var p, q, r, s := alfa * a, beta * b, beta * a, alfa * b;
    assert p <= s by { ProductsOrdered(alfa, a, b, p, s); }
    assert r <= q by { ProductsOrdered(beta, a, b, r, q); }
    assert p + r == a by { Halves(alfa, beta, a, p, r); }
    assert s + q == b by { Halves(alfa, beta, b, s, q); }
  }

  /** A weighted mean of two numbers lies between them. */
  lemma {:induction false} Blend(alfa: real, beta: real, a: real, b: real)
    requires alfa >= 0.0 && beta >= 0.0 && alfa + beta == 1.0
    ensures Lower(a, b) <= alfa * a + beta * b <= Upper(a, b)
  {
    if a <= b { BlendOfOrdered(alfa, beta, a, b); } else { BlendOfOrdered(beta, alfa, b, a); }
  }

  /** How far a weighted mean lies from one of the numbers. */
  lemma {:induction false} BlendDistance(a: real, x: real, y: real, s: real, d: real)
    requires s == a * x + (1.0 - a) * y && d == x - y
    ensures s - y == a * d
  {
    Distribute(y, 1.0, -a);
    Distribute(a, x, -y);
  }

  /** One more summand of weight `w` and value at least `lo`. */
  lemma {:induction false} StepAtLeast(lo: real, total: real, sum: real, v: real, w: real, total': real, sum': real)
    requires lo * total <= sum && lo <= v && w >= 0.0
    requires total' == total + w && sum' == sum + v * w
    ensures lo * total' <= sum'
  {
    ProductMonotone(w, lo, v);
    Distribute(lo, total, w);
  }

  lemma {:induction false} StepAtMost(hi: real, total: real, sum: real, v: real, w: real, total': real, sum': real)
    requires sum <= hi * total && v <= hi && w >= 0.0
    requires total' == total + w && sum' == sum + v * w
    ensures sum' <= hi * total'
  {
    ProductMonotone(w, v, hi);
    Distribute(hi, total, w);
  }

  // ----- Quotients

  lemma {:induction false} QuotientPositive(a: real, b: real)
    requires a > 0.0 && b > 0.0
    ensures a / b > 0.0
  {}

  lemma {:induction false} QuotientTimes(a: real, b: real)
    requires b > 0.0
    ensures b * (a / b) == a
  {}

  lemma {:induction false} QuotientIsOne(a: real, b: real)
    requires b > 0.0
    ensures a / b == 1.0 <==> a == b
  {
    QuotientTimes(a, b);
  }

  lemma {:induction false} QuotientBetween(lo: real, hi: real, a: real, b: real)
    requires b > 0.0 && lo * b <= a <= hi * b
    ensures lo <= a / b <= hi
  {
    var q := a / b;
    assert q * b == a;
    if q < lo { Order(q, lo, b); }
    if q > hi { Order(hi, q, b); }
  }

  lemma {:induction false} QuotientAtMostOne(a: real, b: real)
    requires 0.0 < a <= b
    ensures 0.0 < a / b <= 1.0
  {
    var q := a / b;
    assert q * b == a;
    if q > 1.0 { Order(1.0, q, b); }
    if q < 0.0 { Order(q, 0.0, b); }
  }

  lemma {:induction false} QuotientOrder(a: real, b: real, factor: real)
    requires a <= b && factor > 0.0
    ensures a / factor <= b / factor
  {
    var x, y := a / factor, b / factor;
    assert x * factor == a && y * factor == b;
    if x > y { Order(y, x, factor); }
  }

  lemma {:induction false} QuotientShrinks(d: real, factor: real)
    requires d > 0.0 && factor > 1.0
    ensures !(d < d / factor)
  {
    var x := d / factor;
    assert x * factor == d;
    if x > d { Order(1.0, factor, x); }
  }

  /** Dividing by a smaller number in another unit. */
  lemma {:induction false} SlowerQuotient(a: real, s: real, g: real, unit: real)
    requires a > 0.0 && s > 0.0 && unit > 0.0 && s * unit < g
    ensures g > 0.0 && a / s > unit * (a / g)
  {
    ProductPositive(s, unit);
    var x, y := a / s, a / g;
    assert x * s == a && y * g == a;
    QuotientPositive(a, g);
    var z := unit * y;
    assert z * s == y * (s * unit);
    assert y * (s * unit) < y * g by { Order(s * unit, g, y); }
    if x <= z { ProductsOrdered(s, x, z, s * x, s * z); }
  }

  /** Dividing by a number in another unit. */
  lemma {:induction false} QuotientScales(a: real, s: real, g: real, unit: real)
    requires s > 0.0 && unit > 0.0 && g == s * unit
    ensures g > 0.0 && a / s == unit * (a / g)
  {
    ProductPositive(s, unit);
    var x, y := a / s, a / g;
    assert x * s == a && y * g == a;
    assert y * g == (y * unit) * s;
    if x < unit * y { Order(x, unit * y, s); }
    if x > unit * y { Order(unit * y, x, s); }
  }
}

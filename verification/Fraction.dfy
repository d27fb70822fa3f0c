// Model of drivers/ad9545/ad9545_setup.c: the best-fraction search and the feedback
// divider built from it. Doubles are exact reals here.
module Fraction {
  import opened Rounding

  const LIMIT := 100

  function Numerator(r: real, q: int): int { Round(r * q as real) }

  // Distance of p/q from r.
  function Err(r: real, p: int, q: int): real
    requires q > 0
  {
    Abs(r - p as real / q as real)
  }

  // No fraction with a denominator below the limit is nearer to r, and none with a
  // smaller denominator is as near.
  ghost predicate Best(r: real, a: int, b: int) {
    && 1 <= b < LIMIT
    && (forall p: int, q: int :: 1 <= q < LIMIT ==> Err(r, a, b) <= Err(r, p, q))
    && (forall p: int, q: int :: 1 <= q < b ==> Err(r, a, b) < Err(r, p, q))
  }

  lemma RoundWithinHalf(x: real)
    ensures -0.5 <= x - Round(x) as real <= 0.5
  {
  }

  lemma RoundNearest(x: real, p: int)
    ensures Abs(x - Round(x) as real) <= Abs(x - p as real)
  {
    hide Round;
    RoundWithinHalf(x);
    var n := Round(x);
    if p > n {
      assert p as real >= n as real + 1.0;
    } else if p < n {
      assert p as real <= n as real - 1.0;
    }
  }

  // Scaled by q, the distance of p/q from r is that of p from r * q.
  lemma ErrScaled(r: real, p: int, q: int)
    requires q > 0
    ensures Err(r, p, q) * q as real == Abs(r * q as real - p as real)
  {
    var f := p as real / q as real;
    assert f * q as real == p as real;
    assert (r - f) * q as real == r * q as real - p as real;
  }

  lemma CancelLess(x: real, y: real, q: int)
    requires q > 0 && x * q as real <= y * q as real
    ensures x <= y
  {
  }

  lemma NearestNumerator(r: real, p: int, q: int)
    requires q > 0
    ensures Err(r, Numerator(r, q), q) <= Err(r, p, q)
  {
    hide Round, Err;
    var a := Numerator(r, q);
    RoundNearest(r * q as real, p);
    ErrScaled(r, a, q);
    ErrScaled(r, p, q);
    CancelLess(Err(r, a, q), Err(r, p, q), q);
  }

  // The out-parameters start as the caller's values.
  method FindFraction(r: real, a0: int, b0: int) returns (a: int, b: int)
    requires 0.0 <= r < 1.0
    ensures Best(r, a, b)
    ensures a == Numerator(r, b)
    ensures a == b <==> r >= 197.0 / 198.0
  {
    hide Round, Numerator, Err, Best;
    a, b := a0, b0;
    var min := 1.0;
    for d := 1 to LIMIT
      invariant if d == 1 then min == 1.0 else 1 <= b < d && min == Err(r, a, b) && a == Numerator(r, b)
      invariant forall p: int, q: int :: 1 <= q < d ==> min <= Err(r, p, q)
      invariant d > 1 ==> forall p: int, q: int :: 1 <= q < b ==> min < Err(r, p, q)
    {
      var n := Numerator(r, d);
      var diff := Err(r, n, d);
      forall p: int ensures diff <= Err(r, p, d) { NearestNumerator(r, p, d); }
      if d == 1 { FirstIsNear(r); }
      if diff < min {
        min := diff;
        a := n;
        b := d;
      }
    }
    SearchedIsBest(r, a, b);
    WholeWhen(r, a, b);
  }

  lemma SearchedIsBest(r: real, a: int, b: int)
    requires 1 <= b < LIMIT
    requires forall p: int, q: int :: 1 <= q < LIMIT ==> Err(r, a, b) <= Err(r, p, q)
    requires forall p: int, q: int :: 1 <= q < b ==> Err(r, a, b) < Err(r, p, q)
    ensures Best(r, a, b)
  {
  }

  // The search returns 1/1 exactly from midway between 98/99 and 1 on.
  lemma WholeWhen(r: real, a: int, b: int)
    requires 0.0 <= r < 1.0 && Best(r, a, b) && a == Numerator(r, b)
    ensures a == b <==> r >= 197.0 / 198.0
  {
    hide Best, Numerator;
    if a == b {
      BestBounds(r, a, b);
      BestIsLowestTerms(r, a, b, b, 1, 1);
      BestAgainst(r, a, b, 98, 99);
    } else if r >= 197.0 / 198.0 {
      OneIsBest(r);
      BestIsUnique(r, a, b);
      assert Round(r * 1 as real) == 1;
      assert a == Round(r * b as real) by { NumeratorIs(r, b); }
    }
  }

  lemma NumeratorIs(r: real, q: int)
    ensures Numerator(r, q) == Round(r * q as real)
  {
  }

  lemma BestAgainst(r: real, a: int, b: int, p: int, q: int)
    requires Best(r, a, b) && 1 <= q < LIMIT
    ensures Err(r, a, b) <= Err(r, p, q)
  {
  }

  lemma OneIsBest(r: real)
    requires 197.0 / 198.0 <= r < 1.0
    ensures Best(r, 1, 1)
  {
    forall p: int, q: int | 1 <= q < LIMIT ensures Err(r, 1, 1) <= Err(r, p, q) {
      FarFromOne(p, q);
    }
  }

  // Another fraction with a denominator below 100 is at most 98/99 or at least 1.
  lemma FarFromOne(p: int, q: int)
    requires 1 <= q < LIMIT
    ensures p as real / q as real >= 1.0 || p as real / q as real <= 98.0 / 99.0
  {
    var f := p as real / q as real;
    assert f * q as real == p as real;
    if p < q {
      assert f * q as real <= q as real - 1.0;
      assert (98.0 / 99.0) * q as real >= q as real - 1.0;
      CancelLess(f, 98.0 / 99.0, q);
    } else {
      CancelLess(1.0, f, q);
    }
  }

  lemma BestIsUnique(r: real, a: int, b: int)
    requires Best(r, 1, 1) && Best(r, a, b)
    ensures b == 1
  {
    assert Err(r, 1, 1) <= Err(r, a, b);
  }

  lemma FirstIsNear(r: real)
    requires 0.0 <= r < 1.0
    ensures Err(r, Numerator(r, 1), 1) < 1.0
  {
    RoundWithinHalf(r * 1 as real);
  }

  // ---------- what the search guarantees ----------

  // The numerator is within the denominator, and the pair has no common factor.
  lemma BestIsLowestTerms(r: real, a: int, b: int, k: int, a1: int, b1: int)
    requires Best(r, a, b) && k > 0 && a == k * a1 && b == k * b1
    ensures k == 1
  {
    assert 1 <= b1 <= b;
    SameValue(a1, b1, k);
    assert Err(r, a1, b1) == Err(r, a, b);
    assert b1 == b;
  }

  lemma SameValue(a: int, b: int, k: int)
    requires k > 0 && b > 0
    ensures k * b > 0 && (k * a) as real / (k * b) as real == a as real / b as real
  {
    var f := a as real / b as real;
    assert f * b as real == a as real;
    assert k * b > 0;
    assert (k * b) as real == k as real * b as real && (k * a) as real == k as real * a as real;
    assert f * (k * b) as real == (k * a) as real;
  }

  // A fraction with a denominator below the limit is found exactly.
  lemma BestIsExact(r: real, a: int, b: int, p: int, q: int)
    requires Best(r, a, b) && 1 <= q < LIMIT && r * q as real == p as real
    ensures r == a as real / b as real
  {
    ErrScaled(r, p, q);
    CancelLess(Err(r, p, q), 0.0, q);
  }

  // ---------- the feedback divider ----------

  // The divider set, as a number.
  function Feedback(whole: int, a: int, b: int): real
    requires b > 0
  {
    whole as real + a as real / b as real
  }

  // Whether x/m can be written with some denominator below the limit.
  ghost predicate Representable(x: int, m: int)
    requires m > 0
  {
    exists q: int :: 1 <= q < LIMIT && Multiple(x * q, m)
  }

  predicate Multiple(x: int, m: int)
    requires m > 0
  {
    x % m == 0
  }

  lemma MultipleIff(x: int, m: int, k: int)
    requires m > 0 && x == m * k
    ensures Multiple(x, m)
  {
    var d := k - x / m;
    assert x == m * (x / m) + x % m;
    assert x % m == m * d && d == 0;
  }

  lemma ExactIsRepresentable(x: int, m: int, whole: int, a: int, b: int)
    requires m > 0 && 1 <= b < LIMIT
    requires Feedback(whole, a, b) == x as real / m as real
    ensures Representable(x, m)
  {
    var f := a as real / b as real;
    assert f * b as real == a as real;
    var g := x as real / m as real;
    assert g * m as real == x as real;
    assert g * b as real == whole as real * b as real + a as real;
    assert (g * b as real) * m as real == x as real * b as real;
    assert (m * (whole * b + a)) as real == m as real * (whole as real * b as real + a as real);
    assert (x * b) as real == x as real * b as real;
    assert x * b == m * (whole * b + a);
    MultipleIff(x * b, m, whole * b + a);
  }

  lemma RepresentableIsExact(x: int, m: int, whole: int, a: int, b: int)
    requires m > 0 && Best(x as real / m as real - whole as real, a, b)
    requires Representable(x, m)
    ensures Feedback(whole, a, b) == x as real / m as real
  {
    hide Best;
    var q: int :| 1 <= q < LIMIT && Multiple(x * q, m);
    var k := x * q / m;
    var g := x as real / m as real;
    WholeMultiple(x, m, q, k, g);
    assert (g - whole as real) * q as real == (k - whole * q) as real;
    BestIsExact(g - whole as real, a, b, k - whole * q, q);
  }

  lemma WholeMultiple(x: int, m: int, q: int, k: int, g: real)
    requires m > 0 && x * q == m * k && g * m as real == x as real
    ensures g * q as real == k as real
  {
    var gq := g * q as real;
    assert gq * m as real == x as real * q as real == (x * q) as real == k as real * m as real;
    SameFactor(gq, k as real, m as real);
  }

  lemma SameFactor(a: real, b: real, c: real)
    requires a * c == b * c && c > 0.0
    ensures a == b
  {
    assert (a - b) * c == 0.0;
  }

  class DpllProfile {
    var fbDivider: int
    var fbFraction: int
    var fbModulus: int

    // 2*R*Q/M from the reference divider R, the distribution divider Q and the APLL
    // multiplier M: exact if and only if M in lowest terms with 2*R*Q is below 100.
    method SetFeedback(refDiv: nat, distDiv: nat, apllDiv: nat)
      requires apllDiv > 0
      modifies this
      ensures 0 <= fbFraction <= fbModulus && 1 <= fbModulus < LIMIT
      ensures Feedback(fbDivider, fbFraction, fbModulus) == (2 * refDiv * distDiv) as real / apllDiv as real
              <==> apllDiv / Gcd(2 * refDiv * distDiv, apllDiv) < LIMIT
      ensures Best((2 * refDiv * distDiv) as real / apllDiv as real - fbDivider as real, fbFraction, fbModulus)
      ensures fbDivider == ((2 * refDiv * distDiv) as real / apllDiv as real).Floor
    {
      hide Best, Representable, Gcd;
      var fb := (2 * refDiv * distDiv) as real / apllDiv as real;
      NonNegative(2 * refDiv * distDiv, apllDiv);
      var a, b := FindFraction(fb - fb.Floor as real, 1, 1);
      BestBounds(fb - fb.Floor as real, a, b);
      RepresentableIff(2 * refDiv * distDiv, apllDiv);
      fbDivider := fb.Floor;
      fbFraction := a;
      fbModulus := b;
      NumeratorInRange(fb - fb.Floor as real, b);
      if Representable(2 * refDiv * distDiv, apllDiv) {
        RepresentableIsExact(2 * refDiv * distDiv, apllDiv, fbDivider, a, b);
      } else if Feedback(fbDivider, a, b) == fb {
        ExactIsRepresentable(2 * refDiv * distDiv, apllDiv, fbDivider, a, b);
      }
    }
  }

  lemma NonNegative(x: nat, m: nat)
    requires m > 0
    ensures x as real / m as real >= 0.0
  {
  }

  lemma BestBounds(r: real, a: int, b: int)
    requires Best(r, a, b)
    ensures 1 <= b < LIMIT
  {
  }

  lemma NonNegativeProduct(x: real, y: real)
    requires x >= 0.0 && y >= 0.0
    ensures x * y >= 0.0
  {
  }

  lemma InUnit(r: real, x: real, y: real)
    requires 0.0 <= r < 1.0 && x >= 0.0 && y == r * x
    ensures 0.0 <= y <= x
  {
    NonNegativeProduct(r, x);
    NonNegativeProduct(1.0 - r, x);
    assert x - y == (1.0 - r) * x;
  }

  lemma NumeratorInRange(r: real, b: int)
    requires 0.0 <= r < 1.0 && b >= 1
    ensures 0 <= Numerator(r, b) <= b
  {
    var x := r * b as real;
    InUnit(r, b as real, x);
    RoundInRange(x, b);
    assert Numerator(r, b) == Round(x);
  }

  lemma RoundInRange(x: real, b: int)
    requires 0.0 <= x <= b as real
    ensures 0 <= Round(x) <= b
  {
    hide Round;
    RoundWithinHalf(x);
    assert Round(x) as real > -1.0 && Round(x) as real < b as real + 1.0;
  }

  // ---------- the denominator in lowest terms ----------

  function Gcd(x: nat, m: nat): (g: nat)
    requires m > 0
    ensures 1 <= g
    decreases x
  {
    if x == 0 then m else Gcd(m % x, x)
  }

  // The greatest common divisor, with its two cofactors, is a combination of both.
  lemma {:induction false} Bezout(x: nat, m: nat) returns (u: int, v: int, a: nat, d: nat)
    requires m > 0
    ensures Gcd(x, m) == u * x + v * m && x == Gcd(x, m) * a && m == Gcd(x, m) * d
    decreases x
  {
    if x == 0 {
      u, v, a, d := 0, 1, 0, 1;
    } else {
      var s, t, b, e := Bezout(m % x, x);
      Combine(x, m, m / x, Gcd(x, m), s, t, b, e);
      u, v, a, d := t - s * (m / x), s, e, b + (m / x) * e;
    }
  }

  lemma Combine(x: nat, m: nat, q: nat, g: nat, s: int, t: int, b: nat, e: nat)
    requires x > 0 && m == x * q + m % x
    requires g == s * (m % x) + t * x && m % x == g * b && x == g * e
    ensures g == (t - s * q) * x + s * m && m == g * (b + q * e)
  {
    assert s * m == s * (x * q) + s * (m % x);
    assert (t - s * q) * x == t * x - s * (x * q);
    assert g * (b + q * e) == g * b + (g * e) * q;
  }

  // A denominator below the limit exists if and only if the one in lowest terms is.
  lemma RepresentableIff(x: nat, m: nat)
    requires m > 0
    ensures Representable(x, m) <==> m / Gcd(x, m) < LIMIT
  {
    hide Gcd;
    var u, v, a, d := Bezout(x, m);
    var g := Gcd(x, m);
    assert m / g == d && d >= 1 by { Quotient(m, g, d); }
    if Representable(x, m) {
      var q: int :| 1 <= q < LIMIT && Multiple(x * q, m);
      Cofactor(x, m, g, u, v, d, q, x * q / m);
    }
    if d < LIMIT {
      assert x * d == m * a by { assert x * d == (g * a) * d == (g * d) * a; }
      MultipleIff(x * d, m, a);
    }
  }

  lemma Quotient(m: nat, g: nat, d: nat)
    requires m > 0 && g > 0 && m == g * d
    ensures m / g == d && d >= 1
  {
    assert m == g * (m / g) + m % g;
    var k := d - m / g;
    assert m % g == g * k && k == 0;
  }

  // m divides x * q, so m / g divides q.
  lemma Cofactor(x: nat, m: nat, g: nat, u: int, v: int, d: nat, q: int, k: int)
    requires m > 0 && g > 0 && q >= 1 && g == u * x + v * m && m == g * d && x * q == m * k
    ensures d <= q
  {
    var w := u * k + v * q;
    assert g * q == u * (x * q) + v * m * q == m * w == g * (d * w);
    assert q == d * w;
    assert w >= 1;
    assert d * w >= d;
  }

  // Every multiplier up to 99 gives an exact divider.
  lemma SmallMultiplierIsExact(x: nat, m: nat)
    requires 1 <= m < LIMIT
    ensures m / Gcd(x, m) < LIMIT
  {
    hide Gcd;
    assert m / Gcd(x, m) <= m;
  }

  // Exact or not, the divider is within 1/198.
  lemma BestWithin(r: real, a: int, b: int)
    requires Best(r, a, b)
    ensures Err(r, a, b) <= 1.0 / 198.0
  {
    var n := Numerator(r, 99);
    RoundWithinHalf(r * 99 as real);
    ErrScaled(r, n, 99);
    assert Err(r, n, 99) * 99.0 <= 0.5;
  }
}

// Model of dev/ad9548/ad9548_loop_filter_design.c: loop-filter coefficients as
// mantissa and exponent register fields. Doubles are exact reals here.
module Quantize {
  import opened Rounding

  // ---------- powers of two ----------

  function Pow2(e: int): (p: real)
    ensures p > 0.0
    decreases if e < 0 then -e else e
  {
    if e == 0 then 1.0 else if e > 0 then 2.0 * Pow2(e - 1) else Pow2(e + 1) / 2.0
  }

  function Halvings(a: real): int
    requires a > 0.0
  {
    if a > 1.0 then a.Floor + 2 else if a <= 0.5 then (1.0 / a).Floor else 0
  }

  // ceil(log2(a))
  function CeilLog2(a: real): (k: int)
    requires a > 0.0
    ensures Pow2(k - 1) < a <= Pow2(k)
    decreases Halvings(a)
  {
    if a > 1.0 then CeilLog2(a / 2.0) + 1
    else if a <= 0.5 then CeilLog2(2.0 * a) - 1
    else 0
  }

  lemma Pow2Zero()
    ensures Pow2(0) == 1.0
  {
  }

  lemma Twice(x: real, y: real)
    ensures (2.0 * x) * y == 2.0 * (x * y)
  {
  }

  lemma {:induction false} Pow2Add(i: int, j: int)
    ensures Pow2(i + j) == Pow2(i) * Pow2(j)
    decreases if i < 0 then -i else i
  {
    hide Pow2;
    if i == 0 {
      Pow2Zero();
    } else {
      var low := if i > 0 then i - 1 else i;
      Pow2Next(low);
      Pow2Next(low + j);
      Twice(Pow2(low), Pow2(j));
      if i > 0 { Pow2Add(low, j); } else { Pow2Add(low + 1, j); }
    }
  }

  lemma Pow2Next(e: int)
    ensures Pow2(e + 1) == 2.0 * Pow2(e)
  {
  }

  lemma {:induction false} Pow2Monotone(i: int, j: int)
    requires i <= j
    ensures Pow2(i) <= Pow2(j)
    decreases j - i
  {
    if i == j {
    } else {
      Pow2Monotone(i, j - 1);
      Pow2Next(j - 1);
    }
  }

  lemma LogAbove(a: real, m: int)
    requires a > Pow2(m)
    ensures CeilLog2(a) > m
  {
    if CeilLog2(a) <= m { Pow2Monotone(CeilLog2(a), m); }
  }

  lemma LogBelow(a: real, m: int)
    requires 0.0 < a <= Pow2(m)
    ensures CeilLog2(a) <= m
  {
    if CeilLog2(a) > m { Pow2Monotone(m, CeilLog2(a) - 1); }
  }

  // ---------- mantissas ----------

  function Min(x: int, y: int): int { if x < y then x else y }

  function Max(x: int, y: int): int { if x > y then x else y }

  // The linear field: rounded, then forced into 1..top.
  function Mantissa(x: real, top: int): (m: int)
    requires top >= 1
    ensures 1 <= m <= top
  {
    Min(top, Max(1, Round(x)))
  }

  // A scaled value in the top octave is met to one part in the field's size, also
  // when rounding up would have carried out of the field.
  lemma MantissaError(x: real, size: int)
    requires size >= 2 && size as real / 2.0 < x <= size as real
    ensures Abs(Mantissa(x, size - 1) as real - x) * size as real <= x
  {
    hide Mantissa, Abs;
    var m := Mantissa(x, size - 1);
    MantissaNear(x, size);
    if Abs(m as real - x) <= 0.5 {
      HalfError(Abs(m as real - x), x, size as real);
    } else {
      CarryError(Abs(m as real - x), x, size as real);
    }
  }

  lemma MantissaNear(x: real, size: int)
    requires size >= 2 && size as real / 2.0 < x <= size as real
    ensures var m := Mantissa(x, size - 1) as real;
            Abs(m - x) <= 0.5 || (x >= size as real - 1.0 && Abs(m - x) == x - (size as real - 1.0))
  {
  }

  lemma HalfError(error: real, x: real, n: real)
    requires error <= 0.5 && n / 2.0 < x && n >= 0.0
    ensures error * n <= x
  {
    Shrink(error, 0.5, n);
  }

  lemma CarryError(error: real, x: real, n: real)
    requires 1.0 <= n && n - 1.0 <= x <= n && error == x - (n - 1.0)
    ensures error * n <= x
  {
    Shrink(x, n, n - 1.0);
    assert error * n - x == x * (n - 1.0) - n * (n - 1.0);
  }

  lemma Shrink(x: real, y: real, z: real)
    requires x <= y && z >= 0.0
    ensures x * z <= y * z
  {
  }

  function Scale(a: real, up: int): real { a * Pow2(up) }

  // A field scaled back down.
  function Decode(mantissa: int, exponent: int): real { mantissa as real * Pow2(exponent) }

  predicate Within(decoded: real, a: real, size: int)
    requires size > 0
  {
    Abs(decoded - a) <= a / size as real
  }

  // a is scaled up to x and decoded from its mantissa.
  lemma ScaledError(a: real, x: real, up: int, size: int)
    requires a > 0.0 && size >= 2 && x == Scale(a, up)
    requires size as real / 2.0 < x <= size as real
    ensures Within(Decode(Mantissa(x, size - 1), -up), a, size)
  {
    hide Pow2, Mantissa, Abs;
    MantissaError(x, size);
    Inverse(up);
    Unscale(a, Pow2(up), Pow2(-up), x, Mantissa(x, size - 1) as real, size as real);
  }

  lemma Inverse(e: int)
    ensures Pow2(e) * Pow2(-e) == 1.0
  {
    hide Pow2;
    Pow2Add(e, -e);
    Pow2Zero();
  }

  lemma Unscale(a: real, p: real, q: real, x: real, m: real, size: real)
    requires q > 0.0 && p * q == 1.0 && size > 0.0 && x == a * p
    requires Abs(m - x) * size <= x
    ensures Abs(m * q - a) <= a / size
  {
    assert x * q == a * (p * q) == a;
    var e := Abs(m - x);
    assert Abs(m * q - a) == e * q by {
      assert m * q - a == (m - x) * q;
    }
    Shrink(e * size, x, q);
    assert (e * q) * size == (e * size) * q <= a;
    DivideBy(e * q, a, size);
  }

  lemma DivideBy(x: real, y: real, z: real)
    requires z > 0.0 && x * z <= y
    ensures x <= y / z
  {
    var d := y / z;
    assert d * z == y;
    if x > d {
      assert (x - d) * z > 0.0;
    }
  }

  // Above the field's reach the error bound fails: the mantissa is stuck at the top.
  lemma ScaledTooLarge(a: real, x: real, up: int, size: int)
    requires a > 0.0 && size >= 2 && x == Scale(a, up) && x > size as real
    ensures !Within(Decode(Mantissa(x, size - 1), -up), a, size)
  {
    hide Pow2;
    Inverse(up);
    assert Mantissa(x, size - 1) == size - 1;
    Exceeds(a, Pow2(up), Pow2(-up), x, size as real - 1.0, size as real);
  }

  lemma Exceeds(a: real, p: real, q: real, x: real, m: real, size: real)
    requires q > 0.0 && p * q == 1.0 && x == a * p && size >= 2.0 && m == size - 1.0 && x > size
    ensures Abs(m * q - a) > a / size
  {
    assert x * q == a * (p * q) == a;
    var e := x - m;
    assert m * q - a == -(e * q);
    assert (x - size) * m > 0.0;
    assert e * size - x == (x - size) * m;
    assert (e * size - x) * q > 0.0;
    assert (e * q) * size > a;
    if e * q <= a / size {
      Shrink(e * q, a / size, size);
    }
  }

  // 2^n as the size of an n-bit field.
  lemma FieldSizes()
    ensures Pow2(14) == 16384.0 && Pow2(15) == 32768.0 && Pow2(16) == 65536.0 && Pow2(17) == 131072.0
  {
    assert Pow2(4) == 16.0;
    Pow2Add(4, 4);
    Pow2Add(8, 8);
    Pow2Add(16, 1);
    Pow2Add(15, 1);
    Pow2Add(14, 1);
  }

  lemma Octave(a: real, n: int)
    requires a > 0.0
    ensures Pow2(n - 1) < Scale(a, n - CeilLog2(a)) <= Pow2(n)
  {
    hide Pow2;
    var k := CeilLog2(a);
    Pow2Add(k - 1, n - k);
    Pow2Add(k, n - k);
    Between(Pow2(k - 1), a, Pow2(k), Pow2(n - k), Scale(a, n - k));
  }

  lemma Between(lo: real, a: real, hi: real, q: real, x: real)
    requires lo < a <= hi && q > 0.0 && x == a * q
    ensures lo * q < x <= hi * q
  {
    ShrinkStrictly(lo, a, q);
    Shrink(a, hi, q);
    assert x <= hi * q;
    assert lo * q < x;
  }

  lemma ShrinkStrictly(x: real, y: real, z: real)
    requires x < y && z > 0.0
    ensures x * z < y * z
  {
  }

  // ---------- the quantizers ----------

  datatype Alpha = Alpha(linear: int, exp1: int, exp2: int, exp3: int) {
    // The register fields are 16, 6, 3 and 4 bits wide.
    predicate Fits() { 0 <= linear < 65536 && 0 <= exp1 < 64 && 0 <= exp2 < 8 && 0 <= exp3 < 16 }

    function Value(): real { Decode(linear, -16 - exp1 + exp2 + exp3) }
  }

  function QuantizeA(a: real): (q: Alpha)
    requires a > 0.0
    ensures q.Fits()
  {
    var w := if a < 1.0 then -CeilLog2(a) else 0;
    var a1 := if a < 1.0 then Min(63, Max(0, w)) else 0;
    var x := if a > 1.0 then CeilLog2(a) else 0;
    var y := if a > 1.0 then Min(22, Max(0, x)) else 0;
    var a2 := if y >= 8 then 7 else y;
    var a3 := if y >= 8 then y - 7 else 0;
    Alpha(Mantissa(Scale(a, 16 + a1 - a2 - a3), 65535), a1, a2, a3)
  }

  datatype Coef = Coef(linear: int, exp: int)

  // 17 and 5 bits
  function QuantizeBG(b: real): (q: Coef)
    requires b != 0.0
    ensures 0 <= q.linear < 131072 && 0 <= q.exp < 32
  {
    var x := -CeilLog2(Abs(b));
    var b1 := Min(31, Max(0, x));
    Coef(Mantissa(Scale(Abs(b), 17 + b1), 131071), b1)
  }

  // 15 and 5 bits
  function QuantizeD(d: real): (q: Coef)
    requires d > 0.0
    ensures 0 <= q.linear < 32768 && 0 <= q.exp < 32
  {
    var x := -CeilLog2(d);
    var d1 := Min(31, Max(0, x));
    Coef(Mantissa(Scale(d, 15 + d1), 32767), d1)
  }

  lemma LogAtOne(a: real)
    requires a > 0.0
    ensures a <= 1.0 ==> CeilLog2(a) <= 0
    ensures a >= 1.0 ==> CeilLog2(a) >= 0
    ensures a > 1.0 ==> CeilLog2(a) >= 1
  {
    Pow2Zero();
    Pow2Next(-1);
    if a <= 1.0 { LogBelow(a, 0); }
    if a > 1.0 { LogAbove(a, 0); }
    if a == 1.0 { LogAbove(a, -1); }
  }

  // Main result for alpha: one part in 2^16 from 2^-64 up, exactly as far as 2^22.
  lemma AlphaError(a: real)
    requires a > Pow2(-64)
    ensures Within(QuantizeA(a).Value(), a, 65536) <==> a <= Pow2(22)
  {
    hide Pow2, CeilLog2, Scale, Decode, Mantissa, Within;
    LogAtOne(a);
    LogAbove(a, -64);
    FieldSizes();
    var q := QuantizeA(a);
    var up := 16 + q.exp1 - q.exp2 - q.exp3;
    if a <= Pow2(22) {
      LogBelow(a, 22);
      assert up == 16 - CeilLog2(a);
      Octave(a, 16);
      ScaledError(a, Scale(a, up), up, 65536);
    } else {
      AlphaLarge(a);
    }
  }

  lemma AlphaLarge(a: real)
    requires a > Pow2(22)
    ensures !Within(QuantizeA(a).Value(), a, 65536)
  {
    hide Pow2, CeilLog2, Scale, Decode, Mantissa, Within;
    LogAbove(a, 22);
    Pow2Zero();
    Pow2Monotone(0, 22);
    FieldSizes();
    var q := QuantizeA(a);
    var up := 16 + q.exp1 - q.exp2 - q.exp3;
    assert q.exp1 == 0 && q.exp2 == 7 && q.exp3 == 15 && up == -6;
    LargerScaled(a, 22, -6);
    ScaledTooLarge(a, Scale(a, up), up, 65536);
    assert q.linear == Mantissa(Scale(a, up), 65535);
    assert q.Value() == Decode(q.linear, -up);
  }

  lemma LargerScaled(a: real, e: int, up: int)
    requires a > Pow2(e)
    ensures Scale(a, up) > Pow2(e + up)
  {
    hide Pow2;
    Pow2Add(e, up);
    ShrinkStrictly(Pow2(e), a, Pow2(up));
  }

  // A coefficient with an n-bit linear field and a 5-bit exponent.
  lemma CoefError(a: real, n: int, size: int, q: Coef)
    requires a > Pow2(-32) && n >= 1 && size >= 2 && Pow2(n) == size as real && Pow2(n - 1) == size as real / 2.0
    requires q.exp == Min(31, Max(0, -CeilLog2(a)))
    requires q.linear == Mantissa(Scale(a, n + q.exp), size - 1)
    ensures Within(Decode(q.linear, -n - q.exp), a, size) <==> a <= 1.0
  {
    hide Pow2, CeilLog2, Scale, Decode, Mantissa, Within;
    LogAtOne(a);
    LogAbove(a, -32);
    var up := n + q.exp;
    assert -n - q.exp == -up;
    if a <= 1.0 {
      assert up == n - CeilLog2(a);
      Octave(a, n);
      ScaledError(a, Scale(a, up), up, size);
    } else {
      assert up == n;
      Pow2Zero();
      LargerScaled(a, 0, n);
      ScaledTooLarge(a, Scale(a, up), up, size);
    }
  }

  lemma BetaGammaError(b: real)
    requires Abs(b) > Pow2(-32)
    ensures var q := QuantizeBG(b);
            Within(Decode(q.linear, -17 - q.exp), Abs(b), 131072) <==> Abs(b) <= 1.0
  {
    hide Pow2, Decode, Mantissa, Within;
    FieldSizes();
    CoefError(Abs(b), 17, 131072, QuantizeBG(b));
  }

  lemma DeltaError(d: real)
    requires d > Pow2(-32)
    ensures var q := QuantizeD(d);
            Within(Decode(q.linear, -15 - q.exp), d, 32768) <==> d <= 1.0
  {
    hide Pow2, Decode, Mantissa, Within;
    FieldSizes();
    CoefError(d, 15, 32768, QuantizeD(d));
  }

  // ---------- the profile registers ----------

  class Profile {
    var alpha0Linear: int
    var alpha1Exp: int
    var alpha2Exp: int
    var alpha3Exp: int
    var beta0Linear: int
    var beta1Exp: int
    var gamma0Linear: int
    var gamma1Exp: int
    var delta0Linear: int
    var delta1Exp: int

    function AlphaFields(): Alpha
      reads this
    {
      Alpha(alpha0Linear, alpha1Exp, alpha2Exp, alpha3Exp)
    }

    // alpha, beta, gamma and delta. A logarithm is taken of each, of the magnitude for
    // the middle two, whose signs the registers do not hold.
    method SetIir(coef: seq<real>)
      requires |coef| == 4 && coef[0] > 0.0 && coef[1] != 0.0 && coef[2] != 0.0 && coef[3] > 0.0
      modifies this
      ensures AlphaFields().Fits()
      ensures 0 <= beta0Linear < 131072 && 0 <= beta1Exp < 32 && 0 <= gamma0Linear < 131072 && 0 <= gamma1Exp < 32
      ensures 0 <= delta0Linear < 32768 && 0 <= delta1Exp < 32
      ensures coef[0] > Pow2(-64) ==> (Within(AlphaFields().Value(), coef[0], 65536) <==> coef[0] <= Pow2(22))
      ensures Abs(coef[1]) > Pow2(-32) ==>
                (Within(Decode(beta0Linear, -17 - beta1Exp), Abs(coef[1]), 131072) <==> Abs(coef[1]) <= 1.0)
      ensures Abs(coef[2]) > Pow2(-32) ==>
                (Within(Decode(gamma0Linear, -17 - gamma1Exp), Abs(coef[2]), 131072) <==> Abs(coef[2]) <= 1.0)
      ensures coef[3] > Pow2(-32) ==>
                (Within(Decode(delta0Linear, -15 - delta1Exp), coef[3], 32768) <==> coef[3] <= 1.0)
    {
      hide Pow2, Decode, Within, QuantizeA, QuantizeBG, QuantizeD;
      var a := QuantizeA(coef[0]);
      var b := QuantizeBG(coef[1]);
      var g := QuantizeBG(coef[2]);
      var d := QuantizeD(coef[3]);
      alpha0Linear := a.linear;
      alpha1Exp := a.exp1;
      alpha2Exp := a.exp2;
      alpha3Exp := a.exp3;
      beta0Linear := b.linear;
      beta1Exp := b.exp;
      gamma0Linear := g.linear;
      gamma1Exp := g.exp;
      delta0Linear := d.linear;
      delta1Exp := d.exp;
      if coef[0] > Pow2(-64) { AlphaError(coef[0]); }
      if Abs(coef[1]) > Pow2(-32) { BetaGammaError(coef[1]); }
      if Abs(coef[2]) > Pow2(-32) { BetaGammaError(coef[2]); }
      if coef[3] > Pow2(-32) { DeltaError(coef[3]); }
    }
  }
}

/**
  The fused multiply-add of two floats, rounded to odd in a double (libblink/blink/avx2.c).
  Finite values are integers: multiples of the least positive double. A magnitude is the number its
  exponent and fraction bits spell, so that adding one moves to the next value up.
 */
module Fma {

  import opened Bits

  /** hidden is two to the number of fraction bits, and two to the exponent the least positive value. */
  datatype Format = Format(hidden: nat, exponent: nat)

  /** The value of the magnitude b: below 2 * hidden a multiple of the least value, and doubling from there on. */
  function Val(f: Format, b: nat): nat
    decreases b
  {
    if f.hidden == 0 || b < 2 * f.hidden then Scale(b, f.exponent) else 2 * Val(f, b - f.hidden)
  }

  /** The largest magnitude whose value is at most x. */
  function Floor(f: Format, x: nat): nat
    requires f.hidden > 0
    decreases x
  {
    var b := Shr(x, f.exponent);
    ShrOfZero(f.exponent);
    if b < 2 * f.hidden then b else Floor(f, x / 2) + f.hidden
  }

  // ---------------------------------------------------------------------------------------------
  // Magnitudes in order
  // ---------------------------------------------------------------------------------------------

  lemma {:induction false} ScalePositive(m: nat, t: nat)
    ensures Scale(m, t) == 0 <==> m == 0
    ensures Scale(m, t) >= m
    decreases t
  {
    if t > 0 {
      ScalePositive(m, t - 1);
    }
  }

  /** The multiples of the least value go up to the first doubled one. */
  lemma ValOfSmall(f: Format, b: nat)
    requires f.hidden > 0 && b <= 2 * f.hidden
    ensures Val(f, b) == Scale(b, f.exponent)
  {
    if b == 2 * f.hidden {
      ScaleAdds(f.hidden, f.hidden, f.exponent);
      assert Val(f, f.hidden) == Scale(f.hidden, f.exponent);
    }
  }

  lemma {:induction false} ValGrows(f: Format, b: nat)
    requires f.hidden > 0
    ensures Val(f, b) < Val(f, b + 1)
    decreases b
  {
    if b >= 2 * f.hidden {
      ValGrows(f, b - f.hidden);
    } else {
      ValOfSmall(f, b);
      ValOfSmall(f, b + 1);
      ScaleAdds(b, 1, f.exponent);
      ScalePositive(1, f.exponent);
    }
  }

  lemma {:induction false} ValOrder(f: Format, b: nat, c: nat)
    requires f.hidden > 0 && b <= c
    ensures Val(f, b) <= Val(f, c)
    ensures b < c ==> Val(f, b) < Val(f, c)
    decreases c
  {
    if b < c {
      ValOrder(f, b, c - 1);
      ValGrows(f, c - 1);
    }
  }

  lemma {:induction false} FloorIsBelow(f: Format, x: nat)
    requires f.hidden > 0
    ensures Val(f, Floor(f, x)) <= x < Val(f, Floor(f, x) + 1)
    decreases x
  {
    if Shr(x, f.exponent) < 2 * f.hidden {
      ShrIsBelow(x, f.exponent);
      ValOfSmall(f, Shr(x, f.exponent));
      ValOfSmall(f, Shr(x, f.exponent) + 1);
    } else {
      ShrOfZero(f.exponent);
      FloorIsBelow(f, x / 2);
      FloorIsNormal(f, x);
    }
  }

  lemma {:induction false} ShrIsBelow(x: nat, t: nat)
    ensures Scale(Shr(x, t), t) <= x < Scale(Shr(x, t) + 1, t)
    decreases t
  {
    if t > 0 {
      ShrIsBelow(x / 2, t - 1);
    }
  }

  lemma {:induction false} ShrOfHalf(x: nat, t: nat)
    ensures Shr(x / 2, t) == Shr(x, t) / 2
    decreases t
  {
    if t > 0 {
      ShrOfHalf(x / 2, t - 1);
    }
  }

  /** Beyond the multiples of the least value, half of x is still beyond the denormal ones. */
  lemma FloorIsNormal(f: Format, x: nat)
    requires f.hidden > 0 && Shr(x, f.exponent) >= 2 * f.hidden
    ensures Floor(f, x / 2) >= f.hidden
  {
    ShrOfHalf(x, f.exponent);
  }

  /** The only magnitude whose value is at most x while the next one's is above. */
  lemma FloorIsUnique(f: Format, x: nat, b: nat)
    requires f.hidden > 0 && Val(f, b) <= x < Val(f, b + 1)
    ensures Floor(f, x) == b
  {
    FloorIsBelow(f, x);
    if Floor(f, x) < b {
      ValOrder(f, Floor(f, x) + 1, b);
    } else if Floor(f, x) > b {
      ValOrder(f, b + 1, Floor(f, x));
    }
  }

  // ---------------------------------------------------------------------------------------------
  // Rounding to nearest
  // ---------------------------------------------------------------------------------------------

  /** The nearest magnitude, and of two equally near ones the even one. */
  function Nearest(f: Format, x: nat): nat
    requires f.hidden > 0
  {
    var low := Floor(f, x);
    var middle := Val(f, low) + Val(f, low + 1);
    if 2 * x < middle then low
    else if 2 * x > middle then low + 1
    else if low % 2 == 0 then low else low + 1
  }

  function Distance(x: int, y: int): nat {
    if x < y then y - x else x - y
  }

  lemma NearerNeighbour(x: nat, below: nat, above: nat, other: nat, low: nat, b: nat)
    requires below <= x < above
    requires if b <= low then other <= below else other >= above
    requires b < low ==> other < below
    requires b > low + 1 ==> other > above
    requires b == low ==> other == below
    requires b == low + 1 ==> other == above
    ensures
      var up := 2 * x > below + above || (2 * x == below + above && low % 2 == 1);
      var nearest, n := if up then above else below, if up then low + 1 else low;
      && Distance(x, nearest) <= Distance(x, other)
      && (b != n && Distance(x, other) == Distance(x, nearest) ==> n % 2 == 0 && b % 2 == 1)
  {
  }

  /** What IEEE 754 asks of roundTiesToEven (section 4.3.1). */
  lemma NearestIsNearest(f: Format, x: nat, b: nat)
    requires f.hidden > 0
    ensures Distance(x, Val(f, Nearest(f, x))) <= Distance(x, Val(f, b))
    ensures b != Nearest(f, x) && Distance(x, Val(f, b)) == Distance(x, Val(f, Nearest(f, x)))
        ==> Nearest(f, x) % 2 == 0 && b % 2 == 1
  {
    var low := Floor(f, x);
    FloorIsBelow(f, x);
    if b <= low {
      ValOrder(f, b, low);
    } else {
      ValOrder(f, low + 1, b);
    }
    NearerNeighbour(x, Val(f, low), Val(f, low + 1), Val(f, b), low, b);
  }

  /** Representable values round to themselves. */
  lemma NearestOfVal(f: Format, b: nat)
    requires f.hidden > 0
    ensures Nearest(f, Val(f, b)) == b
  {
    ValGrows(f, b);
    FloorIsUnique(f, Val(f, b), b);
  }

  // ---------------------------------------------------------------------------------------------
  // A coarse format inside a fine one
  // ---------------------------------------------------------------------------------------------

  /** Two more bits below every value of the coarse format, whether normal or denormal. */
  predicate Finer(fine: Format, coarse: Format) {
    && coarse.hidden > 0
    && 4 * coarse.hidden <= fine.hidden && fine.hidden % 2 == 0
    && fine.exponent + 2 <= coarse.exponent
  }

  function Doubled(f: Format, b: nat): nat {
    if b < f.hidden then 2 * b else b + f.hidden
  }

  lemma ValDoubled(f: Format, b: nat)
    requires f.hidden > 0
    ensures Val(f, Doubled(f, b)) == 2 * Val(f, b)
  {
    if b < f.hidden {
      ScaleAdds(b, b, f.exponent);
    }
  }

  /** A multiple m of a power of two above the least value is a magnitude, and an even one. */
  lemma {:induction false} Multiple(f: Format, m: nat, t: nat) returns (b: nat)
    requires m <= f.hidden && f.hidden % 2 == 0 && f.hidden > 0 && t > f.exponent
    ensures b % 2 == 0 && Val(f, b) == Scale(m, t)
    decreases t
  {
    if t - 1 == f.exponent {
      b := Doubled(f, m);
      ValDoubled(f, m);
      ValOfSmall(f, m);
    } else {
      var c := Multiple(f, m, t - 1);
      b := Doubled(f, c);
      ValDoubled(f, c);
    }
  }

  lemma {:induction false} ValueIsEven(fine: Format, coarse: Format, b: nat) returns (i: nat)
    requires Finer(fine, coarse)
    ensures i % 2 == 0 && Val(fine, i) == Val(coarse, b)
    decreases b
  {
    if b < 2 * coarse.hidden {
      i := Multiple(fine, b, coarse.exponent);
    } else {
      i := ValueIsEven(fine, coarse, b - coarse.hidden);
      ValDoubled(fine, i);
      i := Doubled(fine, i);
    }
  }

  /** Halfway between neighbours of the coarse format there is a value of the fine one, with an even magnitude. */
  lemma {:induction false} MiddleIsEven(fine: Format, coarse: Format, b: nat) returns (i: nat)
    requires Finer(fine, coarse)
    ensures i % 2 == 0 && 2 * Val(fine, i) == Val(coarse, b) + Val(coarse, b + 1)
    decreases b
  {
    if b < 2 * coarse.hidden {
      i := Multiple(fine, 2 * b + 1, coarse.exponent - 1);
      MiddleOfSmall(coarse, b);
    } else {
      i := MiddleIsEven(fine, coarse, b - coarse.hidden);
      ValDoubled(fine, i);
      i := Doubled(fine, i);
    }
  }

  lemma MiddleOfSmall(f: Format, b: nat)
    requires b < 2 * f.hidden && f.exponent > 0
    ensures 2 * Scale(2 * b + 1, f.exponent - 1) == Val(f, b) + Val(f, b + 1)
  {
    ValOfSmall(f, b);
    ValOfSmall(f, b + 1);
    ScaleAdds(b, b + 1, f.exponent - 1);
  }

  // ---------------------------------------------------------------------------------------------
  // Rounding to odd
  // ---------------------------------------------------------------------------------------------

  /** x itself where it is a value, and its odd neighbour elsewhere. */
  function OddRounded(f: Format, x: nat): nat
    requires f.hidden > 0
  {
    var low := Floor(f, x);
    if Val(f, low) == x || low % 2 == 1 then low else low + 1
  }

  /** An odd neighbour of x is on the side of every even magnitude that x is on. */
  lemma SameSide(f: Format, x: nat, i: nat)
    requires f.hidden > 0 && i % 2 == 0 && Val(f, Floor(f, x)) != x
    ensures x != Val(f, i)
    ensures x < Val(f, i) <==> Val(f, OddRounded(f, x)) < Val(f, i)
    ensures x > Val(f, i) <==> Val(f, OddRounded(f, x)) > Val(f, i)
  {
    var low := Floor(f, x);
    FloorIsBelow(f, x);
    var odd := OddRounded(f, x);
    if i <= low {
      ValOrder(f, i, low);
      ValOrder(f, i, odd);
    } else {
      ValOrder(f, low + 1, i);
      ValOrder(f, odd, i);
    }
  }

  /** Rounding what was rounded to odd is rounding once. */
  lemma RoundsOnce(fine: Format, coarse: Format, x: nat)
    requires Finer(fine, coarse)
    ensures Nearest(coarse, Val(fine, OddRounded(fine, x))) == Nearest(coarse, x)
  {
    FloorIsBelow(fine, x);
    if Val(fine, Floor(fine, x)) != x {
      var y := Val(fine, OddRounded(fine, x));
      var low := Floor(coarse, x);
      FloorIsBelow(coarse, x);
      var i := ValueIsEven(fine, coarse, low);
      SameSide(fine, x, i);
      var j := ValueIsEven(fine, coarse, low + 1);
      SameSide(fine, x, j);
      FloorIsUnique(coarse, y, low);
      var m := MiddleIsEven(fine, coarse, low);
      SameSide(fine, x, m);
    }
  }

  // ---------------------------------------------------------------------------------------------
  // The multiply-add
  // ---------------------------------------------------------------------------------------------

  datatype Number = Number(negative: bool, bits: nat)

  function Value(f: Format, n: Number): int {
    if n.negative then 0 - Val(f, n.bits) else Val(f, n.bits)
  }

  function Magnitude(x: int): nat {
    if x < 0 then -x else x
  }

  /** x rounded to the nearest number of the format. */
  function Rounded(f: Format, x: int): Number
    requires f.hidden > 0
  {
    Number(x < 0, Nearest(f, Magnitude(x)))
  }

  // In multiples of 2^-1074, the least double.
  const DOUBLE := Format(0x10_0000_0000_0000, 0)
  const FLOAT := Format(0x80_0000, 925)

  // Floats in multiples of the least of them, 2^-149, and the product of two such multiples.
  const FACTOR := Format(0x80_0000, 0)
  const PRODUCT_EXPONENT: nat := 776

  function Scaled(x: int, t: nat): int {
    if x < 0 then 0 - Scale(-x, t) else Scale(x, t)
  }

  function Product(a: Number, b: Number): int {
    Scaled(Value(FACTOR, a) * Value(FACTOR, b), PRODUCT_EXPONENT)
  }

  /** A value is a multiple of a power of two, by a factor the significand holds. */
  lemma {:induction false} Significand(f: Format, b: nat) returns (m: nat, t: nat)
    requires f.hidden > 0
    ensures m < 2 * f.hidden && t >= f.exponent && Val(f, b) == Scale(m, t)
    decreases b
  {
    if b < 2 * f.hidden {
      m, t := b, f.exponent;
    } else {
      m, t := Significand(f, b - f.hidden);
      t := t + 1;
    }
  }

  lemma SmallProduct(m: nat, n: nat, h: nat)
    requires m < h && n < h
    ensures m * n <= h * h
  {
    MulGrows(m, n, h);
    MulGrows(h, m, h);
    assert h * m == m * h;
  }

  lemma {:induction false} ScaleOfProduct(m: nat, n: nat, t: nat)
    ensures Scale(m, t) * n == Scale(m * n, t) == n * Scale(m, t)
    decreases t
  {
    if t > 0 {
      ScaleOfProduct(m, n, t - 1);
      DoubledProduct(Scale(m, t - 1), n);
    }
  }

  lemma DoubledProduct(m: nat, n: nat)
    ensures (2 * m) * n == 2 * (m * n)
  {
  }

  lemma ProductOfScales(m: nat, t: nat, n: nat, u: nat)
    ensures Scale(m, t) * Scale(n, u) == Scale(m * n, t + u)
  {
    ScaleOfProduct(n, Scale(m, t), u);
    ScaleOfProduct(m, n, t);
    ScaleTwice(m * n, t, u);
    assert Scale(m, t) * n == n * Scale(m, t);
  }

  /** The product of two floats is a double. */
  lemma ProductIsExact(fine: Format, factor: Format, a: nat, b: nat, e: nat) returns (i: nat)
    requires fine.exponent == 0 && fine.hidden % 2 == 0 && factor.hidden > 0 && e > 0
    requires fine.hidden >= (2 * factor.hidden) * (2 * factor.hidden) > 0
    ensures Val(fine, i) == Scale(Val(factor, a) * Val(factor, b), e)
  {
    var m, t := Significand(factor, a);
    var n, u := Significand(factor, b);
    SmallProduct(m, n, 2 * factor.hidden);
    ProductOfScales(m, t, n, u);
    ScaleTwice(m * n, t + u, e);
    i := Multiple(fine, m * n, t + u + e);
  }

  lemma RoundedProduct(a: Number, b: Number)
    ensures Value(DOUBLE, Rounded(DOUBLE, Product(a, b))) == Product(a, b)
  {
    var i := ProductIsExact(DOUBLE, FACTOR, a.bits, b.bits, PRODUCT_EXPONENT);
    NearestOfVal(DOUBLE, i);
    SignedProduct(Val(FACTOR, a.bits), Val(FACTOR, b.bits), a.negative, b.negative);
    ScalePositive(Magnitude(Value(FACTOR, a) * Value(FACTOR, b)), PRODUCT_EXPONENT);
  }

  lemma SignedProduct(x: nat, y: nat, nx: bool, ny: bool)
    ensures Magnitude((if nx then 0 - x else x) * (if ny then 0 - y else y)) == x * y
  {
  }

  lemma NearestToMultiple(f: Format, x: nat)
    requires f.hidden > 0 && f.exponent == 0
    ensures Nearest(f, x) == 0 <==> x == 0
  {
    FloorIsBelow(f, x);
    ValOfSmall(f, 0);
    ValOfSmall(f, 1);
    if x > 0 && Floor(f, x) == 0 {
      assert false;
    }
  }

  /** a * b + c, rounded once. */
  method FmaF32(a: Number, b: Number, c: Number) returns (r: Number)
    ensures r == Rounded(FLOAT, Product(a, b) + Value(FLOAT, c))
  {
    var p := Rounded(DOUBLE, Product(a, b));
    RoundedProduct(a, b);
    var s := SumToOdd(DOUBLE, Value(DOUBLE, p), Value(FLOAT, c));
    OddRoundsOnce(DOUBLE, FLOAT, Product(a, b) + Value(FLOAT, c), s);
    r := Rounded(FLOAT, Value(DOUBLE, s));
  }

  /** p + c rounded to odd: the nearest number, moved one step toward the sum where it is inexact and even. */
  method SumToOdd(f: Format, p: int, c: int) returns (s: Number)
    requires f.hidden > 0 && f.exponent == 0
    ensures s == Number(p + c < 0, OddRounded(f, Magnitude(p + c)))
  {
    s := Rounded(f, p + c);
    NearestOrOdd(f, p + c);
    var e := p + c - Value(f, s);
    if e != 0 && s.bits % 2 == 0 {
      s := s.(bits := if (e > 0) == (Value(f, s) > 0) then s.bits + 1 else s.bits - 1);
    }
  }

  lemma OddRoundsOnce(fine: Format, coarse: Format, x: int, s: Number)
    requires Finer(fine, coarse) && fine.exponent == 0
    requires s == Number(x < 0, OddRounded(fine, Magnitude(x)))
    ensures Rounded(coarse, Value(fine, s)) == Rounded(coarse, x)
  {
    RoundsOnce(fine, coarse, Magnitude(x));
    ValOfSmall(fine, 0);
    ValOfSmall(fine, 1);
    FloorIsBelow(fine, Magnitude(x));
    ValOrder(fine, 0, s.bits);
  }

  /** What one step toward m leads to from the nearest magnitude. */
  lemma NearestOrOddNeighbour(f: Format, m: nat)
    requires f.hidden > 0
    ensures var b := Nearest(f, m); OddRounded(f, m) == if m == Val(f, b) || b % 2 == 1 then b else if m > Val(f, b) then b + 1 else b - 1
  {
    FloorIsBelow(f, m);
  }

  lemma NearestOrOdd(f: Format, x: int)
    requires f.hidden > 0 && f.exponent == 0
    ensures
      var s := Rounded(f, x);
      var e := x - Value(f, s);
      OddRounded(f, Magnitude(x)) ==
        if e == 0 || s.bits % 2 == 1 then s.bits
        else if (e > 0) == (Value(f, s) > 0) then s.bits + 1
        else s.bits - 1
  {
    var m := Magnitude(x);
    NearestOrOddNeighbour(f, m);
    NearestToMultiple(f, m);
    ValOfSmall(f, 0);
    var b := Nearest(f, m);
    if b > 0 {
      ValOrder(f, 0, b);
    }
  }

  // ---------------------------------------------------------------------------------------------
  // The unit, and numbers in it
  // ---------------------------------------------------------------------------------------------

  /** The value of exponent field e + 1 and the fraction that is left of m without its hidden bit. */
  lemma {:induction false} ValOfNormal(f: Format, m: nat, e: nat, b: nat)
    requires f.hidden > 0 && f.hidden <= m < 2 * f.hidden && b == m + e * f.hidden
    ensures Val(f, b) == Scale(m, f.exponent + e)
    decreases e
  {
    if e == 0 {
      assert b == m;
    } else {
      OneLess(e, f.hidden);
      ValOfNormal(f, m, e - 1, b - f.hidden);
      assert b >= 2 * f.hidden;
    }
  }

  lemma OneLess(e: nat, h: nat)
    requires e > 0
    ensures e * h == (e - 1) * h + h >= h
  {
  }

  /** A power of two in a format whose hidden bit is 2^n. */
  lemma ValOfPower(f: Format, n: nat, e: nat, b: nat)
    requires f.hidden == Pow2(n) && b == f.hidden + e * f.hidden
    ensures Val(f, b) == Pow2(n + f.exponent + e)
  {
    ValOfNormal(f, f.hidden, e, b);
    Pow2Scaled(n, f.exponent + e);
  }

  // Exponents and encodings are handed over as variables, which keeps powers of them from being computed.

  lemma TenthPower(t: nat)
    requires t == 10
    ensures Pow2(t) == 1024
  {
    assert Pow2(t - 8) == 4;
    assert Pow2(t - 6) == 4 * Pow2(t - 8);
    assert Pow2(t - 4) == 4 * Pow2(t - 6);
    assert Pow2(t - 2) == 4 * Pow2(t - 4);
  }

  lemma TwentyThirdPower(n: nat)
    requires n == 23
    ensures Pow2(n) == 0x80_0000
  {
    var t: nat, u: nat := 10, n - 20;
    TenthPower(t);
    PowersAdd(t, t);
    PowersAdd(t + t, u);
    assert Pow2(u) == 8;
  }

  lemma FiftySecondPower(n: nat)
    requires n == 52
    ensures Pow2(n) == 0x10_0000_0000_0000
  {
    var t: nat, u: nat, v: nat := 23, 6, n - 6;
    TwentyThirdPower(t);
    PowersAdd(t, t);
    PowersAdd(v, u);
    assert Pow2(u) == 64;
  }

  lemma PowersAdd(a: nat, b: nat)
    ensures Pow2(a + b) == Pow2(a) * Pow2(b)
  {
    Pow2Scaled(a, b);
    ScaleIsMul(Pow2(a), b);
  }

  /** A float of exponent field e + 1 and no fraction; 925 is where the floats' least value is. */
  lemma FloatPower(e: nat, b: nat, n: nat)
    requires b == 0x80_0000 + 0x80_0000 * e && n == 948 + e
    ensures Val(FLOAT, b) == Pow2(n)
  {
    var a: nat := 23;
    TwentyThirdPower(a);
    ValOfPower(FLOAT, a, e, b);
  }

  lemma DoublePower(e: nat, b: nat, n: nat)
    requires b == 0x10_0000_0000_0000 + 0x10_0000_0000_0000 * e && n == 52 + e
    ensures Val(DOUBLE, b) == Pow2(n)
  {
    var a: nat := 52;
    FiftySecondPower(a);
    ValOfPower(DOUBLE, a, e, b);
  }

  /** One, two and the least normal number, in the encodings of both formats: the unit of a value is 2^-1074. */
  lemma Units(unit: nat, float: nat, double: nat)
    requires unit == 1074 && float == 0x3f80_0000 && double == 0x3ff0_0000_0000_0000
    ensures Val(FLOAT, float) == Pow2(unit) == Val(DOUBLE, double)
    ensures Val(FLOAT, float + 0x80_0000) == Pow2(unit + 1) == Val(DOUBLE, double + 0x10_0000_0000_0000)
  {
    FloatPower(126, float, unit);
    DoublePower(1022, double, unit);
    FloatPower(127, float + 0x80_0000, unit + 1);
    DoublePower(1023, double + 0x10_0000_0000_0000, unit + 1);
  }

  /** The least values, 2^-149 and 2^-1074, and the least normal ones, 2^-126 and 2^-1022. */
  lemma LeastValues(unit: nat, one: nat, float: nat, double: nat)
    requires unit == 1074 && one == 1 && float == 0x80_0000 && double == 0x10_0000_0000_0000
    ensures Val(FLOAT, one) == Pow2(unit - 149) && Val(DOUBLE, one) == 1
    ensures Val(FLOAT, float) == Pow2(unit - 126) && Val(DOUBLE, double) == Pow2(unit - 1022)
  {
    FloatPower(0, float, unit - 126);
    DoublePower(0, double, unit - 1022);
    ScaleBit(one, unit - 149);
  }

  lemma {:induction false} FloatOfFactor(b: nat)
    ensures Val(FLOAT, b) == Scale(Val(FACTOR, b), FLOAT.exponent)
    decreases b
  {
    if b >= 0x100_0000 {
      FloatOfFactor(b - 0x80_0000);
      var v := Val(FACTOR, b - 0x80_0000);
      ScaleAdds(v, v, FLOAT.exponent);
    }
  }

  /** The product is the product: in units of 2^-1074, whatever the factors. */
  lemma ProductIsProduct(a: Number, b: Number, unit: nat)
    requires unit == 1074
    ensures Value(FLOAT, a) * Value(FLOAT, b) == Scaled(Product(a, b), unit)
  {
    FloatOfFactor(a.bits);
    FloatOfFactor(b.bits);
    ScaledFactors(Val(FACTOR, a.bits), Val(FACTOR, b.bits), a.negative, b.negative, FLOAT.exponent, PRODUCT_EXPONENT, unit);
  }

  lemma ScaledFactors(x: nat, y: nat, nx: bool, ny: bool, t: nat, e: nat, unit: nat)
    requires e + unit == 2 * t
    ensures (if nx then 0 - Scale(x, t) else Scale(x, t)) * (if ny then 0 - Scale(y, t) else Scale(y, t))
         == Scaled(Scaled((if nx then 0 - x else x) * (if ny then 0 - y else y), e), unit)
  {
    ProductOfScales(x, t, y, t);
    ScaleTwice(x * y, e, unit);
    SignsMultiply(x, y, nx, ny);
    SignsMultiply(Scale(x, t), Scale(y, t), nx, ny);
    ScalePositive(x * y, e);
    ScalePositive(x * y, 2 * t);
  }

  lemma SignsMultiply(x: nat, y: nat, nx: bool, ny: bool)
    ensures (if nx then 0 - x else x) * (if ny then 0 - y else y) == if nx == ny then x * y else 0 - x * y
  {
  }

  /** The float one, times any other. */
  lemma TimesOne(one: Number, x: Number)
    requires one == Number(false, 0x3f80_0000)
    ensures Product(one, x) == Value(FLOAT, x)
  {
    var n: nat := 149;
    FactorOne(one.bits, n);
    FloatOfFactor(x.bits);
    TimesPower(one, x, n);
  }

  lemma TimesPower(one: Number, x: Number, n: nat)
    requires Value(FACTOR, one) == Pow2(n) && n + PRODUCT_EXPONENT == FLOAT.exponent
    requires Val(FLOAT, x.bits) == Scale(Val(FACTOR, x.bits), FLOAT.exponent)
    ensures Product(one, x) == Value(FLOAT, x)
  {
    OneTimes(Val(FACTOR, x.bits), n, PRODUCT_EXPONENT, FLOAT.exponent, x.negative);
  }

  lemma FactorOne(b: nat, n: nat)
    requires b == 0x3f80_0000 && n == 149
    ensures Val(FACTOR, b) == Pow2(n)
  {
    var a: nat := 23;
    TwentyThirdPower(a);
    ValOfPower(FACTOR, a, 126, b);
  }

  lemma OneTimes(v: nat, n: nat, e: nat, t: nat, negative: bool)
    requires n + e == t
    ensures Scaled(Pow2(n) * (if negative then 0 - v else v), e) == if negative then 0 - Scale(v, t) else Scale(v, t)
  {
    SignsMultiply(Pow2(n), v, false, negative);
    ScaleIsMul(v, n);
    ScaleTwice(v, n, e);
    ScalePositive(v, n);
    ScalePositive(v, t);
  }

  /** Once x plus nothing is x, bit for bit, but that the sign of a zero is not kept. */
  method FmaOfOne(one: Number, x: Number, zero: Number) returns (r: Number)
    requires one == Number(false, 0x3f80_0000) && zero.bits == 0
    ensures r == Number(x.negative && x.bits != 0, x.bits)
  {
    r := FmaF32(one, x, zero);
    TimesOne(one, x);
    NearestOfVal(FLOAT, x.bits);
    ZeroIsZero(x.bits);
  }

  lemma ZeroIsZero(b: nat)
    ensures Val(FLOAT, 0) == 0 && (Val(FLOAT, b) == 0 <==> b == 0)
  {
    ValOfSmall(FLOAT, 0);
    ScalePositive(0, 925);
    if b > 0 {
      ValOrder(FLOAT, 0, b);
    }
  }
}

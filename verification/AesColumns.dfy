/**
  The columns AES mixes. A column times a column of coefficients is their product as polynomials
  modulo x^4 + 1, read from the highest power down (section 4.3 of FIPS 197).
 */
module AesColumns {

  import opened Gf256

  datatype Column = Column(a: Byte, b: Byte, c: Byte, d: Byte)

  const TWO := Byte(false, false, false, false, false, false, true, false)
  const THREE := Byte(false, false, false, false, false, false, true, true)
  const NINE := Byte(false, false, false, false, true, false, false, true)
  const ELEVEN := Byte(false, false, false, false, true, false, true, true)
  const THIRTEEN := Byte(false, false, false, false, true, true, false, true)
  const FOURTEEN := Byte(false, false, false, false, true, true, true, false)

  const MIX := Column(TWO, THREE, ONE, ONE)
  const UNMIX := Column(FOURTEEN, ELEVEN, THIRTEEN, NINE)

  function Rotate(v: Column): Column {
    Column(v.b, v.c, v.d, v.a)
  }

  function Sum(a: Byte, b: Byte, c: Byte, d: Byte): Byte {
    Xor(Xor(a, b), Xor(c, d))
  }

  function Plus(v: Column, w: Column): Column {
    Column(Xor(v.a, w.a), Xor(v.b, w.b), Xor(v.c, w.c), Xor(v.d, w.d))
  }

  function Dot(v: Column, k: Column): Byte {
    Sum(Mul(v.a, k.a), Mul(v.b, k.b), Mul(v.c, k.c), Mul(v.d, k.d))
  }

  function Times(v: Column, k: Column): Column {
    Column(Dot(v, k), Dot(Rotate(v), k), Dot(Rotate(Rotate(v)), k), Dot(Rotate(Rotate(Rotate(v))), k))
  }

  // ---------------------------------------------------------------------------------------------
  // Linearity
  // ---------------------------------------------------------------------------------------------

  lemma SumsAdd(a: Byte, b: Byte, c: Byte, d: Byte, e: Byte, f: Byte, g: Byte, h: Byte)
    ensures Sum(Xor(a, e), Xor(b, f), Xor(c, g), Xor(d, h)) == Xor(Sum(a, b, c, d), Sum(e, f, g, h))
  {
    XorSwaps(a, e, b, f);
    XorSwaps(c, g, d, h);
    XorSwaps(Xor(a, b), Xor(e, f), Xor(c, d), Xor(g, h));
  }

  lemma DotAdds(v: Column, w: Column, k: Column)
    ensures Dot(Plus(v, w), k) == Xor(Dot(v, k), Dot(w, k))
  {
    PartialAddsLeft(v.a, w.a, k.a, 8);
    PartialAddsLeft(v.b, w.b, k.b, 8);
    PartialAddsLeft(v.c, w.c, k.c, 8);
    PartialAddsLeft(v.d, w.d, k.d, 8);
    SumsAdd(Mul(v.a, k.a), Mul(v.b, k.b), Mul(v.c, k.c), Mul(v.d, k.d),
            Mul(w.a, k.a), Mul(w.b, k.b), Mul(w.c, k.c), Mul(w.d, k.d));
  }

  lemma RotatePlus(v: Column, w: Column)
    ensures Rotate(Plus(v, w)) == Plus(Rotate(v), Rotate(w))
  {
  }

  lemma TimesAdds(v: Column, w: Column, k: Column)
    ensures Times(Plus(v, w), k) == Plus(Times(v, k), Times(w, k))
  {
    RotatePlus(v, w);
    RotatePlus(Rotate(v), Rotate(w));
    RotatePlus(Rotate(Rotate(v)), Rotate(Rotate(w)));
    DotAdds(v, w, k);
    DotAdds(Rotate(v), Rotate(w), k);
    DotAdds(Rotate(Rotate(v)), Rotate(Rotate(w)), k);
    DotAdds(Rotate(Rotate(Rotate(v))), Rotate(Rotate(Rotate(w))), k);
  }

  // ---------------------------------------------------------------------------------------------
  // Mixing undone
  // ---------------------------------------------------------------------------------------------

  function Single(a: Byte): Column {
    Column(a, ZERO, ZERO, ZERO)
  }

  lemma RotateTimes(v: Column, k: Column)
    ensures Times(Rotate(v), k) == Rotate(Times(v, k))
  {
    assert Rotate(Rotate(Rotate(Rotate(v)))) == v;
  }

  lemma SumZeros(a: Byte)
    ensures Sum(a, ZERO, ZERO, ZERO) == a && Sum(ZERO, a, ZERO, ZERO) == a
    ensures Sum(ZERO, ZERO, a, ZERO) == a && Sum(ZERO, ZERO, ZERO, a) == a
  {
    XorZero(a);
    XorZero(ZERO);
  }

  lemma SingleTimes(a: Byte, k: Column)
    ensures Times(Single(a), k) == Column(Mul(a, k.a), Mul(a, k.d), Mul(a, k.c), Mul(a, k.b))
  {
    TimesZero(k.a, 8);
    TimesZero(k.b, 8);
    TimesZero(k.c, 8);
    TimesZero(k.d, 8);
    SumZeros(Mul(a, k.a));
    SumZeros(Mul(a, k.b));
    SumZeros(Mul(a, k.c));
    SumZeros(Mul(a, k.d));
  }

  /** a times the columns k and l is a times their product. */
  lemma DotAssociates(a: Byte, k: Column, l: Column)
    ensures Dot(Column(Mul(a, k.a), Mul(a, k.b), Mul(a, k.c), Mul(a, k.d)), l) == Mul(a, Dot(k, l))
  {
    PartialAssociates(a, k.a, l.a, 8);
    PartialAssociates(a, k.b, l.b, 8);
    PartialAssociates(a, k.c, l.c, 8);
    PartialAssociates(a, k.d, l.d, 8);
    PartialAddsRight(a, Mul(k.a, l.a), Mul(k.b, l.b), 8);
    PartialAddsRight(a, Mul(k.c, l.c), Mul(k.d, l.d), 8);
    PartialAddsRight(a, Xor(Mul(k.a, l.a), Mul(k.b, l.b)), Xor(Mul(k.c, l.c), Mul(k.d, l.d)), 8);
  }

  lemma SmallProducts(a: Byte)
    ensures Mul(a, ONE) == a == Mul(ONE, a)
    ensures Mul(a, TWO) == XTime(a) == Mul(TWO, a)
    ensures Mul(a, THREE) == Xor(XTime(a), a) == Mul(THREE, a)
  {
    TimesOne(a, 8);
    MulCommutes(a, ONE);
    TimesX(a);
    MulCommutes(a, TWO);
    assert THREE == Xor(TWO, ONE);
    PartialAddsLeft(TWO, ONE, a, 8);
    MulCommutes(a, THREE);
  }

  /** A byte in one place, mixed and unmixed, in either order. */
  lemma SinglesUndone(a: Byte)
    ensures Times(Times(Single(a), MIX), UNMIX) == Single(a) == Times(Times(Single(a), UNMIX), MIX)
  {
    MixesCancel();
    SingleUndone(a, MIX, UNMIX);
    SingleUndone(a, UNMIX, MIX);
    TimesOneAndZero(a);
  }

  lemma TimesOneAndZero(a: Byte)
    ensures Column(Mul(a, ONE), Mul(a, ZERO), Mul(a, ZERO), Mul(a, ZERO)) == Single(a)
  {
    TimesOne(a, 8);
    TimesZero(a, 8);
  }

  lemma MixesCancel()
    ensures Times(Column(MIX.a, MIX.d, MIX.c, MIX.b), UNMIX) == Single(ONE)
    ensures Times(Column(UNMIX.a, UNMIX.d, UNMIX.c, UNMIX.b), MIX) == Single(ONE)
  {
    SmallProducts(NINE);
    SmallProducts(ELEVEN);
    SmallProducts(THIRTEEN);
    SmallProducts(FOURTEEN);
    DotsOfCoefficients();
  }

  lemma DotsOfCoefficients()
    ensures Sum(XTime(FOURTEEN), ELEVEN, THIRTEEN, Xor(XTime(NINE), NINE)) == ONE
    ensures Sum(FOURTEEN, ELEVEN, Xor(XTime(THIRTEEN), THIRTEEN), XTime(NINE)) == ZERO
    ensures Sum(FOURTEEN, Xor(XTime(ELEVEN), ELEVEN), XTime(THIRTEEN), NINE) == ZERO
    ensures Sum(Xor(XTime(FOURTEEN), FOURTEEN), XTime(ELEVEN), THIRTEEN, NINE) == ZERO
  {
  }

  lemma SingleUndone(a: Byte, k: Column, l: Column)
    ensures
      var r := Times(Column(k.a, k.d, k.c, k.b), l);
      Times(Times(Single(a), k), l) == Column(Mul(a, r.a), Mul(a, r.b), Mul(a, r.c), Mul(a, r.d))
  {
    var r := Column(k.a, k.d, k.c, k.b);
    SingleTimes(a, k);
    DotAssociates(a, r, l);
    DotAssociates(a, Rotate(r), l);
    DotAssociates(a, Rotate(Rotate(r)), l);
    DotAssociates(a, Rotate(Rotate(Rotate(r))), l);
  }

  // A map of columns that adds and that goes around is known by what it makes of a single byte.

  ghost predicate AddsAt(f: Column -> Column, v: Column, w: Column) {
    f(Plus(v, w)) == Plus(f(v), f(w))
  }

  ghost predicate GoesAroundAt(f: Column -> Column, v: Column) {
    f(Rotate(v)) == Rotate(f(v))
  }

  ghost predicate IsLinear(f: Column -> Column) {
    (forall v, w :: AddsAt(f, v, w)) && (forall v :: GoesAroundAt(f, v))
  }

  ghost predicate UndoneAt(f: Column -> Column, g: Column -> Column, v: Column) {
    g(f(v)) == v
  }

  lemma RotationUndone(v: Column, f: Column -> Column, g: Column -> Column)
    requires IsLinear(f) && IsLinear(g) && UndoneAt(f, g, v)
    ensures UndoneAt(f, g, Rotate(v))
  {
    assert GoesAroundAt(f, v) && GoesAroundAt(g, f(v));
  }

  lemma SumUndone(v: Column, w: Column, f: Column -> Column, g: Column -> Column)
    requires IsLinear(f) && IsLinear(g) && UndoneAt(f, g, v) && UndoneAt(f, g, w)
    ensures UndoneAt(f, g, Plus(v, w))
  {
    assert AddsAt(f, v, w) && AddsAt(g, f(v), f(w));
  }

  /** A column is the sum of its first byte and of the rotations of its other bytes. */
  lemma ColumnFromSingles(v: Column)
    ensures v == Plus(Single(v.a), Rotate(Plus(Single(v.d), Rotate(Plus(Single(v.c), Rotate(Single(v.b)))))))
  {
    XorZero(v.a);
    XorZero(v.b);
    XorZero(v.c);
    XorZero(v.d);
    XorZero(ZERO);
  }

  /** Linear maps that undo each other on single bytes do so on every column. */
  lemma LinearUndone(v: Column, f: Column -> Column, g: Column -> Column)
    requires IsLinear(f) && IsLinear(g) && forall a :: UndoneAt(f, g, Single(a))
    ensures UndoneAt(f, g, v)
  {
    var b := Rotate(Single(v.b));
    RotationUndone(Single(v.b), f, g);
    SumUndone(Single(v.c), b, f, g);
    var bc := Rotate(Plus(Single(v.c), b));
    RotationUndone(Plus(Single(v.c), b), f, g);
    SumUndone(Single(v.d), bc, f, g);
    var bcd := Rotate(Plus(Single(v.d), bc));
    RotationUndone(Plus(Single(v.d), bc), f, g);
    SumUndone(Single(v.a), bcd, f, g);
    ColumnFromSingles(v);
  }

  /** Multiplication by a column of coefficients. */
  function By(k: Column): Column -> Column {
    (v: Column) => Times(v, k)
  }

  /** Mixing is linear, and its inverse form undoes it and is undone by it. */
  lemma MixingIsUndone()
    ensures IsLinear(By(MIX)) && IsLinear(By(UNMIX))
    ensures forall v :: UndoneAt(By(MIX), By(UNMIX), v) && UndoneAt(By(UNMIX), By(MIX), v)
  {
    forall v, w
      ensures AddsAt(By(MIX), v, w) && AddsAt(By(UNMIX), v, w)
    {
      TimesAdds(v, w, MIX);
      TimesAdds(v, w, UNMIX);
    }
    forall v
      ensures GoesAroundAt(By(MIX), v) && GoesAroundAt(By(UNMIX), v)
    {
      RotateTimes(v, MIX);
      RotateTimes(v, UNMIX);
    }
    forall a
      ensures UndoneAt(By(MIX), By(UNMIX), Single(a)) && UndoneAt(By(UNMIX), By(MIX), Single(a))
    {
      SinglesUndone(a);
    }
    forall v
      ensures UndoneAt(By(MIX), By(UNMIX), v) && UndoneAt(By(UNMIX), By(MIX), v)
    {
      LinearUndone(v, By(MIX), By(UNMIX));
      LinearUndone(v, By(UNMIX), By(MIX));
    }
  }
}

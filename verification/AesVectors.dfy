/**
  Known answers of AES, and what mixing makes of each byte (FIPS 197). Nothing here speaks of the
  functions the rounds are specified by.
 */
module AesVectors {

  import opened Gf256
  import opened AesColumns
  import opened Aes
  import opened Ciphers
  import opened AesRounds

  // ---------------------------------------------------------------------------------------------
  // The bytes of a mixed column
  // ---------------------------------------------------------------------------------------------

  function Twice(a: Byte): Byte {
    XTime(a)
  }

  function FourTimes(a: Byte): Byte {
    XTime(XTime(a))
  }

  function EightTimes(a: Byte): Byte {
    XTime(XTime(XTime(a)))
  }

  const FOUR := Byte(false, false, false, false, false, true, false, false)
  const EIGHT := Byte(false, false, false, false, true, false, false, false)

  lemma EightProducts(a: Byte)
    ensures Mul(a, FOUR) == FourTimes(a) && Mul(a, EIGHT) == EightTimes(a)
  {
    SmallProducts(a);
    assert FOUR == XTime(TWO) && EIGHT == XTime(FOUR);
    TimesXTime(a, TWO);
    TimesXTime(a, FOUR);
  }

  lemma ProductOfSum(a: Byte, k: Byte, l: Byte, p: Byte, q: Byte)
    requires Mul(a, k) == p && Mul(a, l) == q
    ensures Mul(a, Xor(k, l)) == Xor(p, q)
  {
    PartialAddsRight(a, k, l, 8);
  }

  lemma Coefficients()
    ensures FOURTEEN == Xor(EIGHT, Xor(FOUR, TWO)) && ELEVEN == Xor(EIGHT, Xor(TWO, ONE))
    ensures THIRTEEN == Xor(EIGHT, Xor(FOUR, ONE)) && NINE == Xor(EIGHT, ONE)
  {
  }

  /** 14, 11, 13 and 9 times a byte. */
  lemma LargeProducts(a: Byte)
    ensures Mul(a, FOURTEEN) == Xor(EightTimes(a), Xor(FourTimes(a), Twice(a)))
    ensures Mul(a, ELEVEN) == Xor(EightTimes(a), Xor(Twice(a), a))
    ensures Mul(a, THIRTEEN) == Xor(EightTimes(a), Xor(FourTimes(a), a))
    ensures Mul(a, NINE) == Xor(EightTimes(a), a)
  {
    Coefficients();
    SmallProducts(a);
    EightProducts(a);
    SumsOfPowers(a, Twice(a), FourTimes(a), EightTimes(a));
  }

  lemma SumsOfPowers(a: Byte, two: Byte, four: Byte, eight: Byte)
    requires Mul(a, ONE) == a && Mul(a, TWO) == two && Mul(a, FOUR) == four && Mul(a, EIGHT) == eight
    ensures Mul(a, Xor(EIGHT, Xor(FOUR, TWO))) == Xor(eight, Xor(four, two))
    ensures Mul(a, Xor(EIGHT, Xor(TWO, ONE))) == Xor(eight, Xor(two, a))
    ensures Mul(a, Xor(EIGHT, Xor(FOUR, ONE))) == Xor(eight, Xor(four, a))
    ensures Mul(a, Xor(EIGHT, ONE)) == Xor(eight, a)
  {
    ProductOfSum(a, FOUR, TWO, four, two);
    ProductOfSum(a, TWO, ONE, two, a);
    ProductOfSum(a, FOUR, ONE, four, a);
    ProductOfSum(a, EIGHT, Xor(FOUR, TWO), eight, Xor(four, two));
    ProductOfSum(a, EIGHT, Xor(TWO, ONE), eight, Xor(two, a));
    ProductOfSum(a, EIGHT, Xor(FOUR, ONE), eight, Xor(four, a));
    ProductOfSum(a, EIGHT, ONE, eight, a);
  }

  lemma TimesXTime(a: Byte, b: Byte)
    ensures Mul(a, XTime(b)) == XTime(Mul(a, b))
  {
    MulCommutes(a, XTime(b));
    MulCommutes(a, b);
    PartialOfXTime(b, a, 8);
  }

  function Mixed(a: Byte, b: Byte, c: Byte, d: Byte): Byte {
    Xor(Xor(Twice(a), Xor(Twice(b), b)), Xor(c, d))
  }

  function Unmixed(a: Byte, b: Byte, c: Byte, d: Byte): Byte {
    Xor(Xor(Xor(EightTimes(a), Xor(FourTimes(a), Twice(a))), Xor(EightTimes(b), Xor(Twice(b), b))),
        Xor(Xor(EightTimes(c), Xor(FourTimes(c), c)), Xor(EightTimes(d), d)))
  }

  lemma MixedDot(a: Byte, b: Byte, c: Byte, d: Byte)
    ensures Dot(Column(a, b, c, d), MIX) == Mixed(a, b, c, d)
  {
    SmallProducts(a);
    SmallProducts(b);
    SmallProducts(c);
    SmallProducts(d);
  }

  lemma UnmixedDot(a: Byte, b: Byte, c: Byte, d: Byte)
    ensures Dot(Column(a, b, c, d), UNMIX) == Unmixed(a, b, c, d)
  {
    LargeProducts(a);
    LargeProducts(b);
    LargeProducts(c);
    LargeProducts(d);
  }

  /** The rows of the mixed column: 2, 3, 1 and 1, going around. */
  lemma MixedRows(v: Column)
    ensures Mixing(false)(v) == Column(Mixed(v.a, v.b, v.c, v.d), Mixed(v.b, v.c, v.d, v.a),
                                       Mixed(v.c, v.d, v.a, v.b), Mixed(v.d, v.a, v.b, v.c))
  {
    assert Mixing(false) == By(MIX);
    MixedDot(v.a, v.b, v.c, v.d);
    MixedDot(v.b, v.c, v.d, v.a);
    MixedDot(v.c, v.d, v.a, v.b);
    MixedDot(v.d, v.a, v.b, v.c);
  }

  /** The rows of the unmixed column: 14, 11, 13 and 9, going around. */
  lemma UnmixedRows(v: Column)
    ensures Mixing(true)(v) == Column(Unmixed(v.a, v.b, v.c, v.d), Unmixed(v.b, v.c, v.d, v.a),
                                      Unmixed(v.c, v.d, v.a, v.b), Unmixed(v.d, v.a, v.b, v.c))
  {
    assert Mixing(true) == By(UNMIX);
    UnmixedDot(v.a, v.b, v.c, v.d);
    UnmixedDot(v.b, v.c, v.d, v.a);
    UnmixedDot(v.c, v.d, v.a, v.b);
    UnmixedDot(v.d, v.a, v.b, v.c);
  }

  /** The column with each row mixed, or unmixed. */
  function RowsOf(v: Column, inverse: bool): Column {
    if inverse then Column(Unmixed(v.a, v.b, v.c, v.d), Unmixed(v.b, v.c, v.d, v.a),
                           Unmixed(v.c, v.d, v.a, v.b), Unmixed(v.d, v.a, v.b, v.c))
    else Column(Mixed(v.a, v.b, v.c, v.d), Mixed(v.b, v.c, v.d, v.a), Mixed(v.c, v.d, v.a, v.b), Mixed(v.d, v.a, v.b, v.c))
  }

  lemma RowsAreMixed(v: Column, inverse: bool)
    ensures Mixing(inverse)(v) == RowsOf(v, inverse)
  {
    if inverse {
      UnmixedRows(v);
    } else {
      MixedRows(v);
    }
  }

  /** What mixing leaves in a buffer, column by column and row by row. */
  method MixRows(out: array<Byte>, input: array<Byte>, inverse: bool)
    requires out.Length == 16 == input.Length && out != input
    modifies out
    ensures forall c :: 0 <= c < 4 ==> ColumnAt(out[..], c) == RowsOf(ColumnAt(old(input[..]), c), inverse)
  {
    ghost var f := (v: Column) => RowsOf(v, inverse);
    forall v
      ensures MixesAt(f, inverse, v)
    {
      RowsAreMixed(v, inverse);
    }
    MixColumns(out, input, inverse, f);
  }

  // ---------------------------------------------------------------------------------------------
  // The first round of the example in appendix B of FIPS 197
  // ---------------------------------------------------------------------------------------------

  // Bytes by their two hexadecimal digits.

  const X00 := Byte(false, false, false, false, false, false, false, false)
  const X02 := Byte(false, false, false, false, false, false, true, false)
  const X03 := Byte(false, false, false, false, false, false, true, true)
  const X04 := Byte(false, false, false, false, false, true, false, false)
  const X05 := Byte(false, false, false, false, false, true, false, true)
  const X06 := Byte(false, false, false, false, false, true, true, false)
  const X08 := Byte(false, false, false, false, true, false, false, false)
  const X10 := Byte(false, false, false, true, false, false, false, false)
  const X11 := Byte(false, false, false, true, false, false, false, true)
  const X13 := Byte(false, false, false, true, false, false, true, true)
  const X15 := Byte(false, false, false, true, false, true, false, true)
  const X17 := Byte(false, false, false, true, false, true, true, true)
  const X19 := Byte(false, false, false, true, true, false, false, true)
  const X1e := Byte(false, false, false, true, true, true, true, false)
  const X23 := Byte(false, false, true, false, false, false, true, true)
  const X26 := Byte(false, false, true, false, false, true, true, false)
  const X27 := Byte(false, false, true, false, false, true, true, true)
  const X28 := Byte(false, false, true, false, true, false, false, false)
  const X29 := Byte(false, false, true, false, true, false, false, true)
  const X2a := Byte(false, false, true, false, true, false, true, false)
  const X2b := Byte(false, false, true, false, true, false, true, true)
  const X2c := Byte(false, false, true, false, true, true, false, false)
  const X30 := Byte(false, false, true, true, false, false, false, false)
  const X32 := Byte(false, false, true, true, false, false, true, false)
  const X35 := Byte(false, false, true, true, false, true, false, true)
  const X39 := Byte(false, false, true, true, true, false, false, true)
  const X3d := Byte(false, false, true, true, true, true, false, true)
  const X3f := Byte(false, false, true, true, true, true, true, true)
  const X41 := Byte(false, true, false, false, false, false, false, true)
  const X43 := Byte(false, true, false, false, false, false, true, true)
  const X48 := Byte(false, true, false, false, true, false, false, false)
  const X49 := Byte(false, true, false, false, true, false, false, true)
  const X4c := Byte(false, true, false, false, true, true, false, false)
  const X4e := Byte(false, true, false, false, true, true, true, false)
  const X50 := Byte(false, true, false, true, false, false, false, false)
  const X52 := Byte(false, true, false, true, false, false, true, false)
  const X54 := Byte(false, true, false, true, false, true, false, false)
  const X57 := Byte(false, true, false, true, false, true, true, true)
  const X5b := Byte(false, true, false, true, true, false, true, true)
  const X5d := Byte(false, true, false, true, true, true, false, true)
  const X66 := Byte(false, true, true, false, false, true, true, false)
  const X68 := Byte(false, true, true, false, true, false, false, false)
  const X6a := Byte(false, true, true, false, true, false, true, false)
  const X6b := Byte(false, true, true, false, true, false, true, true)
  const X6c := Byte(false, true, true, false, true, true, false, false)
  const X70 := Byte(false, true, true, true, false, false, false, false)
  const X76 := Byte(false, true, true, true, false, true, true, false)
  const X7a := Byte(false, true, true, true, true, false, true, false)
  const X7f := Byte(false, true, true, true, true, true, true, true)
  const X80 := Byte(true, false, false, false, false, false, false, false)
  const X81 := Byte(true, false, false, false, false, false, false, true)
  const X85 := Byte(true, false, false, false, false, true, false, true)
  const X86 := Byte(true, false, false, false, false, true, true, false)
  const X88 := Byte(true, false, false, false, true, false, false, false)
  const X8d := Byte(true, false, false, false, true, true, false, true)
  const X8f := Byte(true, false, false, false, true, true, true, true)
  const X93 := Byte(true, false, false, true, false, false, true, true)
  const X97 := Byte(true, false, false, true, false, true, true, true)
  const X98 := Byte(true, false, false, true, true, false, false, false)
  const X99 := Byte(true, false, false, true, true, false, false, true)
  const X9a := Byte(true, false, false, true, true, false, true, false)
  const X9c := Byte(true, false, false, true, true, true, false, false)
  const X9f := Byte(true, false, false, true, true, true, true, true)
  const Xa0 := Byte(true, false, true, false, false, false, false, false)
  const Xa3 := Byte(true, false, true, false, false, false, true, true)
  const Xa4 := Byte(true, false, true, false, false, true, false, false)
  const Xa7 := Byte(true, false, true, false, false, true, true, true)
  const Xaa := Byte(true, false, true, false, true, false, true, false)
  const Xae := Byte(true, false, true, false, true, true, true, false)
  const Xaf := Byte(true, false, true, false, true, true, true, true)
  const Xb1 := Byte(true, false, true, true, false, false, false, true)
  const Xb4 := Byte(true, false, true, true, false, true, false, false)
  const Xb8 := Byte(true, false, true, true, true, false, false, false)
  const Xbb := Byte(true, false, true, true, true, false, true, true)
  const Xbe := Byte(true, false, true, true, true, true, true, false)
  const Xbf := Byte(true, false, true, true, true, true, true, true)
  const Xc6 := Byte(true, true, false, false, false, true, true, false)
  const Xcb := Byte(true, true, false, false, true, false, true, true)
  const Xd1 := Byte(true, true, false, true, false, false, false, true)
  const Xd3 := Byte(true, true, false, true, false, false, true, true)
  const Xd4 := Byte(true, true, false, true, false, true, false, false)
  const Xd6 := Byte(true, true, false, true, false, true, true, false)
  const Xdd := Byte(true, true, false, true, true, true, false, true)
  const Xe0 := Byte(true, true, true, false, false, false, false, false)
  const Xe2 := Byte(true, true, true, false, false, false, true, false)
  const Xe3 := Byte(true, true, true, false, false, false, true, true)
  const Xe4 := Byte(true, true, true, false, false, true, false, false)
  const Xe5 := Byte(true, true, true, false, false, true, false, true)
  const Xe8 := Byte(true, true, true, false, true, false, false, false)
  const Xe9 := Byte(true, true, true, false, true, false, false, true)
  const Xea := Byte(true, true, true, false, true, false, true, false)
  const Xeb := Byte(true, true, true, false, true, false, true, true)
  const Xed := Byte(true, true, true, false, true, true, false, true)
  const Xf0 := Byte(true, true, true, true, false, false, false, false)
  const Xf1 := Byte(true, true, true, true, false, false, false, true)
  const Xf2 := Byte(true, true, true, true, false, false, true, false)
  const Xf4 := Byte(true, true, true, true, false, true, false, false)
  const Xf5 := Byte(true, true, true, true, false, true, false, true)
  const Xf6 := Byte(true, true, true, true, false, true, true, false)
  const Xf7 := Byte(true, true, true, true, false, true, true, true)
  const Xf8 := Byte(true, true, true, true, true, false, false, false)
  const Xfa := Byte(true, true, true, true, true, false, true, false)
  const Xfb := Byte(true, true, true, true, true, false, true, true)
  const Xfe := Byte(true, true, true, true, true, true, true, false)

  lemma BytesAreTheirDigits()
    ensures ToNat(X00) == 0x00 && ToNat(X02) == 0x02 && ToNat(X03) == 0x03 && ToNat(X04) == 0x04 && ToNat(X05) == 0x05
    ensures ToNat(X06) == 0x06 && ToNat(X08) == 0x08 && ToNat(X10) == 0x10 && ToNat(X11) == 0x11 && ToNat(X13) == 0x13
    ensures ToNat(X15) == 0x15 && ToNat(X17) == 0x17 && ToNat(X19) == 0x19 && ToNat(X1e) == 0x1e && ToNat(X23) == 0x23
    ensures ToNat(X26) == 0x26 && ToNat(X27) == 0x27 && ToNat(X28) == 0x28 && ToNat(X29) == 0x29 && ToNat(X2a) == 0x2a
    ensures ToNat(X2b) == 0x2b && ToNat(X2c) == 0x2c && ToNat(X30) == 0x30 && ToNat(X32) == 0x32 && ToNat(X35) == 0x35
    ensures ToNat(X39) == 0x39 && ToNat(X3d) == 0x3d && ToNat(X3f) == 0x3f && ToNat(X41) == 0x41 && ToNat(X43) == 0x43
    ensures ToNat(X48) == 0x48 && ToNat(X49) == 0x49 && ToNat(X4c) == 0x4c && ToNat(X4e) == 0x4e && ToNat(X50) == 0x50
    ensures ToNat(X52) == 0x52 && ToNat(X54) == 0x54 && ToNat(X57) == 0x57 && ToNat(X5b) == 0x5b && ToNat(X5d) == 0x5d
    ensures ToNat(X66) == 0x66 && ToNat(X68) == 0x68 && ToNat(X6a) == 0x6a && ToNat(X6b) == 0x6b && ToNat(X6c) == 0x6c
    ensures ToNat(X70) == 0x70 && ToNat(X76) == 0x76 && ToNat(X7a) == 0x7a && ToNat(X7f) == 0x7f && ToNat(X80) == 0x80
    ensures ToNat(X81) == 0x81 && ToNat(X85) == 0x85 && ToNat(X86) == 0x86 && ToNat(X88) == 0x88 && ToNat(X8d) == 0x8d
    ensures ToNat(X8f) == 0x8f && ToNat(X93) == 0x93 && ToNat(X97) == 0x97 && ToNat(X98) == 0x98 && ToNat(X99) == 0x99
    ensures ToNat(X9a) == 0x9a && ToNat(X9c) == 0x9c && ToNat(X9f) == 0x9f && ToNat(Xa0) == 0xa0 && ToNat(Xa3) == 0xa3
    ensures ToNat(Xa4) == 0xa4 && ToNat(Xa7) == 0xa7 && ToNat(Xaa) == 0xaa && ToNat(Xae) == 0xae && ToNat(Xaf) == 0xaf
    ensures ToNat(Xb1) == 0xb1 && ToNat(Xb4) == 0xb4 && ToNat(Xb8) == 0xb8 && ToNat(Xbb) == 0xbb && ToNat(Xbe) == 0xbe
    ensures ToNat(Xbf) == 0xbf && ToNat(Xc6) == 0xc6 && ToNat(Xcb) == 0xcb && ToNat(Xd1) == 0xd1 && ToNat(Xd3) == 0xd3
    ensures ToNat(Xd4) == 0xd4 && ToNat(Xd6) == 0xd6 && ToNat(Xdd) == 0xdd && ToNat(Xe0) == 0xe0 && ToNat(Xe2) == 0xe2
    ensures ToNat(Xe3) == 0xe3 && ToNat(Xe4) == 0xe4 && ToNat(Xe5) == 0xe5 && ToNat(Xe8) == 0xe8 && ToNat(Xe9) == 0xe9
    ensures ToNat(Xea) == 0xea && ToNat(Xeb) == 0xeb && ToNat(Xed) == 0xed && ToNat(Xf0) == 0xf0 && ToNat(Xf1) == 0xf1
    ensures ToNat(Xf2) == 0xf2 && ToNat(Xf4) == 0xf4 && ToNat(Xf5) == 0xf5 && ToNat(Xf6) == 0xf6 && ToNat(Xf7) == 0xf7
    ensures ToNat(Xf8) == 0xf8 && ToNat(Xfa) == 0xfa && ToNat(Xfb) == 0xfb && ToNat(Xfe) == 0xfe
  {
  }

  /** a times the powers of x that the bits of b stand for, written out. */
  function Product(a: Byte, b: Byte): Byte {
    var a1 := XTime(a);
    var a2 := XTime(a1);
    var a3 := XTime(a2);
    var a4 := XTime(a3);
    var a5 := XTime(a4);
    var a6 := XTime(a5);
    var a7 := XTime(a6);
    Xor(If(b.b0, a), Xor(If(b.b1, a1), Xor(If(b.b2, a2), Xor(If(b.b3, a3),
    Xor(If(b.b4, a4), Xor(If(b.b5, a5), Xor(If(b.b6, a6), If(b.b7, a7))))))))
  }

  function If(bit: bool, a: Byte): Byte {
    if bit then a else ZERO
  }

  lemma LastBit(a: Byte, b: Byte)
    ensures Partial(a, b, 1) == If(b.b0, a)
  {
    XorZero(Select(b, a));
  }

  lemma NextBits(a: Byte, b: Byte, n: nat, rest: Byte)
    requires n > 0 && Partial(XTime(a), ShiftRight(b), n - 1) == rest
    ensures Partial(a, b, n) == Xor(If(b.b0, a), rest)
  {
  }

  lemma ProductIsMul(a: Byte, b: Byte)
    ensures Mul(a, b) == Product(a, b)
  {
    var a1, b1 := XTime(a), ShiftRight(b);
    var a2, b2 := XTime(a1), ShiftRight(b1);
    var a3, b3 := XTime(a2), ShiftRight(b2);
    var a4, b4 := XTime(a3), ShiftRight(b3);
    var a5, b5 := XTime(a4), ShiftRight(b4);
    var a6, b6 := XTime(a5), ShiftRight(b5);
    var a7, b7 := XTime(a6), ShiftRight(b6);
    LastBit(a7, b7);
    NextBits(a6, b6, 2, If(b7.b0, a7));
    NextBits(a5, b5, 3, Xor(If(b6.b0, a6), If(b7.b0, a7)));
    NextBits(a4, b4, 4, Partial(a5, b5, 3));
    NextBits(a3, b3, 5, Partial(a4, b4, 4));
    NextBits(a2, b2, 6, Partial(a3, b3, 5));
    NextBits(a1, b1, 7, Partial(a2, b2, 6));
    NextBits(a, b, 8, Partial(a1, b1, 7));
  }

  ghost predicate AgreesAt(sub: Byte -> Byte, a: Byte) {
    sub(a) == SubByte(a)
  }

  /** The substitution, in a form that keeps its definition out of sight. */
  ghost predicate Substitutes(sub: Byte -> Byte) {
    forall a :: AgreesAt(sub, a)
  }

  lemma SubstituteIs(sub: Byte -> Byte, a: Byte, inverse: Byte, y: Byte)
    requires Substitutes(sub) && Product(a, inverse) == ONE && Affine(inverse) == y
    ensures sub(a) == y
  {
    ProductIsMul(a, inverse);
    MulCommutes(a, inverse);
    TheInverse(inverse, a);
    assert AgreesAt(sub, a);
  }

  lemma Inverses1(a: Byte, i: Byte, b: Byte, j: Byte)
    requires a == X19 && i == X3f && b == X3d && j == Xbb
    ensures Product(a, i) == ONE && Affine(i) == Xd4 && Product(b, j) == ONE && Affine(j) == X27
  {
  }

  lemma Substitutes1(sub: Byte -> Byte, a: Byte, i: Byte, b: Byte, j: Byte)
    requires a == X19 && i == X3f && b == X3d && j == Xbb && Substitutes(sub)
    ensures sub(a) == Xd4 && sub(b) == X27
  {
    Inverses1(a, i, b, j);
    SubstituteIs(sub, a, i, Xd4);
    SubstituteIs(sub, b, j, X27);
  }

  lemma Inverses2(a: Byte, i: Byte, b: Byte, j: Byte)
    requires a == Xe3 && i == Xeb && b == Xbe && j == X86
    ensures Product(a, i) == ONE && Affine(i) == X11 && Product(b, j) == ONE && Affine(j) == Xae
  {
  }

  lemma Substitutes2(sub: Byte -> Byte, a: Byte, i: Byte, b: Byte, j: Byte)
    requires a == Xe3 && i == Xeb && b == Xbe && j == X86 && Substitutes(sub)
    ensures sub(a) == X11 && sub(b) == Xae
  {
    Inverses2(a, i, b, j);
    SubstituteIs(sub, a, i, X11);
    SubstituteIs(sub, b, j, Xae);
  }

  lemma Inverses3(a: Byte, i: Byte, b: Byte, j: Byte)
    requires a == Xa0 && i == Xfb && b == Xf4 && j == X68
    ensures Product(a, i) == ONE && Affine(i) == Xe0 && Product(b, j) == ONE && Affine(j) == Xbf
  {
  }

  lemma Substitutes3(sub: Byte -> Byte, a: Byte, i: Byte, b: Byte, j: Byte)
    requires a == Xa0 && i == Xfb && b == Xf4 && j == X68 && Substitutes(sub)
    ensures sub(a) == Xe0 && sub(b) == Xbf
  {
    Inverses3(a, i, b, j);
    SubstituteIs(sub, a, i, Xe0);
    SubstituteIs(sub, b, j, Xbf);
  }

  lemma Inverses4(a: Byte, i: Byte, b: Byte, j: Byte)
    requires a == Xe2 && i == Xd6 && b == X2b && j == X15
    ensures Product(a, i) == ONE && Affine(i) == X98 && Product(b, j) == ONE && Affine(j) == Xf1
  {
  }

  lemma Substitutes4(sub: Byte -> Byte, a: Byte, i: Byte, b: Byte, j: Byte)
    requires a == Xe2 && i == Xd6 && b == X2b && j == X15 && Substitutes(sub)
    ensures sub(a) == X98 && sub(b) == Xf1
  {
    Inverses4(a, i, b, j);
    SubstituteIs(sub, a, i, X98);
    SubstituteIs(sub, b, j, Xf1);
  }

  lemma Inverses5(a: Byte, i: Byte, b: Byte, j: Byte)
    requires a == X9a && i == X9f && b == Xc6 && j == Xe4
    ensures Product(a, i) == ONE && Affine(i) == Xb8 && Product(b, j) == ONE && Affine(j) == Xb4
  {
  }

  lemma Substitutes5(sub: Byte -> Byte, a: Byte, i: Byte, b: Byte, j: Byte)
    requires a == X9a && i == X9f && b == Xc6 && j == Xe4 && Substitutes(sub)
    ensures sub(a) == Xb8 && sub(b) == Xb4
  {
    Inverses5(a, i, b, j);
    SubstituteIs(sub, a, i, Xb8);
    SubstituteIs(sub, b, j, Xb4);
  }

  lemma Inverses6(a: Byte, i: Byte, b: Byte, j: Byte)
    requires a == X8d && i == X02 && b == X2a && j == X98
    ensures Product(a, i) == ONE && Affine(i) == X5d && Product(b, j) == ONE && Affine(j) == Xe5
  {
  }

  lemma Substitutes6(sub: Byte -> Byte, a: Byte, i: Byte, b: Byte, j: Byte)
    requires a == X8d && i == X02 && b == X2a && j == X98 && Substitutes(sub)
    ensures sub(a) == X5d && sub(b) == Xe5
  {
    Inverses6(a, i, b, j);
    SubstituteIs(sub, a, i, X5d);
    SubstituteIs(sub, b, j, Xe5);
  }

  lemma Inverses7(a: Byte, i: Byte, b: Byte, j: Byte)
    requires a == Xe9 && i == X4e && b == Xf8 && j == Xdd
    ensures Product(a, i) == ONE && Affine(i) == X1e && Product(b, j) == ONE && Affine(j) == X41
  {
  }

  lemma Substitutes7(sub: Byte -> Byte, a: Byte, i: Byte, b: Byte, j: Byte)
    requires a == Xe9 && i == X4e && b == Xf8 && j == Xdd && Substitutes(sub)
    ensures sub(a) == X1e && sub(b) == X41
  {
    Inverses7(a, i, b, j);
    SubstituteIs(sub, a, i, X1e);
    SubstituteIs(sub, b, j, X41);
  }

  lemma Inverses8(a: Byte, i: Byte, b: Byte, j: Byte)
    requires a == X48 && i == Xa7 && b == X08 && j == Xe8
    ensures Product(a, i) == ONE && Affine(i) == X52 && Product(b, j) == ONE && Affine(j) == X30
  {
  }

  lemma Substitutes8(sub: Byte -> Byte, a: Byte, i: Byte, b: Byte, j: Byte)
    requires a == X48 && i == Xa7 && b == X08 && j == Xe8 && Substitutes(sub)
    ensures sub(a) == X52 && sub(b) == X30
  {
    Inverses8(a, i, b, j);
    SubstituteIs(sub, a, i, X52);
    SubstituteIs(sub, b, j, X30);
  }

  const STATE := Block(Column(X19, X3d, Xe3, Xbe),
                       Column(Xa0, Xf4, Xe2, X2b),
                       Column(X9a, Xc6, X8d, X2a),
                       Column(Xe9, Xf8, X48, X08))
  const SHIFTED := Block(Column(Xd4, Xbf, X5d, X30),
                         Column(Xe0, Xb4, X52, Xae),
                         Column(Xb8, X41, X11, Xf1),
                         Column(X1e, X27, X98, Xe5))
  const MIXED := Block(Column(X04, X66, X81, Xe5),
                       Column(Xe0, Xcb, X19, X9a),
                       Column(X48, Xf8, Xd3, X7a),
                       Column(X28, X06, X26, X4c))
  const ROUND_KEY := Block(Column(Xa0, Xfa, Xfe, X17),
                           Column(X88, X54, X2c, Xb1),
                           Column(X23, Xa3, X39, X39),
                           Column(X2a, X6c, X76, X05))
  const NEXT_STATE := Block(Column(Xa4, X9c, X7f, Xf2),
                            Column(X68, X9f, X35, X2b),
                            Column(X6b, X5b, Xea, X43),
                            Column(X02, X6a, X50, X49))

  lemma StateSubstituted(sub: Byte -> Byte)
    requires Substitutes(sub)
    ensures Substituted(Shifted(STATE), sub) == SHIFTED
  {
    Substitutes1(sub, X19, X3f, X3d, Xbb);
    Substitutes2(sub, Xe3, Xeb, Xbe, X86);
    Substitutes3(sub, Xa0, Xfb, Xf4, X68);
    Substitutes4(sub, Xe2, Xd6, X2b, X15);
    Substitutes5(sub, X9a, X9f, Xc6, Xe4);
    Substitutes6(sub, X8d, X02, X2a, X98);
    Substitutes7(sub, Xe9, X4e, Xf8, Xdd);
    Substitutes8(sub, X48, Xa7, X08, Xe8);
  }

  lemma MixedRows1(a: Byte, b: Byte, c: Byte, d: Byte)
    requires a == Xd4 && b == Xbf && c == X5d && d == X30
    ensures Mixed(a, b, c, d) == X04 && Mixed(b, c, d, a) == X66
    ensures Mixed(c, d, a, b) == X81 && Mixed(d, a, b, c) == Xe5
  {
  }

  lemma MixedRows2(a: Byte, b: Byte, c: Byte, d: Byte)
    requires a == Xe0 && b == Xb4 && c == X52 && d == Xae
    ensures Mixed(a, b, c, d) == Xe0 && Mixed(b, c, d, a) == Xcb
    ensures Mixed(c, d, a, b) == X19 && Mixed(d, a, b, c) == X9a
  {
  }

  lemma MixedRows3(a: Byte, b: Byte, c: Byte, d: Byte)
    requires a == Xb8 && b == X41 && c == X11 && d == Xf1
    ensures Mixed(a, b, c, d) == X48 && Mixed(b, c, d, a) == Xf8
    ensures Mixed(c, d, a, b) == Xd3 && Mixed(d, a, b, c) == X7a
  {
  }

  lemma MixedRows4(a: Byte, b: Byte, c: Byte, d: Byte)
    requires a == X1e && b == X27 && c == X98 && d == Xe5
    ensures Mixed(a, b, c, d) == X28 && Mixed(b, c, d, a) == X06
    ensures Mixed(c, d, a, b) == X26 && Mixed(d, a, b, c) == X4c
  {
  }

  lemma ColumnIs(f: Column -> Column, v: Column, w: Column, inverse: bool)
    requires Mixes(f, inverse) && RowsOf(v, inverse) == w
    ensures f(v) == w
  {
    assert MixesAt(f, inverse, v);
    RowsAreMixed(v, inverse);
  }

  lemma ColumnsAre(s: Block, t: Block, f: Column -> Column)
    requires f(s.c0) == t.c0 && f(s.c1) == t.c1 && f(s.c2) == t.c2 && f(s.c3) == t.c3
    ensures Columnwise(s, f) == t
  {
  }

  lemma MixedColumn1(f: Column -> Column, v: Column, w: Column)
    requires v == Column(Xd4, Xbf, X5d, X30) && w == Column(X04, X66, X81, Xe5)
    requires Mixes(f, false)
    ensures f(v) == w
  {
    MixedRows1(v.a, v.b, v.c, v.d);
    ColumnIs(f, v, w, false);
  }

  lemma MixedColumn2(f: Column -> Column, v: Column, w: Column)
    requires v == Column(Xe0, Xb4, X52, Xae) && w == Column(Xe0, Xcb, X19, X9a)
    requires Mixes(f, false)
    ensures f(v) == w
  {
    MixedRows2(v.a, v.b, v.c, v.d);
    ColumnIs(f, v, w, false);
  }

  lemma MixedColumn3(f: Column -> Column, v: Column, w: Column)
    requires v == Column(Xb8, X41, X11, Xf1) && w == Column(X48, Xf8, Xd3, X7a)
    requires Mixes(f, false)
    ensures f(v) == w
  {
    MixedRows3(v.a, v.b, v.c, v.d);
    ColumnIs(f, v, w, false);
  }

  lemma MixedColumn4(f: Column -> Column, v: Column, w: Column)
    requires v == Column(X1e, X27, X98, Xe5) && w == Column(X28, X06, X26, X4c)
    requires Mixes(f, false)
    ensures f(v) == w
  {
    MixedRows4(v.a, v.b, v.c, v.d);
    ColumnIs(f, v, w, false);
  }

  lemma StateMixed(f: Column -> Column)
    requires Mixes(f, false)
    ensures Columnwise(SHIFTED, f) == MIXED
  {
    MixedColumn1(f, SHIFTED.c0, MIXED.c0);
    MixedColumn2(f, SHIFTED.c1, MIXED.c1);
    MixedColumn3(f, SHIFTED.c2, MIXED.c2);
    MixedColumn4(f, SHIFTED.c3, MIXED.c3);
    ColumnsAre(SHIFTED, MIXED, f);
  }

  lemma KeyAdded()
    ensures XorBlocks(MIXED, ROUND_KEY) == NEXT_STATE
  {
  }

  /** One round of the example, its start, its key and the start of the next one, with any form of the substitution and of mixing. */
  lemma RoundKnown(sub: Byte -> Byte, f: Column -> Column)
    requires Substitutes(sub) && Mixes(f, false)
    ensures XorBlocks(Columnwise(Substituted(Shifted(STATE), sub), f), ROUND_KEY) == NEXT_STATE
  {
    StateSubstituted(sub);
    StateMixed(f);
    KeyAdded();
  }

  // ---------------------------------------------------------------------------------------------
  // A round key of the equivalent inverse cipher in appendix C.1 of FIPS 197
  // ---------------------------------------------------------------------------------------------

  const MIDDLE_KEY := Block(Column(X54, X99, X32, Xd1),
                            Column(Xf0, X85, X57, X68),
                            Column(X10, X93, Xed, X9c),
                            Column(Xbe, X2c, X97, X4e))
  const INVERSE_KEY := Block(Column(X13, Xaa, X29, Xbe),
                             Column(X9c, X8f, Xaf, Xf6),
                             Column(Xf7, X70, Xf5, X80),
                             Column(X00, Xf7, Xbf, X03))

  lemma UnmixedRows1(a: Byte, b: Byte, c: Byte, d: Byte)
    requires a == X54 && b == X99 && c == X32 && d == Xd1
    ensures Unmixed(a, b, c, d) == X13 && Unmixed(b, c, d, a) == Xaa
    ensures Unmixed(c, d, a, b) == X29 && Unmixed(d, a, b, c) == Xbe
  {
  }

  lemma UnmixedRows2(a: Byte, b: Byte, c: Byte, d: Byte)
    requires a == Xf0 && b == X85 && c == X57 && d == X68
    ensures Unmixed(a, b, c, d) == X9c && Unmixed(b, c, d, a) == X8f
    ensures Unmixed(c, d, a, b) == Xaf && Unmixed(d, a, b, c) == Xf6
  {
  }

  lemma UnmixedRows3(a: Byte, b: Byte, c: Byte, d: Byte)
    requires a == X10 && b == X93 && c == Xed && d == X9c
    ensures Unmixed(a, b, c, d) == Xf7 && Unmixed(b, c, d, a) == X70
    ensures Unmixed(c, d, a, b) == Xf5 && Unmixed(d, a, b, c) == X80
  {
  }

  lemma UnmixedRows4(a: Byte, b: Byte, c: Byte, d: Byte)
    requires a == Xbe && b == X2c && c == X97 && d == X4e
    ensures Unmixed(a, b, c, d) == X00 && Unmixed(b, c, d, a) == Xf7
    ensures Unmixed(c, d, a, b) == Xbf && Unmixed(d, a, b, c) == X03
  {
  }

  lemma UnmixedColumn1(f: Column -> Column, v: Column, w: Column)
    requires v == Column(X54, X99, X32, Xd1) && w == Column(X13, Xaa, X29, Xbe)
    requires Mixes(f, true)
    ensures f(v) == w
  {
    UnmixedRows1(v.a, v.b, v.c, v.d);
    ColumnIs(f, v, w, true);
  }

  lemma UnmixedColumn2(f: Column -> Column, v: Column, w: Column)
    requires v == Column(Xf0, X85, X57, X68) && w == Column(X9c, X8f, Xaf, Xf6)
    requires Mixes(f, true)
    ensures f(v) == w
  {
    UnmixedRows2(v.a, v.b, v.c, v.d);
    ColumnIs(f, v, w, true);
  }

  lemma UnmixedColumn3(f: Column -> Column, v: Column, w: Column)
    requires v == Column(X10, X93, Xed, X9c) && w == Column(Xf7, X70, Xf5, X80)
    requires Mixes(f, true)
    ensures f(v) == w
  {
    UnmixedRows3(v.a, v.b, v.c, v.d);
    ColumnIs(f, v, w, true);
  }

  lemma UnmixedColumn4(f: Column -> Column, v: Column, w: Column)
    requires v == Column(Xbe, X2c, X97, X4e) && w == Column(X00, Xf7, Xbf, X03)
    requires Mixes(f, true)
    ensures f(v) == w
  {
    UnmixedRows4(v.a, v.b, v.c, v.d);
    ColumnIs(f, v, w, true);
  }

  /** The key of the last middle round, and what aesimc makes of it. */
  lemma KeyKnown(f: Column -> Column)
    requires Mixes(f, true)
    ensures Columnwise(MIDDLE_KEY, f) == INVERSE_KEY
  {
    UnmixedColumn1(f, MIDDLE_KEY.c0, INVERSE_KEY.c0);
    UnmixedColumn2(f, MIDDLE_KEY.c1, INVERSE_KEY.c1);
    UnmixedColumn3(f, MIDDLE_KEY.c2, INVERSE_KEY.c2);
    UnmixedColumn4(f, MIDDLE_KEY.c3, INVERSE_KEY.c3);
    ColumnsAre(MIDDLE_KEY, INVERSE_KEY, f);
  }

  // ---------------------------------------------------------------------------------------------
  // On buffers
  // ---------------------------------------------------------------------------------------------

  method KnownAesenc(tables: Tables, out: array<Byte>, a: array<Byte>, b: array<Byte>)
    requires tables.Valid() && out.Length == 16 == a.Length && b.Length == 16
    requires {out, a, b} !! {tables.kSbox, tables.kInvSbox}
    requires Loaded(a[..]) == STATE && Loaded(b[..]) == ROUND_KEY
    modifies tables`ready, tables.kSbox, tables.kInvSbox, out
    ensures Loaded(out[..]) == NEXT_STATE
  {
    RoundKnown(SubByte, Mixing(false));
    AesencRuns(tables, out, a, b, SubByte, Mixing(false), STATE, ROUND_KEY);
  }

  method AesencRuns(tables: Tables, out: array<Byte>, a: array<Byte>, b: array<Byte>,
                    ghost sub: Byte -> Byte, ghost f: Column -> Column, ghost s: Block, ghost key: Block)
    requires tables.Valid() && out.Length == 16 == a.Length && b.Length == 16
    requires {out, a, b} !! {tables.kSbox, tables.kInvSbox} && Loaded(a[..]) == s && Loaded(b[..]) == key
    requires sub == SubByte && f == Mixing(false)
    modifies tables`ready, tables.kSbox, tables.kInvSbox, out
    ensures Loaded(out[..]) == XorBlocks(Columnwise(Substituted(Shifted(s), sub), f), key)
  {
    RoundUnfolds(s, key);
    Aesenc(tables, out, a, b);
  }

  lemma RoundUnfolds(s: Block, key: Block)
    ensures EncryptRound(AES())(s, key) == XorBlocks(Columnwise(Substituted(Shifted(s), SubByte), Mixing(false)), key)
  {
  }

  method KnownAesimc(out: array<Byte>, b: array<Byte>)
    requires out.Length == 16 == b.Length && out != b && Loaded(b[..]) == MIDDLE_KEY
    modifies out
    ensures Loaded(out[..]) == INVERSE_KEY
  {
    KeyKnown(Mixing(true));
    AesimcIs(out, b, Mixing(true), MIDDLE_KEY, INVERSE_KEY);
  }

  method AesimcIs(out: array<Byte>, b: array<Byte>, ghost f: Column -> Column, ghost key: Block, ghost mixed: Block)
    requires out.Length == 16 == b.Length && out != b && Loaded(b[..]) == key
    requires Mixes(f, true) && Columnwise(key, f) == mixed
    modifies out
    ensures Loaded(out[..]) == mixed
  {
    assert MixesAt(f, true, key.c0) && MixesAt(f, true, key.c1) && MixesAt(f, true, key.c2) && MixesAt(f, true, key.c3);
    Aesimc(out, b);
  }
}

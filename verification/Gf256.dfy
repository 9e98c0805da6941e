/**
  The field AES computes in, and the substitution tables built from it (libblink/blink/avx2.c).
  A byte is its eight bits, the highest first.
 */
module Gf256 {

  import opened Powers

  datatype Byte = Byte(b7: bool, b6: bool, b5: bool, b4: bool, b3: bool, b2: bool, b1: bool, b0: bool)

  const ZERO := Byte(false, false, false, false, false, false, false, false)
  const ONE := Byte(false, false, false, false, false, false, false, true)

  /** The number a byte is. */
  function ToNat(a: Byte): (n: nat)
    ensures n < 256
  {
    (if a.b7 then 128 else 0) + (if a.b6 then 64 else 0) + (if a.b5 then 32 else 0) + (if a.b4 then 16 else 0)
    + (if a.b3 then 8 else 0) + (if a.b2 then 4 else 0) + (if a.b1 then 2 else 0) + (if a.b0 then 1 else 0)
  }

  /** The byte a number is. */
  function FromNat(n: nat): (a: Byte)
    requires n < 256
    ensures ToNat(a) == n
  {
    var b7 := n >= 128;
    var n7 := if b7 then n - 128 else n;
    var b6 := n7 >= 64;
    var n6 := if b6 then n7 - 64 else n7;
    var b5 := n6 >= 32;
    var n5 := if b5 then n6 - 32 else n6;
    var b4 := n5 >= 16;
    var n4 := if b4 then n5 - 16 else n5;
    var b3 := n4 >= 8;
    var n3 := if b3 then n4 - 8 else n4;
    var b2 := n3 >= 4;
    var n2 := if b2 then n3 - 4 else n3;
    Byte(b7, b6, b5, b4, b3, b2, n2 >= 2, n2 == 1 || n2 == 3)
  }

  lemma SameNumber(a: Byte, b: Byte)
    requires ToNat(a) == ToNat(b)
    ensures a == b
  {
  }

  function Xor(a: Byte, b: Byte): Byte {
    Byte(a.b7 != b.b7, a.b6 != b.b6, a.b5 != b.b5, a.b4 != b.b4,
         a.b3 != b.b3, a.b2 != b.b2, a.b1 != b.b1, a.b0 != b.b0)
  }

  function ShiftLeft(a: Byte): Byte {
    Byte(a.b6, a.b5, a.b4, a.b3, a.b2, a.b1, a.b0, false)
  }

  function ShiftRight(a: Byte): Byte {
    Byte(false, a.b7, a.b6, a.b5, a.b4, a.b3, a.b2, a.b1)
  }

  /** n bits are enough for a. */
  predicate Fits(a: Byte, n: nat)
    decreases n, a
  {
    a == ZERO || (n > 0 && Fits(ShiftRight(a), n - 1))
  }

  /** 0x1b: what x^8 is, modulo the polynomial of AES. */
  const REDUCTION := Byte(false, false, false, true, true, false, true, true)

  /** Multiplication by x: every bit moves up, and the top bit comes back as the reduction. */
  function XTime(a: Byte): Byte {
    Byte(a.b6, a.b5, a.b4, a.b3 != a.b7, a.b2 != a.b7, a.b1, a.b0 != a.b7, a.b7)
  }

  lemma XTimeIsShift(a: Byte)
    ensures XTime(a) == Xor(ShiftLeft(a), if a.b7 then REDUCTION else ZERO)
  {
  }

  /** a, where the lowest bit of b is set. */
  function Select(b: Byte, a: Byte): Byte {
    if b.b0 then a else ZERO
  }

  /** a times the powers of x that the n low bits of b stand for. */
  function Partial(a: Byte, b: Byte, n: nat): Byte
    decreases n, a, b
  {
    if n == 0 then ZERO else Xor(Select(b, a), Partial(XTime(a), ShiftRight(b), n - 1))
  }

  /** The product in the field. */
  function Mul(a: Byte, b: Byte): Byte {
    Partial(a, b, 8)
  }

  method GfMul(a0: Byte, b0: Byte) returns (r: Byte)
    ensures r == Mul(a0, b0)
  {
    var a, b := a0, b0;
    ghost var n: nat := 8;
    r := ZERO;
    FitsByte(b);
    NothingAdded(a, b);
    while b != ZERO
      invariant Fits(b, n)
      invariant Xor(r, Partial(a, b, n)) == Mul(a0, b0)
      decreases n
    {
      r, a, b := MulStep(r, a, b, n);
      n := n - 1;
    }
    NothingLeft(r, a, n);
  }

  lemma NothingAdded(a: Byte, b: Byte)
    ensures Xor(ZERO, Partial(a, b, 8)) == Mul(a, b)
  {
    XorZero(Mul(a, b));
  }

  lemma NothingLeft(r: Byte, a: Byte, n: nat)
    ensures Xor(r, Partial(a, ZERO, n)) == r
  {
    TimesZero(a, n);
    XorZero(r);
  }

  /** The loop's body, which takes the lowest bit of b off. */
  method MulStep(r0: Byte, a0: Byte, b0: Byte, ghost n: nat) returns (r: Byte, a: Byte, b: Byte)
    requires b0 != ZERO && Fits(b0, n)
    ensures n > 0 && Fits(b, n - 1)
    ensures Xor(r, Partial(a, b, n - 1)) == Xor(r0, Partial(a0, b0, n))
  {
    XTimeIsShift(a0);
    a := Xor(ShiftLeft(a0), if a0.b7 then REDUCTION else ZERO);
    b := ShiftRight(b0);
    r := AddSelected(r0, b0, a0);
    XorAssociates(r0, Select(b0, a0), Partial(a, b, n - 1));
  }

  method AddSelected(r0: Byte, b: Byte, a: Byte) returns (r: Byte)
    ensures r == Xor(r0, Select(b, a))
  {
    XorZero(r0);
    r := if b.b0 then Xor(r0, a) else r0;
  }

  lemma FitsByte(a: Byte)
    ensures Fits(a, 8)
  {
    var a2 := ShiftRight(ShiftRight(a));
    var a4 := ShiftRight(ShiftRight(a2));
    var a6 := ShiftRight(ShiftRight(a4));
    assert ShiftRight(ShiftRight(a6)) == ZERO;
    assert Fits(a6, 2);
    assert Fits(a4, 4);
    assert Fits(a2, 6);
  }

  // ---------------------------------------------------------------------------------------------
  // A ring
  // ---------------------------------------------------------------------------------------------

  lemma XorAssociates(a: Byte, b: Byte, c: Byte)
    ensures Xor(a, Xor(b, c)) == Xor(Xor(a, b), c)
  {
  }

  lemma XorZero(a: Byte)
    ensures Xor(a, ZERO) == a && Xor(ZERO, a) == a && Xor(a, a) == ZERO
  {
  }

  lemma XorSwaps(a: Byte, b: Byte, c: Byte, d: Byte)
    ensures Xor(Xor(a, b), Xor(c, d)) == Xor(Xor(a, c), Xor(b, d))
  {
  }

  lemma XTimeAdds(a: Byte, b: Byte)
    ensures XTime(Xor(a, b)) == Xor(XTime(a), XTime(b))
  {
  }

  lemma ShiftRightAdds(a: Byte, b: Byte)
    ensures ShiftRight(Xor(a, b)) == Xor(ShiftRight(a), ShiftRight(b))
  {
  }

  /** A byte is its lowest bit and x times the rest. */
  lemma LowBitAndRest(b: Byte)
    ensures b == Xor(Select(b, ONE), XTime(ShiftRight(b)))
  {
  }

  lemma SelectAddsLeft(b: Byte, c: Byte, a: Byte)
    ensures Select(Xor(b, c), a) == Xor(Select(b, a), Select(c, a))
  {
    XorZero(a);
    XorZero(ZERO);
  }

  lemma SelectAddsRight(b: Byte, a: Byte, c: Byte)
    ensures Select(b, Xor(a, c)) == Xor(Select(b, a), Select(b, c))
  {
    XorZero(ZERO);
  }

  lemma XTimeOfSelected(b: Byte, a: Byte)
    ensures XTime(Select(b, a)) == Select(b, XTime(a))
  {
    assert XTime(ZERO) == ZERO;
  }

  lemma {:induction false} PartialAddsLeft(a: Byte, c: Byte, b: Byte, n: nat)
    ensures Partial(Xor(a, c), b, n) == Xor(Partial(a, b, n), Partial(c, b, n))
    decreases n
  {
    if n == 0 {
      XorZero(ZERO);
    } else {
      XTimeAdds(a, c);
      SelectAddsRight(b, a, c);
      PartialAddsLeft(XTime(a), XTime(c), ShiftRight(b), n - 1);
      XorSwaps(Select(b, a), Select(b, c),
               Partial(XTime(a), ShiftRight(b), n - 1), Partial(XTime(c), ShiftRight(b), n - 1));
    }
  }

  lemma {:induction false} PartialAddsRight(a: Byte, b: Byte, c: Byte, n: nat)
    ensures Partial(a, Xor(b, c), n) == Xor(Partial(a, b, n), Partial(a, c, n))
    decreases n
  {
    if n == 0 {
      XorZero(ZERO);
    } else {
      ShiftRightAdds(b, c);
      SelectAddsLeft(b, c, a);
      PartialAddsRight(XTime(a), ShiftRight(b), ShiftRight(c), n - 1);
      XorSwaps(Select(b, a), Select(c, a),
               Partial(XTime(a), ShiftRight(b), n - 1), Partial(XTime(a), ShiftRight(c), n - 1));
    }
  }

  lemma {:induction false} PartialOfXTime(a: Byte, b: Byte, n: nat)
    ensures Partial(XTime(a), b, n) == XTime(Partial(a, b, n))
    decreases n
  {
    if n == 0 {
      XTimeOfZero();
    } else {
      PartialOfXTime(XTime(a), ShiftRight(b), n - 1);
      XTimeAdds(Select(b, a), Partial(XTime(a), ShiftRight(b), n - 1));
      XTimeOfSelected(b, a);
    }
  }

  lemma XTimeOfZero()
    ensures XTime(ZERO) == ZERO && ShiftRight(ZERO) == ZERO
  {
  }

  lemma {:induction false} TimesZero(a: Byte, n: nat)
    ensures Partial(a, ZERO, n) == ZERO && Partial(ZERO, a, n) == ZERO
    decreases n
  {
    if n > 0 {
      XTimeOfZero();
      XorZero(ZERO);
      TimesZero(XTime(a), n - 1);
      TimesZero(ShiftRight(a), n - 1);
    }
  }

  /** One times b puts the bits of b together again. */
  lemma {:induction false} OneTimes(b: Byte, n: nat)
    requires Fits(b, n)
    ensures Partial(ONE, b, n) == b
    decreases n
  {
    if b == ZERO {
      TimesZero(ONE, n);
    } else {
      OneTimes(ShiftRight(b), n - 1);
      PartialOfXTime(ONE, ShiftRight(b), n - 1);
      LowBitAndRest(b);
    }
  }

  lemma TimesOne(a: Byte, n: nat)
    requires n > 0
    ensures Partial(a, ONE, n) == a
  {
    assert ShiftRight(ONE) == ZERO;
    TimesZero(XTime(a), n - 1);
    XorZero(a);
  }

  /** Taking the lowest bit off the left factor. */
  lemma MulFromRest(b: Byte, a: Byte)
    ensures Mul(b, a) == Xor(Select(b, a), XTime(Mul(ShiftRight(b), a)))
  {
    LowBitAndRest(b);
    PartialAddsLeft(Select(b, ONE), XTime(ShiftRight(b)), a, 8);
    PartialOfXTime(ShiftRight(b), a, 8);
    SelectedOneTimes(b, a);
  }

  lemma {:induction false} PartialCommutes(a: Byte, b: Byte, n: nat)
    requires Fits(b, n)
    ensures Partial(a, b, n) == Mul(b, a)
    decreases n
  {
    if b == ZERO {
      TimesZero(a, n);
      TimesZero(a, 8);
    } else {
      PartialCommutes(a, ShiftRight(b), n - 1);
      PartialOfXTime(a, ShiftRight(b), n - 1);
      MulFromRest(b, a);
    }
  }

  lemma SelectedOneTimes(b: Byte, a: Byte)
    ensures Mul(Select(b, ONE), a) == Select(b, a)
  {
    FitsByte(a);
    OneTimes(a, 8);
    TimesZero(a, 8);
  }

  lemma MulCommutes(a: Byte, b: Byte)
    ensures Mul(a, b) == Mul(b, a)
  {
    FitsByte(b);
    PartialCommutes(a, b, 8);
  }

  lemma MulOfXTime(a: Byte, b: Byte)
    ensures Mul(a, XTime(b)) == XTime(Mul(a, b)) == Mul(XTime(a), b)
  {
    MulCommutes(a, XTime(b));
    MulCommutes(a, b);
    PartialOfXTime(b, a, 8);
    PartialOfXTime(a, b, 8);
  }

  lemma MulOfSelected(a: Byte, c: Byte, b: Byte)
    ensures Mul(a, Select(c, b)) == Select(c, Mul(a, b))
  {
    TimesZero(a, 8);
  }

  lemma {:induction false} PartialAssociates(a: Byte, b: Byte, c: Byte, n: nat)
    ensures Partial(Mul(a, b), c, n) == Mul(a, Partial(b, c, n))
    decreases n
  {
    if n == 0 {
      TimesZero(a, 8);
    } else {
      var d := ShiftRight(c);
      PartialAddsRight(a, Select(c, b), Partial(XTime(b), d, n - 1), 8);
      PartialAssociates(a, XTime(b), d, n - 1);
      MulOfXTime(a, b);
      MulOfSelected(a, c, b);
    }
  }

  // ---------------------------------------------------------------------------------------------
  // Squares
  // ---------------------------------------------------------------------------------------------

  /** The square, bit by bit: squaring is additive, and x^8 and up come back reduced. */
  function Square(a: Byte): Byte {
    Byte(a.b6 != a.b7, a.b3 != a.b5, a.b5 != a.b6, (a.b2 != a.b4) != a.b7,
         (a.b4 != a.b5) != (a.b6 != a.b7), a.b1 != a.b5, (a.b4 != a.b6) != a.b7, (a.b0 != a.b4) != a.b6)
  }

  lemma SquareAdds(a: Byte, b: Byte)
    ensures Square(Xor(a, b)) == Xor(Square(a), Square(b))
  {
  }

  lemma SquareOfXTime(a: Byte)
    ensures Square(XTime(a)) == XTime(XTime(Square(a)))
  {
  }

  lemma SquareOfSelected(a: Byte)
    ensures Square(Select(a, ONE)) == Select(a, ONE)
  {
  }

  lemma MixedTerms(a: Byte, b: Byte, ab: Byte)
    ensures Xor(Xor(a, ab), Xor(ab, b)) == Xor(a, b)
  {
  }

  /** The square of a sum: the mixed terms cancel. */
  lemma MulOfSums(a: Byte, b: Byte)
    ensures Mul(Xor(a, b), Xor(a, b)) == Xor(Mul(a, a), Mul(b, b))
  {
    PartialAddsLeft(a, b, Xor(a, b), 8);
    PartialAddsRight(a, a, b, 8);
    PartialAddsRight(b, a, b, 8);
    MulCommutes(a, b);
    MixedTerms(Mul(a, a), Mul(b, b), Mul(a, b));
  }

  lemma {:induction false} SquareOfFitting(a: Byte, n: nat)
    requires Fits(a, n)
    ensures Mul(a, a) == Square(a)
    decreases n
  {
    if a == ZERO {
      TimesZero(a, 8);
    } else {
      var c := ShiftRight(a);
      SquareOfFitting(c, n - 1);
      LowBitAndRest(a);
      MulOfSums(Select(a, ONE), XTime(c));
      MulOfXTime(XTime(c), c);
      MulOfXTime(c, c);
      SelectedOneTimes(a, Select(a, ONE));
      SquareAdds(Select(a, ONE), XTime(c));
      SquareOfXTime(c);
      SquareOfSelected(a);
    }
  }

  lemma SquareIsMul(a: Byte)
    ensures Mul(a, a) == Square(a)
  {
    FitsByte(a);
    SquareOfFitting(a, 8);
  }

  /** Only zero and one are their own squares. */
  lemma OwnSquares(a: Byte)
    requires Square(a) == a
    ensures a == ZERO || a == ONE
  {
  }

  lemma MulIsCommutativeMonoid()
    ensures CommutativeMonoid(Mul, ONE)
  {
    forall a, b, c ensures Associates(Mul, a, b, c) {
      PartialAssociates(a, b, c, 8);
    }
    forall a, b ensures Commutes(Mul, a, b) {
      MulCommutes(a, b);
    }
    forall a ensures Mul(a, ONE) == a {
      TimesOne(a, 8);
    }
  }

  lemma {:induction false} SquaresOfSum(a: Byte, b: Byte, k: nat)
    ensures Squares(Mul, Xor(a, b), k) == Xor(Squares(Mul, a, k), Squares(Mul, b, k))
    decreases k
  {
    if k > 0 {
      MulOfSums(a, b);
      SquaresOfSum(Mul(a, a), Mul(b, b), k - 1);
    }
  }

  lemma {:induction false} SquaresOfSelected(a: Byte, k: nat)
    ensures Squares(Mul, Select(a, ONE), k) == Select(a, ONE)
    decreases k
  {
    if k > 0 {
      SelectedOneTimes(a, Select(a, ONE));
      SquaresOfSelected(a, k - 1);
    }
  }

  const X := Byte(false, false, false, false, false, false, true, false)

  lemma TimesX(a: Byte)
    ensures Mul(X, a) == XTime(a)
  {
    assert XTime(ONE) == X;
    PartialOfXTime(ONE, a, 8);
    FitsByte(a);
    OneTimes(a, 8);
  }

  lemma SquaresOfX()
    ensures Squares(Mul, X, 8) == X
  {
    var x2 := XTime(X);
    var x4 := Square(x2);
    var x8 := Square(x4);
    var x16 := Square(x8);
    var x32 := Square(x16);
    var x64 := Square(x32);
    var x128 := Square(x64);
    assert Square(x128) == X;
    SquareIsMul(X);
    SquareIsMul(x2);
    SquareIsMul(x4);
    SquareIsMul(x8);
    SquareIsMul(x16);
    SquareIsMul(x32);
    SquareIsMul(x64);
    SquareIsMul(x128);
    assert Squares(Mul, x64, 2) == X;
    assert Squares(Mul, x16, 4) == X;
    assert Squares(Mul, x4, 6) == X;
  }

  /** Squaring eight times is the identity: so it is for x, and it adds and multiplies. */
  lemma {:induction false} EightSquares(a: Byte, n: nat)
    requires Fits(a, n)
    ensures Squares(Mul, a, 8) == a
    decreases n
  {
    if a == ZERO {
      SquaresOfSelected(ZERO, 8);
    } else {
      EightSquares(ShiftRight(a), n - 1);
      SquaresFromRest(a);
    }
  }

  lemma SquaresFromRest(a: Byte)
    requires Squares(Mul, ShiftRight(a), 8) == ShiftRight(a)
    ensures Squares(Mul, a, 8) == a
  {
    var c := ShiftRight(a);
    LowBitAndRest(a);
    SquaresOfSum(Select(a, ONE), XTime(c), 8);
    SquaresOfSelected(a, 8);
    TimesX(c);
    MulIsCommutativeMonoid();
    SquaresOfProduct(Mul, ONE, X, c, 8);
    SquaresOfX();
  }

  // ---------------------------------------------------------------------------------------------
  // Inverses
  // ---------------------------------------------------------------------------------------------

  /** Where k squarings lead back to a, the product of the powers on the way is one: all but a of it times a. */
  lemma HasInverse(a: Byte, k: nat)
    requires a != ZERO && k > 0 && Squares(Mul, a, k) == a
    ensures exists b :: Mul(a, b) == ONE
  {
    var norm := FullNorm(a, k);
    OwnProducts(a, norm);
    assert Mul(a, Norm(Mul, ONE, Mul(a, a), k - 1)) == ONE;
  }

  lemma FullNorm(a: Byte, k: nat) returns (norm: Byte)
    requires k > 0 && Squares(Mul, a, k) == a
    ensures norm == Mul(a, Norm(Mul, ONE, Mul(a, a), k - 1))
    ensures Mul(norm, norm) == norm && Mul(a, norm) == a
  {
    MulIsCommutativeMonoid();
    NormIsItsOwnSquare(Mul, ONE, a, k);
    norm := Norm(Mul, ONE, a, k);
  }

  lemma OwnProducts(a: Byte, norm: Byte)
    requires a != ZERO && Mul(norm, norm) == norm && Mul(a, norm) == a
    ensures norm == ONE
  {
    TimesZero(a, 8);
    SquareIsMul(norm);
    OwnSquares(norm);
  }

  /** What times a is one; zero for zero. */
  ghost function Inverse(a: Byte): (b: Byte)
    ensures a == ZERO ==> b == ZERO
    ensures a != ZERO ==> Mul(a, b) == ONE
  {
    if a == ZERO then ZERO
    else
      FitsByte(a);
      EightSquares(a, 8);
      HasInverse(a, 8);
      var b :| Mul(a, b) == ONE;
      b
  }

  lemma CommonInverse(a: Byte, b: Byte, c: Byte)
    requires Mul(a, b) == ONE == Mul(a, c)
    ensures b == c
  {
    PartialAssociates(c, a, b, 8);
    MulCommutes(a, c);
    MulCommutes(ONE, b);
    TimesOne(b, 8);
    TimesOne(c, 8);
  }

  lemma NoProductWithZero(a: Byte, b: Byte)
    requires Mul(a, b) == ONE
    ensures b != ZERO
  {
    if b == ZERO {
      TimesZero(a, 8);
    }
  }

  lemma TheInverse(a: Byte, b: Byte)
    requires Mul(a, b) == ONE
    ensures Inverse(b) == a
  {
    NoProductWithZero(a, b);
    MulCommutes(a, b);
    CommonInverse(b, a, Inverse(b));
  }

  lemma InverseOfInverse(a: Byte)
    ensures Inverse(Inverse(a)) == a
  {
    if a != ZERO {
      TheInverse(a, Inverse(a));
    }
  }

  // ---------------------------------------------------------------------------------------------
  // The substitution
  // ---------------------------------------------------------------------------------------------

  /** a rotated left by n bits: its n high bits come back at the bottom. */
  function RotateLeft(a: Byte, n: nat): Byte
    requires 1 <= n <= 4
  {
    match n
    case 1 => Byte(a.b6, a.b5, a.b4, a.b3, a.b2, a.b1, a.b0, a.b7)
    case 2 => Byte(a.b5, a.b4, a.b3, a.b2, a.b1, a.b0, a.b7, a.b6)
    case 3 => Byte(a.b4, a.b3, a.b2, a.b1, a.b0, a.b7, a.b6, a.b5)
    case 4 => Byte(a.b3, a.b2, a.b1, a.b0, a.b7, a.b6, a.b5, a.b4)
  }

  /** Every bit of x together with the four below it, around the byte, and 0x63. */
  function Affine(x: Byte): Byte {
    Byte(x.b7 != (x.b6 != (x.b5 != (x.b4 != x.b3))),
         x.b6 == (x.b5 != (x.b4 != (x.b3 != x.b2))),
         x.b5 == (x.b4 != (x.b3 != (x.b2 != x.b1))),
         x.b4 != (x.b3 != (x.b2 != (x.b1 != x.b0))),
         x.b3 != (x.b2 != (x.b1 != (x.b0 != x.b7))),
         x.b2 != (x.b1 != (x.b0 != (x.b7 != x.b6))),
         x.b1 == (x.b0 != (x.b7 != (x.b6 != x.b5))),
         x.b0 == (x.b7 != (x.b6 != (x.b5 != x.b4))))
  }

  /** What undoes it: bits 2, 5 and 7 away, and 0x05. */
  function AffineInverse(y: Byte): Byte {
    Byte(y.b6 != (y.b4 != y.b1), y.b5 != (y.b3 != y.b0), y.b4 != (y.b2 != y.b7), y.b3 != (y.b1 != y.b6),
         y.b2 != (y.b0 != y.b5), y.b1 == (y.b7 != y.b4), y.b0 != (y.b6 != y.b3), y.b7 == (y.b5 != y.b2))
  }

  lemma AffineUndone(x: Byte)
    ensures AffineInverse(Affine(x)) == x
    ensures Affine(AffineInverse(x)) == x
  {
  }
}

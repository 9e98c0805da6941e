/** Shifts of numbers of many limbs, two words at a time (libblink/blink/alu.c). */
module DoubleShift {
  import opened Bits
  import opened Alu
  import opened CarryChain
  import opened Shifts

  /** The middle of x:y shifted left by b, where x comes back with y's top bits below it. */
  function Shld(k: nat, x: nat, y: nat, b: nat): nat
    requires b <= k
  {
    Low(Shr(Scale(x, k) + y, k - b), k)
  }

  /** The low word of y:x shifted right by b. */
  function Shrd(k: nat, x: nat, y: nat, b: nat): nat
    requires b <= k
  {
    Low(Shr(Scale(y, k) + x, b), k)
  }

  /** What the left form computes. */
  lemma ShldIs(k: nat, x: nat, y: nat, b: nat)
    requires b <= k && y < Pow2(k)
    ensures Shld(k, x, y, b) == Scale(Low(x, k - b), b) + Shr(y, k - b)
    ensures Shr(y, k - b) < Pow2(b)
  {
    ShrScaled(x, y, k, k - b);
    ShrBound(y, k, k - b);
    assert k - (k - b) == b;
    LowScaled(x, Shr(y, k - b), b, k);
  }

  lemma ShrdIs(k: nat, x: nat, y: nat, b: nat)
    requires b <= k && x < Pow2(k)
    ensures Shrd(k, x, y, b) == Scale(Low(y, b), k - b) + Shr(x, b)
    ensures Shr(x, b) < Pow2(k - b)
  {
    ShrScaled(y, x, k, b);
    ShrBound(x, k, b);
    assert k - (k - b) == b;
    LowScaled(y, Shr(x, b), k - b, k);
  }

  /** Two terms or'ed together and cut to k bits, where n bits of the higher one were kept before. */
  lemma TwoTerms(k: nat, x: nat, v: nat, s: nat, n: nat)
    requires s <= k && v < Pow2(s) && n >= k - s
    ensures Low(Or(Scale(Low(x, n), s), v), k) == Scale(Low(x, k - s), s) + v
    ensures Low(Or(v, Scale(Low(x, n), s)), k) == Scale(Low(x, k - s), s) + v
  {
    OrScaled(Low(x, n), v, s);
    LowScaled(Low(x, n), v, s, k);
    LowTwice(x, k - s, n);
  }

  lemma ShldFormula(k: nat, x: nat, y: nat, b: nat)
    requires b <= k <= 64 && y < Pow2(k)
    ensures Low(Or(Shl64(x, b), Shr(y, k - b)), k) == Shld(k, x, y, b)
  {
    ShldIs(k, x, y, b);
    TwoTerms(k, x, Shr(y, k - b), b, 64 - b);
  }

  lemma ShrdFormula(k: nat, x: nat, y: nat, b: nat)
    requires b <= k <= 64 && x < Pow2(k)
    ensures Low(Or(Shr(x, b), Shl64(y, k - b)), k) == Shrd(k, x, y, b)
  {
    ShrdFormulaOf(k, x, y, b, k - b, 64 - (k - b));
  }

  lemma ShrdFormulaOf(k: nat, x: nat, y: nat, b: nat, s: nat, n: nat)
    requires k == s + b && x < Pow2(k) && n >= b
    ensures Low(Or(Shr(x, b), Scale(Low(y, n), s)), k) == Shrd(k, x, y, b)
  {
    assert k - b == s && k - s == b;
    assert Shrd(k, x, y, b) == Scale(Low(y, b), s) + Shr(x, b) && Shr(x, b) < Pow2(s) by {
      ShrdIs(k, x, y, b);
    }
    TwoTerms(k, y, Shr(x, b), s, n);
  }

  /**
    The bits that leave: bit 2k - b of x:y to the left, bit b - 1 of y:x to the right. Both are in x.
   */
  lemma LeavingBit(k: nat, x: nat, y: nat, b: nat)
    requires 1 <= b <= k && y < Pow2(k) && x < Pow2(k)
    ensures Shr(Scale(x, k) + y, 2 * k - b) % 2 == Shr(x, k - b) % 2
    ensures Shr(Scale(y, k) + x, b - 1) % 2 == Shr(x, b - 1) % 2
  {
    assert Shr(Scale(x, k) + y, k + (k - b)) == Shr(x, k - b) by {
      ShrTwice(Scale(x, k) + y, k, k - b);
      HighWord(k, x, y);
    }
    ShrScaled(y, x, k, b - 1);
    assert Scale(y, k - (b - 1)) == 2 * Scale(y, k - b);
  }

  lemma HighWord(k: nat, x: nat, y: nat)
    requires y < Pow2(k)
    ensures Shr(Scale(x, k) + y, k) == x
  {
    ShrScaled(x, y, k, k);
    ShrPast(y, k, k);
  }

  /** The count as the code masks it, and the width it stands for. */
  function Width(w: nat): nat {
    if w == 0 then 8 else if w == 1 then 16 else if w == 2 then 32 else 64
  }

  /** 8, 16, 32 and 64 bits. */
  lemma WidthIsPower(w: nat)
    requires w <= 3
    ensures Width(w) == Pow2(w + 3)
  {
    assert Pow2(w + 3) == 2 * Pow2(w + 2) == 4 * Pow2(w + 1) == 8 * Pow2(w);
    assert w > 0 ==> Pow2(w) == 2 * Pow2(w - 1);
    assert w > 1 ==> Pow2(w - 1) == 2 * Pow2(w - 2);
  }

  function ShiftCount(w: nat, b: nat): nat {
    if w == 3 then b % 64 else b % 32
  }

  lemma TopBit(k: nat, x: nat)
    requires 1 <= k && x < Pow2(k)
    ensures Shr(x, k - 1) % 2 == if x >= Pow2(k - 1) then 1 else 0
  {
    TopIsBit(k, x);
  }

  /** The last bit shifted out of the two words. */
  function LastOut(k: nat, x: nat, y: nat, b: nat, isRight: bool): bool
    requires 1 <= b <= k
  {
    Shr(if isRight then Scale(y, k) + x else Scale(x, k) + y, if isRight then b - 1 else 2 * k - b) % 2 == 1
  }

  method Shifted(k: nat, x: nat, y: nat, b: nat, isRight: bool) returns (z: nat)
    requires 1 <= b <= k <= 64 && x < Pow2(k) && y < Pow2(k)
    ensures z < Pow2(k)
    ensures z == if isRight then Shrd(k, x, y, b) else Shld(k, x, y, b)
  {
    var all := if isRight then Or(Shr(x, b), Shl64(y, k - b)) else Or(Shl64(x, b), Shr(y, k - b));
    if isRight {
      ShrdFormula(k, x, y, b);
    } else {
      ShldFormula(k, x, y, b);
    }
    z := Low(all, k);
  }

  /** The flags a double shift leaves. */
  function ShiftFlags(k: nat, f: Flags, x: nat, y: nat, b: nat, isRight: bool, z: nat): Flags
    requires 1 <= b <= k
  {
    f.(cf := LastOut(k, x, y, b, isRight), zf := z == 0, sf := z >= Pow2(k - 1),
       of := b == 1 && (z >= Pow2(k - 1)) != (x >= Pow2(k - 1)), af := false, parity := z % 256)
  }

  method ShiftWord(m: Machine, k: nat, x: nat, y: nat, b: nat, isRight: bool) returns (r: nat)
    requires 1 <= b <= k <= 64 && x < Pow2(k) && y < Pow2(k)
    modifies m
    ensures r == if isRight then Shrd(k, x, y, b) else Shld(k, x, y, b)
    ensures m.flags == ShiftFlags(k, old(m.flags), x, y, b, isRight, r)
  {
    var z := Shifted(k, x, y, b, isRight);
    var cf := Shr(x, if isRight then b - 1 else k - b) % 2 == 1;
    assert cf == LastOut(k, x, y, b, isRight) by {
      LeavingBit(k, x, y, b);
    }
    TopBit(k, z);
    TopBit(k, x);
    var of := b == 1 && Shr(z, k - 1) % 2 != Shr(x, k - 1) % 2;
    r := m.AluFlags(z, false, of, cf, Shr(z, k - 1) % 2 == 1);
  }

  /**
    Shifts a word and fills it from another. The second operand is a register of the same width;
    past that width the processor leaves the result undefined, and so does the code.
   */
  method BsuDoubleShift(m: Machine, w: nat, x64: nat, y: nat, b8: nat, isRight: bool) returns (r: nat)
    requires w <= 3 && y < Pow2(Width(w))
    requires ShiftCount(w, b8) <= Width(w)
    modifies m
    ensures
      var k, b := Width(w), b8 % (if w == 3 then 64 else 32);
      var x := Truncated(k, x64);
      if b == 0 then r == x && m.flags == old(m.flags)
      else
        && r == (if isRight then Shrd(k, x, y, b) else Shld(k, x, y, b))
        && m.flags == ShiftFlags(k, old(m.flags), x, y, b, isRight, r)
  {
    var k, b := Width(w), ShiftCount(w, b8);
    var x := Truncated(k, x64);
    if b == 0 {
      return x;
    }
    r := ShiftWord(m, k, x, y, b, isRight);
  }

  // ---------------------------------------------------------------------------------------------
  // Plain shifts
  // ---------------------------------------------------------------------------------------------

  /** Shl8 to Shl64: the count is masked, and may pass the width of the two short forms. */
  method Shl(m: Machine, k: nat, x64: nat, y64: nat) returns (r: nat)
    requires IsWidth(k)
    modifies m
    ensures
      var x, b := Truncated(k, x64), y64 % (if k == 64 then 64 else 32);
      if b == 0 then r == x && m.flags == old(m.flags)
      else
        && r == Truncated(k, Scale(x, b))
        && m.flags == old(m.flags).(cf := b <= k && Shr(x, k - b) % 2 == 1, zf := r == 0, sf := r >= Pow2(k - 1),
             of := (r >= Pow2(k - 1)) != m.flags.cf, af := false, parity := r % 256)
  {
    var x, b := Truncated(k, x64), Masked(k, y64);
    if b == 0 {
      return x;
    }
    r := ShlBy(m, k, x, b);
  }

  method ShlBy(m: Machine, k: nat, x: nat, b: nat) returns (r: nat)
    requires IsWidth(k) && 0 < b < 64 && (k < 64 ==> b < 32) && x < Pow2(k)
    modifies m
    ensures r == Truncated(k, Scale(x, b))
    ensures m.flags == old(m.flags).(cf := b <= k && Shr(x, k - b) % 2 == 1, zf := r == 0, sf := r >= Pow2(k - 1),
             of := (r >= Pow2(k - 1)) != m.flags.cf, af := false, parity := r % 256)
  {
    var cf := Shr(x, CarryPlace(k, b)) % 2 == 1;
    ShlCarry(k, x, b);
    var z := Truncated(k, Scale(x, b));
    TopBit(k, z);
    r := m.AluFlags(z, false, (Shr(z, k - 1) % 2 == 1) != cf, cf, Shr(z, k - 1) % 2 == 1);
  }

  /** Where the code looks for the last bit shifted out; past the width that is a place above the word. */
  function CarryPlace(k: nat, b: nat): nat
    requires IsWidth(k) && b < 64 && (k < 64 ==> b < 32)
  {
    if k <= 16 then (32 + k - b) % 32 else k - b
  }

  lemma ShlCarry(k: nat, x: nat, b: nat)
    requires IsWidth(k) && b < 64 && (k < 64 ==> b < 32) && x < Pow2(k)
    ensures Shr(x, CarryPlace(k, b)) % 2 == 1 <==> b <= k && Shr(x, k - b) % 2 == 1
  {
    if b > k {
      assert CarryPlace(k, b) == 32 + k - b;
      ShrPast(x, k, 32 + k - b);
    } else {
      assert CarryPlace(k, b) == k - b;
    }
  }

  /** A plain shift is a double one that fills with zeros. */
  lemma ShlIsShld(k: nat, x: nat, b: nat)
    requires b <= k
    ensures Shld(k, x, 0, b) == Truncated(k, Scale(x, b))
  {
    ShldIs(k, x, 0, b);
    ShrOfZero(k - b);
    LowScaled(x, 0, b, k);
    TruncatedIsLow(k, Scale(x, b));
  }

  /** Shr8 to Shr64. */
  method ShiftRight(m: Machine, k: nat, x64: nat, y64: nat) returns (r: nat)
    requires IsWidth(k)
    modifies m
    ensures
      var x, b := Truncated(k, x64), y64 % (if k == 64 then 64 else 32);
      if b == 0 then r == x && m.flags == old(m.flags)
      else
        && r == Shr(x, b)
        && m.flags == old(m.flags).(cf := Shr(x, b - 1) % 2 == 1, zf := r == 0, sf := false,
             of := b == 1 && x >= Pow2(k - 1), af := false, parity := r % 256)
  {
    var x, b := Truncated(k, x64), Masked(k, y64);
    if b == 0 {
      return x;
    }
    var cf, z := Shr(x, b - 1) % 2 == 1, Shr(x, b);
    ShrTops(k, x, b);
    r := m.AluFlags(z, false, Shr(Xor(2 * z, z), k - 1) == 1, cf, Shr(z, k - 1) == 1);
  }

  /** The top bit of what was shifted right is clear, and the one below it is set only by a shift of one. */
  lemma ShrTops(k: nat, x: nat, b: nat)
    requires k >= 2 && b >= 1 && x < Pow2(k)
    ensures Shr(Shr(x, b), k - 1) == 0
    ensures Shr(Xor(2 * Shr(x, b), Shr(x, b)), k - 1) == if b == 1 && x >= Pow2(k - 1) then 1 else 0
  {
    var z := Shr(x, b);
    XorShifts(2 * z, z, k - 1);
    ShrDouble(z, k - 1);
    ShrTwice(x, b, k - 2);
    ShrTwice(x, b, k - 1);
    ShrPast(x, k, b + (k - 1));
    if b == 1 {
      TopIsBit(k, x);
    } else {
      ShrPast(x, k, b + (k - 2));
    }
  }

  /** A plain shift to the right is a double one that fills with zeros. */
  lemma ShrIsShrd(k: nat, x: nat, b: nat)
    requires b <= k && x < Pow2(k)
    ensures Shrd(k, x, 0, b) == Shr(x, b)
  {
    ShrdIs(k, x, 0, b);
    LowOfSmall(0, b);
    ScaleBit(0, k - b);
  }

  // ---------------------------------------------------------------------------------------------
  // Limb by limb
  // ---------------------------------------------------------------------------------------------

  /** Every limb filled from the one below it as it was; `below` fills the lowest. */
  function ShiftedLeft(k: nat, ls: seq<nat>, below: nat, b: nat): seq<nat>
    requires b <= k
  {
    if ls == [] then [] else [Shld(k, ls[0], below, b)] + ShiftedLeft(k, ls[1..], ls[0], b)
  }

  /** Every limb filled from the one above it; zeros fill the highest, which is a plain shift of it (ShrIsShrd). */
  function ShiftedRight(k: nat, ls: seq<nat>, b: nat): seq<nat>
    requires b <= k
  {
    if ls == [] then []
    else [Shrd(k, ls[0], if |ls| == 1 then 0 else ls[1], b)] + ShiftedRight(k, ls[1..], b)
  }

  /** A number split at a limb: what a left shift by b makes of it. */
  lemma {:induction false} LeftLimb(k: nat, x: nat, v: nat, below: nat, b: nat)
    requires b <= k && below < Pow2(k)
    ensures Scale(x + Scale(v, k), b) + Shr(below, k - b)
         == Shld(k, x, below, b) + Scale(Scale(v, b) + Shr(x, k - b), k)
  {
    var h, l := Shr(x, k - b), Low(x, k - b);
    ShldIs(k, x, below, b);
    assert Scale(x, b) == Scale(h, k) + Scale(l, b) by {
      Parts(x, k - b);
      ScaleAdds(Scale(h, k - b), l, b);
      ScaleTwice(h, k - b, b);
    }
    assert Scale(x + Scale(v, k), b) == Scale(x, b) + Scale(Scale(v, b), k) by {
      ScaleAdds(x, Scale(v, k), b);
      ScaleTwice(v, k, b);
      ScaleTwice(v, b, k);
    }
    ScaleAdds(Scale(v, b), h, k);
  }

  /** What leaves the top limb; where there is none, what would have filled it. */
  function ShiftedOut(k: nat, ls: seq<nat>, below: nat, b: nat): nat
    requires b <= k
  {
    Shr(if ls == [] then below else ls[|ls| - 1], k - b)
  }

  /** With one more limb for what leaves, shifting limb by limb multiplies the whole number by 2^b. */
  lemma {:induction false} LeftShiftExact(k: nat, ls: seq<nat>, below: nat, b: nat)
    requires b <= k && below < Pow2(k) && AreLimbs(k, ls)
    ensures Value(k, ShiftedLeft(k, ls, below, b) + [ShiftedOut(k, ls, below, b)])
         == Scale(Value(k, ls), b) + Shr(below, k - b)
    decreases ls
  {
    var out := ShiftedOut(k, ls, below, b);
    if ls == [] {
      assert [] + [out] == [out];
      ValueOfOne(k, [out]);
      ScaleBit(0, b);
    } else {
      var rest := ShiftedLeft(k, ls[1..], ls[0], b) + [out];
      assert rest == ShiftedLeft(k, ls[1..], ls[0], b) + [ShiftedOut(k, ls[1..], ls[0], b)];
      LeftShiftExact(k, ls[1..], ls[0], b);
      ValueFromLow(k, ShiftedLeft(k, ls, below, b) + [out], Shld(k, ls[0], below, b), rest);
      LeftLimb(k, ls[0], Value(k, ls[1..]), below, b);
    }
  }

  lemma ValueFromLow(k: nat, ls: seq<nat>, low: nat, rest: seq<nat>)
    requires ls == [low] + rest
    ensures Value(k, ls) == low + Scale(Value(k, rest), k)
  {
    assert ls[1..] == rest;
  }

  lemma {:induction false} ValueOfAppended(k: nat, ls: seq<nat>, top: nat)
    ensures Value(k, ls + [top]) == Base(k, |ls|) * top + Value(k, ls)
    decreases ls
  {
    if ls == [] {
      assert [] + [top] == [top];
      ValueOfOne(k, [top]);
    } else {
      var rest := ls[1..];
      assert (ls + [top])[1..] == rest + [top];
      ValueOfAppended(k, rest, top);
      ScaleAdds(Base(k, |rest|) * top, Value(k, rest), k);
      ScaledProduct(k, Base(k, |rest|), top);
    }
  }

  lemma ScaledProduct(k: nat, x: nat, y: nat)
    ensures Scale(x * y, k) == Scale(x, k) * y
  {
    ScaleIsMul(x * y, k);
    ScaleIsMul(x, k);
    ProductAssociates(Pow2(k), x, y);
  }

  lemma ProductAssociates(p: nat, x: nat, y: nat)
    ensures p * (x * y) == (p * x) * y
  {
  }

  lemma {:induction false} ShiftedLimbs(k: nat, ls: seq<nat>, below: nat, b: nat)
    requires b <= k
    ensures |ShiftedLeft(k, ls, below, b)| == |ls| && AreLimbs(k, ShiftedLeft(k, ls, below, b))
    decreases ls
  {
    if ls != [] {
      ShiftedLimbs(k, ls[1..], ls[0], b);
    }
  }

  /** So the limbs hold that multiple modulo their width. */
  lemma LeftShift(k: nat, ls: seq<nat>, below: nat, b: nat)
    requires b <= k && below < Pow2(k) && AreLimbs(k, ls)
    ensures Value(k, ShiftedLeft(k, ls, below, b))
         == (Scale(Value(k, ls), b) + Shr(below, k - b)) % Base(k, |ls|)
  {
    var shifted, out := ShiftedLeft(k, ls, below, b), ShiftedOut(k, ls, below, b);
    LeftShiftExact(k, ls, below, b);
    ShiftedLimbs(k, ls, below, b);
    ValueIsBounded(k, shifted);
    ValueOfAppended(k, shifted, out);
    DivModUnique(Scale(Value(k, ls), b) + Shr(below, k - b), Base(k, |ls|), out, Value(k, shifted));
  }

  lemma RightLimb(k: nat, x: nat, y: nat, v: nat, b: nat)
    requires b <= k && x < Pow2(k) && Low(v, b) == Low(y, b)
    ensures Shr(x + Scale(v, k), b) == Shrd(k, x, y, b) + Scale(Shr(v, b), k)
  {
    var h, l := Shr(v, b), Low(v, b);
    ShrScaled(v, x, k, b);
    ShrdIs(k, x, y, b);
    assert Scale(v, k - b) == Scale(h, k) + Scale(l, k - b) by {
      Parts(v, b);
      ScaleAdds(Scale(h, b), l, k - b);
      ScaleTwice(h, b, k - b);
    }
  }

  /** The low bits of a number are those of its lowest limb. */
  lemma LowBitsOfValue(k: nat, ls: seq<nat>, b: nat)
    requires b <= k && ls != []
    ensures Low(Value(k, ls), b) == Low(ls[0], b)
  {
    var v := Value(k, ls[1..]);
    ScaleTwice(v, k - b, b);
    LowDrops(Scale(v, k - b), ls[0], b);
  }

  /** Shifting right limb by limb shifts the whole number. */
  lemma {:induction false} RightShifted(k: nat, ls: seq<nat>, b: nat)
    requires b <= k && AreLimbs(k, ls)
    ensures Value(k, ShiftedRight(k, ls, b)) == Shr(Value(k, ls), b)
    decreases ls
  {
    if ls == [] {
      ShrOfZero(b);
    } else {
      var rest := ls[1..];
      var y := if rest == [] then 0 else rest[0];
      if rest != [] {
        LowBitsOfValue(k, rest, b);
      }
      RightShifted(k, rest, b);
      ValueFromLow(k, ShiftedRight(k, ls, b), Shrd(k, ls[0], y, b), ShiftedRight(k, rest, b));
      RightLimb(k, ls[0], y, Value(k, rest), b);
    }
  }

  /** So it divides it by 2^b. */
  lemma RightShift(k: nat, ls: seq<nat>, b: nat)
    requires b <= k && AreLimbs(k, ls)
    ensures Value(k, ShiftedRight(k, ls, b)) == Value(k, ls) / Pow2(b)
  {
    RightShifted(k, ls, b);
    ShiftsDivide(Value(k, ls), b);
  }

  // ---------------------------------------------------------------------------------------------
  // Limb by limb on the machine
  // ---------------------------------------------------------------------------------------------

  lemma {:induction false} ShiftedLeftAt(k: nat, ls: seq<nat>, below: nat, b: nat, i: nat)
    requires b <= k && i < |ls|
    ensures |ShiftedLeft(k, ls, below, b)| == |ls|
    ensures ShiftedLeft(k, ls, below, b)[i] == Shld(k, ls[i], if i == 0 then below else ls[i - 1], b)
    decreases ls
  {
    ShiftedLimbs(k, ls, below, b);
    if i > 0 {
      ShiftedLeftAt(k, ls[1..], ls[0], b, i - 1);
    }
  }

  lemma {:induction false} ShiftedRightAt(k: nat, ls: seq<nat>, b: nat, i: nat)
    requires b <= k && i < |ls|
    ensures |ShiftedRight(k, ls, b)| == |ls|
    ensures ShiftedRight(k, ls, b)[i] == Shrd(k, ls[i], if i == |ls| - 1 then 0 else ls[i + 1], b)
    decreases ls
  {
    if |ls| > 1 {
      ShiftedRightAt(k, ls[1..], b, if i == 0 then 0 else i - 1);
    }
  }

  /** A count below the width is not masked away. */
  lemma CountStays(w: nat, b: nat)
    requires w <= 3 && b < Width(w)
    ensures IsWidth(Width(w)) && ShiftCount(w, b) == b == Masked(Width(w), b)
  {
  }

  lemma LimbStays(k: nat, x: nat)
    requires x < Pow2(k)
    ensures Truncated(k, x) == x
  {
    TruncatedIsLow(k, x);
    LowOfSmall(x, k);
  }

  method ShiftLimb(m: Machine, w: nat, x: nat, y: nat, b: nat, isRight: bool) returns (r: nat)
    requires w <= 3 && 0 < b < Width(w) && x < Pow2(Width(w)) && y < Pow2(Width(w))
    modifies m
    ensures r == if isRight then Shrd(Width(w), x, y, b) else Shld(Width(w), x, y, b)
  {
    CountStays(w, b);
    LimbStays(Width(w), x);
    r := BsuDoubleShift(m, w, x, y, b, isRight);
  }

  /** From the top limb down: each is filled from the one below, and the lowest shifted plainly. */
  method ShiftLeftAll(m: Machine, w: nat, ls: array<nat>, b: nat)
    requires w <= 3 && 0 < b < Width(w) && ls.Length > 0 && AreLimbs(Width(w), ls[..])
    modifies m, ls
    ensures ls[..] == ShiftedLeft(Width(w), old(ls[..]), 0, b)
    ensures Value(Width(w), ls[..]) == Scale(Value(Width(w), old(ls[..])), b) % Base(Width(w), ls.Length)
  {
    ghost var k, was := Width(w), ls[..];
    var i := ls.Length - 1;
    while i > 0
      invariant 0 <= i < ls.Length
      invariant ls[..i + 1] == was[..i + 1]
      invariant forall j :: i < j < ls.Length ==> ls[j] == Shld(k, was[j], was[j - 1], b)
    {
      assert ls[i] == was[i] && ls[i - 1] == was[i - 1];
      var r := ShiftLimb(m, w, ls[i], ls[i - 1], b, false);
      ls[i] := r;
      i := i - 1;
    }
    assert ls[0] == was[0];
    var r := ShiftLowest(m, w, ls[0], b);
    ls[0] := r;
    AllShiftedLeft(k, was, ls[..], b);
    LeftShift(k, was, 0, b);
    ShrOfZero(k - b);
  }

  method ShiftLowest(m: Machine, w: nat, x: nat, b: nat) returns (r: nat)
    requires w <= 3 && 0 < b < Width(w) && x < Pow2(Width(w))
    modifies m
    ensures r == Shld(Width(w), x, 0, b)
  {
    CountStays(w, b);
    LimbStays(Width(w), x);
    ShlIsShld(Width(w), x, b);
    r := Shl(m, Width(w), x, b);
  }

  lemma AllShiftedLeft(k: nat, was: seq<nat>, ls: seq<nat>, b: nat)
    requires b <= k && |was| == |ls| > 0 && ls[0] == Shld(k, was[0], 0, b)
    requires forall j :: 0 < j < |ls| ==> ls[j] == Shld(k, was[j], was[j - 1], b)
    ensures ls == ShiftedLeft(k, was, 0, b)
  {
    ShiftedLimbs(k, was, 0, b);
    forall j | 0 <= j < |ls|
      ensures ls[j] == ShiftedLeft(k, was, 0, b)[j]
    {
      ShiftedLeftAt(k, was, 0, b, j);
    }
  }

  /** From the lowest limb up: each is filled from the one above, and the top one shifted plainly. */
  method ShiftRightAll(m: Machine, w: nat, ls: array<nat>, b: nat)
    requires w <= 3 && 0 < b < Width(w) && ls.Length > 0 && AreLimbs(Width(w), ls[..])
    modifies m, ls
    ensures ls[..] == ShiftedRight(Width(w), old(ls[..]), b)
    ensures Value(Width(w), ls[..]) == Value(Width(w), old(ls[..])) / Pow2(b)
  {
    ghost var k, was := Width(w), ls[..];
    var i := 0;
    while i < ls.Length - 1
      invariant 0 <= i < ls.Length
      invariant ls[i..] == was[i..]
      invariant forall j :: 0 <= j < i ==> ls[j] == Shrd(k, was[j], was[j + 1], b)
    {
      assert ls[i] == was[i..][0] == was[i] && ls[i + 1] == was[i..][1] == was[i + 1];
      var r := ShiftLimb(m, w, ls[i], ls[i + 1], b, true);
      ls[i] := r;
      i := i + 1;
    }
    assert ls[i] == was[i..][0] == was[i];
    var r := ShiftHighest(m, w, ls[i], b);
    ls[i] := r;
    AllShiftedRight(k, was, ls[..], b);
    RightShift(k, was, b);
  }

  method ShiftHighest(m: Machine, w: nat, x: nat, b: nat) returns (r: nat)
    requires w <= 3 && 0 < b < Width(w) && x < Pow2(Width(w))
    modifies m
    ensures r == Shrd(Width(w), x, 0, b)
  {
    CountStays(w, b);
    LimbStays(Width(w), x);
    ShrIsShrd(Width(w), x, b);
    r := ShiftRight(m, Width(w), x, b);
  }

  lemma AllShiftedRight(k: nat, was: seq<nat>, ls: seq<nat>, b: nat)
    requires b <= k && |was| == |ls| > 0 && ls[|ls| - 1] == Shrd(k, was[|ls| - 1], 0, b)
    requires forall j :: 0 <= j < |ls| - 1 ==> ls[j] == Shrd(k, was[j], was[j + 1], b)
    ensures ls == ShiftedRight(k, was, b)
  {
    ShiftedRightAt(k, was, b, 0);
    forall j | 0 <= j < |ls|
      ensures ls[j] == ShiftedRight(k, was, b)[j]
    {
      ShiftedRightAt(k, was, b, j);
    }
  }
}

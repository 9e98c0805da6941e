/** Rotations through the carry (libblink/blink/alu.c). */
module Shifts {
  import opened Bits
  import opened Alu

  // ---------------------------------------------------------------------------------------------
  // Rotating a word of n bits
  // ---------------------------------------------------------------------------------------------

  /** One place to the left: the top bit comes in at the bottom. */
  function RotateLeft1(n: nat, w: nat): nat
    requires n >= 1
  {
    if w >= Pow2(n - 1) then 2 * (w - Pow2(n - 1)) + 1 else 2 * w
  }

  /** One place to the right: the bottom bit comes in at the top. */
  function RotateRight1(n: nat, w: nat): nat
    requires n >= 1
  {
    w / 2 + if w % 2 == 1 then Pow2(n - 1) else 0
  }

  function RotateLeft(n: nat, w: nat, y: nat): nat
    requires n >= 1
  {
    if y == 0 then w else RotateLeft1(n, RotateLeft(n, w, y - 1))
  }

  function RotateRight(n: nat, w: nat, y: nat): nat
    requires n >= 1
  {
    if y == 0 then w else RotateRight1(n, RotateRight(n, w, y - 1))
  }

  lemma {:induction false} RotateLeftStays(n: nat, w: nat, y: nat)
    requires n >= 1 && w < Pow2(n)
    ensures RotateLeft(n, w, y) < Pow2(n)
  {
    if y > 0 {
      RotateLeftStays(n, w, y - 1);
    }
  }

  lemma {:induction false} RotateRightStays(n: nat, w: nat, y: nat)
    requires n >= 1 && w < Pow2(n)
    ensures RotateRight(n, w, y) < Pow2(n)
  {
    if y > 0 {
      RotateRightStays(n, w, y - 1);
    }
  }

  lemma RotateTop(n: nat, t: nat, r: nat)
    requires n >= 1 && t <= 1 && r < Pow2(n - 1)
    ensures RotateLeft1(n, Scale(t, n - 1) + r) == 2 * r + t
  {
    ScaleBit(t, n - 1);
  }

  lemma RotateBottom(n: nat, v: nat, t: nat)
    requires n >= 1 && t <= 1
    ensures RotateRight1(n, 2 * v + t) == v + Scale(t, n - 1)
  {
    ScaleBit(t, n - 1);
    assert (2 * v + t) / 2 == v && (2 * v + t) % 2 == t;
  }

  /** A word of a + b bits from two of a and b. */
  lemma Joined(hi: nat, lo: nat, a: nat, b: nat)
    requires hi < Pow2(a) && lo < Pow2(b)
    ensures Scale(hi, b) + lo < Pow2(a + b)
  {
    ScaleLess(hi, Pow2(a), b);
    Pow2Scaled(a, b);
  }

  /** Taking the lowest bit of a high part down. */
  lemma LowBitDown(h: nat, t: nat, s: nat)
    ensures Scale(2 * h + t, s) == Scale(h, s + 1) + Scale(t, s)
  {
    ScaleAdds(h, h, s);
    ScaleAdds(2 * h, t, s);
  }

  /** A bit on top of s bits below it, shifted. */
  lemma Topped(t: nat, lo: nat, s: nat, p: nat, n: nat)
    requires t <= 1 && lo < Pow2(s) && n == s + p
    ensures Scale(t, s) + lo < Pow2(s + 1)
    ensures Scale(Scale(t, s) + lo, p) == Scale(t, n) + Scale(lo, p)
  {
    ScaleBit(t, s);
    ScaleAdds(Scale(t, s), lo, p);
    ScaleTwice(t, s, p);
  }

  /** Rotating left by y moves the top y bits below the others. */
  lemma {:induction false} RotateLeftSplits(n: nat, hi: nat, lo: nat, y: nat)
    requires n >= 1 && y <= n
    requires hi < Pow2(y) && lo < Pow2(n - y)
    ensures RotateLeft(n, Scale(hi, n - y) + lo, y) == Scale(lo, y) + hi
    decreases y, 0
  {
    if y > 0 {
      RotateLeftStep(n, hi / 2, hi % 2, lo, n - y, y - 1);
    } else {
      ScaleBit(0, n);
    }
  }

  lemma {:induction false} RotateLeftStep(n: nat, h: nat, t: nat, lo: nat, s: nat, p: nat)
    requires s + p + 1 == n && t <= 1 && lo < Pow2(s) && h < Pow2(p)
    ensures RotateLeft(n, Scale(2 * h + t, s) + lo, p + 1) == Scale(lo, p + 1) + (2 * h + t)
    decreases p, 1
  {
    var below := Scale(t, s) + lo;
    LowBitDown(h, t, s);
    Topped(t, lo, s, p, n - 1);
    RotateLeftSplits(n, h, below, p);
    Joined(lo, h, s, p);
    RotateTop(n, t, Scale(lo, p) + h);
  }

  /** Rotating right by y moves the bottom y bits above the others. */
  lemma {:induction false} RotateRightSplits(n: nat, hi: nat, lo: nat, y: nat)
    requires n >= 1 && y <= n
    requires hi < Pow2(n - y) && lo < Pow2(y)
    ensures RotateRight(n, Scale(hi, y) + lo, y) == Scale(lo, n - y) + hi
    decreases y, 0
  {
    if y > 0 {
      var t, l := Shr(lo, y - 1), Low(lo, y - 1);
      assert lo == Scale(t, y - 1) + l && t <= 1 by {
        Parts(lo, y - 1);
        ShrBound(lo, y, y - 1);
      }
      RotateRightStep(n, hi, t, l, n - y, y - 1);
    } else {
      ScaleBit(0, n);
    }
  }

  lemma {:induction false} RotateRightStep(n: nat, hi: nat, t: nat, l: nat, d: nat, p: nat)
    requires d + p + 1 == n && t <= 1 && l < Pow2(p) && hi < Pow2(d)
    ensures RotateRight(n, Scale(hi, p + 1) + (Scale(t, p) + l), p + 1) == Scale(Scale(t, p) + l, d) + hi
    decreases p, 1
  {
    LowBitDown(hi, t, p);
    Topped(t, l, p, d, n - 1);
    RotateRightSplits(n, 2 * hi + t, l, p);
    RotateBottom(n, Scale(l, d) + hi, t);
  }

  lemma {:induction false} RotateLeftAdds(n: nat, w: nat, a: nat, b: nat)
    requires n >= 1
    ensures RotateLeft(n, RotateLeft(n, w, a), b) == RotateLeft(n, w, a + b)
    decreases b
  {
    if b > 0 {
      RotateLeftAdds(n, w, a, b - 1);
    }
  }

  /** A whole turn. */
  lemma RotateLeftTurns(n: nat, w: nat)
    requires n >= 1 && w < Pow2(n)
    ensures RotateLeft(n, w, n) == w
  {
    ScaleBit(0, n);
    RotateLeftSplits(n, w, 0, n);
  }

  lemma RotateRightTurns(n: nat, w: nat)
    requires n >= 1 && w < Pow2(n)
    ensures RotateRight(n, w, n) == w
  {
    ScaleBit(0, n);
    RotateRightSplits(n, 0, w, n);
  }

  /** Counts add, and count modulo the number of bits. */
  lemma {:induction false} RotateLeftModulo(n: nat, w: nat, y: nat)
    requires n >= 1 && w < Pow2(n)
    ensures RotateLeft(n, w, y) == RotateLeft(n, w, y % n)
    decreases y
  {
    if y >= n {
      RotateLeftTurns(n, w);
      RotateLeftAdds(n, w, n, y - n);
      RotateLeftModulo(n, w, y - n);
      ModShifts(y - n, n, 1);
    } else {
      DivModUnique(y, n, 0, y);
    }
  }

  lemma {:induction false} RotateRightUnfolds(n: nat, w: nat, y: nat)
    requires n >= 1 && y > 0
    ensures RotateRight(n, w, y) == RotateRight(n, RotateRight1(n, w), y - 1)
    decreases y
  {
    if y > 1 {
      RotateRightUnfolds(n, w, y - 1);
    }
  }

  /** Rotating right undoes rotating left. */
  lemma {:induction false} RotateRightUndoesLeft(n: nat, w: nat, y: nat)
    requires n >= 1 && w < Pow2(n)
    ensures RotateRight(n, RotateLeft(n, w, y), y) == w
    decreases y
  {
    if y > 0 {
      RotateLeftStays(n, w, y - 1);
      RotateRightUnfolds(n, RotateLeft(n, w, y), y);
      RotateRightUndoesLeft(n, w, y - 1);
    }
  }

  lemma {:induction false} RotateRightAdds(n: nat, w: nat, a: nat, b: nat)
    requires n >= 1
    ensures RotateRight(n, RotateRight(n, w, a), b) == RotateRight(n, w, a + b)
    decreases b
  {
    if b > 0 {
      RotateRightAdds(n, w, a, b - 1);
    }
  }

  lemma {:induction false} RotateRightModulo(n: nat, w: nat, y: nat)
    requires n >= 1 && w < Pow2(n)
    ensures RotateRight(n, w, y) == RotateRight(n, w, y % n)
    decreases y
  {
    if y >= n {
      RotateRightTurns(n, w);
      RotateRightAdds(n, w, n, y - n);
      RotateRightModulo(n, w, y - n);
      ModShifts(y - n, n, 1);
    } else {
      DivModUnique(y, n, 0, y);
    }
  }

  /** So a right rotation is a left one by what is missing to a whole turn. */
  lemma {:induction false} RotateRightIsLeft(n: nat, w: nat, y: nat)
    requires n >= 1 && w < Pow2(n) && y <= n
    ensures RotateRight(n, w, y) == RotateLeft(n, w, n - y)
  {
    var v := RotateLeft(n, w, n - y);
    RotateLeftAdds(n, w, n - y, y);
    RotateLeftTurns(n, w);
    RotateLeftStays(n, w, n - y);
    RotateRightUndoesLeft(n, v, y);
  }

  // ---------------------------------------------------------------------------------------------
  // Through the carry
  // ---------------------------------------------------------------------------------------------

  /** A 64-bit left shift: the bits that stay. */
  function Shl64(x: nat, y: nat): nat
    requires y <= 64
  {
    Scale(Low(x, 64 - y), y)
  }

  /** The word CF:x of k + 1 bits. */
  function Word(k: nat, cf: bool, x: nat): nat {
    Scale(Bit(cf), k) + x
  }

  /** x in three parts: what is above place p, the bit there, and what is below. */
  lemma ThreeParts(x: nat, p: nat) returns (a: nat, b: nat, l: nat)
    ensures x == Scale(a, p + 1) + Scale(b, p) + l
    ensures b <= 1 && l < Pow2(p)
    ensures a == Shr(x, p + 1) && b == Shr(x, p) % 2 && l == Low(x, p)
  {
    var h := Shr(x, p);
    a, b, l := h / 2, h % 2, Low(x, p);
    Parts(x, p);
    ShrTwice(x, p, 1);
    LowBitDown(a, b, p);
  }

  /** What Rcl or's together, as one number: `q` is what stays of x, shifted above the carry and `a`. */
  lemma RclSum(y: nat, q: nat, c: nat, a: nat)
    requires y >= 1 && c <= 1 && a < Pow2(y - 1)
    ensures Or(Or(Scale(q, y), Scale(c, y - 1)), a) == Scale(q, y) + (Scale(c, y - 1) + a)
    ensures Scale(c, y - 1) + a < Pow2(y)
  {
    var s := Scale(c, y - 1);
    assert s == (if c == 1 then Pow2(y - 1) else 0) by {
      ScaleBit(c, y - 1);
    }
    assert Or(Scale(q, y), s) == Scale(2 * q + c, y - 1) == Scale(q, y) + s by {
      OrScaled(q, s, y);
      LowBitDown(q, c, y - 1);
    }
    OrScaled(2 * q + c, a, y - 1);
  }

  lemma RclTerms(k: nat, q: nat, y: nat, c: nat, a: nat)
    requires 1 <= y <= k && c <= 1 && a < Pow2(y - 1)
    ensures Low(Or(Or(Scale(q, y), Scale(c, y - 1)), a), k) == Scale(Low(q, k - y), y) + (Scale(c, y - 1) + a)
  {
    RclSum(y, q, c, a);
    LowScaled(q, Scale(c, y - 1) + a, y, k);
  }

  /** x through the carry, y places to the left: what is below the bit that leaves, the carry, and what is above it. */
  function ThroughLeft(k: nat, x: nat, y: nat, cf: bool): nat
    requires 1 <= y <= k
  {
    Scale(Low(x, k - y), y) + (Scale(Bit(cf), y - 1) + Shr(x, k + 1 - y))
  }

  /** The three terms of Rcl put these together. */
  lemma {:induction false} RclFormula(k: nat, x: nat, y: nat, cf: bool)
    requires 1 <= y <= k <= 64 && x < Pow2(k)
    ensures Low(Or(Or(Shl64(x, y), Scale(Bit(cf), y - 1)), Shr(x, k + 1 - y)), k) == ThroughLeft(k, x, y, cf)
  {
    RclFormulaOf(k, x, y, Bit(cf), Low(x, 64 - y), Shr(x, k + 1 - y), 64 - y);
  }

  lemma RclFormulaOf(k: nat, x: nat, y: nat, c: nat, q: nat, a: nat, n: nat)
    requires 1 <= y <= k && x < Pow2(k) && c <= 1 && a == Shr(x, k + 1 - y) && n >= k - y && q == Low(x, n)
    ensures Low(Or(Or(Scale(q, y), Scale(c, y - 1)), a), k) == Scale(Low(x, k - y), y) + (Scale(c, y - 1) + a)
  {
    assert a < Pow2(y - 1) by {
      ShrBound(x, k, k + 1 - y);
    }
    assert Low(q, k - y) == Low(x, k - y) by {
      LowTwice(x, k - y, n);
    }
    RclTerms(k, q, y, c, a);
  }

  /** So does the short form, for a rotation by one. */
  lemma RclFormulaByOne(k: nat, x: nat, y: nat, cf: bool)
    requires 1 == y <= k <= 64 && x < Pow2(k)
    ensures Low(Or(Shl64(x, y), Bit(cf)), k) == ThroughLeft(k, x, y, cf)
  {
    RclFormula(k, x, y, cf);
    OneTermLess(k, x, Shl64(x, y), Bit(cf), y);
  }

  lemma OneTermLess(k: nat, x: nat, z: nat, c: nat, y: nat)
    requires y == 1 && x < Pow2(k)
    ensures Or(Or(z, Scale(c, y - 1)), Shr(x, k + 1 - y)) == Or(z, c)
  {
    assert Scale(c, y - 1) == c;
    NothingAbove(k, x, Or(z, c));
  }

  lemma NothingAbove(k: nat, x: nat, z: nat)
    requires x < Pow2(k)
    ensures Or(z, Shr(x, k)) == z
  {
    ShrBound(x, k, k);
    OrZero(z);
  }

  /** And that is the rotation of CF:x. */
  lemma RclIsRotation(k: nat, x: nat, y: nat, cf: bool)
    requires 1 <= y <= k && x < Pow2(k)
    ensures Word(k, Shr(x, k - y) % 2 == 1, ThroughLeft(k, x, y, cf)) == RotateLeft(k + 1, Word(k, cf, x), y)
  {
    var a, b, l := ThreeParts(x, k - y);
    ShrBound(x, k, k + 1 - y);
    RclWord(k, x, y, cf, a, b, l);
  }

  lemma RclWord(k: nat, x: nat, y: nat, cf: bool, a: nat, b: nat, l: nat)
    requires 1 <= y <= k
    requires x == Scale(a, k + 1 - y) + Scale(b, k - y) + l
    requires a < Pow2(y - 1) && b <= 1 && l < Pow2(k - y)
    ensures RotateLeft(k + 1, Word(k, cf, x), y)
         == Word(k, b == 1, Scale(l, y) + (Scale(Bit(cf), y - 1) + a))
  {
    var c, s := Bit(cf), k - y;
    var hi, lo := Scale(c, y - 1) + a, Scale(b, s) + l;
    Topped(c, a, y - 1, s + 1, k);
    Topped(b, l, s, y, k);
    RotateLeftSplits(k + 1, hi, lo, y);
  }

  /** What Rcr or's together: the carry above what stays, and the low bits above both. */
  lemma RcrSum(k: nat, y: nat, q: nat, c: nat, a: nat)
    requires 1 <= y <= k && c <= 1 && a < Pow2(k - y)
    ensures Or(Or(a, Scale(c, k - y)), Scale(q, k + 1 - y)) == Scale(q, k + 1 - y) + (Scale(c, k - y) + a)
    ensures Scale(c, k - y) + a < Pow2(k + 1 - y)
  {
    ScaleBit(c, k - y);
    OrScaled(c, a, k - y);
    OrScaled(q, Scale(c, k - y) + a, k + 1 - y);
  }

  lemma RcrTerms(k: nat, q: nat, y: nat, c: nat, a: nat)
    requires 1 <= y <= k && c <= 1 && a < Pow2(k - y)
    ensures Low(Or(Or(a, Scale(c, k - y)), Scale(q, k + 1 - y)), k)
         == Scale(Low(q, y - 1), k + 1 - y) + (Scale(c, k - y) + a)
  {
    var s := k + 1 - y;
    RcrSum(k, y, q, c, a);
    LowScaled(q, Scale(c, k - y) + a, s, k);
    assert k - s == y - 1;
  }

  /** x through the carry, y places to the right. */
  function ThroughRight(k: nat, x: nat, y: nat, cf: bool): nat
    requires 1 <= y <= k
  {
    Scale(Low(x, y - 1), k + 1 - y) + (Scale(Bit(cf), k - y) + Shr(x, y))
  }

  lemma {:induction false} RcrFormula(k: nat, x: nat, y: nat, cf: bool)
    requires 1 <= y <= k <= 64 && x < Pow2(k)
    ensures Low(Or(Or(Shr(x, y), Scale(Bit(cf), k - y)), Shl64(x, k + 1 - y)), k) == ThroughRight(k, x, y, cf)
  {
    RcrFormulaOf(k, x, y, Bit(cf), Low(x, 64 - (k + 1 - y)), Shr(x, y), 64 - (k + 1 - y));
  }

  lemma RcrFormulaOf(k: nat, x: nat, y: nat, c: nat, q: nat, a: nat, n: nat)
    requires 1 <= y <= k && x < Pow2(k) && c <= 1 && a == Shr(x, y) && n >= y - 1 && q == Low(x, n)
    ensures Low(Or(Or(a, Scale(c, k - y)), Scale(q, k + 1 - y)), k)
         == Scale(Low(x, y - 1), k + 1 - y) + (Scale(c, k - y) + a)
  {
    assert a < Pow2(k - y) by {
      ShrBound(x, k, y);
    }
    assert Low(q, y - 1) == Low(x, y - 1) by {
      LowTwice(x, y - 1, n);
    }
    RcrTerms(k, q, y, c, a);
  }

  /** The short form drops a term that is zero, and shifts no further than 63. */
  lemma RcrFormulaByOne(k: nat, x: nat, y: nat, cf: bool)
    requires 1 == y <= k && x < Pow2(k)
    ensures Low(Or(Shr(x, y), Scale(Bit(cf), k - y)), k) == ThroughRight(k, x, y, cf)
  {
    ShrBound(x, k, y);
    CarryOnTop(k, Bit(cf), Shr(x, y), k - y);
    ScaleBit(0, k);
  }

  lemma CarryOnTop(k: nat, c: nat, a: nat, p: nat)
    requires p + 1 == k && c <= 1 && a < Pow2(p)
    ensures Low(Or(a, Scale(c, p)), k) == Scale(c, p) + a
  {
    OrScaled(c, a, p);
    ScaleBit(c, p);
    LowOfSmall(Scale(c, p) + a, k);
  }

  lemma RcrIsRotation(k: nat, x: nat, y: nat, cf: bool)
    requires 1 <= y <= k && x < Pow2(k)
    ensures Word(k, Shr(x, y - 1) % 2 == 1, ThroughRight(k, x, y, cf)) == RotateRight(k + 1, Word(k, cf, x), y)
  {
    var a, b, l := ThreeParts(x, y - 1);
    ShrBound(x, k, y);
    RcrWord(k, x, y, cf, a, b, l);
  }

  lemma RcrWord(k: nat, x: nat, y: nat, cf: bool, a: nat, b: nat, l: nat)
    requires 1 <= y <= k
    requires x == Scale(a, y) + Scale(b, y - 1) + l
    requires a < Pow2(k - y) && b <= 1 && l < Pow2(y - 1)
    ensures RotateRight(k + 1, Word(k, cf, x), y)
         == Word(k, b == 1, Scale(l, k + 1 - y) + (Scale(Bit(cf), k - y) + a))
  {
    var c, s := Bit(cf), k - y;
    var hi, lo := Scale(c, s) + a, Scale(b, y - 1) + l;
    Topped(c, a, s, y, k);
    Topped(b, l, y - 1, s + 1, k);
    RotateRightSplits(k + 1, hi, lo, y);
  }

  // ---------------------------------------------------------------------------------------------
  // The operations
  // ---------------------------------------------------------------------------------------------

  /** Replaces the carry and the overflow flag, and no other. */
  method RotateFlags(m: Machine, x: nat, cf: bool, of: bool) returns (r: nat)
    modifies m
    ensures r == x
    ensures m.flags == old(m.flags).(cf := cf, of := of)
  {
    m.flags := m.flags.(cf := cf, of := of);
    r := x;
  }

  lemma WordZero(k: nat, cf: bool, x: nat)
    ensures Word(k, cf, x) == if cf then Pow2(k) + x else x
  {
    ScaleBit(Bit(cf), k);
  }

  method RclBits(x: nat, y: nat, k: nat, cf: bool) returns (z: nat)
    requires 1 <= y <= k <= 64 && x < Pow2(k)
    ensures z == ThroughLeft(k, x, y, cf) && z < Pow2(k)
  {
    if y == 1 {
      RclFormulaByOne(k, x, y, cf);
      z := Low(Or(Shl64(x, 1), Bit(cf)), k);
    } else {
      RclFormula(k, x, y, cf);
      z := Low(Or(Or(Shl64(x, y), Scale(Bit(cf), y - 1)), Shr(x, k + 1 - y)), k);
    }
  }

  method Rcl(m: Machine, x64: nat, y: nat, k: nat) returns (r: nat)
    requires 1 <= k <= 64 && y <= k
    modifies m
    ensures r < Pow2(k)
    ensures Word(k, m.flags.cf, r) == RotateLeft(k + 1, Word(k, old(m.flags.cf), Truncated(k, x64)), y)
    ensures m.flags == old(m.flags).(cf := m.flags.cf,
      of := if y == 0 then old(m.flags.of) else m.flags.cf != (r >= Pow2(k - 1)))
  {
    var x := Truncated(k, x64);
    if y == 0 {
      return x;
    }
    var ct := Shr(x, k - y) % 2 == 1;
    RclIsRotation(k, x, y, m.flags.cf);
    x := RclBits(x, y, k, m.flags.cf);
    TopIsBit(k, x);
    r := RotateFlags(m, x, ct, ct != (Shr(x, k - 1) % 2 == 1));
  }

  lemma ShlByOne(x: nat, j: nat) returns (u: nat)
    requires j < 63
    ensures Shl64(x, 1) == 2 * u && Shr(u, j) % 2 == Shr(x, j) % 2
  {
    u := Low(x, 63);
    assert Scale(u, 1) == 2 * Scale(u, 0);
    BitOfLow(x, 63, j);
  }

  lemma ShrDouble(u: nat, n: nat)
    requires n >= 1
    ensures Shr(2 * u, n) == Shr(u, n - 1)
  {
    assert 2 * u / 2 == u;
  }

  lemma XorLow(a: nat, b: nat)
    ensures Xor(a, b) % 2 == if a % 2 != b % 2 then 1 else 0
  {
  }

  /** The overflow flag of Rcr compares the top two bits. */
  lemma TopTwoBits(k: nat, x: nat)
    requires 2 <= k <= 64 && x < Pow2(k)
    ensures Shr(Xor(Shl64(x, 1), x), k - 1) % 2 == 1 <==> (x >= Pow2(k - 1)) != (Shr(x, k - 2) % 2 == 1)
  {
    var u := ShlByOne(x, k - 2);
    TopTwoBitsOf(k, x, Shl64(x, 1), u);
  }

  lemma TopTwoBitsOf(k: nat, x: nat, doubled: nat, u: nat)
    requires k >= 2 && x < Pow2(k) && doubled == 2 * u && Shr(u, k - 2) % 2 == Shr(x, k - 2) % 2
    ensures Shr(Xor(doubled, x), k - 1) % 2 == 1 <==> (x >= Pow2(k - 1)) != (Shr(x, k - 2) % 2 == 1)
  {
    XorShifts(doubled, x, k - 1);
    ShrDouble(u, k - 1);
    TopIsBit(k, x);
    XorLow(Shr(u, k - 2), Shr(x, k - 1));
  }

  method RcrBits(x: nat, y: nat, k: nat, cf: bool) returns (z: nat)
    requires 1 <= y <= k <= 64 && x < Pow2(k)
    ensures z == ThroughRight(k, x, y, cf) && z < Pow2(k)
  {
    if y == 1 {
      RcrFormulaByOne(k, x, y, cf);
      z := Low(Or(Shr(x, 1), Scale(Bit(cf), k - 1)), k);
    } else {
      RcrFormula(k, x, y, cf);
      z := Low(Or(Or(Shr(x, y), Scale(Bit(cf), k - y)), Shl64(x, k + 1 - y)), k);
    }
  }

  method Rcr(m: Machine, x64: nat, y: nat, k: nat) returns (r: nat)
    requires 2 <= k <= 64 && y <= k
    modifies m
    ensures r < Pow2(k)
    ensures Word(k, m.flags.cf, r) == RotateRight(k + 1, Word(k, old(m.flags.cf), Truncated(k, x64)), y)
    ensures m.flags == old(m.flags).(cf := m.flags.cf,
      of := if y == 0 then old(m.flags.of) else (r >= Pow2(k - 1)) != (Shr(r, k - 2) % 2 == 1))
  {
    var x := Truncated(k, x64);
    if y == 0 {
      return x;
    }
    var ct := Shr(x, y - 1) % 2 == 1;
    RcrIsRotation(k, x, y, m.flags.cf);
    x := RcrBits(x, y, k, m.flags.cf);
    TopTwoBits(k, x);
    r := RotateFlags(m, x, ct, Shr(Xor(Shl64(x, 1), x), k - 1) % 2 == 1);
  }

  predicate IsWidth(k: nat) {
    k == 8 || k == 16 || k == 32 || k == 64
  }

  /** The count as the processor masks it. */
  function Masked(k: nat, y: nat): nat {
    if k == 64 then y % 64 else y % 32
  }

  /** The count the code rotates by: below the number of bits that go round. */
  function Count(k: nat, y: nat): (c: nat)
    requires IsWidth(k)
    ensures c <= k
  {
    if k == 8 then y % 32 % 9 else if k == 16 then y % 32 % 17 else if k == 32 then y % 32 else y % 64
  }

  lemma MaskedModulo(k: nat, y: nat)
    requires IsWidth(k)
    ensures Masked(k, y) % (k + 1) == Count(k, y)
  {
    if k == 8 {
      assert Masked(8, y) % 9 == Count(8, y);
    } else if k == 16 {
      assert Masked(16, y) % 17 == Count(16, y);
    } else if k == 32 {
      assert Masked(32, y) % 33 == Count(32, y);
    } else {
      assert Masked(64, y) % 65 == Count(64, y);
    }
  }

  lemma CountIsMasked(k: nat, w: nat, y: nat)
    requires IsWidth(k) && w < Pow2(k + 1)
    ensures RotateLeft(k + 1, w, Count(k, y)) == RotateLeft(k + 1, w, Masked(k, y))
  {
    MaskedModulo(k, y);
    RotateLeftModulo(k + 1, w, Masked(k, y));
  }

  lemma WordBound(k: nat, cf: bool, x: nat)
    requires x < Pow2(k)
    ensures Word(k, cf, x) < Pow2(k + 1)
  {
    WordZero(k, cf, x);
  }

  /** Rcl8, Rcl16, Rcl32 and Rcl64: a rotation by the whole masked count. */
  method RclBy(m: Machine, k: nat, x64: nat, y64: nat) returns (r: nat)
    requires IsWidth(k)
    modifies m
    ensures r < Pow2(k)
    ensures Word(k, m.flags.cf, r)
         == RotateLeft(k + 1, Word(k, old(m.flags.cf), Truncated(k, x64)), y64 % (if k == 64 then 64 else 32))
    ensures m.flags == old(m.flags).(cf := m.flags.cf,
      of := if y64 % (if k == 64 then 64 else 32) % (k + 1) == 0 then old(m.flags.of) else m.flags.cf != (r >= Pow2(k - 1)))
  {
    WordBound(k, m.flags.cf, Truncated(k, x64));
    MaskedModulo(k, y64);
    CountIsMasked(k, Word(k, m.flags.cf, Truncated(k, x64)), y64);
    r := Rcl(m, x64, Count(k, y64), k);
  }

  /** Rcr8, Rcr16, Rcr32 and Rcr64. */
  method RcrBy(m: Machine, k: nat, x64: nat, y64: nat) returns (r: nat)
    requires IsWidth(k)
    modifies m
    ensures r < Pow2(k)
    ensures Word(k, m.flags.cf, r)
         == RotateRight(k + 1, Word(k, old(m.flags.cf), Truncated(k, x64)), y64 % (if k == 64 then 64 else 32))
    ensures m.flags == old(m.flags).(cf := m.flags.cf,
      of := if y64 % (if k == 64 then 64 else 32) % (k + 1) == 0 then old(m.flags.of) else (r >= Pow2(k - 1)) != (Shr(r, k - 2) % 2 == 1))
  {
    ghost var w := Word(k, m.flags.cf, Truncated(k, x64));
    WordBound(k, m.flags.cf, Truncated(k, x64));
    MaskedModulo(k, y64);
    RotateRightModulo(k + 1, w, Masked(k, y64));
    r := Rcr(m, x64, Count(k, y64), k);
  }

  /** CF:x is determined by the word. */
  lemma WordIsInjective(k: nat, cf: bool, x: nat, cf': bool, x': nat)
    requires x < Pow2(k) && x' < Pow2(k)
    requires Word(k, cf, x) == Word(k, cf', x')
    ensures cf == cf' && x == x'
  {
    WordZero(k, cf, x);
    WordZero(k, cf', x');
  }

  /** Rcr by y after Rcl by y restores CF:x, whatever the count. */
  lemma RcrUndoesRcl(k: nat, w: nat, y: nat)
    requires IsWidth(k) && w < Pow2(k + 1)
    ensures RotateRight(k + 1, RotateLeft(k + 1, w, Masked(k, y)), Masked(k, y)) == w
  {
    RotateRightUndoesLeft(k + 1, w, Masked(k, y));
  }

  /** Both operations on the machine, one after the other: the word and the carry are back. */
  method RclThenRcr(m: Machine, k: nat, x64: nat, y64: nat) returns (r: nat)
    requires IsWidth(k)
    modifies m
    ensures r == Truncated(k, x64)
    ensures m.flags == old(m.flags).(of := m.flags.of)
  {
    ghost var cf, x := m.flags.cf, Truncated(k, x64);
    r := RclBy(m, k, x64, y64);
    ghost var cf', z := m.flags.cf, r;
    LowOfSmall(r, k);
    TruncatedIsLow(k, r);
    r := RcrBy(m, k, r, y64);
    WordBound(k, cf, x);
    RcrUndoesRcl(k, Word(k, cf, x), y64);
    WordIsInjective(k, m.flags.cf, r, cf, x);
  }

  /** Two rotations are one by the sum of their counts modulo k + 1. */
  lemma RclCountsAdd(k: nat, w: nat, y: nat, y': nat)
    requires IsWidth(k) && w < Pow2(k + 1)
    ensures RotateLeft(k + 1, RotateLeft(k + 1, w, Masked(k, y)), Masked(k, y'))
         == RotateLeft(k + 1, w, (Masked(k, y) + Masked(k, y')) % (k + 1))
  {
    RotateLeftAdds(k + 1, w, Masked(k, y), Masked(k, y'));
    RotateLeftModulo(k + 1, w, Masked(k, y) + Masked(k, y'));
  }
}

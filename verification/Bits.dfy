/** Bitwise operations on naturals, and what shifts and carries make of them. */
module Bits {

  function Pow2(n: nat): (p: nat)
    ensures p >= 1
  {
    if n == 0 then 1 else 2 * Pow2(n - 1)
  }

  function Or(x: nat, y: nat): nat
    decreases x + y
  {
    if x == 0 && y == 0 then 0
    else 2 * Or(x / 2, y / 2) + if x % 2 == 1 || y % 2 == 1 then 1 else 0
  }

  function And(x: nat, y: nat): nat {
    if x == 0 || y == 0 then 0
    else 2 * And(x / 2, y / 2) + if x % 2 == 1 && y % 2 == 1 then 1 else 0
  }

  function Xor(x: nat, y: nat): nat
    decreases x + y
  {
    if x == 0 && y == 0 then 0
    else 2 * Xor(x / 2, y / 2) + if x % 2 != y % 2 then 1 else 0
  }

  /** A left shift: m times 2^t. */
  function Scale(m: nat, t: nat): nat
    decreases t, m
  {
    if t == 0 then m else 2 * Scale(m, t - 1)
  }

  /** A right shift. */
  function Shr(x: nat, n: nat): nat
    decreases n, x
  {
    if n == 0 then x else Shr(x / 2, n - 1)
  }

  /** The n low bits of a number. */
  function Low(x: nat, n: nat): (r: nat)
    ensures r < Pow2(n)
    decreases n, x
  {
    if n == 0 then 0 else x % 2 + 2 * Low(x / 2, n - 1)
  }

  // ---------------------------------------------------------------------------------------------
  // Shifts
  // ---------------------------------------------------------------------------------------------

  lemma {:induction false} ScaleAdds(m: nat, n: nat, t: nat)
    ensures Scale(m + n, t) == Scale(m, t) + Scale(n, t)
    decreases t
  {
    if t > 0 {
      ScaleAdds(m, n, t - 1);
    }
  }

  lemma {:induction false} ScaleTwice(m: nat, t: nat, u: nat)
    ensures Scale(Scale(m, t), u) == Scale(m, t + u)
    decreases u
  {
    if u > 0 {
      ScaleTwice(m, t, u - 1);
    }
  }

  /** Shifting a bit. */
  lemma {:induction false} ScaleBit(c: nat, t: nat)
    requires c <= 1
    ensures Scale(c, t) == if c == 1 then Pow2(t) else 0
    decreases t
  {
    if t > 0 {
      ScaleBit(c, t - 1);
    }
  }

  lemma {:induction false} ScaleLess(v: nat, w: nat, t: nat)
    requires v < w
    ensures Scale(v, t) + Pow2(t) <= Scale(w, t)
    decreases t
  {
    if t > 0 {
      ScaleLess(v, w, t - 1);
    }
  }

  lemma {:induction false} Pow2Scaled(a: nat, b: nat)
    ensures Scale(Pow2(a), b) == Pow2(a + b)
    decreases b
  {
    if b > 0 {
      Pow2Scaled(a, b - 1);
    }
  }

  lemma {:induction false} ScaleIsMul(m: nat, t: nat)
    ensures Scale(m, t) == Pow2(t) * m
    decreases t
  {
    if t > 0 {
      ScaleIsMul(m, t - 1);
      TwiceTimes(Pow2(t - 1), m);
    }
  }

  lemma TwiceTimes(p: int, x: int)
    ensures (2 * p) * x == 2 * (p * x)
  {
  }

  /** A number is its high part and its low part. */
  lemma {:induction false} Parts(x: nat, n: nat)
    ensures x == Scale(Shr(x, n), n) + Low(x, n)
    decreases n
  {
    if n > 0 {
      Parts(x / 2, n - 1);
    }
  }

  lemma {:induction false} ShrTwice(x: nat, m: nat, n: nat)
    ensures Shr(x, m + n) == Shr(Shr(x, m), n)
    decreases m
  {
    if m > 0 {
      ShrTwice(x / 2, m - 1, n);
    }
  }

  lemma HalfOfScaled(h: nat, v: nat, n: nat)
    requires n > 0
    ensures (Scale(h, n) + v) / 2 == Scale(h, n - 1) + v / 2 && (Scale(h, n) + v) % 2 == v % 2
  {
    assert Scale(h, n) == 2 * Scale(h, n - 1);
  }

  /** A right shift of two parts. */
  lemma {:induction false} ShrScaled(h: nat, v: nat, n: nat, s: nat)
    requires s <= n
    ensures Shr(Scale(h, n) + v, s) == Scale(h, n - s) + Shr(v, s)
    decreases s
  {
    if s > 0 {
      HalfOfScaled(h, v, n);
      ShrScaled(h, v / 2, n - 1, s - 1);
    }
  }

  lemma {:induction false} ShrBound(v: nat, n: nat, s: nat)
    requires s <= n && v < Pow2(n)
    ensures Shr(v, s) < Pow2(n - s)
    decreases s
  {
    if s > 0 {
      ShrBound(v / 2, n - 1, s - 1);
    }
  }

  lemma {:induction false} ShrOfZero(t: nat)
    ensures Shr(0, t) == 0
    decreases t
  {
    if t > 0 {
      ShrOfZero(t - 1);
    }
  }

  lemma {:induction false} ShrPast(x: nat, n: nat, s: nat)
    requires x < Pow2(n) && s >= n
    ensures Shr(x, s) == 0
    decreases n
  {
    if n == 0 {
      ShrOfZero(s);
    } else {
      ShrPast(x / 2, n - 1, s - 1);
    }
  }

  /** The low bits of two parts. */
  lemma {:induction false} LowScaled(q: nat, v: nat, y: nat, k: nat)
    requires y <= k && v < Pow2(y)
    ensures Low(Scale(q, y) + v, k) == Scale(Low(q, k - y), y) + v
    decreases y
  {
    if y > 0 {
      HalfOfScaled(q, v, y);
      LowScaled(q, v / 2, y - 1, k - 1);
    }
  }

  /** Shifting h out of the word's reach leaves the word. */
  lemma {:induction false} LowDrops(h: nat, v: nat, k: nat)
    ensures Low(Scale(h, k) + v, k) == Low(v, k)
    decreases k
  {
    if k > 0 {
      HalfOfScaled(h, v, k);
      LowDrops(h, v / 2, k - 1);
    }
  }

  lemma {:induction false} LowTwice(x: nat, m: nat, n: nat)
    requires m <= n
    ensures Low(Low(x, n), m) == Low(x, m)
    decreases m
  {
    if m > 0 {
      LowTwice(x / 2, m - 1, n - 1);
    }
  }

  lemma {:induction false} LowOfSmall(x: nat, n: nat)
    requires x < Pow2(n)
    ensures Low(x, n) == x
    decreases n
  {
    if n > 0 {
      LowOfSmall(x / 2, n - 1);
    }
  }

  /** The low bits keep each bit. */
  lemma {:induction false} BitOfLow(x: nat, n: nat, j: nat)
    requires j < n
    ensures Shr(Low(x, n), j) % 2 == Shr(x, j) % 2
    decreases j
  {
    if j > 0 {
      BitOfLow(x / 2, n - 1, j - 1);
    }
  }

  // ---------------------------------------------------------------------------------------------
  // Division
  // ---------------------------------------------------------------------------------------------

  lemma MulGrows(a: nat, x: int, y: int)
    requires x <= y
    ensures a * x <= a * y
  {
    assert a * (y - x) >= 0;
    assert a * (y - x) == a * y - a * x;
  }

  /** Euclid's division is unique. */
  lemma DivModUnique(x: int, d: nat, q: int, r: int)
    requires d > 0 && 0 <= r < d && x == d * q + r
    ensures x / d == q && x % d == r
  {
    var u := x / d - q;
    assert d * u == d * (x / d) - d * q;
    if u >= 1 {
      MulGrows(d, 1, u);
    } else if u <= -1 {
      MulGrows(d, u, -1);
    }
  }

  /** The shifts divide by a power of two. */
  lemma ShiftsDivide(x: nat, n: nat)
    ensures Shr(x, n) == x / Pow2(n) && Low(x, n) == x % Pow2(n)
  {
    Parts(x, n);
    ScaleIsMul(Shr(x, n), n);
    DivModUnique(x, Pow2(n), Shr(x, n), Low(x, n));
  }

  // ---------------------------------------------------------------------------------------------
  // Bitwise operations
  // ---------------------------------------------------------------------------------------------

  lemma OrDoubled(h: nat, y: nat)
    ensures Or(2 * h, y) == 2 * Or(h, y / 2) + y % 2
  {
    assert 2 * h / 2 == h && 2 * h % 2 == 0;
  }

  lemma {:induction false} OrZero(x: nat)
    ensures Or(x, 0) == x
  {
    if x > 0 {
      OrZero(x / 2);
    }
  }

  lemma {:induction false} OrCommutes(x: nat, y: nat)
    ensures Or(x, y) == Or(y, x)
    decreases x + y
  {
    if x > 0 || y > 0 {
      OrCommutes(x / 2, y / 2);
    }
  }

  /** Filling the places a shift freed. */
  lemma {:induction false} OrScaled(x: nat, y: nat, n: nat)
    requires y < Pow2(n)
    ensures Or(Scale(x, n), y) == Scale(x, n) + y == Or(y, Scale(x, n))
    decreases n
  {
    OrCommutes(Scale(x, n), y);
    if n == 0 {
      OrZero(x);
    } else {
      OrScaled(x, y / 2, n - 1);
      OrDoubled(Scale(x, n - 1), y);
    }
  }

  lemma {:induction false} XorShifts(x: nat, y: nat, n: nat)
    ensures Shr(Xor(x, y), n) == Xor(Shr(x, n), Shr(y, n))
    decreases n
  {
    if n > 0 {
      assert Xor(x, y) / 2 == Xor(x / 2, y / 2);
      XorShifts(x / 2, y / 2, n - 1);
    }
  }

  lemma {:induction false} AndShifts(x: nat, y: nat, n: nat)
    ensures Shr(And(x, y), n) == And(Shr(x, n), Shr(y, n))
    decreases n
  {
    if n > 0 {
      assert And(x, y) / 2 == And(x / 2, y / 2);
      AndShifts(x / 2, y / 2, n - 1);
    }
  }

  /** The top bit of a k-bit word is 1 from half the range up. */
  lemma {:induction false} TopIsBit(k: nat, x: nat)
    requires k >= 1 && x < Pow2(k)
    ensures Shr(x, k - 1) == if x >= Pow2(k - 1) then 1 else 0
    decreases k
  {
    if k > 1 {
      TopIsBit(k - 1, x / 2);
    }
  }

  /** The overflow formulas look at top bits only. */
  lemma TopOfAndXor(k: nat, a: nat, b: nat, c: nat, d: nat)
    requires k >= 1 && a < Pow2(k) && b < Pow2(k) && c < Pow2(k) && d < Pow2(k)
    ensures
      var half := Pow2(k - 1);
      Shr(And(Xor(a, b), Xor(c, d)), k - 1) == if (a >= half) != (b >= half) && (c >= half) != (d >= half) then 1 else 0
  {
    AndShifts(Xor(a, b), Xor(c, d), k - 1);
    XorShifts(a, b, k - 1);
    XorShifts(c, d, k - 1);
    TopIsBit(k, a);
    TopIsBit(k, b);
    TopIsBit(k, c);
    TopIsBit(k, d);
    SmallBits(Shr(a, k - 1), Shr(b, k - 1), Shr(c, k - 1), Shr(d, k - 1));
  }

  lemma SmallBits(a: nat, b: nat, c: nat, d: nat)
    requires a <= 1 && b <= 1 && c <= 1 && d <= 1
    ensures And(Xor(a, b), Xor(c, d)) == if a != b && c != d then 1 else 0
  {
    assert Xor(a, b) == if a != b then 1 else 0;
    assert Xor(c, d) == if c != d then 1 else 0;
  }
}

/**
  Addition and subtraction with carry (libblink/blink/alu.c). A word of width k is a natural below
  2^k; the flags word is its named bits, the byte AluFlags keeps for the parity flag, and the rest.
 */
module Alu {
  import opened Bits

  datatype Flags = Flags(cf: bool, zf: bool, sf: bool, of: bool, af: bool, parity: nat, rest: nat)

  function Bit(b: bool): nat {
    if b then 1 else 0
  }

  /** A number wrapped around into `m` values. */
  function Wrap(m: nat, x: int): (r: nat)
    requires m > 0
    ensures r < m
    decreases x < 0, if x < 0 then -x else x
  {
    if x < 0 then Wrap(m, x + m) else if x >= m then Wrap(m, x - m) else x
  }

  lemma {:induction false} WrapIsMod(m: nat, x: int)
    requires m > 0
    ensures Wrap(m, x) == x % m
    decreases x < 0, if x < 0 then -x else x
  {
    if x < 0 {
      WrapIsMod(m, x + m);
      ModShifts(x, m, 1);
    } else if x >= m {
      WrapIsMod(m, x - m);
      ModShifts(x - m, m, 1);
    } else {
      DivModUnique(x, m, 0, x);
    }
  }

  lemma WrapsOnce(m: nat, x: int)
    requires m > 0 && 0 - m <= x < 2 * m
    ensures Wrap(m, x) == if x < 0 then x + m else if x >= m then x - m else x
  {
    if x < 0 {
      assert Wrap(m, x) == Wrap(m, x + m);
    } else if x >= m {
      assert Wrap(m, x) == Wrap(m, x - m);
    }
  }

  /** What a k-bit variable keeps of a number: its remainder modulo 2^k. */
  function Truncated(k: nat, x: int): (r: nat)
    ensures r < Pow2(k)
  {
    Wrap(Pow2(k), x)
  }

  /** The value of a k-bit word read as two's complement. */
  function Signed(k: nat, x: nat): int
    requires k >= 1
  {
    if x >= Pow2(k - 1) then x - Pow2(k) else x
  }

  predicate Fits(k: nat, v: int)
    requires k >= 1
  {
    0 - Pow2(k - 1) <= v < Pow2(k - 1)
  }

  /** The flags of adding x, y and a carry: unsigned and signed overflow, and the carry out of bit 3. */
  function AddFlags(k: nat, f: Flags, x: nat, y: nat, c: nat): Flags
    requires k >= 1
  {
    var z := Truncated(k, x + y + c);
    f.(cf := x + y + c >= Pow2(k), zf := z == 0, sf := z >= Pow2(k - 1),
       of := !Fits(k, Signed(k, x) + Signed(k, y) + c), af := x % 16 + y % 16 + c >= 16, parity := z % 256)
  }

  /** The flags of subtracting y and a borrow from x. */
  function SubFlags(k: nat, f: Flags, x: nat, y: nat, c: nat): Flags
    requires k >= 1
  {
    var z := Truncated(k, x - y - c);
    f.(cf := x < y + c, zf := z == 0, sf := z >= Pow2(k - 1),
       of := !Fits(k, Signed(k, x) - Signed(k, y) - c), af := x % 16 < y % 16 + c, parity := z % 256)
  }

  // ---------------------------------------------------------------------------------------------
  // Words
  // ---------------------------------------------------------------------------------------------

  lemma HalfPow(k: nat)
    requires k >= 1
    ensures Pow2(k) == 2 * Pow2(k - 1)
  {
  }

  lemma ModShifts(s: int, d: nat, q: int)
    requires d > 0
    ensures (s + d * q) % d == s % d
  {
    assert d * (s / d + q) == d * (s / d) + d * q;
    DivModUnique(s + d * q, d, s / d + q, s % d);
  }

  /** Wrapping at the word's width leaves the low four bits alone. */
  lemma WrapKeepsNibble(k: nat, s: int)
    requires k >= 4 && 0 - Pow2(k) <= s < 2 * Pow2(k)
    ensures Truncated(k, s) % 16 == s % 16
  {
    var q: int := Pow2(k - 4);
    assert Pow2(k) == 16 * q by {
      assert Pow2(k - 1) == 2 * Pow2(k - 2) && Pow2(k - 2) == 2 * Pow2(k - 3);
    }
    WrapsOnce(Pow2(k), s);
    ModShifts(s, 16, q);
    ModShifts(s, 16, 0 - q);
  }

  lemma TruncatedIsLow(k: nat, x: nat)
    ensures Truncated(k, x) == Low(x, k)
  {
    WrapIsMod(Pow2(k), x);
    ShiftsDivide(x, k);
  }

  class Machine {
    var flags: Flags

    constructor (flags: Flags)
      ensures this.flags == flags
    {
      this.flags := flags;
    }

    /** Replaces every arithmetic flag. */
    method AluFlags(x: nat, af: bool, of: bool, cf: bool, sf: bool) returns (r: nat)
      modifies this
      ensures r == x
      ensures flags == old(flags).(cf := cf, zf := x == 0, sf := sf, of := of, af := af, parity := x % 256)
    {
      flags := flags.(cf := cf, zf := x == 0, sf := sf, of := of, af := af, parity := x % 256);
      r := x;
    }

    /** Replaces every arithmetic flag but the carry. */
    method BumpFlags(x: nat, af: bool, of: bool, sf: bool) returns (r: nat)
      modifies this
      ensures r == x
      ensures flags == old(flags).(zf := x == 0, sf := sf, of := of, af := af, parity := x % 256)
    {
      r := AluFlags(x, af, of, flags.cf, sf);
    }

    method Add(k: nat, x64: nat, y64: nat) returns (r: nat)
      requires k >= 4
      modifies this
      ensures r == Truncated(k, Truncated(k, x64) + Truncated(k, y64))
      ensures flags == AddFlags(k, old(flags), Truncated(k, x64), Truncated(k, y64), 0)
    {
      var x: int, y: int := Truncated(k, x64), Truncated(k, y64);
      var z := Truncated(k, x + y);
      AddFlagsAre(k, flags, x, y, 0, x, z);
      r := AluFlags(z, z % 16 < y % 16, Shr(And(Xor(z, x), Xor(z, y)), k - 1) == 1, z < y, Shr(z, k - 1) == 1);
    }

    method Adc(k: nat, x64: nat, y64: nat) returns (r: nat)
      requires k >= 4
      modifies this
      ensures r == Truncated(k, Truncated(k, x64) + Truncated(k, y64) + Bit(old(flags).cf))
      ensures flags == AddFlags(k, old(flags), Truncated(k, x64), Truncated(k, y64), Bit(old(flags).cf))
    {
      var x: int, y: int := Truncated(k, x64), Truncated(k, y64);
      var t := Truncated(k, x + Bit(flags.cf));
      var z := Truncated(k, t + y);
      AddFlagsAre(k, flags, x, y, Bit(flags.cf), t, z);
      r := AluFlags(z, t % 16 < x % 16 || z % 16 < y % 16, Shr(And(Xor(z, x), Xor(z, y)), k - 1) == 1,
                    t < x || z < y, Shr(z, k - 1) == 1);
    }

    method Sub(k: nat, x64: nat, y64: nat) returns (r: nat)
      requires k >= 4
      modifies this
      ensures r == Truncated(k, Truncated(k, x64) - Truncated(k, y64))
      ensures flags == SubFlags(k, old(flags), Truncated(k, x64), Truncated(k, y64), 0)
    {
      var x: int, y: int := Truncated(k, x64), Truncated(k, y64);
      var z := Truncated(k, x - y);
      SubFlagsAre(k, flags, x, y, 0, x, z);
      r := AluFlags(z, x % 16 < z % 16, Shr(And(Xor(x, y), Xor(z, x)), k - 1) == 1, x < z, Shr(z, k - 1) == 1);
    }

    method Sbb(k: nat, x64: nat, y64: nat) returns (r: nat)
      requires k >= 4
      modifies this
      ensures r == Truncated(k, Truncated(k, x64) - Truncated(k, y64) - Bit(old(flags).cf))
      ensures flags == SubFlags(k, old(flags), Truncated(k, x64), Truncated(k, y64), Bit(old(flags).cf))
    {
      var x: int, y: int := Truncated(k, x64), Truncated(k, y64);
      var t: int := Truncated(k, x - Bit(flags.cf));
      var z := Truncated(k, t - y);
      SubFlagsAre(k, flags, x, y, Bit(flags.cf), t, z);
      r := AluFlags(z, x % 16 < t % 16 || t % 16 < z % 16, Shr(And(Xor(z, x), Xor(x, y)), k - 1) == 1,
                    x < t || t < z, Shr(z, k - 1) == 1);
    }

    method Inc(k: nat, x64: nat) returns (r: nat)
      requires k >= 4
      modifies this
      ensures r == Truncated(k, Truncated(k, x64) + 1)
      ensures flags == AddFlags(k, old(flags), Truncated(k, x64), 1, 0).(cf := old(flags).cf)
    {
      var x: int := Truncated(k, x64);
      var z := Truncated(k, x + 1);
      assert 1 < Pow2(k);
      AddFlagsAre(k, flags, x, 1, 0, x, z);
      r := BumpFlags(z, z % 16 == 0, Shr(And(Xor(z, x), Xor(z, 1)), k - 1) == 1, Shr(z, k - 1) == 1);
    }

    method Dec(k: nat, x64: nat) returns (r: nat)
      requires k >= 4
      modifies this
      ensures r == Truncated(k, Truncated(k, x64) - 1)
      ensures flags == SubFlags(k, old(flags), Truncated(k, x64), 1, 0).(cf := old(flags).cf)
    {
      var x: int := Truncated(k, x64);
      var z := Truncated(k, x - 1);
      SubFlagsAre(k, flags, x, 1, 0, x, z);
      r := BumpFlags(z, x % 16 < z % 16, Shr(And(Xor(z, x), Xor(x, 1)), k - 1) == 1, Shr(z, k - 1) == 1);
    }
  }

  /** How the code finds the carries: by what wrapped around. */
  lemma AddWraps(k: nat, x: nat, y: nat, c: nat)
    requires k >= 4 && x < Pow2(k) && y < Pow2(k) && c <= 1
    ensures
      var t := Truncated(k, x + c);
      var z := Truncated(k, t + y);
      && z == Truncated(k, x + y + c)
      && (t < x || z < y <==> x + y + c >= Pow2(k))
  {
    WrapsOnce(Pow2(k), x + c);
    WrapsOnce(Pow2(k), Truncated(k, x + c) + y);
    WrapsOnce(Pow2(k), x + y + c);
  }

  lemma AddCarriesNibble(k: nat, x: nat, y: nat, c: nat)
    requires k >= 4 && x < Pow2(k) && y < Pow2(k) && c <= 1
    ensures
      var t := Truncated(k, x + c);
      var z := Truncated(k, t + y);
      t % 16 < x % 16 || z % 16 < y % 16 <==> x % 16 + y % 16 + c >= 16
  {
    var t := Truncated(k, x + c);
    WrapKeepsNibble(k, x + c);
    WrapKeepsNibble(k, t + y);
    NibbleCarries(x, c, t % 16);
    NibbleCarries(t, y, (t + y) % 16);
  }

  lemma NibbleCarries(x: nat, y: nat, z: nat)
    requires z == (x + y) % 16
    ensures z == x % 16 + y % 16 || z == x % 16 + y % 16 - 16
  {
  }

  lemma AddOverflows(k: nat, x: nat, y: nat, c: nat)
    requires k >= 4 && x < Pow2(k) && y < Pow2(k) && c <= 1
    ensures
      var z := Truncated(k, x + y + c);
      && (Shr(And(Xor(z, x), Xor(z, y)), k - 1) == 1 <==> !Fits(k, Signed(k, x) + Signed(k, y) + c))
      && (Shr(z, k - 1) == 1 <==> z >= Pow2(k - 1))
  {
    var z := Truncated(k, x + y + c);
    HalfPow(k);
    WrapsOnce(Pow2(k), x + y + c);
    TopOfAndXor(k, z, x, z, y);
    TopIsBit(k, z);
  }

  lemma AddFlagsAre(k: nat, f: Flags, x: nat, y: nat, c: nat, t: nat, z: nat)
    requires k >= 4 && x < Pow2(k) && y < Pow2(k) && c <= 1
    requires t == Truncated(k, x + c) && z == Truncated(k, t + y)
    ensures z == Truncated(k, x + y + c)
    ensures f.(cf := t < x || z < y, zf := z == 0, sf := Shr(z, k - 1) == 1,
               of := Shr(And(Xor(z, x), Xor(z, y)), k - 1) == 1,
               af := t % 16 < x % 16 || z % 16 < y % 16, parity := z % 256) == AddFlags(k, f, x, y, c)
  {
    AddIsRight(k, x, y, c, t, z);
  }

  lemma SubFlagsAre(k: nat, f: Flags, x: nat, y: nat, c: nat, t: nat, z: nat)
    requires k >= 4 && x < Pow2(k) && y < Pow2(k) && c <= 1
    requires t == Truncated(k, x - c) && z == Truncated(k, t - y)
    ensures z == Truncated(k, x - y - c)
    ensures f.(cf := x < t || t < z, zf := z == 0, sf := Shr(z, k - 1) == 1,
               of := Shr(And(Xor(z, x), Xor(x, y)), k - 1) == 1,
               af := x % 16 < t % 16 || t % 16 < z % 16, parity := z % 256) == SubFlags(k, f, x, y, c)
    ensures (Shr(And(Xor(x, y), Xor(z, x)), k - 1) == 1) == SubFlags(k, f, x, y, c).of
  {
    SubIsRight(k, x, y, c, t, z);
  }

  /** The formulas of Add and Adc give the flags of the sum. */
  lemma AddIsRight(k: nat, x: nat, y: nat, c: nat, t: nat, z: nat)
    requires k >= 4 && x < Pow2(k) && y < Pow2(k) && c <= 1
    requires t == Truncated(k, x + c) && z == Truncated(k, t + y)
    ensures
      && z == Truncated(k, x + y + c)
      && (t < x || z < y <==> x + y + c >= Pow2(k))
      && (t % 16 < x % 16 || z % 16 < y % 16 <==> x % 16 + y % 16 + c >= 16)
      && (Shr(And(Xor(z, x), Xor(z, y)), k - 1) == 1 <==> !Fits(k, Signed(k, x) + Signed(k, y) + c))
      && (Shr(z, k - 1) == 1 <==> z >= Pow2(k - 1))
  {
    AddWraps(k, x, y, c);
    AddCarriesNibble(k, x, y, c);
    AddOverflows(k, x, y, c);
  }

  lemma SubWraps(k: nat, x: nat, y: nat, c: nat)
    requires k >= 4 && x < Pow2(k) && y < Pow2(k) && c <= 1
    ensures
      var t := Truncated(k, x - c);
      var z := Truncated(k, t - y);
      && z == Truncated(k, x - y - c)
      && (x < t || t < z <==> x < y + c)
  {
    WrapsOnce(Pow2(k), x - c);
    WrapsOnce(Pow2(k), Truncated(k, x - c) - y);
    WrapsOnce(Pow2(k), x - y - c);
  }

  lemma SubBorrowsNibble(k: nat, x: nat, y: nat, c: nat)
    requires k >= 4 && x < Pow2(k) && y < Pow2(k) && c <= 1
    ensures
      var t := Truncated(k, x - c);
      var z := Truncated(k, t - y);
      x % 16 < t % 16 || t % 16 < z % 16 <==> x % 16 < y % 16 + c
  {
    var t := Truncated(k, x - c);
    WrapKeepsNibble(k, x - c);
    WrapKeepsNibble(k, t - y);
    NibbleBorrows(x, c, t % 16);
    NibbleBorrows(t, y, (t - y) % 16);
  }

  lemma NibbleBorrows(x: nat, y: nat, z: nat)
    requires z == (x - y) % 16
    ensures z == x % 16 - y % 16 || z == x % 16 - y % 16 + 16
  {
  }

  lemma SubOverflows(k: nat, x: nat, y: nat, c: nat)
    requires k >= 4 && x < Pow2(k) && y < Pow2(k) && c <= 1
    ensures
      var z := Truncated(k, x - y - c);
      && (Shr(And(Xor(z, x), Xor(x, y)), k - 1) == 1 <==> !Fits(k, Signed(k, x) - Signed(k, y) - c))
      && (Shr(And(Xor(x, y), Xor(z, x)), k - 1) == 1 <==> !Fits(k, Signed(k, x) - Signed(k, y) - c))
      && (Shr(z, k - 1) == 1 <==> z >= Pow2(k - 1))
  {
    var z := Truncated(k, x - y - c);
    HalfPow(k);
    WrapsOnce(Pow2(k), x - y - c);
    TopOfAndXor(k, z, x, x, y);
    TopOfAndXor(k, x, y, z, x);
    TopIsBit(k, z);
  }

  /** The formulas of Sub and Sbb give the flags of the difference. */
  lemma SubIsRight(k: nat, x: nat, y: nat, c: nat, t: nat, z: nat)
    requires k >= 4 && x < Pow2(k) && y < Pow2(k) && c <= 1
    requires t == Truncated(k, x - c) && z == Truncated(k, t - y)
    ensures
      && z == Truncated(k, x - y - c)
      && (x < t || t < z <==> x < y + c)
      && (x % 16 < t % 16 || t % 16 < z % 16 <==> x % 16 < y % 16 + c)
      && (Shr(And(Xor(z, x), Xor(x, y)), k - 1) == 1 <==> !Fits(k, Signed(k, x) - Signed(k, y) - c))
      && (Shr(And(Xor(x, y), Xor(z, x)), k - 1) == 1 <==> !Fits(k, Signed(k, x) - Signed(k, y) - c))
      && (Shr(z, k - 1) == 1 <==> z >= Pow2(k - 1))
  {
    SubWraps(k, x, y, c);
    SubBorrowsNibble(k, x, y, c);
    SubOverflows(k, x, y, c);
  }
}

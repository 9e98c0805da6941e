/** Parallel bit deposit and extract (libblink/blink/avx2.c). */
module Bmi {
  import opened Bits

  /** Scatters the low bits of x to where the mask has ones. */
  function Deposited(x: nat, mask: nat): nat
    decreases mask
  {
    if mask == 0 then 0
    else if mask % 2 == 1 then x % 2 + 2 * Deposited(x / 2, mask / 2)
    else 2 * Deposited(x, mask / 2)
  }

  /** Gathers the bits of x where the mask has ones. */
  function Extracted(x: nat, mask: nat): nat
    decreases mask
  {
    if mask == 0 then 0
    else if mask % 2 == 1 then x % 2 + 2 * Extracted(x / 2, mask / 2)
    else Extracted(x / 2, mask / 2)
  }

  function Ones(mask: nat): nat {
    if mask == 0 then 0 else mask % 2 + Ones(mask / 2)
  }

  /** How many ones the mask has below place i. */
  function Rank(mask: nat, i: nat): nat
    decreases i
  {
    if i == 0 then 0 else mask % 2 + Rank(mask / 2, i - 1)
  }

  /** Setting a bit above all that are set. */
  lemma OrAbove(r: nat, n: nat)
    requires r < Pow2(n)
    ensures Or(r, Pow2(n)) == r + Pow2(n)
  {
    ScaleBit(1, n);
    OrScaled(1, r, n);
  }

  lemma NextBit(n: nat, rest: nat, bit: nat)
    requires bit <= 1
    ensures Scale(bit + 2 * rest, n) == (if bit == 1 then Pow2(n) else 0) + Scale(rest, n + 1)
  {
    ScaleBit(bit, n);
    ScaleAdds(rest, rest, n);
    ScaleAdds(bit, 2 * rest, n);
  }

  method Pdep(x0: nat, mask0: nat) returns (r: nat)
    ensures r == Deposited(x0, mask0)
  {
    var x, mask, b := x0, mask0, 1;
    ghost var n := 0;
    r := 0;
    while mask != 0
      invariant b == Pow2(n) && r < b
      invariant Deposited(x0, mask0) == r + Scale(Deposited(x, mask), n)
      decreases mask
    {
      if mask % 2 == 1 {
        NextBit(n, Deposited(x / 2, mask / 2), x % 2);
        if x % 2 == 1 {
          OrAbove(r, n);
          r := Or(r, b);
        }
        x := x / 2;
      } else {
        NextBit(n, Deposited(x, mask / 2), 0);
      }
      mask, b, n := mask / 2, 2 * b, n + 1;
    }
    ScaleBit(0, n);
  }

  method Pext(x0: nat, mask0: nat) returns (r: nat)
    ensures r == Extracted(x0, mask0)
  {
    var x, mask, b := x0, mask0, 1;
    ghost var n := 0;
    r := 0;
    while mask != 0
      invariant b == Pow2(n) && r < b
      invariant Extracted(x0, mask0) == r + Scale(Extracted(x, mask), n)
      decreases mask
    {
      if mask % 2 == 1 {
        NextBit(n, Extracted(x / 2, mask / 2), x % 2);
        if x % 2 == 1 {
          OrAbove(r, n);
          r := Or(r, b);
        }
        b, n := 2 * b, n + 1;
      }
      mask, x := mask / 2, x / 2;
    }
    ScaleBit(0, n);
  }

  lemma ExtractedOdd(v: nat, mask: nat, bit: nat, d: nat)
    requires mask % 2 == 1 && bit <= 1 && v == bit + 2 * d
    ensures Extracted(v, mask) == bit + 2 * Extracted(d, mask / 2)
  {
    assert v % 2 == bit && v / 2 == d;
  }

  lemma {:induction false} ExtractDepositedLow(x: nat, mask: nat)
    ensures Extracted(Deposited(x, mask), mask) == Low(x, Ones(mask))
    decreases mask
  {
    if mask == 0 {
    } else if mask % 2 == 1 {
      var d := Deposited(x / 2, mask / 2);
      ExtractDepositedLow(x / 2, mask / 2);
      ExtractedOdd(x % 2 + 2 * d, mask, x % 2, d);
      assert Ones(mask) == 1 + Ones(mask / 2);
    } else {
      var d := Deposited(x, mask / 2);
      ExtractDepositedLow(x, mask / 2);
      assert Extracted(2 * d, mask) == Extracted(d, mask / 2) by {
        assert 2 * d / 2 == d;
      }
      assert Ones(mask) == Ones(mask / 2);
    }
  }

  /** Extracting what was deposited gives the low bits of x, as many as the mask has ones. */
  lemma ExtractDeposited(x: nat, mask: nat)
    ensures Extracted(Deposited(x, mask), mask) == x % Pow2(Ones(mask))
  {
    ExtractDepositedLow(x, mask);
    ShiftsDivide(x, Ones(mask));
  }

  /** Depositing what was extracted keeps of x what the mask selects. */
  lemma {:induction false} DepositExtracted(x: nat, mask: nat)
    ensures Deposited(Extracted(x, mask), mask) == And(x, mask)
    decreases mask
  {
    if mask == 0 {
    } else {
      DepositExtracted(x / 2, mask / 2);
      AndSplits(x, mask);
      var e := Extracted(x / 2, mask / 2);
      if mask % 2 == 1 {
        assert (x % 2 + 2 * e) / 2 == e && (x % 2 + 2 * e) % 2 == x % 2;
      }
    }
  }

  lemma AndSplits(x: nat, mask: nat)
    ensures And(x, mask) == 2 * And(x / 2, mask / 2) + if x % 2 == 1 && mask % 2 == 1 then 1 else 0
  {
  }

  /** Place i of a deposit holds the bit of x whose number is the rank of i, if the mask selects it. */
  lemma {:induction false} DepositPlaces(x: nat, mask: nat, i: nat)
    ensures Shr(Deposited(x, mask), i) % 2 == if Shr(mask, i) % 2 == 1 then Shr(x, Rank(mask, i)) % 2 else 0
    decreases i
  {
    if mask == 0 {
      ShrOfZero(i);
    } else if i > 0 {
      var x' := if mask % 2 == 1 then x / 2 else x;
      DepositPlaces(x', mask / 2, i - 1);
      assert Deposited(x, mask) / 2 == Deposited(x', mask / 2);
    }
  }

  /** A selected place i of x comes out at its rank. */
  lemma {:induction false} ExtractPlaces(x: nat, mask: nat, i: nat)
    requires Shr(mask, i) % 2 == 1
    ensures Shr(Extracted(x, mask), Rank(mask, i)) % 2 == Shr(x, i) % 2
    decreases i
  {
    if mask == 0 {
      ShrOfZero(i);
    } else if i > 0 {
      ExtractPlaces(x / 2, mask / 2, i - 1);
      assert mask % 2 == 1 ==> Extracted(x, mask) / 2 == Extracted(x / 2, mask / 2);
    }
  }

  /** And nothing comes out past the ranks. */
  lemma {:induction false} ExtractedIsBounded(x: nat, mask: nat)
    ensures Extracted(x, mask) < Pow2(Ones(mask))
    decreases mask
  {
    if mask != 0 {
      ExtractedIsBounded(x / 2, mask / 2);
    }
  }
}

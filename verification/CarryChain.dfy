/**
  Numbers of many limbs, added and subtracted limb by limb with the carry left in the flags by the
  operation before (libblink/blink/alu.c).
 */
module CarryChain {
  import opened Bits
  import opened Alu

  /** An operation of the table `kAlu`, with the operands the machine hands it. */
  datatype Instr = AddI(x: nat, y: nat) | AdcI(x: nat, y: nat) | SubI(x: nat, y: nat) | SbbI(x: nat, y: nat)
                 | IncI(x: nat) | DecI(x: nat)

  function Result(k: nat, f: Flags, i: Instr): nat {
    match i
    case AddI(x, y) => Truncated(k, Truncated(k, x) + Truncated(k, y))
    case AdcI(x, y) => Truncated(k, Truncated(k, x) + Truncated(k, y) + Bit(f.cf))
    case SubI(x, y) => Truncated(k, Truncated(k, x) - Truncated(k, y))
    case SbbI(x, y) => Truncated(k, Truncated(k, x) - Truncated(k, y) - Bit(f.cf))
    case IncI(x) => Truncated(k, Truncated(k, x) + 1)
    case DecI(x) => Truncated(k, Truncated(k, x) - 1)
  }

  function After(k: nat, f: Flags, i: Instr): Flags
    requires k >= 1
  {
    match i
    case AddI(x, y) => AddFlags(k, f, Truncated(k, x), Truncated(k, y), 0)
    case AdcI(x, y) => AddFlags(k, f, Truncated(k, x), Truncated(k, y), Bit(f.cf))
    case SubI(x, y) => SubFlags(k, f, Truncated(k, x), Truncated(k, y), 0)
    case SbbI(x, y) => SubFlags(k, f, Truncated(k, x), Truncated(k, y), Bit(f.cf))
    case IncI(x) => AddFlags(k, f, Truncated(k, x), 1, 0).(cf := f.cf)
    case DecI(x) => SubFlags(k, f, Truncated(k, x), 1, 0).(cf := f.cf)
  }

  /** Runs one operation of the table. */
  method Dispatch(m: Machine, k: nat, i: Instr) returns (r: nat)
    requires k >= 4
    modifies m
    ensures r == Result(k, old(m.flags), i)
    ensures m.flags == After(k, old(m.flags), i)
  {
    match i {
      case AddI(x, y) => r := m.Add(k, x, y);
      case AdcI(x, y) => r := m.Adc(k, x, y);
      case SubI(x, y) => r := m.Sub(k, x, y);
      case SbbI(x, y) => r := m.Sbb(k, x, y);
      case IncI(x) => r := m.Inc(k, x);
      case DecI(x) => r := m.Dec(k, x);
    }
  }

  // ---------------------------------------------------------------------------------------------
  // Runs
  // ---------------------------------------------------------------------------------------------

  predicate IsCounter(i: Instr) {
    i.IncI? || i.DecI?
  }

  function FlagsAfter(k: nat, f: Flags, prog: seq<Instr>): Flags
    requires k >= 1
    decreases prog
  {
    if prog == [] then f else FlagsAfter(k, After(k, f, prog[0]), prog[1..])
  }

  /** The results of the limb operations; what the counters between them count is left out. */
  function Results(k: nat, f: Flags, prog: seq<Instr>): seq<nat>
    requires k >= 1
    decreases prog
  {
    if prog == [] then []
    else
      (if IsCounter(prog[0]) then [] else [Result(k, f, prog[0])])
      + Results(k, After(k, f, prog[0]), prog[1..])
  }

  function Lefts(k: nat, prog: seq<Instr>): seq<nat> {
    if prog == [] then []
    else (if IsCounter(prog[0]) then [] else [Truncated(k, prog[0].x)]) + Lefts(k, prog[1..])
  }

  function Rights(k: nat, prog: seq<Instr>): (r: seq<nat>)
    ensures |r| == |Lefts(k, prog)|
  {
    if prog == [] then []
    else (if IsCounter(prog[0]) then [] else [Truncated(k, prog[0].y)]) + Rights(k, prog[1..])
  }

  /** Additions with carry, and counters anywhere between them. */
  predicate IsAddition(prog: seq<Instr>) {
    forall i :: i in prog ==> i.AdcI? || IsCounter(i)
  }

  predicate IsSubtraction(prog: seq<Instr>) {
    forall i :: i in prog ==> i.SbbI? || IsCounter(i)
  }

  /** Runs the operations in turn on the machine. */
  method Run(m: Machine, k: nat, prog: seq<Instr>) returns (rs: seq<nat>)
    requires k >= 4
    modifies m
    ensures rs == Results(k, old(m.flags), prog)
    ensures m.flags == FlagsAfter(k, old(m.flags), prog)
  {
    rs := [];
    for i := 0 to |prog|
      invariant Results(k, old(m.flags), prog) == rs + Results(k, m.flags, prog[i..])
      invariant FlagsAfter(k, old(m.flags), prog) == FlagsAfter(k, m.flags, prog[i..])
    {
      assert prog[i..][1..] == prog[i + 1..];
      var r := Dispatch(m, k, prog[i]);
      rs := rs + if IsCounter(prog[i]) then [] else [r];
    }
  }

  // ---------------------------------------------------------------------------------------------
  // Numbers
  // ---------------------------------------------------------------------------------------------

  /** 2^(k n). */
  function Base(k: nat, n: nat): (b: nat)
    ensures b >= 1
  {
    if n == 0 then 1 else ScaleBit(1, k); ScaleLess(0, Base(k, n - 1), k); Scale(Base(k, n - 1), k)
  }

  lemma {:induction false} BaseIsPow2(k: nat, n: nat)
    ensures Base(k, n) == Pow2(k * n)
    decreases n
  {
    if n > 0 {
      BaseIsPow2(k, n - 1);
      assert k * n == k * (n - 1) + k;
      Pow2Scaled(k * (n - 1), k);
    }
  }

  predicate AreLimbs(k: nat, ls: seq<nat>) {
    forall i :: 0 <= i < |ls| ==> ls[i] < Pow2(k)
  }

  /** The number limbs stand for, the lowest first. */
  function Value(k: nat, ls: seq<nat>): nat {
    if ls == [] then 0 else ls[0] + Scale(Value(k, ls[1..]), k)
  }

  /** Whether the sign bit, the top one of the top limb, is set. */
  predicate IsNegative(k: nat, ls: seq<nat>)
    requires k >= 1 && ls != []
  {
    ls[|ls| - 1] >= Pow2(k - 1)
  }

  /** The same limbs read as two's complement. */
  function SignedValue(k: nat, ls: seq<nat>): int
    requires k >= 1 && ls != []
  {
    Value(k, ls) - if IsNegative(k, ls) then Base(k, |ls|) else 0
  }

  /** Half of 2^(k n), where the sign bit stands. */
  function Half(k: nat, n: nat): nat
    requires k >= 1 && n >= 1
    decreases n
  {
    if n == 1 then Pow2(k - 1) else Scale(Half(k, n - 1), k)
  }

  lemma {:induction false} BaseIsTwoHalves(k: nat, n: nat)
    requires k >= 1 && n >= 1
    ensures Base(k, n) == 2 * Half(k, n)
    decreases n
  {
    if n == 1 {
      assert Base(k, 0) == 1;
      ScaleBit(1, k);
    } else {
      BaseIsTwoHalves(k, n - 1);
      ScaleAdds(Half(k, n - 1), Half(k, n - 1), k);
    }
  }

  /** A number below t limbs up is one whose upper limbs are below t. */
  lemma LimbsCompare(k: nat, x: nat, v: nat, t: nat)
    requires x < Pow2(k)
    ensures x + Scale(v, k) < Scale(t, k) <==> v < t
  {
    if v < t {
      ScaleLess(v, t, k);
    } else if t < v {
      ScaleLess(t, v, k);
    }
  }

  lemma {:induction false} ValueIsBounded(k: nat, ls: seq<nat>)
    requires AreLimbs(k, ls)
    ensures Value(k, ls) < Base(k, |ls|)
  {
    if ls != [] {
      ValueIsBounded(k, ls[1..]);
      LimbsCompare(k, ls[0], Value(k, ls[1..]), Base(k, |ls| - 1));
    }
  }

  lemma LimbsDiffer(k: nat, x: nat, v: nat, y: nat, w: nat)
    requires x < Pow2(k) && y < Pow2(k) && x + Scale(v, k) == y + Scale(w, k)
    ensures x == y && v == w
  {
    if v < w {
      ScaleLess(v, w, k);
    } else if w < v {
      ScaleLess(w, v, k);
    }
  }

  /** Limbs are determined by the number they stand for. */
  lemma {:induction false} ValueIsInjective(k: nat, xs: seq<nat>, ys: seq<nat>)
    requires AreLimbs(k, xs) && AreLimbs(k, ys) && |xs| == |ys|
    requires Value(k, xs) == Value(k, ys)
    ensures xs == ys
  {
    if xs != [] {
      LimbsDiffer(k, xs[0], Value(k, xs[1..]), ys[0], Value(k, ys[1..]));
      ValueIsInjective(k, xs[1..], ys[1..]);
    }
  }

  /** The sign bit is set from half the range up. */
  lemma {:induction false} SignBit(k: nat, ls: seq<nat>)
    requires k >= 1 && ls != [] && AreLimbs(k, ls)
    ensures IsNegative(k, ls) <==> Value(k, ls) >= Half(k, |ls|)
  {
    if |ls| == 1 {
      ValueOfOne(k, ls);
    } else {
      SignBit(k, ls[1..]);
      LimbsCompare(k, ls[0], Value(k, ls[1..]), Half(k, |ls| - 1));
    }
  }

  lemma ValueOfOne(k: nat, ls: seq<nat>)
    requires |ls| == 1
    ensures Value(k, ls) == ls[0]
  {
    assert ls[1..] == [];
    ScaleBit(0, k);
  }

  lemma SignedOne(k: nat, x: nat)
    requires k >= 1 && x < Pow2(k)
    ensures SignedValue(k, [x]) == Signed(k, x)
  {
    ValueOfOne(k, [x]);
    assert Base(k, 0) == 1;
    ScaleBit(1, k);
  }

  // ---------------------------------------------------------------------------------------------
  // Chains
  // ---------------------------------------------------------------------------------------------

  /** One limb: the carry is what the sum has past 2^k. */
  lemma AddStep(k: nat, x: nat, y: nat, c: nat)
    requires k >= 4 && x < Pow2(k) && y < Pow2(k) && c <= 1
    ensures Truncated(k, x + y + c) + (if x + y + c >= Pow2(k) then Pow2(k) else 0) == x + y + c
  {
    WrapsOnce(Pow2(k), x + y + c);
  }

  lemma SubStep(k: nat, x: nat, y: nat, c: nat)
    requires k >= 4 && x < Pow2(k) && y < Pow2(k) && c <= 1
    ensures Truncated(k, x - y - c) == x - y - c + (if x < y + c then Pow2(k) else 0)
  {
    WrapsOnce(Pow2(k), x - y - c);
  }

  lemma {:induction false} ChainShape(k: nat, f: Flags, prog: seq<Instr>)
    requires k >= 1
    ensures |Results(k, f, prog)| == |Lefts(k, prog)|
    ensures AreLimbs(k, Results(k, f, prog)) && AreLimbs(k, Lefts(k, prog)) && AreLimbs(k, Rights(k, prog))
    decreases prog
  {
    if prog != [] {
      ChainShape(k, After(k, f, prog[0]), prog[1..]);
    }
  }

  /**
    A chain of additions computes the sum of the two numbers and the carry it starts with, modulo
    2^(k n), and leaves the carry out of the whole. Counters between the limbs change neither.
   */
  lemma {:induction false} AdditionChain(k: nat, f: Flags, prog: seq<Instr>)
    requires k >= 4 && IsAddition(prog)
    ensures
      Value(k, Results(k, f, prog)) + (if FlagsAfter(k, f, prog).cf then Base(k, |Lefts(k, prog)|) else 0)
        == Value(k, Lefts(k, prog)) + Value(k, Rights(k, prog)) + Bit(f.cf)
    decreases prog
  {
    if prog != [] {
      var i, rest := prog[0], prog[1..];
      var f' := After(k, f, i);
      AdditionChain(k, f', rest);
      if i.AdcI? {
        AdcIsStep(k, f, i);
        ChainParts(k, f, prog);
        AddLimb(k, Truncated(k, i.x), Truncated(k, i.y), Result(k, f, i), Bit(f.cf), f'.cf,
                FlagsAfter(k, f', rest).cf, Value(k, Lefts(k, rest)), Value(k, Rights(k, rest)),
                Value(k, Results(k, f', rest)), Base(k, |Lefts(k, rest)|));
      } else {
        CountersPass(k, f, prog);
      }
    }
  }

  /** So the limbs hold the sum modulo 2^(k n), and CF says whether it goes past that. */
  lemma {:induction false} AdditionModulo(k: nat, f: Flags, prog: seq<Instr>)
    requires k >= 4 && IsAddition(prog)
    ensures
      var sum := Value(k, Lefts(k, prog)) + Value(k, Rights(k, prog)) + Bit(f.cf);
      && Value(k, Results(k, f, prog)) == sum % Range(k, prog)
      && (FlagsAfter(k, f, prog).cf <==> sum >= Range(k, prog))
  {
    AdditionChain(k, f, prog);
    NumbersAreInRange(k, f, prog);
    SumWraps(Value(k, Results(k, f, prog)), Value(k, Lefts(k, prog)) + Value(k, Rights(k, prog)) + Bit(f.cf),
             FlagsAfter(k, f, prog).cf, Range(k, prog));
  }

  lemma SumWraps(z: nat, sum: nat, carry: bool, all: nat)
    requires z < all && z + (if carry then all else 0) == sum
    ensures z == sum % all && (carry <==> sum >= all)
  {
    DivModUnique(sum, all, if carry then 1 else 0, z);
  }

  lemma DifferenceWraps(z: nat, difference: int, borrow: bool, all: nat)
    requires z < all && difference < all && z == difference + if borrow then all else 0
    ensures z == difference % all && (borrow <==> difference < 0)
  {
    DivModUnique(difference, all, if borrow then -1 else 0, z);
  }

  /** How many numbers the limbs of a chain can tell apart. */
  function Range(k: nat, prog: seq<Instr>): (all: nat)
    ensures all >= 1
  {
    Pow2(k * |Lefts(k, prog)|)
  }

  lemma NumbersAreInRange(k: nat, f: Flags, prog: seq<Instr>)
    requires k >= 1
    ensures Base(k, |Lefts(k, prog)|) == Range(k, prog)
    ensures Value(k, Results(k, f, prog)) < Range(k, prog)
    ensures Value(k, Lefts(k, prog)) < Range(k, prog)
  {
    ChainShape(k, f, prog);
    ValueIsBounded(k, Results(k, f, prog));
    ValueIsBounded(k, Lefts(k, prog));
    BaseIsPow2(k, |Lefts(k, prog)|);
  }

  lemma AdcIsStep(k: nat, f: Flags, i: Instr)
    requires k >= 4 && i.AdcI?
    ensures Result(k, f, i) + (if After(k, f, i).cf then Pow2(k) else 0)
         == Truncated(k, i.x) + Truncated(k, i.y) + Bit(f.cf)
  {
    AddStep(k, Truncated(k, i.x), Truncated(k, i.y), Bit(f.cf));
  }

  lemma SbbIsStep(k: nat, f: Flags, i: Instr)
    requires k >= 4 && i.SbbI?
    ensures Result(k, f, i)
         == Truncated(k, i.x) - Truncated(k, i.y) - Bit(f.cf) + (if After(k, f, i).cf then Pow2(k) else 0)
  {
    SubStep(k, Truncated(k, i.x), Truncated(k, i.y), Bit(f.cf));
  }

  /** A counter contributes nothing, and keeps the carry. */
  lemma CountersPass(k: nat, f: Flags, prog: seq<Instr>)
    requires k >= 1 && prog != [] && IsCounter(prog[0])
    ensures After(k, f, prog[0]).cf == f.cf
    ensures Lefts(k, prog) == Lefts(k, prog[1..]) && Rights(k, prog) == Rights(k, prog[1..])
    ensures Results(k, f, prog) == Results(k, After(k, f, prog[0]), prog[1..])
  {
  }

  /** What the first limb operation contributes to each number. */
  lemma ChainParts(k: nat, f: Flags, prog: seq<Instr>)
    requires k >= 1 && prog != [] && !IsCounter(prog[0])
    ensures Value(k, Lefts(k, prog)) == Truncated(k, prog[0].x) + Scale(Value(k, Lefts(k, prog[1..])), k)
    ensures Value(k, Rights(k, prog)) == Truncated(k, prog[0].y) + Scale(Value(k, Rights(k, prog[1..])), k)
    ensures Value(k, Results(k, f, prog))
         == Result(k, f, prog[0]) + Scale(Value(k, Results(k, After(k, f, prog[0]), prog[1..])), k)
    ensures Base(k, |Lefts(k, prog)|) == Scale(Base(k, |Lefts(k, prog[1..])|), k)
  {
    assert Lefts(k, prog)[1..] == Lefts(k, prog[1..]);
    assert Rights(k, prog)[1..] == Rights(k, prog[1..]);
    assert Results(k, f, prog)[1..] == Results(k, After(k, f, prog[0]), prog[1..]);
  }

  lemma AddLimb(k: nat, x: nat, y: nat, z: nat, c: nat, c': bool, out: bool, xs: nat, ys: nat, zs: nat, b: nat)
    requires z + (if c' then Pow2(k) else 0) == x + y + c
    requires zs + (if out then b else 0) == xs + ys + Bit(c')
    ensures z + Scale(zs, k) + (if out then Scale(b, k) else 0) == (x + Scale(xs, k)) + (y + Scale(ys, k)) + c
  {
    SumsScaled(k, xs, ys, c', zs, out, b, xs + ys + Bit(c'));
  }

  /** The same sum, limbs up. */
  lemma {:induction false} SumsScaled(k: nat, xs: nat, ys: nat, c: bool, zs: nat, out: bool, b: nat, sum: nat)
    requires zs + (if out then b else 0) == sum == xs + ys + Bit(c)
    ensures Scale(zs, k) + (if out then Scale(b, k) else 0) == Scale(xs, k) + Scale(ys, k) + if c then Pow2(k) else 0
  {
    CarryScaled(k, zs, out, b, sum);
    assert Scale(sum, k) == Scale(xs, k) + Scale(ys, k) + if c then Pow2(k) else 0 by {
      SumScaled(k, xs, ys, c);
    }
  }

  lemma CarryScaled(k: nat, z: nat, out: bool, b: nat, sum: nat)
    requires z + (if out then b else 0) == sum
    ensures Scale(z, k) + (if out then Scale(b, k) else 0) == Scale(sum, k)
  {
    ScaleAdds(z, b, k);
  }

  lemma SumScaled(k: nat, x: nat, y: nat, c: bool)
    ensures Scale(x + y + Bit(c), k) == Scale(x, k) + Scale(y, k) + if c then Pow2(k) else 0
  {
    ScaleBit(Bit(c), k);
    ScaleAdds(x, y, k);
    ScaleAdds(x + y, Bit(c), k);
  }

  /** A chain of subtractions computes the difference, and leaves the borrow of the whole. */
  lemma {:induction false} SubtractionChain(k: nat, f: Flags, prog: seq<Instr>)
    requires k >= 4 && IsSubtraction(prog)
    ensures
      Value(k, Results(k, f, prog))
        == Value(k, Lefts(k, prog)) - Value(k, Rights(k, prog)) - Bit(f.cf)
           + (if FlagsAfter(k, f, prog).cf then Base(k, |Lefts(k, prog)|) else 0)
    decreases prog
  {
    if prog != [] {
      var i, rest := prog[0], prog[1..];
      var f' := After(k, f, i);
      SubtractionChain(k, f', rest);
      if i.SbbI? {
        SbbIsStep(k, f, i);
        ChainParts(k, f, prog);
        SubLimb(k, Truncated(k, i.x), Truncated(k, i.y), Result(k, f, i), Bit(f.cf), f'.cf,
                FlagsAfter(k, f', rest).cf, Value(k, Lefts(k, rest)), Value(k, Rights(k, rest)),
                Value(k, Results(k, f', rest)), Base(k, |Lefts(k, rest)|));
      } else {
        CountersPass(k, f, prog);
      }
    }
  }

  /** So the limbs hold the difference modulo 2^(k n), and CF says whether it is below zero. */
  lemma {:induction false} SubtractionModulo(k: nat, f: Flags, prog: seq<Instr>)
    requires k >= 4 && IsSubtraction(prog)
    ensures
      var difference := Value(k, Lefts(k, prog)) - Value(k, Rights(k, prog)) - Bit(f.cf);
      Value(k, Results(k, f, prog)) == difference % Range(k, prog) && (FlagsAfter(k, f, prog).cf <==> difference < 0)
  {
    SubtractionChain(k, f, prog);
    NumbersAreInRange(k, f, prog);
    DifferenceWraps(Value(k, Results(k, f, prog)), Value(k, Lefts(k, prog)) - Value(k, Rights(k, prog)) - Bit(f.cf),
                    FlagsAfter(k, f, prog).cf, Range(k, prog));
  }

  lemma SubLimb(k: nat, x: nat, y: nat, z: nat, c: nat, c': bool, out: bool, xs: nat, ys: nat, zs: nat, b: nat)
    requires z == x - y - c + (if c' then Pow2(k) else 0)
    requires zs == xs - ys - Bit(c') + (if out then b else 0)
    ensures z + Scale(zs, k) == (x + Scale(xs, k)) - (y + Scale(ys, k)) - c + (if out then Scale(b, k) else 0)
  {
    SumsScaled(k, zs, ys, c', xs, out, b, zs + ys + Bit(c'));
  }

  /**
    Subtracting what was added, with a chain of the same limbs, restores the addend, and leaves a
    borrow equal to the carry.
   */
  lemma SubtractionUndoesAddition(k: nat, f: Flags, add: seq<Instr>, g: Flags, sub: seq<Instr>)
    requires k >= 4 && IsAddition(add) && IsSubtraction(sub)
    requires Lefts(k, sub) == Results(k, f, add) && Rights(k, sub) == Rights(k, add)
    requires g.cf == f.cf
    ensures Results(k, g, sub) == Lefts(k, add)
    ensures FlagsAfter(k, g, sub).cf == FlagsAfter(k, f, add).cf
  {
    AdditionChain(k, f, add);
    SubtractionChain(k, g, sub);
    ChainShape(k, f, add);
    ChainShape(k, g, sub);
    ValueIsBounded(k, Results(k, g, sub));
    ValueIsBounded(k, Lefts(k, add));
    CarryIsBorrow(Value(k, Results(k, g, sub)), Value(k, Lefts(k, add)), Base(k, |Lefts(k, add)|),
                  FlagsAfter(k, f, add).cf, FlagsAfter(k, g, sub).cf);
    ValueIsInjective(k, Results(k, g, sub), Lefts(k, add));
  }

  lemma CarryIsBorrow(d: nat, x: nat, b: nat, carry: bool, borrow: bool)
    requires d < b && x < b
    requires d == x - (if carry then b else 0) + (if borrow then b else 0)
    ensures d == x && carry == borrow
  {
  }

  predicate FitsIn(k: nat, n: nat, v: int)
    requires k >= 1 && n >= 1
  {
    0 - Half(k, n) <= v < Half(k, n)
  }

  /** The overflow flag the top limb leaves is the signed overflow of the whole sum. */
  lemma {:induction false} AdditionOverflow(k: nat, f: Flags, prog: seq<Instr>)
    requires k >= 4 && IsAddition(prog)
    requires prog != [] && prog[|prog| - 1].AdcI?
    ensures Lefts(k, prog) != []
    ensures FlagsAfter(k, f, prog).of <==>
      !FitsIn(k, |Lefts(k, prog)|,
              SignedValue(k, Lefts(k, prog)) + SignedValue(k, Rights(k, prog)) + Bit(f.cf))
    decreases prog
  {
    var i, f' := prog[0], After(k, f, prog[0]);
    if |prog| == 1 {
      OverflowOfOne(k, f, prog);
    } else {
      AdditionOverflow(k, f', prog[1..]);
      if i.AdcI? {
        AdcIsStep(k, f, i);
        OverflowOfMore(k, Truncated(k, i.x), Truncated(k, i.y), Result(k, f, i), Bit(f.cf), f'.cf,
                       Lefts(k, prog[1..]), Rights(k, prog[1..]), Lefts(k, prog), Rights(k, prog));
      } else {
        CountersPass(k, f, prog);
      }
    }
  }

  lemma OverflowOfOne(k: nat, f: Flags, prog: seq<Instr>)
    requires k >= 4 && |prog| == 1 && prog[0].AdcI?
    ensures Lefts(k, prog) != []
    ensures FlagsAfter(k, f, prog).of <==>
      !FitsIn(k, |Lefts(k, prog)|,
              SignedValue(k, Lefts(k, prog)) + SignedValue(k, Rights(k, prog)) + Bit(f.cf))
  {
    var i := prog[0];
    assert Lefts(k, prog) == [Truncated(k, i.x)] && Rights(k, prog) == [Truncated(k, i.y)];
    assert FlagsAfter(k, f, prog) == After(k, f, i);
    SignedOne(k, Truncated(k, i.x));
    SignedOne(k, Truncated(k, i.y));
  }

  lemma {:induction false} OverflowOfMore(k: nat, x: nat, y: nat, z: nat, c: nat, c': bool,
                       xs: seq<nat>, ys: seq<nat>, xs': seq<nat>, ys': seq<nat>)
    requires k >= 1 && xs != [] && |xs| == |ys| && xs' == [x] + xs && ys' == [y] + ys
    requires z < Pow2(k) && z + (if c' then Pow2(k) else 0) == x + y + c
    ensures FitsIn(k, |xs|, SignedValue(k, xs) + SignedValue(k, ys) + Bit(c'))
       <==> FitsIn(k, |xs'|, SignedValue(k, xs') + SignedValue(k, ys') + c)
  {
    var n, h := |xs|, Half(k, |xs|);
    assert xs'[1..] == xs && ys'[1..] == ys;
    BaseIsTwoHalves(k, n);
    BaseIsTwoHalves(k, n + 1);
    var part := Value(k, xs) + Value(k, ys) + Bit(c');
    assert Value(k, xs') + Value(k, ys') + c == z + Scale(part, k) by {
      SumScaled(k, Value(k, xs), Value(k, ys), c');
    }
    OverflowStep(k, z, part, h);
  }

  /** Comparing the upper limbs with odd multiples of half their range compares the whole with those of its half. */
  lemma OverflowStep(k: nat, z: nat, part: nat, h: nat)
    requires z < Pow2(k)
    ensures part < h <==> z + Scale(part, k) < Scale(h, k)
    ensures part < 3 * h <==> z + Scale(part, k) < 3 * Scale(h, k)
    ensures part < 5 * h <==> z + Scale(part, k) < 5 * Scale(h, k)
  {
    LimbsCompare(k, z, part, h);
    LimbsCompare(k, z, part, 3 * h);
    LimbsCompare(k, z, part, 5 * h);
    OddMultiples(h, k);
  }

  lemma OddMultiples(h: nat, k: nat)
    ensures Scale(3 * h, k) == 3 * Scale(h, k) && Scale(5 * h, k) == 5 * Scale(h, k)
  {
    ScaleAdds(h, h, k);
    ScaleAdds(2 * h, h, k);
    ScaleAdds(3 * h, 2 * h, k);
  }

  /** The signed difference, with a borrow, is one that as many limbs can hold. */
  predicate DifferenceFits(k: nat, xs: seq<nat>, ys: seq<nat>, c: nat)
    requires k >= 1 && xs != [] && |xs| == |ys|
  {
    FitsIn(k, |xs|, SignedValue(k, xs) - SignedValue(k, ys) - c)
  }

  /** The overflow flag the top limb leaves is the signed overflow of the whole difference. */
  lemma {:induction false} SubtractionOverflow(k: nat, f: Flags, prog: seq<Instr>)
    requires k >= 4 && IsSubtraction(prog)
    requires prog != [] && prog[|prog| - 1].SbbI?
    ensures Lefts(k, prog) != []
    ensures FlagsAfter(k, f, prog).of <==> !DifferenceFits(k, Lefts(k, prog), Rights(k, prog), Bit(f.cf))
    decreases prog
  {
    if |prog| == 1 {
      BorrowOverflowOfOne(k, f, prog);
    } else {
      SubtractionOverflow(k, After(k, f, prog[0]), prog[1..]);
      if prog[0].SbbI? {
        BorrowOverflowStep(k, f, prog);
      } else {
        CountersPass(k, f, prog);
      }
    }
  }

  lemma BorrowOverflowOfOne(k: nat, f: Flags, prog: seq<Instr>)
    requires k >= 4 && |prog| == 1 && prog[0].SbbI?
    ensures Lefts(k, prog) != []
    ensures FlagsAfter(k, f, prog).of <==> !DifferenceFits(k, Lefts(k, prog), Rights(k, prog), Bit(f.cf))
  {
    var i := prog[0];
    assert Lefts(k, prog) == [Truncated(k, i.x)] && Rights(k, prog) == [Truncated(k, i.y)];
    assert FlagsAfter(k, f, prog) == After(k, f, i);
    SignedOne(k, Truncated(k, i.x));
    SignedOne(k, Truncated(k, i.y));
  }

  lemma BorrowOverflowStep(k: nat, f: Flags, prog: seq<Instr>)
    requires k >= 4 && |prog| > 1 && prog[0].SbbI? && Lefts(k, prog[1..]) != []
    ensures Lefts(k, prog) != []
    ensures DifferenceFits(k, Lefts(k, prog[1..]), Rights(k, prog[1..]), Bit(After(k, f, prog[0]).cf))
       <==> DifferenceFits(k, Lefts(k, prog), Rights(k, prog), Bit(f.cf))
  {
    var i, f' := prog[0], After(k, f, prog[0]);
    SbbIsStep(k, f, i);
    ChainShape(k, f', prog[1..]);
    BorrowOverflowOfMore(k, Truncated(k, i.x), Truncated(k, i.y), Result(k, f, i), Bit(f.cf), f'.cf,
                         Lefts(k, prog[1..]), Rights(k, prog[1..]), Lefts(k, prog), Rights(k, prog));
  }

  lemma {:induction false} BorrowOverflowOfMore(k: nat, x: nat, y: nat, z: nat, c: nat, c': bool,
                             xs: seq<nat>, ys: seq<nat>, xs': seq<nat>, ys': seq<nat>)
    requires k >= 1 && xs != [] && |xs| == |ys| && xs' == [x] + xs && ys' == [y] + ys && AreLimbs(k, ys)
    requires z < Pow2(k) && z == x - y - c + (if c' then Pow2(k) else 0)
    ensures DifferenceFits(k, xs, ys, Bit(c')) <==> DifferenceFits(k, xs', ys', c)
  {
    var n := |xs|;
    BaseIsTwoHalves(k, n);
    BaseIsTwoHalves(k, n + 1);
    ValueIsBounded(k, ys);
    ValueFromLimb(k, x, xs, xs');
    ValueFromLimb(k, y, ys, ys');
    DifferencesCompare(k, x, y, z, c, c', Value(k, xs), Value(k, ys), Half(k, n));
  }

  lemma ValueFromLimb(k: nat, x: nat, xs: seq<nat>, xs': seq<nat>)
    requires k >= 1 && xs != [] && xs' == [x] + xs
    ensures Value(k, xs') == x + Scale(Value(k, xs), k) && IsNegative(k, xs') == IsNegative(k, xs)
  {
    assert xs'[1..] == xs;
  }

  /** Comparing the difference of the upper limbs with odd multiples of half their range compares that of the whole. */
  lemma DifferencesCompare(k: nat, x: nat, y: nat, z: nat, c: nat, c': bool, v: nat, w: nat, h: nat)
    requires z < Pow2(k) && z == x - y - c + (if c' then Pow2(k) else 0) && w < 2 * h
    ensures
      var part, whole, half := v - w - Bit(c'), (x + Scale(v, k)) - (y + Scale(w, k)) - c, Scale(h, k);
      && part >= 0 - 2 * h && whole >= 0 - 2 * half
      && (part < 0 - h <==> whole < 0 - half)
      && (part < h <==> whole < half)
      && (part < 3 * h <==> whole < 3 * half)
  {
    var above: nat := v - w - Bit(c') + 2 * h;
    AboveScaled(k, above, v, w, c', h);
    OverflowStep(k, z, above, h);
  }

  lemma {:induction false} AboveScaled(k: nat, above: nat, v: nat, w: nat, c: bool, h: nat)
    requires above + w + Bit(c) == v + 2 * h
    ensures Scale(above, k) + Scale(w, k) + (if c then Pow2(k) else 0) == Scale(v, k) + 2 * Scale(h, k)
  {
    var all := v + 2 * h;
    assert Scale(all, k) == Scale(above, k) + Scale(w, k) + if c then Pow2(k) else 0 by {
      SumScaled(k, above, w, c);
    }
    ThreeScaled(k, v, h, all);
  }

  lemma ThreeScaled(k: nat, v: nat, h: nat, all: nat)
    requires all == v + 2 * h
    ensures Scale(all, k) == Scale(v, k) + 2 * Scale(h, k)
  {
    ScaleAdds(h, h, k);
    ScaleAdds(v, h + h, k);
  }

  /** A chain that starts with a plain addition or subtraction is one that starts without a carry. */
  lemma PlainStarts(k: nat, f: Flags, x: nat, y: nat, rest: seq<Instr>)
    requires k >= 1
    ensures Results(k, f, [AddI(x, y)] + rest) == Results(k, f.(cf := false), [AdcI(x, y)] + rest)
    ensures FlagsAfter(k, f, [AddI(x, y)] + rest) == FlagsAfter(k, f.(cf := false), [AdcI(x, y)] + rest)
    ensures Results(k, f, [SubI(x, y)] + rest) == Results(k, f.(cf := false), [SbbI(x, y)] + rest)
    ensures FlagsAfter(k, f, [SubI(x, y)] + rest) == FlagsAfter(k, f.(cf := false), [SbbI(x, y)] + rest)
  {
    var g := f.(cf := false);
    assert After(k, f, AddI(x, y)) == After(k, g, AdcI(x, y));
    assert After(k, f, SubI(x, y)) == After(k, g, SbbI(x, y));
    assert ([AddI(x, y)] + rest)[1..] == rest == ([AdcI(x, y)] + rest)[1..];
    assert ([SubI(x, y)] + rest)[1..] == rest == ([SbbI(x, y)] + rest)[1..];
  }
}

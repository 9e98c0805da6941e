/** The substitution tables of AES (libblink/blink/avx2.c). */
module Aes {

  import opened Gf256

  // ---------------------------------------------------------------------------------------------
  // The substitution tables
  // ---------------------------------------------------------------------------------------------

  /** The inverse in the field, then the affine map (section 5.1.1 of FIPS 197). */
  ghost function SubByte(a: Byte): Byte {
    Affine(Inverse(a))
  }

  ghost function InvSubByte(a: Byte): Byte {
    Inverse(AffineInverse(a))
  }

  const AFFINE_CONSTANT := Byte(false, true, true, false, false, false, true, true)

  class Tables {
    const kSbox: array<Byte>
    const kInvSbox: array<Byte>
    var ready: bool

    constructor ()
      ensures fresh(kSbox) && fresh(kInvSbox) && Shaped() && !ready
    {
      kSbox := new Byte[256](i => ZERO);
      kInvSbox := new Byte[256](i => ZERO);
      ready := false;
    }

    predicate Shaped() {
      kSbox.Length == 256 == kInvSbox.Length && kSbox != kInvSbox
    }

    /** Once ready, the tables hold the substitution and its inverse. */
    ghost predicate Valid()
      reads this, kSbox, kInvSbox
    {
      Shaped() && (ready ==> Entered(SubByte, 256))
    }

    method InitAes()
      requires Valid()
      modifies this`ready, kSbox, kInvSbox
      ensures Valid() && ready
    {
      if ready {
        return;
      }
      SubstitutionsUndone();
      FillTables(SubByte, InvSubByte);
      ready := true;
    }

    method FillTables(ghost sub: Byte -> Byte, ghost unsub: Byte -> Byte)
      requires Shaped()
      requires sub == SubByte
      requires MutuallyInverse(sub, unsub)
      modifies kSbox, kInvSbox
      ensures Entered(sub, 256)
    {
      var i := 0;
      while i < 256
        invariant 0 <= i <= 256
        invariant Entered(sub, i)
        modifies kSbox, kInvSbox
      {
        var y := Substitute(FromNat(i));
        EnterByte(FromNat(i), y, sub, unsub);
        i := i + 1;
      }
    }

    ghost predicate Entered(sub: Byte -> Byte, n: nat)
      requires Shaped()
      reads kSbox, kInvSbox
    {
      Hold(kSbox[..], kInvSbox[..], sub, n)
    }

    method EnterByte(a: Byte, y: Byte, ghost sub: Byte -> Byte, ghost unsub: Byte -> Byte)
      requires Shaped() && y == sub(a)
      requires MutuallyInverse(sub, unsub)
      requires Entered(sub, ToNat(a))
      modifies kSbox, kInvSbox
      ensures Entered(sub, ToNat(a) + 1)
    {
      HoldOn(kSbox[..], kInvSbox[..], sub, unsub, a);
      kSbox[ToNat(a)] := y;
      kInvSbox[ToNat(y)] := a;
    }
  }

  /** A byte below n has its substitute in the one table, and is the entry of its substitute in the other. */
  ghost predicate HoldsAt(box: seq<Byte>, inv: seq<Byte>, sub: Byte -> Byte, n: nat, a: Byte)
    requires |box| == 256 == |inv|
  {
    ToNat(a) < n ==> box[ToNat(a)] == sub(a) && inv[ToNat(sub(a))] == a
  }

  ghost predicate Hold(box: seq<Byte>, inv: seq<Byte>, sub: Byte -> Byte, n: nat)
    requires |box| == 256 == |inv|
  {
    forall a: Byte :: HoldsAt(box, inv, sub, n, a)
  }

  /** Entering byte a leaves the entries of the bytes below it. */
  lemma HoldOn(box: seq<Byte>, inv: seq<Byte>, sub: Byte -> Byte, unsub: Byte -> Byte, a: Byte)
    requires |box| == 256 == |inv|
    requires Hold(box, inv, sub, ToNat(a)) && MutuallyInverse(sub, unsub)
    ensures Hold(box[ToNat(a) := sub(a)], inv[ToNat(sub(a)) := a], sub, ToNat(a) + 1)
  {
    var box', inv', n := box[ToNat(a) := sub(a)], inv[ToNat(sub(a)) := a], ToNat(a) + 1;
    forall b: Byte
      ensures HoldsAt(box', inv', sub, n, b)
    {
      if ToNat(a) == ToNat(b) {
        SameNumber(a, b);
      } else {
        assert HoldsAt(box, inv, sub, ToNat(a), b);
        assert unsub(sub(a)) == a && unsub(sub(b)) == b;
        if ToNat(sub(a)) == ToNat(sub(b)) {
          SameNumber(sub(a), sub(b));
        }
      }
    }
  }

  ghost predicate MutuallyInverse(sub: Byte -> Byte, unsub: Byte -> Byte) {
    forall a: Byte :: sub(unsub(a)) == a && unsub(sub(a)) == a
  }

  /** The two substitutions undo each other on every byte. */
  lemma SubstitutionsUndone()
    ensures MutuallyInverse(SubByte, InvSubByte)
  {
    forall a: Byte
      ensures SubByte(InvSubByte(a)) == a && InvSubByte(SubByte(a)) == a
    {
      AffineUndone(Inverse(a));
      InverseOfInverse(a);
      InverseOfInverse(AffineInverse(a));
      AffineUndone(a);
    }
  }

  method Substitute(a: Byte) returns (y: Byte)
    ensures y == SubByte(a)
  {
    var x := InverseByTrial(a);
    y := Xor(x, Xor(RotateLeft(x, 1), Xor(RotateLeft(x, 2), Xor(RotateLeft(x, 3), Xor(RotateLeft(x, 4), AFFINE_CONSTANT)))));
    AffineIsRotations(x);
  }

  /** The inverse, found by trying the bytes in turn; zero for zero. */
  method InverseByTrial(a: Byte) returns (inv: Byte)
    ensures inv == Inverse(a)
  {
    inv := ZERO;
    if a != ZERO {
      TimesZero(a, 8);
      inv := Search(a, Inverse(a));
      CommonInverse(a, inv, Inverse(a));
    }
  }

  /** The first byte that times a is one: `some` is one. */
  method Search(a: Byte, ghost some: Byte) returns (inv: Byte)
    requires some != ZERO && Mul(a, some) == ONE
    ensures Mul(a, inv) == ONE
  {
    inv := ZERO;
    var j := 1;
    while j < 256
      invariant 1 <= j <= ToNat(some)
    {
      var product := GfMul(a, FromNat(j));
      if product == ONE {
        inv := FromNat(j);
        break;
      }
      if j == ToNat(some) {
        SameNumber(FromNat(j), some);
      }
      j := j + 1;
    }
  }

  lemma AffineIsRotations(x: Byte)
    ensures Xor(x, Xor(RotateLeft(x, 1), Xor(RotateLeft(x, 2), Xor(RotateLeft(x, 3), Xor(RotateLeft(x, 4), AFFINE_CONSTANT)))))
         == Affine(x)
  {
    var low := Xor(RotateLeft(x, 4), AFFINE_CONSTANT);
    LastRotation(x);
    AddThirdRotation(x, low);
    AddFirstRotations(x, Xor(RotateLeft(x, 2), Xor(RotateLeft(x, 3), low)));
  }

  lemma LastRotation(x: Byte)
    ensures Xor(RotateLeft(x, 4), AFFINE_CONSTANT) == Byte(x.b3, !x.b2, !x.b1, x.b0, x.b7, x.b6, !x.b5, !x.b4)
  {
  }

  lemma AddThirdRotation(x: Byte, low: Byte)
    requires low == Byte(x.b3, !x.b2, !x.b1, x.b0, x.b7, x.b6, !x.b5, !x.b4)
    ensures Xor(RotateLeft(x, 2), Xor(RotateLeft(x, 3), low))
         == Byte(x.b5 != (x.b4 != x.b3), x.b4 == (x.b3 != x.b2), x.b3 == (x.b2 != x.b1), x.b2 != (x.b1 != x.b0),
                 x.b1 != (x.b0 != x.b7), x.b0 != (x.b7 != x.b6), x.b7 == (x.b6 != x.b5), x.b6 == (x.b5 != x.b4))
  {
  }

  lemma AddFirstRotations(x: Byte, low: Byte)
    requires low == Byte(x.b5 != (x.b4 != x.b3), x.b4 == (x.b3 != x.b2), x.b3 == (x.b2 != x.b1), x.b2 != (x.b1 != x.b0),
                         x.b1 != (x.b0 != x.b7), x.b0 != (x.b7 != x.b6), x.b7 == (x.b6 != x.b5), x.b6 == (x.b5 != x.b4))
    ensures Xor(x, Xor(RotateLeft(x, 1), low)) == Affine(x)
  {
  }
}

/** The rounds of AES (libblink/blink/avx2.c). */
module AesRounds {

  import opened Gf256
  import opened AesColumns
  import opened Aes
  import opened Chains
  import opened Ciphers

  /** Sixteen bytes, four to a column. */
  datatype Block = Block(c0: Column, c1: Column, c2: Column, c3: Column)

  // ---------------------------------------------------------------------------------------------
  // The steps of a round
  // ---------------------------------------------------------------------------------------------

  function XorBlocks(s: Block, t: Block): Block {
    Block(Plus(s.c0, t.c0), Plus(s.c1, t.c1), Plus(s.c2, t.c2), Plus(s.c3, t.c3))
  }

  function Each(v: Column, sub: Byte -> Byte): Column {
    Column(sub(v.a), sub(v.b), sub(v.c), sub(v.d))
  }

  function Substituted(s: Block, sub: Byte -> Byte): Block {
    Block(Each(s.c0, sub), Each(s.c1, sub), Each(s.c2, sub), Each(s.c3, sub))
  }

  /** Row r moves r columns to the left. */
  function Shifted(s: Block): Block {
    Block(Column(s.c0.a, s.c1.b, s.c2.c, s.c3.d),
          Column(s.c1.a, s.c2.b, s.c3.c, s.c0.d),
          Column(s.c2.a, s.c3.b, s.c0.c, s.c1.d),
          Column(s.c3.a, s.c0.b, s.c1.c, s.c2.d))
  }

  /** Row r moves r columns to the right. */
  function Unshifted(s: Block): Block {
    Block(Column(s.c0.a, s.c3.b, s.c2.c, s.c1.d),
          Column(s.c1.a, s.c0.b, s.c3.c, s.c2.d),
          Column(s.c2.a, s.c1.b, s.c0.c, s.c3.d),
          Column(s.c3.a, s.c2.b, s.c1.c, s.c0.d))
  }

  function Columnwise(s: Block, f: Column -> Column): Block {
    Block(f(s.c0), f(s.c1), f(s.c2), f(s.c3))
  }

  function Mixing(inverse: bool): Column -> Column {
    By(if inverse then UNMIX else MIX)
  }

  /** The rounds of AES around a substitution and its inverse. */
  function CipherBy(sub: Byte -> Byte, unsub: Byte -> Byte): Cipher<Block> {
    Cipher((s: Block) => Substituted(Shifted(s), sub), (s: Block) => Substituted(Unshifted(s), unsub),
           (s: Block) => Columnwise(s, Mixing(false)), (s: Block) => Columnwise(s, Mixing(true)), XorBlocks)
  }

  /** AES itself (sections 5.1 and 5.3.5 of FIPS 197). */
  ghost function AES(): Cipher<Block> {
    CipherBy(SubByte, InvSubByte)
  }

  function SubShiftBy(s: Block, inverse: bool, sub: Byte -> Byte, unsub: Byte -> Byte): Block {
    if inverse then Substituted(Unshifted(s), unsub) else Substituted(Shifted(s), sub)
  }

  // ---------------------------------------------------------------------------------------------
  // Each step undone
  // ---------------------------------------------------------------------------------------------

  lemma XorTwice(a: Byte, k: Byte)
    ensures Xor(Xor(a, k), k) == a
  {
  }

  lemma PlusUndone(v: Column, k: Column)
    ensures Plus(Plus(v, k), k) == v
  {
    XorTwice(v.a, k.a);
    XorTwice(v.b, k.b);
    XorTwice(v.c, k.c);
    XorTwice(v.d, k.d);
  }

  lemma XorUndone(s: Block, key: Block)
    ensures XorBlocks(XorBlocks(s, key), key) == s
  {
    PlusUndone(s.c0, key.c0);
    PlusUndone(s.c1, key.c1);
    PlusUndone(s.c2, key.c2);
    PlusUndone(s.c3, key.c3);
  }

  lemma SubstitutionUndone(s: Block, sub: Byte -> Byte, unsub: Byte -> Byte)
    requires MutuallyInverse(sub, unsub)
    ensures Substituted(Unshifted(Substituted(Shifted(s), sub)), unsub) == s
    ensures Substituted(Shifted(Substituted(Unshifted(s), unsub)), sub) == s
  {
  }

  lemma ColumnwiseUndone(s: Block, f: Column -> Column, g: Column -> Column)
    requires forall v :: UndoneAt(f, g, v)
    ensures Columnwise(Columnwise(s, f), g) == s
  {
    assert UndoneAt(f, g, s.c0) && UndoneAt(f, g, s.c1) && UndoneAt(f, g, s.c2) && UndoneAt(f, g, s.c3);
  }

  lemma ColumnwiseAdds(s: Block, t: Block, f: Column -> Column)
    requires IsLinear(f)
    ensures Columnwise(XorBlocks(s, t), f) == XorBlocks(Columnwise(s, f), Columnwise(t, f))
  {
    assert AddsAt(f, s.c0, t.c0) && AddsAt(f, s.c1, t.c1) && AddsAt(f, s.c2, t.c2) && AddsAt(f, s.c3, t.c3);
  }

  /** The rounds around any substitution and its inverse make a cipher. */
  lemma RoundsAreCipher(sub: Byte -> Byte, unsub: Byte -> Byte)
    requires MutuallyInverse(sub, unsub)
    ensures IsCipher(CipherBy(sub, unsub))
  {
    var c := CipherBy(sub, unsub);
    MixingIsUndone();
    forall s
      ensures Undoes(c.unsub, c.sub, s) && Undoes(c.sub, c.unsub, s)
    {
      SubstitutionUndone(s, sub, unsub);
    }
    forall s
      ensures Undoes(c.unmix, c.mix, s) && Undoes(c.mix, c.unmix, s)
    {
      ColumnwiseUndone(s, By(MIX), By(UNMIX));
      ColumnwiseUndone(s, By(UNMIX), By(MIX));
    }
    forall s, t
      ensures AddsTwice(c.add, s, t) && Distributes(c.unmix, c.add, s, t)
    {
      XorUndone(s, t);
      ColumnwiseAdds(s, t, By(UNMIX));
    }
  }

  lemma AesIsCipher()
    ensures IsCipher(AES())
  {
    SubstitutionsUndone();
    RoundsAreCipher(SubByte, InvSubByte);
  }

  /** AES encrypts and decrypts: for every block, any number of rounds and all keys. */
  lemma AesDecrypts(block: Block, first: Block, keys: seq<Block>, last: Block)
    ensures IsCipher(AES()) && AreInverse(AES(), block, first, keys, last)
  {
    AesIsCipher();
    DecryptEncrypt(AES(), block, first, keys, last);
    EncryptDecrypt(AES(), block, first, keys, last);
  }

  // ---------------------------------------------------------------------------------------------
  // The round as it runs on buffers
  // ---------------------------------------------------------------------------------------------

  function ColumnAt(s: seq<Byte>, c: nat): Column
    requires c < 4 && |s| == 16
  {
    Column(s[4 * c], s[4 * c + 1], s[4 * c + 2], s[4 * c + 3])
  }

  function Loaded(s: seq<Byte>): Block
    requires |s| == 16
  {
    Block(ColumnAt(s, 0), ColumnAt(s, 1), ColumnAt(s, 2), ColumnAt(s, 3))
  }

  /** The column c + r lands in, going around. */
  function Around(c: nat, r: nat): (d: nat)
    requires c < 4 && r < 4
    ensures d < 4 && d == (c + r) % 4
  {
    if c + r < 4 then c + r else c + r - 4
  }

  /** Where row r of column c comes from in a round, and goes to in an inverse round. */
  function Partner(i: nat): (j: nat)
    requires i < 16
    ensures j < 16
  {
    4 * Around(i / 4, i % 4) + i % 4
  }

  lemma PartnerOf(c: nat, r: nat)
    requires c < 4 && r < 4
    ensures Partner(4 * c + r) == 4 * Around(c, r) + r
  {
    assert (4 * c + r) / 4 == c && (4 * c + r) % 4 == r;
  }

  lemma PartnersDiffer(i: nat, j: nat)
    requires i < 16 && j < 16 && Partner(i) == Partner(j)
    ensures i == j
  {
    assert Partner(i) % 4 == i % 4 && Partner(j) % 4 == j % 4;
    assert Partner(i) / 4 == Around(i / 4, i % 4) && Partner(j) / 4 == Around(j / 4, j % 4);
  }

  ghost predicate MixesAt(f: Column -> Column, inverse: bool, v: Column) {
    f(v) == Mixing(inverse)(v)
  }

  /** f mixes a column, or unmixes it. */
  ghost predicate Mixes(f: Column -> Column, inverse: bool) {
    forall v :: MixesAt(f, inverse, v)
  }

  method MixColumns(out: array<Byte>, input: array<Byte>, inverse: bool, ghost f: Column -> Column)
    requires out.Length == 16 == input.Length && out != input && Mixes(f, inverse)
    modifies out
    ensures Loaded(out[..]) == Columnwise(Loaded(input[..]), f)
  {
    ghost var s := input[..];
    var c := 0;
    while c < 4
      invariant 0 <= c <= 4
      invariant input[..] == s
      invariant forall d :: 0 <= d < c ==> ColumnAt(out[..], d) == f(ColumnAt(s, d))
    {
      var v := Column(input[4 * c], input[4 * c + 1], input[4 * c + 2], input[4 * c + 3]);
      var w := MixedColumn(v, inverse, f);
      StoreColumn(out, c, w);
      c := c + 1;
    }
  }

  method MixedColumn(v: Column, inverse: bool, ghost f: Column -> Column) returns (w: Column)
    requires Mixes(f, inverse)
    ensures w == f(v)
  {
    w := MixColumn(v, inverse);
    assert MixesAt(f, inverse, v);
  }

  method StoreColumn(out: array<Byte>, c: nat, w: Column)
    requires out.Length == 16 && c < 4
    modifies out
    ensures ColumnAt(out[..], c) == w
    ensures forall d :: 0 <= d < 4 && d != c ==> ColumnAt(out[..], d) == ColumnAt(old(out[..]), d)
  {
    out[4 * c] := w.a;
    out[4 * c + 1] := w.b;
    out[4 * c + 2] := w.c;
    out[4 * c + 3] := w.d;
  }

  method MixColumn(v: Column, inverse: bool) returns (w: Column)
    ensures w == Mixing(inverse)(v)
  {
    if inverse {
      var a := SumOfProducts(v, FOURTEEN, ELEVEN, THIRTEEN, NINE);
      var b := SumOfProducts(v, NINE, FOURTEEN, ELEVEN, THIRTEEN);
      var c := SumOfProducts(v, THIRTEEN, NINE, FOURTEEN, ELEVEN);
      var d := SumOfProducts(v, ELEVEN, THIRTEEN, NINE, FOURTEEN);
      w := Column(a, b, c, d);
      DotsGoAround(v, UNMIX);
    } else {
      var a := DoubledAndTripled(v.a, v.b, v.c, v.d);
      var b := DoubledAndTripled(v.b, v.c, v.d, v.a);
      var c := DoubledAndTripled(v.c, v.d, v.a, v.b);
      var d := DoubledAndTripled(v.d, v.a, v.b, v.c);
      w := Column(a, b, c, d);
    }
  }

  method SumOfProducts(v: Column, k: Byte, l: Byte, m: Byte, n: Byte) returns (r: Byte)
    ensures r == Dot(v, Column(k, l, m, n))
  {
    r := GfMul(v.a, k);
    var product := GfMul(v.b, l);
    r := Xor(r, product);
    product := GfMul(v.c, m);
    r := Xor(r, product);
    product := GfMul(v.d, n);
    r := Xor(r, product);
    InTurnIsSum(Mul(v.a, k), Mul(v.b, l), Mul(v.c, m), Mul(v.d, n));
  }

  method DoubledAndTripled(a: Byte, b: Byte, c: Byte, d: Byte) returns (r: Byte)
    ensures r == Dot(Column(a, b, c, d), MIX)
  {
    r := GfMul(a, TWO);
    var triple := GfMul(b, THREE);
    r := Xor(Xor(Xor(r, triple), c), d);
    SmallProducts(c);
    SmallProducts(d);
    InTurnIsSum(Mul(a, TWO), Mul(b, THREE), c, d);
  }

  lemma InTurnIsSum(a: Byte, b: Byte, c: Byte, d: Byte)
    ensures Xor(Xor(Xor(a, b), c), d) == Sum(a, b, c, d)
  {
    XorAssociates(Xor(a, b), c, d);
  }

  lemma SumGoesAround(a: Byte, b: Byte, c: Byte, d: Byte)
    ensures Sum(a, b, c, d) == Sum(b, c, d, a)
  {
  }

  lemma DotGoesAround(v: Column, k: Column)
    ensures Dot(Rotate(v), Rotate(k)) == Dot(v, k)
  {
    SumGoesAround(Mul(v.a, k.a), Mul(v.b, k.b), Mul(v.c, k.c), Mul(v.d, k.d));
  }

  lemma DotsGoAround(v: Column, k: Column)
    ensures Times(v, k) == Column(Dot(v, k), Dot(v, Column(k.d, k.a, k.b, k.c)),
                                  Dot(v, Column(k.c, k.d, k.a, k.b)), Dot(v, Column(k.b, k.c, k.d, k.a)))
  {
    DotGoesAround(v, Column(k.d, k.a, k.b, k.c));
    DotGoesAround(v, Column(k.c, k.d, k.a, k.b));
    DotGoesAround(Rotate(v), Column(k.d, k.a, k.b, k.c));
    DotGoesAround(v, Column(k.b, k.c, k.d, k.a));
    DotGoesAround(Rotate(v), Column(k.c, k.d, k.a, k.b));
    DotGoesAround(Rotate(Rotate(v)), Column(k.d, k.a, k.b, k.c));
  }

  // ---------------------------------------------------------------------------------------------
  // A round, and the lanes that run it
  // ---------------------------------------------------------------------------------------------

  lemma Partners()
    ensures Partner(0) == 0 && Partner(1) == 5 && Partner(2) == 10 && Partner(3) == 15
    ensures Partner(4) == 4 && Partner(5) == 9 && Partner(6) == 14 && Partner(7) == 3
    ensures Partner(8) == 8 && Partner(9) == 13 && Partner(10) == 2 && Partner(11) == 7
    ensures Partner(12) == 12 && Partner(13) == 1 && Partner(14) == 6 && Partner(15) == 11
  {
  }

  lemma LoadedShifted(s: seq<Byte>, t: seq<Byte>, sub: Byte -> Byte)
    requires |s| == 16 == |t| && forall i :: 0 <= i < 16 ==> t[i] == sub(s[Partner(i)])
    ensures Loaded(t) == Substituted(Shifted(Loaded(s)), sub)
  {
    Partners();
    var v := Substituted(Shifted(Loaded(s)), sub);
    assert ColumnAt(t, 0) == v.c0;
    assert ColumnAt(t, 1) == v.c1;
    assert ColumnAt(t, 2) == v.c2;
    assert ColumnAt(t, 3) == v.c3;
  }

  lemma LoadedUnshifted(s: seq<Byte>, t: seq<Byte>, sub: Byte -> Byte)
    requires |s| == 16 == |t| && forall i :: 0 <= i < 16 ==> t[Partner(i)] == sub(s[i])
    ensures Loaded(t) == Substituted(Unshifted(Loaded(s)), sub)
  {
    Partners();
    var v := Substituted(Unshifted(Loaded(s)), sub);
    assert ColumnAt(t, 0) == v.c0;
    assert ColumnAt(t, 1) == v.c1;
    assert ColumnAt(t, 2) == v.c2;
    assert ColumnAt(t, 3) == v.c3;
  }

  lemma LoadedXor(s: seq<Byte>, t: seq<Byte>, x: seq<Byte>)
    requires |s| == 16 == |t| && |x| == 16 && forall i :: 0 <= i < 16 ==> x[i] == Xor(s[i], t[i])
    ensures Loaded(x) == XorBlocks(Loaded(s), Loaded(t))
  {
  }

  /** The substituted and shifted bytes of input, in a buffer of its own. */
  method SubstituteAndShift(tables: Tables, input: array<Byte>, inverse: bool,
                            ghost sub: Byte -> Byte, ghost unsub: Byte -> Byte) returns (t: array<Byte>)
    requires tables.Shaped() && tables.Entered(sub, 256) && MutuallyInverse(sub, unsub) && input.Length == 16
    ensures fresh(t) && t.Length == 16
    ensures Loaded(t[..]) == SubShiftBy(Loaded(input[..]), inverse, sub, unsub)
  {
    t := new Byte[16];
    var c := 0;
    while c < 4
      invariant 0 <= c <= 4
      invariant !inverse ==> forall i :: 0 <= i < 4 * c ==> t[i] == sub(input[Partner(i)])
      invariant inverse ==> forall i :: 0 <= i < 4 * c ==> t[Partner(i)] == unsub(input[i])
    {
      var r := 0;
      while r < 4
        invariant 0 <= r <= 4
        invariant !inverse ==> forall i :: 0 <= i < 4 * c + r ==> t[i] == sub(input[Partner(i)])
        invariant inverse ==> forall i :: 0 <= i < 4 * c + r ==> t[Partner(i)] == unsub(input[i])
      {
        PartnerOf(c, r);
        var p := 4 * Around(c, r) + r;
        if inverse {
          forall i | 0 <= i < 4 * c + r
            ensures Partner(i) != p
          {
            if Partner(i) == p {
              PartnersDiffer(i, 4 * c + r);
            }
          }
          var y := input[4 * c + r];
          assert HoldsAt(tables.kSbox[..], tables.kInvSbox[..], sub, 256, unsub(y));
          assert sub(unsub(y)) == y;
          t[p] := tables.kInvSbox[ToNat(y)];
        } else {
          assert HoldsAt(tables.kSbox[..], tables.kInvSbox[..], sub, 256, input[p]);
          t[4 * c + r] := tables.kSbox[ToNat(input[p])];
        }
        r := r + 1;
      }
      c := c + 1;
    }
    if inverse {
      LoadedUnshifted(input[..], t[..], unsub);
    } else {
      LoadedShifted(input[..], t[..], sub);
    }
  }

  method AesRound(tables: Tables, out: array<Byte>, input: array<Byte>, key: array<Byte>, inverse: bool, last: bool)
    requires tables.Valid() && out.Length == 16 == input.Length && key.Length == 16
    requires {out, input, key} !! {tables.kSbox, tables.kInvSbox}
    modifies tables`ready, tables.kSbox, tables.kInvSbox, out
    ensures tables.Valid() && tables.ready
    ensures Loaded(out[..]) == Round(AES(), Loaded(old(input[..])), Loaded(old(key[..])), inverse, last)
  {
    ghost var s, k := Loaded(input[..]), Loaded(key[..]);
    PrepareTables(tables, input, key, s, k);
    SubstitutionsUndone();
    RunRound(tables, out, input, key, inverse, last, s, k, SubByte, InvSubByte);
  }

  method PrepareTables(tables: Tables, input: array<Byte>, key: array<Byte>, ghost s: Block, ghost k: Block)
    requires tables.Valid() && input.Length == 16 == key.Length
    requires {input, key} !! {tables.kSbox, tables.kInvSbox}
    requires s == Loaded(input[..]) && k == Loaded(key[..])
    modifies tables`ready, tables.kSbox, tables.kInvSbox
    ensures tables.ready && tables.Shaped() && tables.Entered(SubByte, 256)
    ensures s == Loaded(input[..]) && k == Loaded(key[..])
  {
    tables.InitAes();
  }

  method RunRound(tables: Tables, out: array<Byte>, input: array<Byte>, key: array<Byte>, inverse: bool, last: bool,
                  ghost s: Block, ghost k: Block, ghost sub: Byte -> Byte, ghost unsub: Byte -> Byte)
    requires tables.Shaped() && tables.Entered(sub, 256) && MutuallyInverse(sub, unsub)
    requires out.Length == 16 == input.Length && key.Length == 16
    requires s == Loaded(input[..]) && k == Loaded(key[..])
    requires out != tables.kSbox && out != tables.kInvSbox
    modifies out
    ensures tables.Entered(sub, 256) && tables.ready == old(tables.ready)
    ensures Loaded(out[..]) == Round(CipherBy(sub, unsub), s, k, inverse, last)
  {
    var t := SubstituteAndShift(tables, input, inverse, sub, unsub);
    MixAndAddKey(out, t, key, inverse, last, SubShiftBy(s, inverse, sub, unsub), k);
  }

  method MixAndAddKey(out: array<Byte>, t: array<Byte>, key: array<Byte>, inverse: bool, last: bool,
                      ghost s: Block, ghost k: Block)
    requires out.Length == 16 == t.Length && key.Length == 16 && out != t
    requires s == Loaded(t[..]) && k == Loaded(key[..])
    modifies out
    ensures Loaded(out[..]) == XorBlocks(if last then s else Columnwise(s, Mixing(inverse)), k)
  {
    var u := MixUnlessLast(t, inverse, last);
    AddKey(out, u, key);
  }

  method MixUnlessLast(t: array<Byte>, inverse: bool, last: bool) returns (u: array<Byte>)
    requires t.Length == 16
    ensures u.Length == 16 && (u == t || fresh(u))
    ensures Loaded(u[..]) == if last then Loaded(t[..]) else Columnwise(Loaded(t[..]), Mixing(inverse))
  {
    u := t;
    if !last {
      u := new Byte[16];
      MixColumns(u, t, inverse, Mixing(inverse));
    }
  }

  method AddKey(out: array<Byte>, u: array<Byte>, key: array<Byte>)
    requires out.Length == 16 == u.Length && key.Length == 16 && u != out
    modifies out
    ensures Loaded(out[..]) == XorBlocks(Loaded(u[..]), Loaded(old(key[..])))
  {
    ghost var bytes := key[..];
    var i := 0;
    while i < 16
      invariant 0 <= i <= 16
      invariant forall j :: 0 <= j < i ==> out[j] == Xor(u[j], bytes[j])
      invariant forall j :: i <= j < 16 ==> key[j] == bytes[j]
    {
      out[i] := Xor(u[i], key[i]);
      i := i + 1;
    }
    LoadedXor(u[..], bytes, out[..]);
  }

  method Aesenc(tables: Tables, out: array<Byte>, a: array<Byte>, b: array<Byte>)
    requires tables.Valid() && out.Length == 16 == a.Length && b.Length == 16
    requires {out, a, b} !! {tables.kSbox, tables.kInvSbox}
    modifies tables`ready, tables.kSbox, tables.kInvSbox, out
    ensures tables.Valid()
    ensures Loaded(out[..]) == EncryptRound(AES())(Loaded(old(a[..])), Loaded(old(b[..])))
  {
    AesRound(tables, out, a, b, false, false);
  }

  method Aesenclast(tables: Tables, out: array<Byte>, a: array<Byte>, b: array<Byte>)
    requires tables.Valid() && out.Length == 16 == a.Length && b.Length == 16
    requires {out, a, b} !! {tables.kSbox, tables.kInvSbox}
    modifies tables`ready, tables.kSbox, tables.kInvSbox, out
    ensures tables.Valid()
    ensures Loaded(out[..]) == Round(AES(), Loaded(old(a[..])), Loaded(old(b[..])), false, true)
  {
    AesRound(tables, out, a, b, false, true);
  }

  /** An inverse round: with a key that Aesimc mixed, a step of the decrypting chain. */
  method Aesdec(tables: Tables, out: array<Byte>, a: array<Byte>, b: array<Byte>)
    requires tables.Valid() && out.Length == 16 == a.Length && b.Length == 16
    requires {out, a, b} !! {tables.kSbox, tables.kInvSbox}
    modifies tables`ready, tables.kSbox, tables.kInvSbox, out
    ensures tables.Valid()
    ensures Loaded(out[..]) == Round(AES(), Loaded(old(a[..])), Loaded(old(b[..])), true, false)
    ensures forall key :: Loaded(old(b[..])) == AES().unmix(key) ==> Loaded(out[..]) == DecryptRound(AES())(Loaded(old(a[..])), key)
  {
    AesRound(tables, out, a, b, true, false);
  }

  method Aesdeclast(tables: Tables, out: array<Byte>, a: array<Byte>, b: array<Byte>)
    requires tables.Valid() && out.Length == 16 == a.Length && b.Length == 16
    requires {out, a, b} !! {tables.kSbox, tables.kInvSbox}
    modifies tables`ready, tables.kSbox, tables.kInvSbox, out
    ensures tables.Valid()
    ensures Loaded(out[..]) == Round(AES(), Loaded(old(a[..])), Loaded(old(b[..])), true, true)
  {
    AesRound(tables, out, a, b, true, true);
  }

  method Aesimc(out: array<Byte>, b: array<Byte>)
    requires out.Length == 16 == b.Length && out != b
    modifies out
    ensures Loaded(out[..]) == AES().unmix(Loaded(b[..]))
  {
    MixColumns(out, b, true, Mixing(true));
  }

  // ---------------------------------------------------------------------------------------------
  // Chains of rounds on buffers
  // ---------------------------------------------------------------------------------------------

  /** Round keys in buffers of their own, apart from the state and the tables. */
  predicate AreKeys(tables: Tables, state: array<Byte>, keys: seq<array<Byte>>) {
    forall i :: 0 <= i < |keys| ==> keys[i].Length == 16 && keys[i] !in {state, tables.kSbox, tables.kInvSbox}
  }

  ghost predicate HoldsKey(key: array<Byte>, block: Block)
    requires key.Length == 16
    reads key
  {
    Loaded(key[..]) == block
  }

  /** The buffers hold the keys in the form the rounds take them. */
  ghost predicate HoldKeys(keys: seq<array<Byte>>, blocks: seq<Block>, form: Block -> Block)
    requires forall i :: 0 <= i < |keys| ==> keys[i].Length == 16
    reads keys
  {
    |keys| == |blocks| && forall i :: 0 <= i < |keys| ==> HoldsKey(keys[i], form(blocks[i]))
  }

  ghost predicate IsRound(step: (Block, Block) -> Block, form: Block -> Block, inverse: bool, s: Block, key: Block) {
    step(s, key) == Round(AES(), s, form(key), inverse, false)
  }

  ghost predicate AreRounds(step: (Block, Block) -> Block, form: Block -> Block, inverse: bool) {
    forall s, key :: IsRound(step, form, inverse, s, key)
  }

  method RunStep(tables: Tables, state: array<Byte>, key: array<Byte>, inverse: bool,
                 ghost k: Block, ghost step: (Block, Block) -> Block, ghost form: Block -> Block)
    requires tables.Valid() && state.Length == 16 == key.Length && AreRounds(step, form, inverse)
    requires {state, key} !! {tables.kSbox, tables.kInvSbox} && HoldsKey(key, form(k))
    modifies tables`ready, tables.kSbox, tables.kInvSbox, state
    ensures tables.Valid() && Loaded(state[..]) == step(Loaded(old(state[..])), k)
  {
    assert IsRound(step, form, inverse, Loaded(state[..]), k);
    if inverse {
      Aesdec(tables, state, state, key);
    } else {
      Aesenc(tables, state, state, key);
    }
  }

  /** aesenc, or aesdec, with each key in turn. */
  method RunRounds(tables: Tables, state: array<Byte>, keys: seq<array<Byte>>, inverse: bool, ghost blocks: seq<Block>,
                   ghost step: (Block, Block) -> Block, ghost form: Block -> Block)
    requires tables.Valid() && state.Length == 16 && state !in {tables.kSbox, tables.kInvSbox}
    requires AreKeys(tables, state, keys) && HoldKeys(keys, blocks, form) && AreRounds(step, form, inverse)
    modifies tables`ready, tables.kSbox, tables.kInvSbox, state
    ensures tables.Valid()
    ensures Loaded(state[..]) == Forward(Loaded(old(state[..])), blocks, step)
  {
    ghost var states := States(Loaded(state[..]), blocks, step);
    StatesFollow(Loaded(state[..]), blocks, step);
    for i := 0 to |keys|
      invariant tables.Valid() && HoldKeys(keys, blocks, form) && Loaded(state[..]) == states[i]
    {
      RunStep(tables, state, keys[i], inverse, blocks[i], step, form);
    }
  }

  /** The rounds between the first key and the last one, in place. */
  method EncryptInPlace(tables: Tables, state: array<Byte>, keys: seq<array<Byte>>, ghost blocks: seq<Block>)
    requires tables.Valid() && state.Length == 16 && state !in {tables.kSbox, tables.kInvSbox}
    requires AreKeys(tables, state, keys) && HoldKeys(keys, blocks, k => k)
    modifies tables`ready, tables.kSbox, tables.kInvSbox, state
    ensures tables.Valid()
    ensures Loaded(state[..]) == EncryptRounds(AES(), Loaded(old(state[..])), blocks)
  {
    ghost var form: Block -> Block := k => k;
    assert AreRounds(EncryptRound(AES()), form, false);
    RunRounds(tables, state, keys, false, blocks, EncryptRound(AES()), form);
  }

  /** The inverse rounds: the keys mixed beforehand, and taken from the last to the first. */
  method DecryptInPlace(tables: Tables, state: array<Byte>, keys: seq<array<Byte>>, ghost blocks: seq<Block>)
    requires tables.Valid() && state.Length == 16 && state !in {tables.kSbox, tables.kInvSbox}
    requires AreKeys(tables, state, keys) && HoldKeys(keys, blocks, AES().unmix)
    modifies tables`ready, tables.kSbox, tables.kInvSbox, state
    ensures tables.Valid()
    ensures Loaded(state[..]) == DecryptRounds(AES(), Loaded(old(state[..])), blocks)
  {
    BackwardIsForward(Loaded(state[..]), blocks, DecryptRound(AES()));
    RunRounds(tables, state, Reversed(keys), true, Reversed(blocks), DecryptRound(AES()), AES().unmix);
  }
}

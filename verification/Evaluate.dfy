/** Numbers in the notations of NASM (blink-js/src/wasm-assembler.ts). */
module Numbers {

  import opened Options

  /** The radix a letter stands for, after a leading zero or at the end; 0 for every other character. */
  function Radix(c: char): (r: nat)
    ensures r == 0 || r == 2 || r == 8 || r == 10 || r == 16
  {
    match c
    case 'b' | 'y' | 'B' | 'Y' => 2
    case 'o' | 'q' | 'O' | 'Q' => 8
    case 'd' | 't' | 'D' | 'T' => 10
    case 'h' | 'x' | 'H' | 'X' => 16
    case _ => 0
  }

  /** What a digit is worth; at least 16 for every other character. */
  function Digit(c: char): nat {
    if '0' <= c <= '9' then (c - '0') as nat
    else if 'a' <= c <= 'f' then (c - 'a') as nat + 10
    else if 'A' <= c <= 'F' then (c - 'A') as nat + 10
    else 16
  }

  function WithoutUnderscores(s: string): string {
    if s == [] then [] else (if s[0] == '_' then [] else [s[0]]) + WithoutUnderscores(s[1..])
  }

  predicate AreDigits(s: string, r: nat) {
    forall c :: c in s ==> Digit(c) < r
  }

  /** The number the digits are, the highest first. */
  function DigitsValue(s: string, r: nat): nat {
    if s == [] then 0 else DigitsValue(s[..|s| - 1], r) * r + Digit(s[|s| - 1])
  }

  function PrefixRadix(token: string): nat {
    if |token| > 2 && token[0] == '0' then Radix(token[1]) else 0
  }

  function SuffixRadix(token: string): nat {
    if |token| > 1 then Radix(token[|token| - 1]) else 0
  }

  /** readNumber: of two radix letters the larger wins. */
  function ReadNumber(token: string): Option<nat> {
    var prefix, suffix := PrefixRadix(token), SuffixRadix(token);
    var radix := if prefix > suffix then prefix else if suffix > prefix then suffix else 10;
    var part := if prefix > suffix then token[2..] else if suffix > prefix then token[..|token| - 1] else token;
    var digits := WithoutUnderscores(part);
    if digits == [] || !AreDigits(digits, radix) then None else Some(DigitsValue(digits, radix))
  }

  // ---------------------------------------------------------------------------------------------
  // Decimal numbers
  // ---------------------------------------------------------------------------------------------

  function Decimal(n: nat): (s: string)
    ensures |s| >= 1 && forall c :: c in s ==> '0' <= c <= '9'
  {
    (if n < 10 then [] else Decimal(n / 10)) + [('0' as nat + n % 10) as char]
  }

  lemma {:induction false} DecimalRead(n: nat)
    ensures DigitsValue(Decimal(n), 10) == n && AreDigits(Decimal(n), 10)
  {
    var s := Decimal(n);
    assert s[..|s| - 1] == if n < 10 then [] else Decimal(n / 10);
    if n >= 10 {
      DecimalRead(n / 10);
    }
  }

  // ---------------------------------------------------------------------------------------------
  // The notations
  // ---------------------------------------------------------------------------------------------

  /** Digits of the radix, at least one, with underscores anywhere. */
  predicate IsNumeral(s: string, r: nat, v: nat) {
    var digits := WithoutUnderscores(s);
    digits != [] && AreDigits(digits, r) && v == DigitsValue(digits, r)
  }

  /** A token as the notations define it, without a rule for which of them goes first. */
  ghost predicate Denotes(token: string, v: nat) {
    || IsNumeral(token, 10, v)
    || (|token| > 2 && token[0] == '0' && Radix(token[1]) > 0 && IsNumeral(token[2..], Radix(token[1]), v))
    || (|token| > 1 && Radix(token[|token| - 1]) > 0 && IsNumeral(token[..|token| - 1], Radix(token[|token| - 1]), v))
  }

  lemma {:induction false} KeptCharacter(s: string, i: nat)
    requires i < |s| && s[i] != '_'
    ensures s[i] in WithoutUnderscores(s)
    decreases s
  {
    if i > 0 {
      KeptCharacter(s[1..], i - 1);
    }
  }

  /** No digit of a radix is a letter that stands for it or for a larger one. */
  lemma LetterBelow(s: string, i: nat, r: nat, v: nat)
    requires IsNumeral(s, r, v) && i < |s| && (r == 2 || r == 8 || r == 10 || r == 16)
    ensures Radix(s[i]) < r
    ensures r <= 10 ==> Radix(s[i]) == 0
  {
    if s[i] != '_' {
      KeptCharacter(s, i);
    }
  }

  /** The notations never disagree, so which letter wins decides nothing but what can be read at all. */
  lemma ReadsWhatItDenotes(token: string, v: nat)
    ensures ReadNumber(token) == Some(v) <==> Denotes(token, v)
  {
    var n := |token| - 1;
    if IsNumeral(token, 10, v) {
      if n >= 1 {
        LetterBelow(token, 1, 10, v);
        LetterBelow(token, n, 10, v);
      }
    } else if |token| > 2 && token[0] == '0' && Radix(token[1]) > 0 && IsNumeral(token[2..], Radix(token[1]), v) {
      LetterBelow(token[2..], n - 2, Radix(token[1]), v);
    } else if |token| > 1 && Radix(token[n]) > 0 && IsNumeral(token[..n], Radix(token[n]), v) {
      if n >= 2 {
        LetterBelow(token[..n], 1, Radix(token[n]), v);
      }
    }
  }

  lemma {:induction false} NothingDropped(s: string)
    requires '_' !in s
    ensures WithoutUnderscores(s) == s
    decreases s
  {
    if s != [] {
      NothingDropped(s[1..]);
    }
  }

  /** A number in decimal digits reads as that number. */
  lemma DecimalIsRead(n: nat)
    ensures ReadNumber(Decimal(n)) == Some(n)
  {
    NothingDropped(Decimal(n));
    DecimalRead(n);
    ReadsWhatItDenotes(Decimal(n), n);
  }
}

/** Constant expressions (blink-js/src/wasm-assembler.ts). */
module Expressions {

  import opened Options
  import opened Numbers

  datatype Token = Value(v: int) | Op(c: char)

  // The grammar, as trees: a sum of products of operands, each grouping to the left.

  datatype Sum = One(p: Product) | Plus(s: Sum, p: Product) | Minus(s: Sum, p: Product)

  datatype Product = Single(o: Operand) | Times(l: Product, o: Operand) | Over(l: Product, o: Operand)

  datatype Operand = Constant(v: int) | Grouped(s: Sum) | Negative(o: Operand) | Positive(o: Operand) | Inverted(o: Operand)

  function SumTokens(t: Sum): seq<Token> {
    match t
    case One(p) => ProductTokens(p)
    case Plus(s, p) => SumTokens(s) + ([Op('+')] + ProductTokens(p))
    case Minus(s, p) => SumTokens(s) + ([Op('-')] + ProductTokens(p))
  }

  function ProductTokens(t: Product): seq<Token> {
    match t
    case Single(o) => OperandTokens(o)
    case Times(l, o) => ProductTokens(l) + ([Op('*')] + OperandTokens(o))
    case Over(l, o) => ProductTokens(l) + ([Op('/')] + OperandTokens(o))
  }

  function OperandTokens(t: Operand): seq<Token> {
    match t
    case Constant(v) => [Value(v)]
    case Grouped(s) => [Op('(')] + (SumTokens(s) + [Op(')')])
    case Negative(o) => [Op('-')] + OperandTokens(o)
    case Positive(o) => [Op('+')] + OperandTokens(o)
    case Inverted(o) => [Op('~')] + OperandTokens(o)
  }

  // ---------------------------------------------------------------------------------------------
  // Values
  // ---------------------------------------------------------------------------------------------

  function Unsigned(v: int): nat {
    v % 0x1_0000_0000_0000_0000
  }

  function Added(x: Option<int>, y: Option<int>): Option<int> {
    if x.Some? && y.Some? then Some(x.value + y.value) else None
  }

  function Subtracted(x: Option<int>, y: Option<int>): Option<int> {
    if x.Some? && y.Some? then Some(x.value - y.value) else None
  }

  function Multiplied(x: Option<int>, y: Option<int>): Option<int> {
    if x.Some? && y.Some? then Some(x.value * y.value) else None
  }

  /** Divides the low 64 bits of both, unsigned; by zero there is no value. */
  function Divided(x: Option<int>, y: Option<int>): Option<int> {
    if x.Some? && y.Some? && Unsigned(y.value) != 0 then Some(Unsigned(x.value) / Unsigned(y.value)) else None
  }

  function SumValue(t: Sum): Option<int> {
    match t
    case One(p) => ProductValue(p)
    case Plus(s, p) => Added(SumValue(s), ProductValue(p))
    case Minus(s, p) => Subtracted(SumValue(s), ProductValue(p))
  }

  function ProductValue(t: Product): Option<int> {
    match t
    case Single(o) => OperandValue(o)
    case Times(l, o) => Multiplied(ProductValue(l), OperandValue(o))
    case Over(l, o) => Divided(ProductValue(l), OperandValue(o))
  }

  function OperandValue(t: Operand): Option<int> {
    match t
    case Constant(v) => Some(v)
    case Grouped(s) => SumValue(s)
    case Negative(o) => (var v := OperandValue(o); if v.Some? then Some(-v.value) else None)
    case Positive(o) => OperandValue(o)
    case Inverted(o) => (var v := OperandValue(o); if v.Some? then Some(-v.value - 1) else None)
  }

  // ---------------------------------------------------------------------------------------------
  // Parsing by recursive descent
  // ---------------------------------------------------------------------------------------------

  datatype Parsed<T> = Parsed(tree: T, rest: seq<Token>)

  predicate StartsWith(ts: seq<Token>, c: char) {
    ts != [] && ts[0] == Op(c)
  }

  function ParseOperand(ts: seq<Token>): (r: Option<Parsed<Operand>>)
    ensures r.Some? ==> |r.value.rest| < |ts|
    decreases |ts|, 0
  {
    if ts == [] then None
    else if ts[0].Value? then Some(Parsed(Constant(ts[0].v), ts[1..]))
    else if ts[0].c == '(' then
      var s := ParseSum(ts[1..]);
      if s.Some? && StartsWith(s.value.rest, ')') then Some(Parsed(Grouped(s.value.tree), s.value.rest[1..])) else None
    else if ts[0].c != '-' && ts[0].c != '+' && ts[0].c != '~' then None
    else
      var o := ParseOperand(ts[1..]);
      if o.None? then None else Some(Parsed(Signed(ts[0].c, o.value.tree), o.value.rest))
  }

  function Signed(c: char, o: Operand): Operand {
    if c == '-' then Negative(o) else if c == '~' then Inverted(o) else Positive(o)
  }

  function ParseProduct(ts: seq<Token>): (r: Option<Parsed<Product>>)
    ensures r.Some? ==> |r.value.rest| < |ts|
    decreases |ts|, 2
  {
    var o := ParseOperand(ts);
    if o.None? then None else ParseFactors(Single(o.value.tree), o.value.rest)
  }

  /** The factors after a product. */
  function ParseFactors(l: Product, ts: seq<Token>): (r: Option<Parsed<Product>>)
    ensures r.Some? ==> |r.value.rest| <= |ts|
    decreases |ts|, 1
  {
    if !StartsWith(ts, '*') && !StartsWith(ts, '/') then Some(Parsed(l, ts))
    else
      var o := ParseOperand(ts[1..]);
      if o.None? then None
      else ParseFactors(if ts[0].c == '*' then Times(l, o.value.tree) else Over(l, o.value.tree), o.value.rest)
  }

  function ParseSum(ts: seq<Token>): (r: Option<Parsed<Sum>>)
    ensures r.Some? ==> |r.value.rest| < |ts|
    decreases |ts|, 4
  {
    var p := ParseProduct(ts);
    if p.None? then None else ParseTerms(One(p.value.tree), p.value.rest)
  }

  /** The terms after a sum. */
  function ParseTerms(s: Sum, ts: seq<Token>): (r: Option<Parsed<Sum>>)
    ensures r.Some? ==> |r.value.rest| <= |ts|
    decreases |ts|, 3
  {
    if !StartsWith(ts, '+') && !StartsWith(ts, '-') then Some(Parsed(s, ts))
    else
      var p := ParseProduct(ts[1..]);
      if p.None? then None
      else ParseTerms(if ts[0].c == '+' then Plus(s, p.value.tree) else Minus(s, p.value.tree), p.value.rest)
  }

  // ---------------------------------------------------------------------------------------------
  // What is parsed is what was there
  // ---------------------------------------------------------------------------------------------

  lemma {:induction false} OperandIsThere(ts: seq<Token>)
    ensures ParseOperand(ts).Some? ==>
      ts == OperandTokens(ParseOperand(ts).value.tree) + ParseOperand(ts).value.rest
    decreases |ts|, 0
  {
    if ts != [] {
      assert ts == [ts[0]] + ts[1..];
      if ts[0].Op? && ts[0].c == '(' {
        SumIsThere(ts[1..]);
        var s := ParseSum(ts[1..]);
        if s.Some? && StartsWith(s.value.rest, ')') {
          assert s.value.rest == [Op(')')] + s.value.rest[1..];
        }
      } else if ts[0].Op? {
        OperandIsThere(ts[1..]);
      }
    }
  }

  lemma {:induction false} ProductIsThere(ts: seq<Token>)
    ensures ParseProduct(ts).Some? ==>
      ts == ProductTokens(ParseProduct(ts).value.tree) + ParseProduct(ts).value.rest
    decreases |ts|, 2
  {
    OperandIsThere(ts);
    var o := ParseOperand(ts);
    if o.Some? {
      FactorsAreThere(Single(o.value.tree), o.value.rest);
    }
  }

  lemma {:induction false} FactorsAreThere(l: Product, ts: seq<Token>)
    ensures ParseFactors(l, ts).Some? ==>
      ProductTokens(l) + ts == ProductTokens(ParseFactors(l, ts).value.tree) + ParseFactors(l, ts).value.rest
    decreases |ts|, 1
  {
    if StartsWith(ts, '*') || StartsWith(ts, '/') {
      OperandIsThere(ts[1..]);
      var o := ParseOperand(ts[1..]);
      if o.Some? {
        var next := if ts[0].c == '*' then Times(l, o.value.tree) else Over(l, o.value.tree);
        assert ts == [ts[0]] + (OperandTokens(o.value.tree) + o.value.rest);
        assert ProductTokens(l) + ts == ProductTokens(next) + o.value.rest;
        FactorsAreThere(next, o.value.rest);
      }
    }
  }

  lemma {:induction false} SumIsThere(ts: seq<Token>)
    ensures ParseSum(ts).Some? ==> ts == SumTokens(ParseSum(ts).value.tree) + ParseSum(ts).value.rest
    decreases |ts|, 4
  {
    ProductIsThere(ts);
    var p := ParseProduct(ts);
    if p.Some? {
      TermsAreThere(One(p.value.tree), p.value.rest);
    }
  }

  lemma {:induction false} TermsAreThere(s: Sum, ts: seq<Token>)
    ensures ParseTerms(s, ts).Some? ==>
      SumTokens(s) + ts == SumTokens(ParseTerms(s, ts).value.tree) + ParseTerms(s, ts).value.rest
    decreases |ts|, 3
  {
    if StartsWith(ts, '+') || StartsWith(ts, '-') {
      ProductIsThere(ts[1..]);
      var p := ParseProduct(ts[1..]);
      if p.Some? {
        var next := if ts[0].c == '+' then Plus(s, p.value.tree) else Minus(s, p.value.tree);
        assert ts == [ts[0]] + (ProductTokens(p.value.tree) + p.value.rest);
        assert SumTokens(s) + ts == SumTokens(next) + p.value.rest;
        TermsAreThere(next, p.value.rest);
      }
    }
  }

  // ---------------------------------------------------------------------------------------------
  // What is there is parsed
  // ---------------------------------------------------------------------------------------------

  lemma {:induction false} OperandParses(o: Operand, rest: seq<Token>)
    ensures ParseOperand(OperandTokens(o) + rest) == Some(Parsed(o, rest))
    decreases o
  {
    var ts := OperandTokens(o) + rest;
    match o
    case Constant(v) =>
      assert ts[1..] == rest;
    case Grouped(s) =>
      var after := [Op(')')] + rest;
      assert ts[1..] == SumTokens(s) + after;
      SumParses(s, after);
      assert after[1..] == rest;
    case Negative(inner) =>
      assert ts[1..] == OperandTokens(inner) + rest;
      OperandParses(inner, rest);
    case Positive(inner) =>
      assert ts[1..] == OperandTokens(inner) + rest;
      OperandParses(inner, rest);
    case Inverted(inner) =>
      assert ts[1..] == OperandTokens(inner) + rest;
      OperandParses(inner, rest);
  }

  /** Parsing from the start of a product comes to where it ends, with the product parsed. */
  lemma {:induction false} ProductParses(p: Product, rest: seq<Token>)
    ensures ParseProduct(ProductTokens(p) + rest) == ParseFactors(p, rest)
    decreases p
  {
    if p.Single? {
      OperandParses(p.o, rest);
    } else {
      var c := if p.Times? then '*' else '/';
      var tail := [Op(c)] + (OperandTokens(p.o) + rest);
      assert ProductTokens(p) + rest == ProductTokens(p.l) + tail;
      ProductParses(p.l, tail);
      assert tail[1..] == OperandTokens(p.o) + rest;
      OperandParses(p.o, rest);
    }
  }

  lemma {:induction false} SumParses(s: Sum, rest: seq<Token>)
    requires !StartsWith(rest, '*') && !StartsWith(rest, '/')
    ensures ParseSum(SumTokens(s) + rest) == ParseTerms(s, rest)
    decreases s
  {
    if s.One? {
      ProductParses(s.p, rest);
    } else {
      var c := if s.Plus? then '+' else '-';
      var tail := [Op(c)] + (ProductTokens(s.p) + rest);
      assert SumTokens(s) + rest == SumTokens(s.s) + tail;
      SumParses(s.s, tail);
      assert tail[1..] == ProductTokens(s.p) + rest;
      ProductParses(s.p, rest);
    }
  }

  /** The token list of a sum parses to that sum and to no other: the grammar is unambiguous. */
  lemma ParseIsInverse(ts: seq<Token>, t: Sum)
    ensures SumTokens(t) == ts <==> ParseSum(ts) == Some(Parsed(t, []))
  {
    SumParses(t, []);
    assert SumTokens(t) + [] == SumTokens(t);
    SumIsThere(ts);
  }

  lemma Unambiguous(t: Sum, u: Sum)
    requires SumTokens(t) == SumTokens(u)
    ensures t == u
  {
    ParseIsInverse(SumTokens(t), t);
    ParseIsInverse(SumTokens(t), u);
  }

  // ---------------------------------------------------------------------------------------------
  // The evaluator
  // ---------------------------------------------------------------------------------------------

  /** Once a part of a product has no value, no more factors give it one. */
  lemma {:induction false} FactorsKeepNone(l: Product, ts: seq<Token>)
    requires ProductValue(l).None? && ParseFactors(l, ts).Some?
    ensures ProductValue(ParseFactors(l, ts).value.tree).None?
    decreases |ts|
  {
    if StartsWith(ts, '*') || StartsWith(ts, '/') {
      var o := ParseOperand(ts[1..]).value;
      FactorsKeepNone(if ts[0].c == '*' then Times(l, o.tree) else Over(l, o.tree), o.rest);
    }
  }

  lemma {:induction false} TermsKeepNone(s: Sum, ts: seq<Token>)
    requires SumValue(s).None? && ParseTerms(s, ts).Some?
    ensures SumValue(ParseTerms(s, ts).value.tree).None?
    decreases |ts|
  {
    if StartsWith(ts, '+') || StartsWith(ts, '-') {
      var p := ParseProduct(ts[1..]).value;
      TermsKeepNone(if ts[0].c == '+' then Plus(s, p.tree) else Minus(s, p.tree), p.rest);
    }
  }

  /** The tokens, and the place `operand`, `product` and `sum` share. */
  class Cursor {
    const tokens: seq<Token>
    var k: nat

    constructor (tokens: seq<Token>)
      ensures this.tokens == tokens && k == 0
    {
      this.tokens := tokens;
      k := 0;
    }

    ghost function Rest(): seq<Token>
      requires k <= |tokens|
      reads this`k
    {
      tokens[k..]
    }

    predicate At(c: char)
      reads this`k
    {
      k < |tokens| && tokens[k] == Op(c)
    }

    method TakeOperand() returns (value: Option<int>)
      requires k <= |tokens|
      modifies this`k
      ensures
        var parsed := ParseOperand(tokens[old(k)..]);
        && value == (if parsed.None? then None else OperandValue(parsed.value.tree))
        && (value.Some? ==> old(k) < k <= |tokens| && Rest() == parsed.value.rest)
      decreases |tokens| - k, 0
    {
      if k == |tokens| {
        k := k + 1;
        return None;
      }
      var token := tokens[k];
      k := k + 1;
      assert tokens[k - 1..][1..] == tokens[k..];
      if token.Value? {
        return Some(token.v);
      }
      if token.c == '(' {
        value := TakeSum();
        var closed := At(')');
        k := k + 1;
        return if closed then value else None;
      }
      if token.c != '-' && token.c != '+' && token.c != '~' {
        return None;
      }
      value := TakeOperand();
      if value.None? {
        return None;
      }
      value := Some(if token.c == '-' then -value.value else if token.c == '~' then -value.value - 1 else value.value);
    }

    /** An operator and the factor after it, where l is the product so far. */
    method TakeFactor(value: int, ghost l: Product) returns (next: Option<int>, ghost grown: Product)
      requires k <= |tokens| && (At('*') || At('/')) && ProductValue(l) == Some(value)
      modifies this`k
      ensures
        var whole := ParseFactors(l, tokens[old(k)..]);
        if next.None? then whole.Some? ==> ProductValue(whole.value.tree).None?
        else
          && old(k) < k <= |tokens|
          && ProductValue(grown) == next && ParseFactors(grown, Rest()) == whole
      decreases |tokens| - k, 1
    {
      var times := At('*');
      k := k + 1;
      assert tokens[k - 1..][1..] == tokens[k..];
      ghost var o := ParseOperand(tokens[k..]);
      grown := if o.None? then l else if times then Times(l, o.value.tree) else Over(l, o.value.tree);
      var right := TakeOperand();
      if o.Some? && ProductValue(grown).None? && ParseFactors(grown, o.value.rest).Some? {
        FactorsKeepNone(grown, o.value.rest);
      }
      if right.None? || (!times && Unsigned(right.value) == 0) {
        return None, grown;
      }
      next := Some(if times then value * right.value else Unsigned(value) / Unsigned(right.value));
    }

    method TakeProduct() returns (value: Option<int>)
      requires k <= |tokens|
      modifies this`k
      ensures
        var parsed := ParseProduct(tokens[old(k)..]);
        && value == (if parsed.None? then None else ProductValue(parsed.value.tree))
        && (value.Some? ==> old(k) < k <= |tokens| && Rest() == parsed.value.rest)
      decreases |tokens| - k, 2
    {
      ghost var k0 := k;
      ghost var whole := ParseProduct(tokens[k..]);
      ghost var o := ParseOperand(tokens[k..]);
      value := TakeOperand();
      ghost var l := Single(if o.Some? then o.value.tree else Constant(0));
      if value.None? && whole.Some? {
        FactorsKeepNone(l, o.value.rest);
      }
      while value.Some? && (At('*') || At('/'))
        invariant value.None? ==> whole.Some? ==> ProductValue(whole.value.tree).None?
        invariant value.Some? ==> k0 < k <= |tokens| && value == ProductValue(l) && whole == ParseFactors(l, Rest())
        decreases if value.Some? then |tokens| - k + 1 else 0
      {
        value, l := TakeFactor(value.value, l);
      }
    }

    /** An operator and the product after it, where s is the sum so far. */
    method TakeTerm(value: int, ghost s: Sum) returns (next: Option<int>, ghost grown: Sum)
      requires k <= |tokens| && (At('+') || At('-')) && SumValue(s) == Some(value)
      modifies this`k
      ensures
        var whole := ParseTerms(s, tokens[old(k)..]);
        if next.None? then whole.Some? ==> SumValue(whole.value.tree).None?
        else
          && old(k) < k <= |tokens|
          && SumValue(grown) == next && ParseTerms(grown, Rest()) == whole
      decreases |tokens| - k, 3
    {
      var plus := At('+');
      k := k + 1;
      assert tokens[k - 1..][1..] == tokens[k..];
      ghost var p := ParseProduct(tokens[k..]);
      grown := if p.None? then s else if plus then Plus(s, p.value.tree) else Minus(s, p.value.tree);
      var right := TakeProduct();
      if p.Some? && SumValue(grown).None? && ParseTerms(grown, p.value.rest).Some? {
        TermsKeepNone(grown, p.value.rest);
      }
      next := if right.None? then None else Some(if plus then value + right.value else value - right.value);
    }

    method TakeSum() returns (value: Option<int>)
      requires k <= |tokens|
      modifies this`k
      ensures
        var parsed := ParseSum(tokens[old(k)..]);
        && value == (if parsed.None? then None else SumValue(parsed.value.tree))
        && (value.Some? ==> old(k) < k <= |tokens| && Rest() == parsed.value.rest)
      decreases |tokens| - k, 4
    {
      ghost var k0 := k;
      ghost var whole := ParseSum(tokens[k..]);
      ghost var p := ParseProduct(tokens[k..]);
      value := TakeProduct();
      ghost var s := One(if p.Some? then p.value.tree else Single(Constant(0)));
      if value.None? && whole.Some? {
        TermsKeepNone(s, p.value.rest);
      }
      while value.Some? && (At('+') || At('-'))
        invariant value.None? ==> whole.Some? ==> SumValue(whole.value.tree).None?
        invariant value.Some? ==> k0 < k <= |tokens| && value == SumValue(s) && whole == ParseTerms(s, Rest())
        decreases if value.Some? then |tokens| - k + 1 else 0
      {
        value, s := TakeTerm(value.value, s);
      }
    }
  }

  /** Some sum is written with these tokens and has this value. */
  ghost predicate Means(ts: seq<Token>, v: int) {
    exists t: Sum :: SumTokens(t) == ts && SumValue(t) == Some(v)
  }

  lemma MeaningIsParsed(ts: seq<Token>, v: int)
    ensures Means(ts, v) <==>
      ParseSum(ts).Some? && ParseSum(ts).value.rest == [] && SumValue(ParseSum(ts).value.tree) == Some(v)
  {
    if ParseSum(ts).Some? && ParseSum(ts).value.rest == [] {
      ParseIsInverse(ts, ParseSum(ts).value.tree);
    }
    forall t: Sum | SumTokens(t) == ts
      ensures ParseSum(ts) == Some(Parsed(t, []))
    {
      ParseIsInverse(ts, t);
    }
  }

  /** No two sums with different values are written alike. */
  lemma MeaningIsUnique(ts: seq<Token>, v: int, w: int)
    requires Means(ts, v) && Means(ts, w)
    ensures v == w
  {
    MeaningIsParsed(ts, v);
    MeaningIsParsed(ts, w);
  }

  // ---------------------------------------------------------------------------------------------
  // Expressions written out
  // ---------------------------------------------------------------------------------------------

  datatype Expr = Literal(v: nat)
                | Neg(e: Expr) | Pos(e: Expr) | Not(e: Expr)
                | Add(l: Expr, r: Expr) | Sub(l: Expr, r: Expr) | Mul(l: Expr, r: Expr) | Div(l: Expr, r: Expr)

  function ExprValue(e: Expr): Option<int> {
    match e
    case Literal(v) => Some(v)
    case Neg(e) => (var v := ExprValue(e); if v.Some? then Some(-v.value) else None)
    case Pos(e) => ExprValue(e)
    case Not(e) => (var v := ExprValue(e); if v.Some? then Some(-v.value - 1) else None)
    case Add(l, r) => Added(ExprValue(l), ExprValue(r))
    case Sub(l, r) => Subtracted(ExprValue(l), ExprValue(r))
    case Mul(l, r) => Multiplied(ExprValue(l), ExprValue(r))
    case Div(l, r) => Divided(ExprValue(l), ExprValue(r))
  }

  /** The expression with parentheses only where its grouping needs them. */
  function AsSum(e: Expr): Sum
    decreases e, 2
  {
    match e
    case Add(l, r) => Plus(AsSum(l), AsProduct(r))
    case Sub(l, r) => Minus(AsSum(l), AsProduct(r))
    case _ => One(AsProduct(e))
  }

  function AsProduct(e: Expr): Product
    decreases e, 1
  {
    match e
    case Mul(l, r) => Times(AsProduct(l), AsOperand(r))
    case Div(l, r) => Over(AsProduct(l), AsOperand(r))
    case _ => Single(AsOperand(e))
  }

  function AsOperand(e: Expr): Operand
    decreases e, 0
  {
    match e
    case Literal(v) => Constant(v)
    case Neg(e) => Negative(AsOperand(e))
    case Pos(e) => Positive(AsOperand(e))
    case Not(e) => Inverted(AsOperand(e))
    case Add(l, r) => Grouped(Plus(AsSum(l), AsProduct(r)))
    case Sub(l, r) => Grouped(Minus(AsSum(l), AsProduct(r)))
    case Mul(l, r) => Grouped(One(Times(AsProduct(l), AsOperand(r))))
    case Div(l, r) => Grouped(One(Over(AsProduct(l), AsOperand(r))))
  }

  lemma {:induction false} WrittenKeepsValue(e: Expr)
    ensures SumValue(AsSum(e)) == ProductValue(AsProduct(e)) == OperandValue(AsOperand(e)) == ExprValue(e)
    decreases e
  {
    match e
    case Literal(v) =>
    case Neg(i) => WrittenKeepsValue(i);
    case Pos(i) => WrittenKeepsValue(i);
    case Not(i) => WrittenKeepsValue(i);
    case Add(l, r) =>
      WrittenKeepsValue(l);
      WrittenKeepsValue(r);
    case Sub(l, r) =>
      WrittenKeepsValue(l);
      WrittenKeepsValue(r);
    case Mul(l, r) =>
      WrittenKeepsValue(l);
      WrittenKeepsValue(r);
    case Div(l, r) =>
      WrittenKeepsValue(l);
      WrittenKeepsValue(r);
  }

  /** The tokens an expression is written with mean its value, or nothing where it has none. */
  lemma WrittenMeansValue(e: Expr, v: int)
    ensures Means(SumTokens(AsSum(e)), v) <==> ExprValue(e) == Some(v)
  {
    WrittenKeepsValue(e);
    MeaningIsParsed(SumTokens(AsSum(e)), v);
    ParseIsInverse(SumTokens(AsSum(e)), AsSum(e));
  }

  /** What the scanner finds: a number as it is written, `$` or `$$`, a name, an operator, or nothing it knows. */
  datatype Lexeme = Number(text: string) | Here | Name(name: string) | Operator(c: char) | Unknown

  datatype Outcome = Evaluated(value: int) | NoName | Invalid | Overflow

  const MAX_ADDRESS: nat := 0xffff_ffff_ffff_ffff

  predicate IsReadable(x: Lexeme) {
    !x.Unknown? && (x.Number? ==> ReadNumber(x.text).Some?)
  }

  predicate HasNoValue(x: Lexeme, values: map<string, int>) {
    x.Name? && x.name !in values
  }

  predicate IsTooLarge(x: Lexeme) {
    x.Number? && ReadNumber(x.text).Some? && ReadNumber(x.text).value > MAX_ADDRESS
  }

  function TokenOf(x: Lexeme, here: int, values: map<string, int>): Token
    requires IsReadable(x)
  {
    match x
    case Number(text) => Value(ReadNumber(text).value)
    case Here => Value(here)
    case Name(name) => Value(if name in values then values[name] else 0)
    case Operator(c) => Op(c)
  }

  function TokensOf(xs: seq<Lexeme>, here: int, values: map<string, int>): seq<Token>
    requires forall x :: x in xs ==> IsReadable(x)
  {
    seq(|xs|, i requires 0 <= i < |xs| => TokenOf(xs[i], here, values))
  }

  /** The value of the only sum the tokens spell, or why there is none; the first reason that applies, in this order. */
  method Evaluate(xs: seq<Lexeme>, here: int, values: map<string, int>) returns (r: Outcome)
    ensures
      if !(forall x :: x in xs ==> IsReadable(x)) then r == Invalid
      else if exists x :: x in xs && HasNoValue(x, values) then r == NoName
      else if !(exists v :: Means(TokensOf(xs, here, values), v)) then r == Invalid
      else if exists x :: x in xs && IsTooLarge(x) then r == Overflow
      else r.Evaluated? && Means(TokensOf(xs, here, values), r.value)
  {
    var tokens := [];
    var named, overflow := false, false;
    var at := 0;
    while at < |xs|
      invariant at <= |xs|
      invariant forall x :: x in xs[..at] ==> IsReadable(x)
      invariant tokens == TokensOf(xs[..at], here, values)
      invariant named <==> exists x :: x in xs[..at] && HasNoValue(x, values)
      invariant overflow <==> exists x :: x in xs[..at] && IsTooLarge(x)
    {
      var x := xs[at];
      assert xs[..at + 1] == xs[..at] + [x];
      if !IsReadable(x) {
        assert x in xs;
        return Invalid;
      }
      overflow := overflow || IsTooLarge(x);
      named := named || HasNoValue(x, values);
      tokens := tokens + [TokenOf(x, here, values)];
      at := at + 1;
    }
    assert xs[..at] == xs;
    if named {
      return NoName;
    }
    var cursor := new Cursor(tokens);
    var value := cursor.TakeSum();
    assert tokens[0..] == tokens;
    forall v ensures Means(tokens, v) <==> value == Some(v) && cursor.k == |tokens| {
      MeaningIsParsed(tokens, v);
    }
    if value.None? || cursor.k != |tokens| {
      return Invalid;
    }
    assert Means(tokens, value.value);
    return if overflow then Overflow else Evaluated(value.value);
  }

  // ---------------------------------------------------------------------------------------------
  // Expressions written out and evaluated
  // ---------------------------------------------------------------------------------------------

  function Literals(e: Expr): set<nat> {
    match e
    case Literal(v) => {v}
    case Neg(e) => Literals(e)
    case Pos(e) => Literals(e)
    case Not(e) => Literals(e)
    case Add(l, r) => Literals(l) + Literals(r)
    case Sub(l, r) => Literals(l) + Literals(r)
    case Mul(l, r) => Literals(l) + Literals(r)
    case Div(l, r) => Literals(l) + Literals(r)
  }

  /** The numbers among the tokens are the expression's, however it is grouped. */
  ghost predicate HasLiterals(ts: seq<Token>, e: Expr) {
    forall v: int :: Value(v) in ts <==> v >= 0 && v in Literals(e)
  }

  lemma LiteralsBehind(c: char, ts: seq<Token>, e: Expr)
    requires HasLiterals(ts, e)
    ensures HasLiterals([Op(c)] + ts, e) && HasLiterals([Op(c)] + (ts + [Op(')')]), e)
  {
  }

  lemma LiteralsJoined(xs: seq<Token>, c: char, ys: seq<Token>, l: Expr, r: Expr, e: Expr)
    requires HasLiterals(xs, l) && HasLiterals(ys, r) && Literals(e) == Literals(l) + Literals(r)
    ensures HasLiterals(xs + ([Op(c)] + ys), e)
  {
  }

  /** The tokens of an expression that stands alone: with no parentheses around it. */
  function Bare(e: Expr): seq<Token> {
    match e
    case Add(_, _) => SumTokens(AsSum(e))
    case Sub(_, _) => SumTokens(AsSum(e))
    case Mul(_, _) => ProductTokens(AsProduct(e))
    case Div(_, _) => ProductTokens(AsProduct(e))
    case _ => OperandTokens(AsOperand(e))
  }

  ghost predicate WritesLiterals(e: Expr) {
    && HasLiterals(SumTokens(AsSum(e)), e)
    && HasLiterals(ProductTokens(AsProduct(e)), e)
    && HasLiterals(OperandTokens(AsOperand(e)), e)
  }

  /** Parentheses add no literals. */
  lemma LiteralsInParentheses(e: Expr)
    requires HasLiterals(Bare(e), e)
    ensures WritesLiterals(e)
  {
    LiteralsBehind('(', Bare(e), e);
    if e.Add? || e.Sub? {
      assert ProductTokens(AsProduct(e)) == OperandTokens(AsOperand(e)) == [Op('(')] + (Bare(e) + [Op(')')]);
    } else if e.Mul? || e.Div? {
      assert SumTokens(AsSum(e)) == Bare(e);
      assert OperandTokens(AsOperand(e)) == [Op('(')] + (SumTokens(One(AsProduct(e))) + [Op(')')]);
    } else {
      assert SumTokens(AsSum(e)) == ProductTokens(AsProduct(e)) == Bare(e);
    }
  }

  lemma LiteralsOfOperator(e: Expr, c: char, i: Expr)
    requires (e == Neg(i) && c == '-') || (e == Pos(i) && c == '+') || (e == Not(i) && c == '~')
    requires WritesLiterals(i)
    ensures HasLiterals(Bare(e), e)
  {
    assert Literals(e) == Literals(i);
    assert Bare(e) == [Op(c)] + OperandTokens(AsOperand(i));
    LiteralsBehind(c, OperandTokens(AsOperand(i)), e);
  }

  lemma LiteralsOfTerms(e: Expr, c: char, l: Expr, r: Expr)
    requires (e == Add(l, r) && c == '+') || (e == Sub(l, r) && c == '-')
    requires WritesLiterals(l) && WritesLiterals(r)
    ensures HasLiterals(Bare(e), e)
  {
    assert Bare(e) == SumTokens(AsSum(l)) + ([Op(c)] + ProductTokens(AsProduct(r)));
    LiteralsJoined(SumTokens(AsSum(l)), c, ProductTokens(AsProduct(r)), l, r, e);
  }

  lemma LiteralsOfFactors(e: Expr, c: char, l: Expr, r: Expr)
    requires (e == Mul(l, r) && c == '*') || (e == Div(l, r) && c == '/')
    requires WritesLiterals(l) && WritesLiterals(r)
    ensures HasLiterals(Bare(e), e)
  {
    assert Bare(e) == ProductTokens(AsProduct(l)) + ([Op(c)] + OperandTokens(AsOperand(r)));
    LiteralsJoined(ProductTokens(AsProduct(l)), c, OperandTokens(AsOperand(r)), l, r, e);
  }

  lemma {:induction false} WrittenLiterals(e: Expr)
    ensures WritesLiterals(e)
    decreases e
  {
    match e {
      case Literal(v) =>
        assert Bare(e) == [Value(v)];
      case Neg(i) =>
        WrittenLiterals(i);
        LiteralsOfOperator(e, '-', i);
      case Pos(i) =>
        WrittenLiterals(i);
        LiteralsOfOperator(e, '+', i);
      case Not(i) =>
        WrittenLiterals(i);
        LiteralsOfOperator(e, '~', i);
      case Add(l, r) =>
        WrittenLiterals(l);
        WrittenLiterals(r);
        LiteralsOfTerms(e, '+', l, r);
      case Sub(l, r) =>
        WrittenLiterals(l);
        WrittenLiterals(r);
        LiteralsOfTerms(e, '-', l, r);
      case Mul(l, r) =>
        WrittenLiterals(l);
        WrittenLiterals(r);
        LiteralsOfFactors(e, '*', l, r);
      case Div(l, r) =>
        WrittenLiterals(l);
        WrittenLiterals(r);
        LiteralsOfFactors(e, '/', l, r);
    }
    LiteralsInParentheses(e);
  }

  /** A token as text: numbers in decimal. */
  function Printed(t: Token): Lexeme
    requires t.Value? ==> t.v >= 0
  {
    match t case Value(v) => Number(Decimal(v)) case Op(c) => Operator(c)
  }

  predicate IsPrintable(ts: seq<Token>) {
    forall t :: t in ts && t.Value? ==> t.v >= 0
  }

  function Text(ts: seq<Token>): (xs: seq<Lexeme>)
    requires IsPrintable(ts)
    ensures |xs| == |ts|
    ensures forall i :: 0 <= i < |ts| ==> xs[i] == Printed(ts[i])
  {
    seq(|ts|, i requires 0 <= i < |ts| => Printed(ts[i]))
  }

  /** The text of tokens reads as those tokens. */
  lemma TextIsRead(ts: seq<Token>, here: int, values: map<string, int>)
    requires IsPrintable(ts)
    ensures forall x :: x in Text(ts) ==> IsReadable(x) && !HasNoValue(x, values)
    ensures TokensOf(Text(ts), here, values) == ts
    ensures forall i :: 0 <= i < |ts| ==> (IsTooLarge(Text(ts)[i]) <==> ts[i].Value? && ts[i].v > MAX_ADDRESS)
  {
    forall i | 0 <= i < |ts|
      ensures IsReadable(Text(ts)[i]) && TokenOf(Text(ts)[i], here, values) == ts[i]
      ensures IsTooLarge(Text(ts)[i]) <==> ts[i].Value? && ts[i].v > MAX_ADDRESS
    {
      if ts[i].Value? {
        DecimalIsRead(ts[i].v);
      }
    }
  }

  predicate HasLargeLiteral(e: Expr) {
    exists v :: v in Literals(e) && v > 0xffff_ffff_ffff_ffff
  }

  lemma LargeLiteralIsTooLarge(ts: seq<Token>, e: Expr)
    requires IsPrintable(ts) && HasLiterals(ts, e)
    ensures (exists x :: x in Text(ts) && IsTooLarge(x)) <==> HasLargeLiteral(e)
  {
    TextIsRead(ts, 0, map[]);
    if x :| x in Text(ts) && IsTooLarge(x) {
      var i :| 0 <= i < |ts| && Text(ts)[i] == x;
      assert Value(ts[i].v) in ts;
    }
    if v :| v in Literals(e) && v > MAX_ADDRESS {
      assert Value(v) in ts;
      var i :| 0 <= i < |ts| && ts[i] == Value(v);
      assert Text(ts)[i] in Text(ts) && IsTooLarge(Text(ts)[i]);
    }
  }

  /** An expression printed and evaluated gives its value; where it has none, or a literal is too large, that is reported. */
  method EvaluateWritten(e: Expr, here: int, values: map<string, int>) returns (r: Outcome)
    ensures r ==
      if ExprValue(e).None? then Invalid else if HasLargeLiteral(e) then Overflow else Evaluated(ExprValue(e).value)
  {
    var ts := SumTokens(AsSum(e));
    WrittenLiterals(e);
    assert IsPrintable(ts) by {
      assert forall t :: t in ts && t.Value? ==> Value(t.v) in ts;
    }
    TextIsRead(ts, here, values);
    LargeLiteralIsTooLarge(ts, e);
    r := Evaluate(Text(ts), here, values);
    if ExprValue(e).Some? {
      WrittenMeansValue(e, ExprValue(e).value);
    }
    forall v
      ensures Means(ts, v) ==> ExprValue(e) == Some(v)
    {
      WrittenMeansValue(e, v);
    }
  }
}

/** What the notations and the operators of constant expressions mean (blink-js/src/wasm-assembler.ts). */
module Meanings {

  import opened Options
  import opened Numbers
  import opened Expressions

  // ---------------------------------------------------------------------------------------------
  // Numbers
  // ---------------------------------------------------------------------------------------------

  /** The digits of every radix. */
  lemma DigitsAre()
    ensures forall i :: 0 <= i < 10 ==> Digit("0123456789"[i]) == i
    ensures forall i :: 0 <= i < 6 ==> Digit("abcdef"[i]) == Digit("ABCDEF"[i]) == 10 + i
  {
  }

  /** Underscores do not count, and nothing else is dropped. */
  lemma {:induction false} UnderscoresAreDropped(s: string, t: string)
    ensures WithoutUnderscores(s + "_" + t) == WithoutUnderscores(s + t)
    ensures '_' !in s ==> WithoutUnderscores(s) == s
    decreases s
  {
    if s == [] {
      assert s + "_" + t == "_" + t && ("_" + t)[1..] == t && s + t == t;
    } else {
      assert (s + "_" + t)[1..] == s[1..] + "_" + t && (s + t)[1..] == s[1..] + t;
      UnderscoresAreDropped(s[1..], t);
    }
  }

  /** A number behind 0 and a letter, or before the letter. */
  predicate IsRead(c: char, s: string, v: nat) {
    ReadNumber(['0', c] + s) == Some(v) == ReadNumber(s + [c])
  }

  lemma LetterIsRead(c: char, s: string, v: nat)
    requires Radix(c) > 0 && IsNumeral(s, Radix(c), v)
    ensures IsRead(c, s, v)
  {
    var before, behind := ['0', c] + s, s + [c];
    assert before[2..] == s && behind[..|behind| - 1] == s;
    assert s != [];
    ReadsWhatItDenotes(before, v);
    ReadsWhatItDenotes(behind, v);
  }

  lemma BinaryIsRead(c: char, s: string, v: nat)
    requires c in "bByY" && IsNumeral(s, 2, v)
    ensures IsRead(c, s, v)
  {
    LetterIsRead(c, s, v);
  }

  lemma OctalIsRead(c: char, s: string, v: nat)
    requires c in "oOqQ" && IsNumeral(s, 8, v)
    ensures IsRead(c, s, v)
  {
    LetterIsRead(c, s, v);
  }

  lemma DecimalLetterIsRead(c: char, s: string, v: nat)
    requires c in "dDtT" && IsNumeral(s, 10, v)
    ensures IsRead(c, s, v)
  {
    LetterIsRead(c, s, v);
  }

  lemma HexadecimalIsRead(c: char, s: string, v: nat)
    requires c in "hHxX" && IsNumeral(s, 16, v)
    ensures IsRead(c, s, v)
  {
    LetterIsRead(c, s, v);
  }

  // ---------------------------------------------------------------------------------------------
  // Operators
  // ---------------------------------------------------------------------------------------------

  lemma MeansTree(ts: seq<Token>, t: Sum, v: int)
    requires SumTokens(t) == ts
    ensures Means(ts, v) <==> SumValue(t) == Some(v)
  {
    MeaningIsParsed(ts, v);
    ParseIsInverse(ts, t);
  }

  function Alone(v: int): Product {
    Single(Constant(v))
  }

  lemma AloneTokens(a: int)
    ensures ProductTokens(Alone(a)) == [Value(a)] == SumTokens(One(Alone(a)))
    ensures ProductValue(Alone(a)) == Some(a) == SumValue(One(Alone(a)))
  {
    assert OperandTokens(Constant(a)) == [Value(a)] && OperandValue(Constant(a)) == Some(a);
  }

  lemma TermTokens(s: Sum, x: int, b: int)
    requires SumValue(s) == Some(x)
    ensures SumTokens(Plus(s, Alone(b))) == SumTokens(s) + [Op('+'), Value(b)]
    ensures SumTokens(Minus(s, Alone(b))) == SumTokens(s) + [Op('-'), Value(b)]
    ensures SumValue(Plus(s, Alone(b))) == Some(x + b) && SumValue(Minus(s, Alone(b))) == Some(x - b)
  {
    AloneTokens(b);
  }

  lemma FactorTokens(l: Product, x: int, b: int)
    requires ProductValue(l) == Some(x)
    ensures ProductTokens(Times(l, Constant(b))) == ProductTokens(l) + [Op('*'), Value(b)]
    ensures ProductTokens(Over(l, Constant(b))) == ProductTokens(l) + [Op('/'), Value(b)]
    ensures ProductValue(Times(l, Constant(b))) == Some(x * b)
    ensures ProductValue(Over(l, Constant(b))) == Divided(Some(x), Some(b))
  {
    assert OperandTokens(Constant(b)) == [Value(b)] && OperandValue(Constant(b)) == Some(b);
  }

  /** Adding and subtracting. */
  lemma SumsMean(a: int, b: int)
    ensures Means([Value(a), Op('+'), Value(b)], a + b) && Means([Value(a), Op('-'), Value(b)], a - b)
  {
    AloneTokens(a);
    TermTokens(One(Alone(a)), a, b);
    MeansTree([Value(a), Op('+'), Value(b)], Plus(One(Alone(a)), Alone(b)), a + b);
    MeansTree([Value(a), Op('-'), Value(b)], Minus(One(Alone(a)), Alone(b)), a - b);
  }

  /** Sums group to the left. */
  lemma SumsGroup(a: int, b: int, c: int)
    ensures Means([Value(a), Op('-'), Value(b), Op('-'), Value(c)], a - b - c)
    ensures Means([Value(a), Op('-'), Value(b), Op('+'), Value(c)], a - b + c)
  {
    var first := Minus(One(Alone(a)), Alone(b));
    AloneTokens(a);
    TermTokens(One(Alone(a)), a, b);
    TermTokens(first, a - b, c);
    MeansTree([Value(a), Op('-'), Value(b), Op('-'), Value(c)], Minus(first, Alone(c)), a - b - c);
    MeansTree([Value(a), Op('-'), Value(b), Op('+'), Value(c)], Plus(first, Alone(c)), a - b + c);
  }

  /** Products bind closer than sums. */
  lemma ProductsMean(a: int, b: int, c: int)
    ensures Means([Value(a), Op('+'), Value(b), Op('*'), Value(c)], a + b * c)
  {
    var right := Times(Alone(b), Constant(c));
    AloneTokens(a);
    AloneTokens(b);
    FactorTokens(Alone(b), b, c);
    assert ProductTokens(right) == [Value(b), Op('*'), Value(c)];
    MeansTree([Value(a), Op('+'), Value(b), Op('*'), Value(c)], Plus(One(Alone(a)), right), a + b * c);
  }

  /** Parentheses bind closest. */
  lemma ParenthesesMean(a: int, b: int, c: int)
    ensures Means([Op('('), Value(a), Op('+'), Value(b), Op(')'), Op('*'), Value(c)], (a + b) * c)
  {
    var sum := Plus(One(Alone(a)), Alone(b));
    AloneTokens(a);
    TermTokens(One(Alone(a)), a, b);
    assert OperandTokens(Grouped(sum)) == [Op('('), Value(a), Op('+'), Value(b), Op(')')];
    var grouped := Single(Grouped(sum));
    assert OperandValue(Grouped(sum)) == Some(a + b);
    assert ProductTokens(grouped) == OperandTokens(Grouped(sum));
    FactorTokens(grouped, a + b, c);
    var ts := [Op('('), Value(a), Op('+'), Value(b), Op(')'), Op('*'), Value(c)];
    assert SumTokens(One(Times(grouped, Constant(c)))) == ts;
    MeansTree(ts, One(Times(grouped, Constant(c))), (a + b) * c);
  }

  /** Division is of the low 64 bits, unsigned; by zero there is none. */
  lemma QuotientsMean(a: int, b: int, v: int)
    ensures Means([Value(a), Op('/'), Value(b)], v) <==>
      b % 0x1_0000_0000_0000_0000 != 0 && v == (a % 0x1_0000_0000_0000_0000) / (b % 0x1_0000_0000_0000_0000)
  {
    AloneTokens(a);
    FactorTokens(Alone(a), a, b);
    MeansTree([Value(a), Op('/'), Value(b)], One(Over(Alone(a), Constant(b))), v);
  }

  /** And groups to the left with multiplication. */
  lemma QuotientsGroup(a: int, b: int, c: int, w: int)
    requires b % 0x1_0000_0000_0000_0000 != 0 && w == (a % 0x1_0000_0000_0000_0000) / (b % 0x1_0000_0000_0000_0000)
    ensures Means([Value(a), Op('/'), Value(b), Op('*'), Value(c)], w * c)
  {
    var quotient := Over(Alone(a), Constant(b));
    AloneTokens(a);
    FactorTokens(Alone(a), a, b);
    FactorTokens(quotient, w, c);
    MeansTree([Value(a), Op('/'), Value(b), Op('*'), Value(c)], One(Times(quotient, Constant(c))), w * c);
  }

  lemma SignMeans(c: char, a: int, o: Operand, v: int)
    requires OperandTokens(o) == [Op(c)] + OperandTokens(Constant(a)) && OperandValue(o) == Some(v)
    ensures Means([Op(c), Value(a)], v)
  {
    assert OperandTokens(Constant(a)) == [Value(a)];
    assert SumTokens(One(Single(o))) == ProductTokens(Single(o)) == OperandTokens(o);
    assert SumValue(One(Single(o))) == ProductValue(Single(o)) == OperandValue(o);
    MeansTree([Op(c), Value(a)], One(Single(o)), v);
  }

  /** The three signs. */
  lemma SignsMean(a: int)
    ensures Means([Op('-'), Value(a)], -a) && Means([Op('+'), Value(a)], a) && Means([Op('~'), Value(a)], -a - 1)
  {
    SignMeans('-', a, Negative(Constant(a)), -a);
    SignMeans('+', a, Positive(Constant(a)), a);
    SignMeans('~', a, Inverted(Constant(a)), -a - 1);
  }

  /** `$` is where the expression stands, and a name what it is given; without a value it is reported. */
  method EvaluateDistance(here: int, name: string, values: map<string, int>) returns (r: Outcome)
    ensures r == if name in values then Evaluated(here - values[name]) else NoName
  {
    var xs := [Here, Operator('-'), Name(name)];
    r := Evaluate(xs, here, values);
    if name in values {
      var ts := [Value(here), Op('-'), Value(values[name])];
      assert TokensOf(xs, here, values) == ts;
      SumsMean(here, values[name]);
      forall v
        ensures Means(ts, v) ==> v == here - values[name]
      {
        if Means(ts, v) {
          MeaningIsUnique(ts, v, here - values[name]);
        }
      }
    } else {
      assert xs[2] in xs && HasNoValue(xs[2], values);
    }
  }
}

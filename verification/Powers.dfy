/** What holds in every commutative monoid of the powers a^(2^k) and of their products. */
module Powers {

  ghost predicate Associates<T(!new)>(mul: (T, T) -> T, a: T, b: T, c: T) {
    mul(mul(a, b), c) == mul(a, mul(b, c))
  }

  ghost predicate Commutes<T(!new)>(mul: (T, T) -> T, a: T, b: T) {
    mul(a, b) == mul(b, a)
  }

  ghost predicate CommutativeMonoid<T(!new)>(mul: (T, T) -> T, one: T) {
    && (forall a, b, c :: Associates(mul, a, b, c))
    && (forall a, b :: Commutes(mul, a, b))
    && (forall a :: mul(a, one) == a)
  }

  /** a squared k times over. */
  function Squares<T>(mul: (T, T) -> T, a: T, k: nat): T
    decreases k, a
  {
    if k == 0 then a else Squares(mul, mul(a, a), k - 1)
  }

  /** The product of a, its square, the square of that, and so on: k factors. */
  function Norm<T>(mul: (T, T) -> T, one: T, a: T, k: nat): T
    decreases k, a
  {
    if k == 0 then one else mul(a, Norm(mul, one, mul(a, a), k - 1))
  }

  lemma SquareOfProduct<T(!new)>(mul: (T, T) -> T, one: T, a: T, b: T)
    requires CommutativeMonoid(mul, one)
    ensures mul(mul(a, b), mul(a, b)) == mul(mul(a, a), mul(b, b))
  {
    assert Associates(mul, a, b, mul(a, b));
    assert Associates(mul, b, a, b);
    assert Commutes(mul, a, b);
    assert Associates(mul, a, b, b);
    assert Associates(mul, a, a, mul(b, b));
  }

  lemma {:induction false} SquaresOfProduct<T(!new)>(mul: (T, T) -> T, one: T, a: T, b: T, k: nat)
    requires CommutativeMonoid(mul, one)
    ensures Squares(mul, mul(a, b), k) == mul(Squares(mul, a, k), Squares(mul, b, k))
    decreases k
  {
    if k > 0 {
      SquareOfProduct(mul, one, a, b);
      SquaresOfProduct(mul, one, mul(a, a), mul(b, b), k - 1);
    }
  }

  lemma {:induction false} NormLastFactor<T(!new)>(mul: (T, T) -> T, one: T, a: T, k: nat)
    requires CommutativeMonoid(mul, one)
    ensures Norm(mul, one, a, k + 1) == mul(Norm(mul, one, a, k), Squares(mul, a, k))
    decreases k
  {
    if k == 0 {
      assert Commutes(mul, one, a);
    } else {
      NormLastFactor(mul, one, mul(a, a), k - 1);
      assert Associates(mul, a, Norm(mul, one, mul(a, a), k - 1), Squares(mul, mul(a, a), k - 1));
    }
  }

  lemma {:induction false} NormOfSquare<T(!new)>(mul: (T, T) -> T, one: T, a: T, k: nat)
    requires CommutativeMonoid(mul, one)
    ensures Norm(mul, one, mul(a, a), k) == mul(Norm(mul, one, a, k), Norm(mul, one, a, k))
    decreases k
  {
    if k > 0 {
      NormOfSquare(mul, one, mul(a, a), k - 1);
      SquareOfProduct(mul, one, a, Norm(mul, one, mul(a, a), k - 1));
    }
  }

  lemma {:induction false} TimesNorm<T(!new)>(mul: (T, T) -> T, one: T, a: T, k: nat)
    requires CommutativeMonoid(mul, one)
    ensures mul(a, Norm(mul, one, a, k)) == Squares(mul, a, k)
    decreases k
  {
    if k > 0 {
      TimesNorm(mul, one, mul(a, a), k - 1);
      assert Associates(mul, a, a, Norm(mul, one, mul(a, a), k - 1));
    }
  }

  /** Where k squarings of a lead back to a, the product of the k powers on the way is its own square. */
  lemma NormIsItsOwnSquare<T(!new)>(mul: (T, T) -> T, one: T, a: T, k: nat)
    requires CommutativeMonoid(mul, one) && k > 0 && Squares(mul, a, k) == a
    ensures var norm := Norm(mul, one, a, k); mul(norm, norm) == norm && mul(a, norm) == a
    ensures Norm(mul, one, a, k) == mul(a, Norm(mul, one, mul(a, a), k - 1))
  {
    NormOfSquare(mul, one, a, k);
    NormLastFactor(mul, one, mul(a, a), k - 1);
    assert Commutes(mul, a, Norm(mul, one, mul(a, a), k - 1));
    TimesNorm(mul, one, a, k);
  }
}

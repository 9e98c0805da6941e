module Sets {

  lemma Cardinality<U>(a: set<U>, b: set<U>)
    requires a < b
    ensures |a| < |b|
  {
    assert b == a + (b - a);
  }
}

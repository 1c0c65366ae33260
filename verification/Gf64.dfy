/**
 The field GF(2^64) as the polynomial code sees it: exclusive-or as addition, and the
 library's `Gf64Mul` and `Gf64Inv`. The operations are parameters and `IsField` states the laws of
 a field of characteristic two. Each law is a predicate of its own, so that a proof picks the
 instances it needs by naming them.
 */
module Gf64 {

  datatype Field<!F> = Field(zero: F, one: F, add: (F, F) -> F, mul: (F, F) -> F, inv: F -> F)

  ghost predicate AddLaws<F>(g: Field<F>, a: F, b: F) {
    && g.add(a, b) == g.add(b, a)
    && g.add(a, g.zero) == a
    && g.add(a, a) == g.zero
  }

  ghost predicate AddAssociates<F>(g: Field<F>, a: F, b: F, c: F) {
    g.add(g.add(a, b), c) == g.add(a, g.add(b, c))
  }

  ghost predicate MulLaws<F>(g: Field<F>, a: F, b: F) {
    && g.mul(a, b) == g.mul(b, a)
    && g.mul(a, g.one) == a
  }

  ghost predicate MulAssociates<F>(g: Field<F>, a: F, b: F, c: F) {
    g.mul(g.mul(a, b), c) == g.mul(a, g.mul(b, c))
  }

  ghost predicate Distributes<F>(g: Field<F>, a: F, b: F, c: F) {
    g.mul(a, g.add(b, c)) == g.add(g.mul(a, b), g.mul(a, c))
  }

  ghost predicate Inverts<F>(g: Field<F>, a: F) {
    a != g.zero ==> g.mul(a, g.inv(a)) == g.one
  }

  ghost predicate IsField<F(!new)>(g: Field<F>) {
    && g.zero != g.one
    && (forall a, b :: AddLaws(g, a, b))
    && (forall a, b, c :: AddAssociates(g, a, b, c))
    && (forall a, b :: MulLaws(g, a, b))
    && (forall a, b, c :: MulAssociates(g, a, b, c))
    && (forall a, b, c :: Distributes(g, a, b, c))
    && (forall a :: Inverts(g, a))
  }

  lemma AddCancels<F(!new)>(g: Field<F>, a: F, b: F)
    requires IsField(g)
    ensures g.add(g.add(a, b), b) == a
    ensures g.add(b, g.add(a, b)) == a
    ensures g.add(a, b) == g.zero <==> a == b
  {
    assert AddAssociates(g, a, b, b);
    assert AddLaws(g, a, b) && AddLaws(g, b, a) && AddLaws(g, g.zero, b);
    assert AddLaws(g, b, b) && AddLaws(g, b, g.add(a, b));
  }

  lemma AddZero<F(!new)>(g: Field<F>, a: F)
    requires IsField(g)
    ensures g.add(a, g.zero) == a && g.add(g.zero, a) == a && g.add(a, a) == g.zero
  {
    assert AddLaws(g, a, g.zero);
  }

  lemma AddSwap<F(!new)>(g: Field<F>, a: F, b: F, c: F)
    requires IsField(g)
    ensures g.add(g.add(a, b), c) == g.add(g.add(a, c), b)
  {
    assert AddAssociates(g, a, b, c) && AddAssociates(g, a, c, b) && AddLaws(g, b, c);
  }

  lemma AddMiddle<F(!new)>(g: Field<F>, a: F, b: F, c: F, d: F)
    requires IsField(g)
    ensures g.add(g.add(a, b), g.add(c, d)) == g.add(g.add(a, c), g.add(b, d))
  {
    assert AddAssociates(g, g.add(a, b), c, d) && AddAssociates(g, g.add(a, c), b, d);
    AddSwap(g, a, b, c);
  }

  lemma MulZero<F(!new)>(g: Field<F>, a: F)
    requires IsField(g)
    ensures g.mul(a, g.zero) == g.zero && g.mul(g.zero, a) == g.zero
  {
    assert Distributes(g, a, g.zero, g.zero);
    assert AddLaws(g, g.zero, g.zero);
    assert MulLaws(g, a, g.zero);
    AddCancels(g, g.mul(a, g.zero), g.mul(a, g.zero));
  }

  lemma DistributesLeft<F(!new)>(g: Field<F>, a: F, b: F, c: F)
    requires IsField(g)
    ensures g.mul(g.add(a, b), c) == g.add(g.mul(a, c), g.mul(b, c))
  {
    assert Distributes(g, c, a, b);
    assert MulLaws(g, c, a) && MulLaws(g, c, b) && MulLaws(g, c, g.add(a, b));
  }

  lemma NoZeroDivisors<F(!new)>(g: Field<F>, a: F, b: F)
    requires IsField(g)
    requires g.mul(a, b) == g.zero && b != g.zero
    ensures a == g.zero
  {
    assert Inverts(g, b);
    assert MulAssociates(g, a, b, g.inv(b));
    MulZero(g, g.inv(b));
    assert MulLaws(g, a, g.one);
  }

  /** The laws can be met: the field of two elements meets them. */
  lemma BooleanField()
    ensures IsField(Field(false, true, (a, b) => a != b, (a, b) => a && b, a => a))
  {
  }
}

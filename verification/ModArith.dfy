/**
 Residue arithmetic over `int`: congruences, and inverses modulo a prime.
 */
module ModArith {

  lemma MultipleWithin(d: int, m: int, x: int)
    requires -m < x < m
    requires d * m == x
    ensures d == 0
  {
    if d >= 1 {
      MulMono(1, d, m);
      assert false;
    } else if d <= -1 {
      MulMono(d, -1, m);
      assert false;
    }
  }

  lemma MulMono(a: int, b: int, m: int)
    requires a <= b && 0 <= m
    ensures a * m <= b * m
  {
  }

  lemma QuotientUnique(a: int, q: int, r: int, m: int)
    requires 0 <= r < m
    requires a == q * m + r
    ensures a / m == q && a % m == r
  {
    MultipleWithin(q - a / m, m, a % m - r);
  }

  lemma MulSucc(k: int, m: int)
    ensures (k + 1) * m == k * m + m
  {
  }

  lemma MulAssociates(a: int, b: int, c: int)
    ensures a * (b * c) == a * b * c
  {
  }

  lemma MulCommutes(a: int, b: int)
    ensures a * b == b * a
  {
  }

  lemma ModShift(a: int, k: int, m: int)
    requires m > 0
    ensures (a + k * m) % m == a % m
  {
    assert a + k * m == (a / m + k) * m + a % m;
    QuotientUnique(a + k * m, a / m + k, a % m, m);
  }

  ghost predicate Cong(a: int, b: int, m: int)
    requires m > 0
  {
    a % m == b % m
  }

  lemma CongBy(a: int, b: int, k: int, m: int)
    requires m > 0
    requires a == b + k * m
    ensures Cong(a, b, m)
  {
    ModShift(b, k, m);
  }

  lemma CongDiff(a: int, b: int, m: int) returns (k: int)
    requires m > 0
    requires Cong(a, b, m)
    ensures a == b + k * m
  {
    k := a / m - b / m;
    assert a == (a / m) * m + a % m;
    assert b == (b / m) * m + b % m;
  }

  lemma CongAdd(a: int, a': int, b: int, b': int, m: int)
    requires m > 0
    requires Cong(a, a', m) && Cong(b, b', m)
    ensures Cong(a + b, a' + b', m)
  {
    var k := CongDiff(a, a', m);
    var l := CongDiff(b, b', m);
    CongBy(a + b, a' + b', k + l, m);
  }

  lemma CongSub(a: int, a': int, b: int, b': int, m: int)
    requires m > 0
    requires Cong(a, a', m) && Cong(b, b', m)
    ensures Cong(a - b, a' - b', m)
  {
    var k := CongDiff(a, a', m);
    var l := CongDiff(b, b', m);
    assert (k - l) * m == k * m - l * m;
    CongBy(a - b, a' - b', k - l, m);
  }

  lemma CongScale(a: int, b: int, b': int, m: int)
    requires m > 0 && Cong(b, b', m)
    ensures Cong(a * b, a * b', m)
  {
    var l := CongDiff(b, b', m);
    MulAssociates(a, l, m);
    CongBy(a * b, a * b', a * l, m);
  }

  lemma CongMul(a: int, a': int, b: int, b': int, m: int)
    requires m > 0
    requires Cong(a, a', m) && Cong(b, b', m)
    ensures Cong(a * b, a' * b', m)
  {
    CongScale(a, b, b', m);
    CongScale(b', a, a', m);
    MulCommutes(b', a);
    MulCommutes(b', a');
  }

  lemma ModIdem(a: int, m: int)
    requires m > 0
    ensures 0 <= a % m < m
    ensures Cong(a % m, a, m)
  {
    CongBy(a % m, a, -(a / m), m);
  }

  predicate Prime(p: int) {
    p >= 2 && forall d :: 2 <= d < p ==> p % d != 0
  }

  function InvertMod(a: int, p: int): (r: int)
    requires Prime(p)
    requires 0 < a < p
    ensures 0 <= r < p
    ensures (a * r) % p == 1
    decreases a
  {
    if a == 1 then
      1
    else
      var s := p % a;
      var t := InvertMod(s, p);
      var r := (-(p / a) * t) % p;
      InvertStep(a, p, t);
      r
  }

  lemma InvertStep(a: int, p: int, t: int)
    requires 0 < a < p
    requires (p % a * t) % p == 1
    ensures (a * ((-(p / a) * t) % p)) % p == 1
  {
    var q, s := p / a, p % a;
    ModIdem(-q * t, p);
    CongScale(a, (-q * t) % p, -q * t, p);
    NegatedQuotient(a, p, q, s, t);
    CongBy(a * (-q * t), s * t, -t, p);
  }

  lemma NegatedQuotient(a: int, p: int, q: int, s: int, t: int)
    requires p == q * a + s
    ensures a * (-q * t) == s * t + -t * p
  {
    MulAssociates(a, -q, t);
    assert a * -q == s - p;
    assert (s - p) * t == s * t + -t * p;
  }

  lemma HasInverse(a: int, p: int) returns (r: int)
    requires Prime(p)
    requires a % p != 0
    ensures Cong(a * r, 1, p)
  {
    r := InvertMod(a % p, p);
    ModIdem(a, p);
    CongMul(a % p, a, r, r, p);
    QuotientUnique(1, 0, 1, p);
  }

  /** Euclid's lemma: a prime modulus has no zero divisors. */
  lemma NoZeroDivisors(a: int, b: int, p: int)
    requires Prime(p)
    requires a % p != 0 && b % p != 0
    ensures (a * b) % p != 0
  {
    var r := HasInverse(a, p);
    QuotientUnique(0, 0, 0, p);
    if Cong(a * b, 0, p) {
      ModCancel(a, b, r, p);
    }
  }

  lemma ModCancel(a: int, b: int, r: int, p: int)
    requires p > 0
    requires Cong(a * r, 1, p) && Cong(a * b, 0, p)
    ensures Cong(b, 0, p)
  {
    CongMul(a * b, 0, r, r, p);
    CongMul(a * r, 1, b, b, p);
    assert a * b * r == a * r * b;
  }
}

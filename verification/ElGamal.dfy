/** The additively homomorphic ElGamal scheme: encryption and the operations on ciphertexts. */
module ElGamal {
  import opened Wrappers
  import opened ModArith
  import opened Curve
  import opened MachineWords

  /** The table sizes `Imax` and `Jmax` as powers of two, and what follows from them. */
  datatype Config = Config(ilen: nat, jlen: nat) {

    function Imax(): int {
      Pow2(ilen)
    }

    function Jmax(): int {
      Pow2(jlen)
    }

    function L1(): int {
      Jmax() * 2
    }

    function Mmax(): int {
      Imax() * L1() + Jmax()
    }

    predicate Fits(m: int) {
      -Mmax() <= m <= Mmax()
    }
  }

  /** The messages in range, in numbers. */
  predicate InNumbers(ilen: nat, jlen: nat, m: int) {
    -(2 * Pow2(ilen + jlen) + Pow2(jlen)) <= m <= 2 * Pow2(ilen + jlen) + Pow2(jlen)
  }

  lemma RangeInNumbers(cfg: Config, m: int)
    ensures cfg.Fits(m) <==> InNumbers(cfg.ilen, cfg.jlen, m)
  {
    var i, j := Pow2(cfg.ilen), Pow2(cfg.jlen);
    Pow2Add(cfg.ilen, cfg.jlen);
    assert i * (j * 2) == 2 * (i * j);
  }

  /** With the sizes of the source, `Ilen` 12 and `Jlen` 20, the messages are those up to 8590983168. */
  lemma SourceRange(m: int)
    ensures Config(12, 20).Fits(m) <==> -8590983168 <= m <= 8590983168
  {
    assert Pow2(4) == 16;
    Pow2Add(4, 4);
    Pow2Add(4, 8);
    Pow2Add(8, 12);
  }

  datatype Ciphertext = Ciphertext(c1: int, c2: int)

  function PublicKey(c: Curve, k: int): int
    requires c.order > 0
  {
    MulBase(c, k)
  }

  /** Encryption with randomness `r`; messages out of range are refused. */
  function Encrypt(c: Curve, cfg: Config, m: int, pk: int, r: int): Option<Ciphertext>
    requires c.order > 0
  {
    if cfg.Fits(m) then
      Some(Ciphertext(MulBase(c, r), Add(c, MulBase(c, m), Mul(c, pk, r))))
    else
      None
  }

  function HAdd(c: Curve, a: Ciphertext, b: Ciphertext): Ciphertext
    requires c.order > 0
  {
    Ciphertext(Add(c, a.c1, b.c1), Add(c, a.c2, b.c2))
  }

  function HSub(c: Curve, a: Ciphertext, b: Ciphertext): Ciphertext
    requires c.order > 0
  {
    Ciphertext(Sub(c, a.c1, b.c1), Sub(c, a.c2, b.c2))
  }

  function HMul(c: Curve, a: Ciphertext, s: int): Ciphertext
    requires c.order > 0
  {
    Ciphertext(Mul(c, a.c1, s), Mul(c, a.c2, s))
  }

  /** The point `m G` that a ciphertext hides, under key `k`. */
  function Hidden(c: Curve, ct: Ciphertext, k: int): (a: int)
    requires c.order > 0
    ensures 0 <= a < c.order
  {
    Sub(c, ct.c2, Mul(c, ct.c1, k))
  }

  lemma HiddenMod(c: Curve, ct: Ciphertext, k: int)
    requires c.order > 0
    ensures Cong(Hidden(c, ct, k), ct.c2 - ct.c1 * k, c.order)
  {
    var n := c.order;
    ModIdem(ct.c1 * k, n);
    CongSub(ct.c2, ct.c2, Mul(c, ct.c1, k), ct.c1 * k, n);
    ModIdem(ct.c2 - Mul(c, ct.c1, k), n);
  }

  lemma HiddenEncrypt(c: Curve, cfg: Config, m: int, k: int, r: int)
    requires c.order > 0
    requires cfg.Fits(m)
    ensures Hidden(c, Encrypt(c, cfg, m, PublicKey(c, k), r).value, k) == m % c.order
  {
    var n := c.order;
    var ct := Encrypt(c, cfg, m, PublicKey(c, k), r).value;
    HiddenMod(c, ct, k);
    assert Cong(ct.c1 * k, r * k, n) by {
      ModIdem(r, n);
      CongMul(r % n, r, k, k, n);
    }
    assert Cong(Mul(c, PublicKey(c, k), r), k * r, n) by {
      ModIdem(k, n);
      CongMul(k % n, k, r, r, n);
      ModIdem(k % n * r, n);
    }
    assert Cong(ct.c2, m + k * r, n) by {
      ModIdem(m, n);
      CongAdd(m % n, m, Mul(c, PublicKey(c, k), r), k * r, n);
      ModIdem(m % n + Mul(c, PublicKey(c, k), r), n);
    }
    CongSub(ct.c2, m + k * r, ct.c1 * k, r * k, n);
    assert m + k * r - r * k == m;
    ModIdem(m, n);
    InRange(Hidden(c, ct, k), n);
  }

  lemma InRange(a: int, n: int)
    requires 0 <= a < n
    ensures a % n == a
  {
    QuotientUnique(a, 0, a, n);
  }

  /** A ciphertext tells messages and randomness apart, up to multiples of the order. */
  lemma EncryptDetermines(c: Curve, cfg: Config, pk: int, m: int, r: int, m': int, r': int)
    requires c.order > 0 && cfg.Fits(m) && cfg.Fits(m')
    ensures Encrypt(c, cfg, m, pk, r) == Encrypt(c, cfg, m', pk, r') <==>
            Cong(r, r', c.order) && Cong(m, m', c.order)
  {
    var n, x, x' := c.order, Encrypt(c, cfg, m, pk, r).value, Encrypt(c, cfg, m', pk, r').value;
    SecondHalf(c, m, pk, r);
    SecondHalf(c, m', pk, r');
    if Cong(r, r', n) {
      CongMul(pk, pk, r, r', n);
      if Cong(m, m', n) {
        CongAdd(m, m', pk * r, pk * r', n);
      } else if x == x' {
        CongSub(m + pk * r, m' + pk * r', pk * r, pk * r', n);
        assert false;
      }
    }
  }

  lemma SecondHalf(c: Curve, m: int, pk: int, r: int)
    requires c.order > 0
    ensures Add(c, MulBase(c, m), Mul(c, pk, r)) == (m + pk * r) % c.order
  {
    ModIdem(m, c.order);
    ModIdem(pk * r, c.order);
    CongAdd(m % c.order, m, pk * r % c.order, pk * r, c.order);
  }

  lemma HiddenAdd(c: Curve, a: Ciphertext, b: Ciphertext, k: int)
    requires c.order > 0
    ensures Cong(Hidden(c, HAdd(c, a, b), k), Hidden(c, a, k) + Hidden(c, b, k), c.order)
  {
    var n := c.order;
    HiddenMod(c, a, k);
    HiddenMod(c, b, k);
    HiddenMod(c, HAdd(c, a, b), k);
    CongAdd(Hidden(c, a, k), a.c2 - a.c1 * k, Hidden(c, b, k), b.c2 - b.c1 * k, n);
    ModIdem(a.c1 + b.c1, n);
    ModIdem(a.c2 + b.c2, n);
    CongMul((a.c1 + b.c1) % n, a.c1 + b.c1, k, k, n);
    CongSub((a.c2 + b.c2) % n, a.c2 + b.c2, (a.c1 + b.c1) % n * k, (a.c1 + b.c1) * k, n);
    assert a.c2 + b.c2 - (a.c1 + b.c1) * k == a.c2 - a.c1 * k + (b.c2 - b.c1 * k);
  }

  lemma HiddenSub(c: Curve, a: Ciphertext, b: Ciphertext, k: int)
    requires c.order > 0
    ensures Cong(Hidden(c, HSub(c, a, b), k), Hidden(c, a, k) - Hidden(c, b, k), c.order)
  {
    var n := c.order;
    HiddenMod(c, a, k);
    HiddenMod(c, b, k);
    HiddenMod(c, HSub(c, a, b), k);
    CongSub(Hidden(c, a, k), a.c2 - a.c1 * k, Hidden(c, b, k), b.c2 - b.c1 * k, n);
    ModIdem(a.c1 - b.c1, n);
    ModIdem(a.c2 - b.c2, n);
    CongMul((a.c1 - b.c1) % n, a.c1 - b.c1, k, k, n);
    CongSub((a.c2 - b.c2) % n, a.c2 - b.c2, (a.c1 - b.c1) % n * k, (a.c1 - b.c1) * k, n);
    assert a.c2 - b.c2 - (a.c1 - b.c1) * k == a.c2 - a.c1 * k - (b.c2 - b.c1 * k);
  }

  lemma ScaleDifference(x: int, y: int, k: int, s: int)
    ensures x * s - y * s * k == (x - y * k) * s
  {
    MulAssociates(y, s, k);
    MulAssociates(y, k, s);
    MulCommutes(s, k);
  }

  lemma HiddenMul(c: Curve, a: Ciphertext, s: int, k: int)
    requires c.order > 0
    ensures Cong(Hidden(c, HMul(c, a, s), k), Hidden(c, a, k) * s, c.order)
  {
    var n := c.order;
    HiddenMod(c, a, k);
    HiddenMod(c, HMul(c, a, s), k);
    CongMul(Hidden(c, a, k), a.c2 - a.c1 * k, s, s, n);
    ModIdem(a.c1 * s, n);
    ModIdem(a.c2 * s, n);
    CongMul((a.c1 * s) % n, a.c1 * s, k, k, n);
    CongSub((a.c2 * s) % n, a.c2 * s, (a.c1 * s) % n * k, a.c1 * s * k, n);
    ScaleDifference(a.c2, a.c1, k, s);
  }
}

/**
 Decryption: the small discrete logarithm behind a ciphertext is found with baby steps (table T1, from
 the first coordinate of `v G` to `v`, for `v` up to `Jmax`) and giant steps (table T2, the
 points `-j L1 G` for `j` up to `Imax`).
 */
module Decrypt {
  import opened Wrappers
  import opened ModArith
  import opened Curve
  import opened ElGamal
  import opened BatchInverse
  import opened MachineWords

  /**
   What a filled table T1 guarantees: it answers with contents of its slots, and it answers for the first
   coordinates of `G`, `2 G`, ..., `Jmax G`. Nothing is said of what it answers for which coordinate.
   */
  ghost predicate IsTable(c: Curve, cfg: Config, t1: int -> Option<int>) {
    && (forall x :: t1(x).Some? ==> 0 <= t1(x).value <= cfg.Jmax())
    && (forall v :: 1 <= v <= cfg.Jmax() ==> t1(c.x(v)).Some?)
  }

  /** The answer for coordinate `x`, if there is one, is a multiplier of that very coordinate. */
  ghost predicate TrueAt(c: Curve, t1: int -> Option<int>, x: int) {
    t1(x).Some? ==> t1(x).value >= 1 && c.x(t1(x).value) == x
  }

  ghost predicate Setting(c: Curve, cfg: Config, t1: int -> Option<int>) {
    IsCurve(c) && IsTable(c, cfg, t1) && c.order > 2 * cfg.Mmax()
  }

  /** The point of giant step `j`, `-j L1 G`. */
  function Giant(c: Curve, cfg: Config, j: int): (a: int)
    requires c.order > 0
    ensures 0 <= a < c.order
  {
    Mul(c, MulBase(c, cfg.L1()), -j)
  }

  /** Table T2. */
  method InitializeVector(c: Curve, cfg: Config) returns (t2: seq<AffinePoint>)
    requires c.order > 0
    ensures |t2| == cfg.Imax() + 1
    ensures forall j :: 0 <= j <= cfg.Imax() ==> t2[j] == Affine(c, Giant(c, cfg, j))
    ensures forall j :: 0 <= j <= cfg.Imax() ==> t2[j] == Affine(c, -(2 * Pow2(cfg.jlen) * j) % c.order)
  {
    t2 := [];
    var base := MulBase(c, cfg.Jmax() * 2);
    for i := 0 to cfg.Imax() + 1
      invariant |t2| == i
      invariant forall j :: 0 <= j < i ==> t2[j] == Affine(c, Giant(c, cfg, j))
    {
      t2 := t2 + [Affine(c, Mul(c, base, -i))];
    }
    forall j | 0 <= j <= cfg.Imax() ensures Giant(c, cfg, j) == -(2 * Pow2(cfg.jlen) * j) % c.order {
      GiantInNumbers(c, cfg, j);
    }
  }

  lemma GiantInNumbers(c: Curve, cfg: Config, j: int)
    requires c.order > 0
    ensures Giant(c, cfg, j) == -(2 * Pow2(cfg.jlen) * j) % c.order
  {
    GiantMod(c, cfg, j);
    InRange(Giant(c, cfg, j), c.order);
  }

  lemma GiantMod(c: Curve, cfg: Config, j: int)
    requires c.order > 0
    ensures Cong(Giant(c, cfg, j), -(cfg.L1() * j), c.order)
  {
    var n := c.order;
    ModIdem(cfg.L1(), n);
    CongMul(cfg.L1() % n, cfg.L1(), -j, -j, n);
    ModIdem(cfg.L1() % n * -j, n);
    assert cfg.L1() * -j == -(cfg.L1() * j);
  }

  /** Two messages in range with the same point are the same message. */
  lemma PointDeterminesMessage(n: int, cfg: Config, m: int, m': int)
    requires n > 2 * cfg.Mmax()
    requires cfg.Fits(m) && cfg.Fits(m') && m % n == m' % n
    ensures m == m'
  {
    var k := CongDiff(m, m', n);
    MultipleWithin(k, n, m - m');
  }

  /** A number of size less than the order is a multiple of it only if it is zero. */
  lemma NonZeroPoint(n: int, m: int)
    requires -n < m < n && m != 0
    ensures m % n != 0
  {
    if m % n == 0 {
      MultipleWithin(m / n, n, m);
    }
  }

  // ----- One giant step

  /** The first coordinate of `a + b` by the chord formula, as the loop computes it. */
  function ChordX(p: int, xa: int, ya: int, xb: int, yb: int, inv: int): (q: int)
    requires p > 0
    ensures 0 <= q < p
  {
    var k := (xa + xb) % p;
    var s := ((yb - ya) * inv) % p;
    var s2 := (s * s) % p;
    (s2 - k) % p
  }

  lemma ChordXMod(p: int, xa: int, ya: int, xb: int, yb: int, inv: int, slope: int)
    requires p > 0
    requires Cong((yb - ya) * inv, slope, p)
    ensures Cong(ChordX(p, xa, ya, xb, yb, inv), slope * slope - (xa + xb), p)
  {
    var s := ((yb - ya) * inv) % p;
    ModIdem((yb - ya) * inv, p);
    CongMul(s, slope, s, slope, p);
    ModIdem(s * s, p);
    ModIdem(xa + xb, p);
    CongSub((s * s) % p, slope * slope, (xa + xb) % p, xa + xb, p);
    ModIdem((s * s) % p - (xa + xb) % p, p);
  }

  /** The formula gives the first coordinate of the sum. */
  lemma ChordIsSum(c: Curve, a: int, b: int, yb: int, inv: int)
    requires IsCurve(c) && IsPoint(c, a) && IsPoint(c, b)
    requires c.x(a) != c.x(b)
    requires Cong(inv * (c.x(b) - c.x(a)), 1, c.field)
    requires Cong(yb, c.y(b), c.field)
    ensures IsPoint(c, (a + b) % c.order)
    ensures ChordX(c.field, c.x(a), c.y(a), c.x(b), yb, inv) == c.x((a + b) % c.order)
  {
    assert SameX(c, a, b) && Chord(c, a, b, inv);
    SumIsPoint(c.order, a, b);
    var d := (a + b) % c.order;
    assert Coordinates(c, d);
    var slope := (c.y(b) - c.y(a)) * inv;
    assert Cong((yb - c.y(a)) * inv, slope, c.field) by {
      CongSub(yb, c.y(b), c.y(a), c.y(a), c.field);
      CongMul(yb - c.y(a), c.y(b) - c.y(a), inv, inv, c.field);
    }
    ChordXMod(c.field, c.x(a), c.y(a), c.x(b), yb, inv, slope);
    InRange(ChordX(c.field, c.x(a), c.y(a), c.x(b), yb, inv), c.field);
    InRange(c.x(d), c.field);
  }

  lemma SumIsPoint(n: int, a: int, b: int)
    requires 0 < a < n && 0 < b < n && a + b != n
    ensures 0 < (a + b) % n < n
  {
    if a + b < n {
      InRange(a + b, n);
    } else {
      QuotientUnique(a + b, 1, a + b - n, n);
    }
  }

  predicate CheckDec(c: Curve, a: int, m: int)
    requires c.order > 0
  {
    a == MulBase(c, m)
  }

  function Pick(c: Curve, a: int, m1: int, m2: int): int
    requires c.order > 0
  {
    if CheckDec(c, a, m1) then m1 else m2
  }

  /** Looks first coordinate `x` up; a hit `v` means the message is `base + v` or `base - v`. */
  function Resolve(c: Curve, t1: int -> Option<int>, a: int, base: int, x: int): Option<int>
    requires c.order > 0
  {
    match t1(x)
    case Some(v) => Some(Pick(c, a, base + v, base - v))
    case None => None
  }

  /** The body of the giant-step loop for point `a`: the message, if step `j` finds it. */
  function Probe(c: Curve, cfg: Config, t1: int -> Option<int>, t2j: AffinePoint, inv: int, a: int, j: int)
    : Option<int>
    requires c.order > 0 && c.field > 0
  {
    var pt := Affine(c, a);
    var found := Resolve(c, t1, a, cfg.L1() * j, ChordX(c.field, pt.x, pt.y, t2j.x, t2j.y, inv));
    if found.Some? then found
    else Resolve(c, t1, a, -(cfg.L1() * j), ChordX(c.field, pt.x, pt.y, t2j.x, -t2j.y, inv))
  }

  /** `m` lies within `Jmax` of `base`, but is not `base`. */
  ghost predicate Near(cfg: Config, base: int, m: int) {
    m != base && base - cfg.Jmax() <= m <= base + cfg.Jmax()
  }

  /**
   What looking up point `d` in table T1 says about the point `a = d + base G`: an answer yields the message
   exactly when it is true, and no answer rules out every message near `base`.
   */
  lemma BabyStep(c: Curve, cfg: Config, t1: int -> Option<int>, a: int, base: int, d: int)
    requires Setting(c, cfg, t1)
    requires IsPoint(c, a) && IsPoint(c, d) && Cong(d, a - base, c.order)
    ensures match Resolve(c, t1, a, base, c.x(d))
            case Some(m) =>
              base - cfg.Jmax() <= m <= base + cfg.Jmax() && (m % c.order == a <==> TrueAt(c, t1, c.x(d)))
            case None => forall m :: Near(cfg, base, m) ==> m % c.order != a
  {
    var x := c.x(d);
    JmaxBelowOrder(c.order, cfg);
    if t1(x).Some? {
      var v := t1(x).value;
      assert 0 <= v <= cfg.Jmax();
      SumOrDifference(c.order, a, base, d, v);
      assert v >= 1 ==> SameX(c, d, v);
    } else {
      forall m | Near(cfg, base, m) ensures m % c.order != a {
        if m % c.order == a {
          var v := NearIsBaby(c, cfg, t1, a, base, d, m);
          assert false;
        }
      }
    }
  }

  /** `base + v` or `base - v` has the point `a` exactly when `v` is `d` or its opposite. */
  lemma SumOrDifference(n: int, a: int, base: int, d: int, v: int)
    requires 0 < a < n && 0 < d < n && 0 <= v < n && Cong(d, a - base, n)
    ensures (base + v) % n == a <==> v == d
    ensures (base - v) % n == a <==> v + d == n
  {
    InRange(a, n);
    InRange(d, n);
    InRange(v, n);
    if v == d {
      CongAdd(d, a - base, base, base, n);
    }
    if (base + v) % n == a {
      CongSub(base + v, a, base, base, n);
    }
    if v + d == n {
      CongBy(d, -v, 1, n);
      CongAdd(-v, a - base, base, base, n);
    }
    if (base - v) % n == a {
      CongSub(base - v, a, base, base, n);
      if v == 0 {
        assert false;
      }
      CongBy(n - v, -v, 1, n);
      InRange(n - v, n);
    }
  }

  /** A message near `base` shares the first coordinate of `d` with a baby step. */
  lemma NearIsBaby(c: Curve, cfg: Config, t1: int -> Option<int>, a: int, base: int, d: int, m: int)
    returns (v: int)
    requires Setting(c, cfg, t1)
    requires IsPoint(c, a) && IsPoint(c, d) && Cong(d, a - base, c.order)
    requires Near(cfg, base, m) && m % c.order == a
    ensures 1 <= v <= cfg.Jmax() && c.x(v) == c.x(d)
  {
    var n, w := c.order, m - base;
    InRange(a, n);
    InRange(d, n);
    JmaxBelowOrder(n, cfg);
    CongSub(m, a, base, base, n);
    if w > 0 {
      InRange(w, n);
      v := w;
    } else {
      QuotientUnique(w, -1, w + n, n);
      v := -w;
    }
    assert SameX(c, d, v);
  }

  lemma JmaxBelowOrder(n: int, cfg: Config)
    requires n > 2 * cfg.Mmax()
    ensures 1 <= cfg.Jmax() < n
  {
  }

  // ----- The result of a giant step

  /** Step `j` covers the messages close to `j L1` and to `-j L1`. */
  ghost predicate InBlock(cfg: Config, j: int, m: int) {
    Near(cfg, cfg.L1() * j, m) || Near(cfg, -(cfg.L1() * j), m)
  }

  /** `inv` inverts the difference of first coordinates of giant step `j` and point `a`. */
  ghost predicate StepReady(c: Curve, cfg: Config, a: int, j: int, inv: int)
    requires c.order > 0 && c.field > 0
  {
    var b := Giant(c, cfg, j);
    IsPoint(c, b) && c.x(a) != c.x(b) && Cong(inv * (c.x(b) - c.x(a)), 1, c.field)
  }

  lemma StepBounds(cfg: Config, j: int)
    requires 1 <= j <= cfg.Imax()
    ensures 0 <= cfg.L1() * j <= cfg.Mmax() - cfg.Jmax()
  {
    MulMono(0, j, cfg.L1());
    MulMono(j, cfg.Imax(), cfg.L1());
    assert cfg.L1() * j == j * cfg.L1();
  }

  /** The chord formula for `a - j L1 G`. */
  lemma StepDown(c: Curve, cfg: Config, a: int, j: int, inv: int)
    requires IsCurve(c) && IsPoint(c, a) && StepReady(c, cfg, a, j, inv)
    ensures var b, n := Giant(c, cfg, j), c.order;
            var d := (a + b) % n;
            && IsPoint(c, d) && Cong(d, a - cfg.L1() * j, n)
            && ChordX(c.field, c.x(a), c.y(a), c.x(b), c.y(b), inv) == c.x(d)
  {
    var b, n := Giant(c, cfg, j), c.order;
    GiantMod(c, cfg, j);
    ChordIsSum(c, a, b, c.y(b), inv);
    ModIdem(a + b, n);
    CongAdd(a, a, b, -(cfg.L1() * j), n);
  }

  /** With the opposite giant step, the formula for `a + j L1 G`. */
  lemma StepUp(c: Curve, cfg: Config, a: int, j: int, inv: int)
    requires IsCurve(c) && IsPoint(c, a) && StepReady(c, cfg, a, j, inv)
    ensures var b, n := Giant(c, cfg, j), c.order;
            var e := (a + (n - b)) % n;
            && IsPoint(c, e) && Cong(e, a - -(cfg.L1() * j), n)
            && ChordX(c.field, c.x(a), c.y(a), c.x(b), -c.y(b), inv) == c.x(e)
  {
    var b, n := Giant(c, cfg, j), c.order;
    GiantMod(c, cfg, j);
    assert SameX(c, b, n - b) && Opposite(c, b);
    ChordIsSum(c, a, n - b, -c.y(b), inv);
    ModIdem(a + (n - b), n);
    CongBy(a + (n - b), a - b, 1, n);
    CongSub(a, a, b, -(cfg.L1() * j), n);
  }

  /** The points looked up in giant step `j`: `a - j L1 G` and `a + j L1 G`. */
  function Down(c: Curve, cfg: Config, a: int, j: int): int
    requires c.order > 0
  {
    (a + Giant(c, cfg, j)) % c.order
  }

  function Up(c: Curve, cfg: Config, a: int, j: int): int
    requires c.order > 0
  {
    (a + (c.order - Giant(c, cfg, j))) % c.order
  }

  /** One of the two look-ups of giant step `j` answers. */
  ghost predicate Answers(c: Curve, cfg: Config, t1: int -> Option<int>, a: int, j: int)
    requires c.order > 0
  {
    t1(c.x(Down(c, cfg, a, j))).Some? || t1(c.x(Up(c, cfg, a, j))).Some?
  }

  /** The first look-up of giant step `j` that answers is true. */
  ghost predicate StepTrue(c: Curve, cfg: Config, t1: int -> Option<int>, a: int, j: int)
    requires c.order > 0
  {
    var x, x' := c.x(Down(c, cfg, a, j)), c.x(Up(c, cfg, a, j));
    if t1(x).Some? then TrueAt(c, t1, x) else TrueAt(c, t1, x')
  }

  /** A hit is the message exactly when the answer is true; a miss rules out the whole block. */
  lemma ProbeCorrect(c: Curve, cfg: Config, t1: int -> Option<int>, a: int, j: int, inv: int)
    requires Setting(c, cfg, t1) && IsPoint(c, a)
    requires 1 <= j <= cfg.Imax() && StepReady(c, cfg, a, j, inv)
    ensures match Probe(c, cfg, t1, Affine(c, Giant(c, cfg, j)), inv, a, j)
            case Some(m) =>
              && Answers(c, cfg, t1, a, j) && cfg.Fits(m)
              && (m % c.order == a <==> StepTrue(c, cfg, t1, a, j))
            case None => !Answers(c, cfg, t1, a, j) && Missed(c, cfg, a, j)
  {
    StepDown(c, cfg, a, j, inv);
    StepUp(c, cfg, a, j, inv);
    StepBounds(cfg, j);
    BabyStep(c, cfg, t1, a, cfg.L1() * j, Down(c, cfg, a, j));
    BabyStep(c, cfg, t1, a, -(cfg.L1() * j), Up(c, cfg, a, j));
  }

  // ----- Decryption

  /** What decryption promises for the point `a`: the message in range, or that there is none. */
  ghost predicate IsMessage(n: int, cfg: Config, a: int, m: int, ok: bool)
    requires n > 0
  {
    if ok then cfg.Fits(m) && m % n == a
    else m == 0 && forall m' :: cfg.Fits(m') ==> m' % n != a
  }

  /** Step `j` neither hits `a` exactly nor finds it in its block. */
  ghost predicate NotGiant(c: Curve, cfg: Config, a: int, j: int)
    requires c.order > 0
  {
    (cfg.L1() * j) % c.order != a && (-(cfg.L1() * j)) % c.order != a
  }

  ghost predicate Missed(c: Curve, cfg: Config, a: int, j: int)
    requires c.order > 0
  {
    forall m :: InBlock(cfg, j, m) ==> m % c.order != a
  }

  /** Every message in range is within `Jmax` of a giant step or of its opposite. */
  lemma Cover(cfg: Config, m: int) returns (j: int)
    requires cfg.Fits(m)
    ensures 0 <= j <= cfg.Imax()
    ensures m == cfg.L1() * j || m == -(cfg.L1() * j) || InBlock(cfg, j, m)
  {
    var l, h := cfg.L1(), cfg.Jmax();
    j := RoundDown((if m < 0 then -m else m) + h - 1, l, cfg.Imax());
  }

  /** A message strictly inside the block of giant step `j`, up to sign, is in the block of no other step. */
  lemma OneBlock(cfg: Config, m: int, j: nat, i: nat)
    requires i != j
    requires var u := if m < 0 then -m else m; cfg.L1() * j - cfg.Jmax() < u < cfg.L1() * j + cfg.Jmax()
    ensures m != cfg.L1() * i && m != -(cfg.L1() * i) && !InBlock(cfg, i, m)
  {
    var l := cfg.L1();
    if i < j {
      MulMono(i + 1, j, l);
    } else {
      MulMono(j + 1, i, l);
    }
    MulMono(0, i, l);
    MulSucc(i, l);
    MulSucc(j, l);
    assert l * i == i * l && l * j == j * l;
  }

  lemma RoundDown(u: int, l: int, imax: int) returns (j: int)
    requires 0 <= u < imax * l + l && l > 0
    ensures 0 <= j <= imax && l * j <= u < l * j + l
  {
    j := u / l;
    if j > imax {
      MulMono(imax + 1, j, l);
      assert false;
    }
  }

  lemma NothingLeft(c: Curve, cfg: Config, a: int)
    requires c.order > 0 && a != 0
    requires forall m :: Near(cfg, 0, m) ==> m % c.order != a
    requires forall j :: 1 <= j <= cfg.Imax() ==> NotGiant(c, cfg, a, j) && Missed(c, cfg, a, j)
    ensures IsMessage(c.order, cfg, a, 0, false)
  {
    forall m | cfg.Fits(m) ensures m % c.order != a {
      var j := Cover(cfg, m);
      if j == 0 {
        QuotientUnique(0, 0, 0, c.order);
      } else {
        assert NotGiant(c, cfg, a, j) && Missed(c, cfg, a, j);
      }
    }
  }

  lemma GiantIsPoint(c: Curve, cfg: Config, j: int)
    requires c.order > 2 * cfg.Mmax() && 1 <= j <= cfg.Imax()
    ensures IsPoint(c, Giant(c, cfg, j))
  {
    var n := c.order;
    GiantMod(c, cfg, j);
    MulMono(1, j, cfg.L1());
    MulMono(j, cfg.Imax(), cfg.L1());
    NonZeroPoint(n, -(cfg.L1() * j));
    InRange(Giant(c, cfg, j), n);
  }

  /** Giant step `j` has the first coordinate of `a` exactly when the message is `j L1` or `-j L1`. */
  lemma GiantHit(c: Curve, cfg: Config, a: int, j: int)
    requires IsCurve(c) && c.order > 2 * cfg.Mmax() && IsPoint(c, a) && 1 <= j <= cfg.Imax()
    ensures c.x(Giant(c, cfg, j)) == c.x(a) <==> !NotGiant(c, cfg, a, j)
  {
    var n, b, l := c.order, Giant(c, cfg, j), cfg.L1() * j;
    GiantIsPoint(c, cfg, j);
    GiantMod(c, cfg, j);
    assert SameX(c, b, a);
    assert j * cfg.L1() == l;
    InRange(a, n);
    InRange(b, n);
    CongSub(0, 0, b, -l, n);
    CongBy(n - b, -b, 1, n);
    InRange(n - b, n);
  }

  /** `z` is the difference of first coordinates at step `j`, and it is not zero modulo the field. */
  ghost predicate IsDifference(c: Curve, cfg: Config, a: int, j: int, z: int)
    requires c.order > 0 && c.field > 0
  {
    z == c.x(Giant(c, cfg, j)) - c.x(a) && z % c.field != 0 && NotGiant(c, cfg, a, j)
  }

  lemma DifferenceStep(c: Curve, cfg: Config, a: int, j: int)
    requires IsCurve(c) && c.order > 2 * cfg.Mmax() && IsPoint(c, a) && 1 <= j <= cfg.Imax()
    ensures var z := c.x(Giant(c, cfg, j)) - c.x(a);
            var m := Pick(c, a, cfg.L1() * j, -(cfg.L1() * j));
            if z == 0 then !NotGiant(c, cfg, a, j) && cfg.Fits(m) && m % c.order == a else IsDifference(c, cfg, a, j, z)
  {
    GiantHit(c, cfg, a, j);
    GiantIsPoint(c, cfg, j);
    assert Coordinates(c, a) && Coordinates(c, Giant(c, cfg, j));
    var z := c.x(Giant(c, cfg, j)) - c.x(a);
    if z == 0 {
      MulMono(0, j, cfg.L1());
      MulMono(j, cfg.Imax(), cfg.L1());
      assert cfg.L1() * j == j * cfg.L1();
    } else {
      NonZeroPoint(c.field, z);
    }
  }

  /** The differences of first coordinates; stops at the first giant step that hits `a`. */
  method Differences(c: Curve, cfg: Config, t2: seq<AffinePoint>, a: int) returns (z: seq<int>, hit: Option<int>)
    requires IsCurve(c) && c.order > 2 * cfg.Mmax() && IsPoint(c, a)
    requires |t2| == cfg.Imax() + 1
    requires forall j :: 0 <= j <= cfg.Imax() ==> t2[j] == Affine(c, Giant(c, cfg, j))
    ensures hit.Some? ==> IsGiant(c, cfg, a) && cfg.Fits(hit.value) && hit.value % c.order == a
    ensures hit.None? ==> |z| == cfg.Imax()
    ensures hit.None? ==> forall i :: 0 <= i < |z| ==> IsDifference(c, cfg, a, i + 1, z[i])
  {
    z := [];
    for i := 1 to cfg.Imax() + 1
      invariant |z| == i - 1
      invariant forall j :: 0 <= j < |z| ==> IsDifference(c, cfg, a, j + 1, z[j])
    {
      var difference := t2[i].x - c.x(a);
      z := z + [difference];
      DifferenceStep(c, cfg, a, i);
      if difference == 0 {
        var m := cfg.L1() * i;
        return z, Some(Pick(c, a, m, -m));
      }
    }
    hit := None;
  }

  /** Either the message is known already, or all is set up for the giant steps. */
  datatype Prepared = Done(m: int) | Pending(inv: seq<int>)

  ghost predicate SearchReady(c: Curve, cfg: Config, a: int, inv: seq<int>)
    requires c.order > 0 && c.field > 0
  {
    && IsPoint(c, a)
    && |inv| == cfg.Imax()
    && (forall m :: Near(cfg, 0, m) ==> m % c.order != a)
    && (forall i :: 0 <= i < |inv| ==> StepOpen(c, cfg, a, i + 1, inv[i]))
  }

  ghost predicate StepOpen(c: Curve, cfg: Config, a: int, j: int, inv: int)
    requires c.order > 0 && c.field > 0
  {
    NotGiant(c, cfg, a, j) && StepReady(c, cfg, a, j, inv)
  }

  ghost predicate IsT2(c: Curve, cfg: Config, t2: seq<AffinePoint>)
    requires c.order > 0
  {
    |t2| == cfg.Imax() + 1 && forall j :: 0 <= j < |t2| ==> t2[j] == Affine(c, Giant(c, cfg, j))
  }

  lemma DifferenceReady(c: Curve, cfg: Config, a: int, j: int, z: int, inv: int)
    requires IsCurve(c) && c.order > 2 * cfg.Mmax() && IsPoint(c, a)
    requires 1 <= j <= cfg.Imax() && IsDifference(c, cfg, a, j, z) && (inv * z) % c.field == 1
    ensures StepOpen(c, cfg, a, j, inv)
  {
    GiantIsPoint(c, cfg, j);
    QuotientUnique(1, 0, 1, c.field);
    QuotientUnique(0, 0, 0, c.field);
  }

  /** The point is a multiple of `L1`, up to sign. */
  ghost predicate IsGiant(c: Curve, cfg: Config, a: int)
    requires c.order > 0
  {
    exists j :: 1 <= j <= cfg.Imax() && !NotGiant(c, cfg, a, j)
  }

  /** The first giant step that answers, if there is one, answers truly. */
  ghost predicate SearchTrue(c: Curve, cfg: Config, t1: int -> Option<int>, a: int)
    requires c.order > 0
  {
    forall j :: 1 <= j <= cfg.Imax() && IsFirst(c, cfg, t1, a, 1, j) ==> StepTrue(c, cfg, t1, a, j)
  }

  /** Step `j` answers, and none of the steps from `lo` on before it does. */
  ghost predicate IsFirst(c: Curve, cfg: Config, t1: int -> Option<int>, a: int, lo: int, j: int)
    requires c.order > 0
  {
    Answers(c, cfg, t1, a, j) && forall i :: lo <= i < j ==> !Answers(c, cfg, t1, a, i)
  }

  /** Of the look-ups made for the point `a`, the first that answers is a true one. */
  ghost predicate FirstTrue(c: Curve, cfg: Config, t1: int -> Option<int>, a: int)
    requires c.order > 0
  {
    || a == 0
    || (TrueAt(c, t1, c.x(a)) && (t1(c.x(a)).Some? || IsGiant(c, cfg, a) || SearchTrue(c, cfg, t1, a)))
  }

  ghost predicate PreparedFor(c: Curve, cfg: Config, t1: int -> Option<int>, a: int, r: Prepared)
    requires c.order > 0 && c.field > 0
  {
    match r
    case Done(m) =>
      && (a == 0 || t1(c.x(a)).Some? || IsGiant(c, cfg, a))
      && (IsMessage(c.order, cfg, a, m, true) <==> a == 0 || TrueAt(c, t1, c.x(a)))
    case Pending(inv) => t1(c.x(a)).None? && SearchReady(c, cfg, a, inv)
  }

  /** Everything before the giant-step loop: the zero message, table T1, and the batch of inverses. */
  method Prepare(c: Curve, cfg: Config, t1: int -> Option<int>, t2: seq<AffinePoint>, ct: Ciphertext, k: int)
    returns (r: Prepared)
    requires Setting(c, cfg, t1) && IsT2(c, cfg, t2)
    requires 0 <= ct.c2 < c.order
    ensures PreparedFor(c, cfg, t1, Hidden(c, ct, k), r)
  {
    var c1sk := Mul(c, ct.c1, k);
    if c1sk == ct.c2 {
      QuotientUnique(0, 0, 0, c.order);
      return Done(0);
    }
    NonZeroPoint(c.order, ct.c2 - c1sk);
    r := PreparePoint(c, cfg, t1, t2, Sub(c, ct.c2, c1sk));
  }

  method PreparePoint(c: Curve, cfg: Config, t1: int -> Option<int>, t2: seq<AffinePoint>, a: int)
    returns (r: Prepared)
    requires Setting(c, cfg, t1) && IsT2(c, cfg, t2) && IsPoint(c, a)
    ensures PreparedFor(c, cfg, t1, a, r)
  {
    BabyStep(c, cfg, t1, a, 0, a);
    var small := Resolve(c, t1, a, 0, c.x(a));
    if small.Some? {
      SmallFits(cfg, small.value);
      return Done(small.value);
    }
    var z, hit := Differences(c, cfg, t2, a);
    if hit.Some? {
      return Done(hit.value);
    }
    var inv := InvertDifferences(c, cfg, a, z);
    r := Pending(inv);
  }

  lemma SmallFits(cfg: Config, m: int)
    requires -cfg.Jmax() <= m <= cfg.Jmax()
    ensures cfg.Fits(m)
  {
    MulMono(0, cfg.Imax(), cfg.L1());
  }

  method InvertDifferences(c: Curve, cfg: Config, a: int, z: seq<int>) returns (inv: seq<int>)
    requires IsCurve(c) && c.order > 2 * cfg.Mmax() && IsPoint(c, a)
    requires |z| == cfg.Imax() && forall i :: 0 <= i < |z| ==> IsDifference(c, cfg, a, i + 1, z[i])
    ensures |inv| == |z| && forall i :: 0 <= i < |inv| ==> StepOpen(c, cfg, a, i + 1, inv[i])
  {
    inv := BatchInvert(z, cfg.ilen, c.field);
    forall i | 0 <= i < |inv| ensures StepOpen(c, cfg, a, i + 1, inv[i]) {
      DifferenceReady(c, cfg, a, i + 1, z[i], inv[i]);
    }
  }

  /**
   Decryption. The result is the message in range, or the failure because there is none, exactly when the
   first look-up that answers is a true one.
   */
  method Decrypt(c: Curve, cfg: Config, t1: int -> Option<int>, t2: seq<AffinePoint>, ct: Ciphertext, k: int)
    returns (m: int, ok: bool)
    requires Setting(c, cfg, t1) && IsT2(c, cfg, t2)
    requires 0 <= ct.c2 < c.order
    ensures IsMessage(c.order, cfg, Hidden(c, ct, k), m, ok) <==> FirstTrue(c, cfg, t1, Hidden(c, ct, k))
  {
    var prepared := Prepare(c, cfg, t1, t2, ct, k);
    if prepared.Done? {
      return prepared.m, true;
    }
    var a := Hidden(c, ct, k);
    NoGiant(c, cfg, a, prepared.inv);
    m, ok := SearchAll(c, cfg, t1, t2, prepared.inv, a);
  }

  /** The giant-step loop. */
  method SearchAll(c: Curve, cfg: Config, t1: int -> Option<int>, t2: seq<AffinePoint>, inv: seq<int>, a: int)
    returns (m: int, ok: bool)
    requires Setting(c, cfg, t1) && IsT2(c, cfg, t2) && SearchReady(c, cfg, a, inv)
    ensures IsMessage(c.order, cfg, a, m, ok) <==> SearchTrue(c, cfg, t1, a)
  {
    for j := 1 to cfg.Imax() + 1
      invariant forall i :: 1 <= i < j ==> Missed(c, cfg, a, i) && !Answers(c, cfg, t1, a, i)
    {
      assert StepOpen(c, cfg, a, j, inv[j - 1]);
      ProbeCorrect(c, cfg, t1, a, j, inv[j - 1]);
      var found := Probe(c, cfg, t1, t2[j], inv[j - 1], a, j);
      if found.Some? {
        FirstAnswer(c, cfg, t1, a, j);
        return found.value, true;
      }
    }
    AllMissed(c, cfg, a, inv);
    return 0, false;
  }

  /** When step `j` is the first that answers, all depends on it. */
  lemma FirstAnswer(c: Curve, cfg: Config, t1: int -> Option<int>, a: int, j: int)
    requires c.order > 0 && 1 <= j <= cfg.Imax() && IsFirst(c, cfg, t1, a, 1, j)
    ensures SearchTrue(c, cfg, t1, a) <==> StepTrue(c, cfg, t1, a, j)
  {
    forall i | 1 <= i <= cfg.Imax() && IsFirst(c, cfg, t1, a, 1, i) ensures i == j {
    }
  }

  lemma NoGiant(c: Curve, cfg: Config, a: int, inv: seq<int>)
    requires c.order > 0 && c.field > 0 && SearchReady(c, cfg, a, inv)
    ensures !IsGiant(c, cfg, a)
  {
    forall j | 1 <= j <= cfg.Imax() ensures NotGiant(c, cfg, a, j) {
      assert StepOpen(c, cfg, a, j, inv[j - 1]);
    }
  }

  lemma AllMissed(c: Curve, cfg: Config, a: int, inv: seq<int>)
    requires c.order > 0 && c.field > 0 && SearchReady(c, cfg, a, inv)
    requires forall j :: 1 <= j <= cfg.Imax() ==> Missed(c, cfg, a, j)
    ensures IsMessage(c.order, cfg, a, 0, false)
  {
    forall j | 1 <= j <= cfg.Imax() ensures NotGiant(c, cfg, a, j) {
      assert StepOpen(c, cfg, a, j, inv[j - 1]);
    }
    NothingLeft(c, cfg, a);
  }

  // ----- Decryption undoes encryption and follows the operations on ciphertexts

  /** The promise of decryption has one outcome when the point has a message in range. */
  lemma MessageIsUnique(n: int, cfg: Config, a: int, m: int, ok: bool, m': int)
    requires n > 2 * cfg.Mmax() && n > 0
    requires IsMessage(n, cfg, a, m, ok)
    requires cfg.Fits(m') && m' % n == a
    ensures ok && m == m'
  {
    if ok {
      PointDeterminesMessage(n, cfg, m, m');
    }
  }

  /**
   Decrypting the point `m G` yields `d` and `ok`: the message in range, or the failure because there is none,
   exactly when the first look-up that answers is a true one. That message is `m` itself when `m` is in range.
   */
  ghost predicate Yields(c: Curve, cfg: Config, t1: int -> Option<int>, m: int, d: int, ok: bool)
    requires c.order > 0
  {
    && (IsMessage(c.order, cfg, m % c.order, d, ok) <==> FirstTrue(c, cfg, t1, m % c.order))
    && (cfg.Fits(m) ==> (ok && d == m <==> FirstTrue(c, cfg, t1, m % c.order)))
  }

  /** What decrypting a point yields is its message exactly when the first look-up that answers is a true one. */
  lemma YieldsMessage(c: Curve, cfg: Config, t1: int -> Option<int>, a: int, m: int, d: int, ok: bool)
    requires Setting(c, cfg, t1) && 0 <= a < c.order
    requires IsMessage(c.order, cfg, a, d, ok) <==> FirstTrue(c, cfg, t1, a)
    requires Cong(a, m, c.order)
    ensures Yields(c, cfg, t1, m, d, ok)
  {
    InRange(a, c.order);
    if cfg.Fits(m) && FirstTrue(c, cfg, t1, a) {
      MessageIsUnique(c.order, cfg, a, d, ok, m);
    }
  }

  /**
   Decryption undoes encryption, for every key and every randomness, exactly when the first look-up that answers
   for the point of the message is a true one. A message out of range is refused.
   */
  method EncryptDecrypt(c: Curve, cfg: Config, t1: int -> Option<int>, t2: seq<AffinePoint>, m: int, k: int, r: int)
    returns (d: Option<(int, bool)>)
    requires Setting(c, cfg, t1) && IsT2(c, cfg, t2)
    ensures d.None? <==> !InNumbers(cfg.ilen, cfg.jlen, m)
    ensures d.Some? ==> (d.value == (m, true) <==> FirstTrue(c, cfg, t1, m % c.order))
  {
    RangeInNumbers(cfg, m);
    var ct := Encrypt(c, cfg, m, PublicKey(c, k), r);
    if ct.None? {
      return None;
    }
    var plain, ok := Decrypt(c, cfg, t1, t2, ct.value, k);
    HiddenEncrypt(c, cfg, m, k, r);
    ModIdem(m, c.order);
    YieldsMessage(c, cfg, t1, Hidden(c, ct.value, k), m, plain, ok);
    d := Some((plain, ok));
  }

  /** The message behind a ciphertext, in range or not. */
  ghost predicate Hides(c: Curve, ct: Ciphertext, k: int, m: int)
    requires c.order > 0
  {
    Cong(Hidden(c, ct, k), m, c.order)
  }

  /** A sum of ciphertexts decrypts to the sum of the messages on the same condition. */
  method AddDecrypt(c: Curve, cfg: Config, t1: int -> Option<int>, t2: seq<AffinePoint>, x: Ciphertext, y: Ciphertext,
                    k: int, ghost m: int, ghost m': int)
    returns (d: int, ok: bool)
    requires Setting(c, cfg, t1) && IsT2(c, cfg, t2)
    requires Hides(c, x, k, m) && Hides(c, y, k, m')
    ensures Yields(c, cfg, t1, m + m', d, ok)
  {
    var ct := HAdd(c, x, y);
    d, ok := Decrypt(c, cfg, t1, t2, ct, k);
    HiddenAdd(c, x, y, k);
    CongAdd(Hidden(c, x, k), m, Hidden(c, y, k), m', c.order);
    YieldsMessage(c, cfg, t1, Hidden(c, ct, k), m + m', d, ok);
  }

  /** A difference of ciphertexts decrypts to the difference of the messages, likewise. */
  method SubDecrypt(c: Curve, cfg: Config, t1: int -> Option<int>, t2: seq<AffinePoint>, x: Ciphertext, y: Ciphertext,
                    k: int, ghost m: int, ghost m': int)
    returns (d: int, ok: bool)
    requires Setting(c, cfg, t1) && IsT2(c, cfg, t2)
    requires Hides(c, x, k, m) && Hides(c, y, k, m')
    ensures Yields(c, cfg, t1, m - m', d, ok)
  {
    var ct := HSub(c, x, y);
    d, ok := Decrypt(c, cfg, t1, t2, ct, k);
    HiddenSub(c, x, y, k);
    CongSub(Hidden(c, x, k), m, Hidden(c, y, k), m', c.order);
    YieldsMessage(c, cfg, t1, Hidden(c, ct, k), m - m', d, ok);
  }

  /** A multiple of a ciphertext decrypts to the multiple of the message, likewise. */
  method MulDecrypt(c: Curve, cfg: Config, t1: int -> Option<int>, t2: seq<AffinePoint>, x: Ciphertext, s: int,
                    k: int, ghost m: int)
    returns (d: int, ok: bool)
    requires Setting(c, cfg, t1) && IsT2(c, cfg, t2)
    requires Hides(c, x, k, m)
    ensures Yields(c, cfg, t1, m * s, d, ok)
  {
    var ct := HMul(c, x, s);
    d, ok := Decrypt(c, cfg, t1, t2, ct, k);
    HiddenMul(c, x, s, k);
    CongMul(Hidden(c, x, k), m, s, s, c.order);
    YieldsMessage(c, cfg, t1, Hidden(c, ct, k), m * s, d, ok);
  }
}

/**
 Polynomials over GF(2^64) as coefficient sequences, lowest degree first, and the two
 operations of the set-union protocol on them: evaluation by Horner's rule and
 interpolation through a master polynomial.
 */
module Poly {
  import opened Wrappers
  import opened Gf64

  /** The value of the polynomial with coefficients `c` at `x`. */
  ghost function Eval<F>(g: Field<F>, c: seq<F>, x: F): F {
    if c == [] then g.zero else g.add(c[0], g.mul(Eval(g, c[1..], x), x))
  }

  ghost function Coeff<F>(g: Field<F>, p: seq<F>, k: int): F {
    if 0 <= k < |p| then p[k] else g.zero
  }

  /** Multiplication by `X - a`, which in characteristic two is `X + a`. */
  ghost function MulLinear<F>(g: Field<F>, p: seq<F>, a: F): (r: seq<F>)
    ensures |r| == |p| + 1
  {
    seq(|p| + 1, k => g.add(g.mul(Coeff(g, p, k), a), Coeff(g, p, k - 1)))
  }

  /** Synthetic division by `X - a`; the remainder, `Eval(p, a)`, is dropped. */
  ghost function Divide<F>(g: Field<F>, p: seq<F>, a: F): (q: seq<F>)
    requires p != []
    ensures |q| == |p| - 1
  {
    seq(|p| - 1, k requires 0 <= k < |p| - 1 => Eval(g, p[k + 1..], a))
  }

  // ----- Multiplication and division by a linear factor

  lemma EvalHead<F(!new)>(g: Field<F>, c: seq<F>, d: F, x: F)
    requires IsField(g)
    requires c != []
    ensures Eval(g, c[0 := g.add(c[0], d)], x) == g.add(Eval(g, c, x), d)
  {
    assert c[0 := g.add(c[0], d)][1..] == c[1..];
    AddSwap(g, c[0], d, g.mul(Eval(g, c[1..], x), x));
  }

  lemma MulLinearTail<F(!new)>(g: Field<F>, p: seq<F>, a: F)
    requires IsField(g)
    requires p != []
    ensures MulLinear(g, p, a)[0] == g.mul(p[0], a)
    ensures MulLinear(g, p, a)[1..] ==
            MulLinear(g, p[1..], a)[0 := g.add(MulLinear(g, p[1..], a)[0], p[0])]
  {
    AddZero(g, g.mul(p[0], a));
    AddZero(g, g.mul(Coeff(g, p, 1), a));
    assert forall k :: 0 <= k ==> Coeff(g, p[1..], k) == Coeff(g, p, k + 1);
  }

  lemma {:induction false} EvalMulLinear<F(!new)>(g: Field<F>, p: seq<F>, a: F, x: F)
    requires IsField(g)
    ensures Eval(g, MulLinear(g, p, a), x) == g.mul(Eval(g, p, x), g.add(x, a))
  {
    if p == [] {
      MulZero(g, g.add(x, a));
      MulZero(g, x);
      CoeffMulLinear(g, p, a, 0);
      MulZero(g, a);
      AddZero(g, g.zero);
      assert MulLinear(g, p, a)[0] == g.zero;
      assert MulLinear(g, p, a)[1..] == [];
    } else {
      var q := p[1..];
      var m := MulLinear(g, q, a);
      MulLinearTail(g, p, a);
      EvalHead(g, m, p[0], x);
      EvalMulLinear(g, q, a, x);
      LinearStep(g, p[0], Eval(g, q, x), x, a);
    }
  }

  /** `(h + e x)(x + a) = h a + (e (x + a) + h) x`. */
  lemma LinearStep<F(!new)>(g: Field<F>, h: F, e: F, x: F, a: F)
    requires IsField(g)
    ensures g.mul(g.add(h, g.mul(e, x)), g.add(x, a)) ==
            g.add(g.mul(h, a), g.mul(g.add(g.mul(e, g.add(x, a)), h), x))
  {
    var s := g.add(x, a);
    DistributesLeft(g, h, g.mul(e, x), s);
    DistributesLeft(g, g.mul(e, s), h, x);
    assert Distributes(g, h, x, a);
    assert MulAssociates(g, e, x, s) && MulAssociates(g, e, s, x) && MulLaws(g, x, s);
    var t := g.mul(g.mul(e, x), s);
    var u, v := g.mul(h, x), g.mul(h, a);
    assert AddLaws(g, u, v) && AddLaws(g, t, u) && AddAssociates(g, v, u, t);
  }

  lemma EvalFrom<F>(g: Field<F>, p: seq<F>, k: nat, a: F)
    requires k < |p|
    ensures Eval(g, p[k..], a) == g.add(p[k], g.mul(Eval(g, p[k + 1..], a), a))
  {
    assert p[k..][1..] == p[k + 1..];
  }

  /** Dividing by `X - a` is exact when `a` is a root. */
  lemma DivideExact<F(!new)>(g: Field<F>, p: seq<F>, a: F)
    requires IsField(g)
    requires p != [] && Eval(g, p, a) == g.zero
    ensures MulLinear(g, Divide(g, p, a), a) == p
  {
    var q := Divide(g, p, a);
    var m := MulLinear(g, q, a);
    forall k | 0 <= k < |p| ensures m[k] == p[k] {
      EvalFrom(g, p, k, a);
      var t := g.mul(Eval(g, p[k + 1..], a), a);
      AddCancels(g, p[k], t);
      AddZero(g, t);
      assert |p[k + 1..]| == 0 ==> p[k + 1..] == [];
      assert Coeff(g, q, k) == Eval(g, p[k + 1..], a);
      assert p[0..] == p;
      assert Coeff(g, q, k - 1) == if k == 0 then g.zero else Eval(g, p[k..], a);
    }
  }

  lemma {:induction false} EvalMulLinearFrom<F(!new)>(g: Field<F>, q: seq<F>, a: F, k: nat)
    requires IsField(g)
    requires k <= |q| + 1
    ensures Eval(g, MulLinear(g, q, a)[k..], a) == Coeff(g, q, k - 1)
    decreases |q| + 1 - k
  {
    var m := MulLinear(g, q, a);
    if k == |q| + 1 {
      assert m[k..] == [] && k - 1 >= |q|;
    } else {
      EvalFrom(g, m, k, a);
      EvalMulLinearFrom(g, q, a, k + 1);
      var t := g.mul(Coeff(g, q, k), a);
      assert AddLaws(g, t, Coeff(g, q, k - 1));
      AddCancels(g, Coeff(g, q, k - 1), t);
    }
  }

  /** Division undoes multiplication. */
  lemma DivideUndoes<F(!new)>(g: Field<F>, q: seq<F>, a: F)
    requires IsField(g)
    ensures Divide(g, MulLinear(g, q, a), a) == q
  {
    var m := MulLinear(g, q, a);
    forall k | 0 <= k < |q| ensures Divide(g, m, a)[k] == q[k] {
      EvalMulLinearFrom(g, q, a, k + 1);
    }
  }

  lemma MulLinearCommutesAt<F(!new)>(g: Field<F>, x: F, y: F, z: F, a: F, b: F)
    requires IsField(g)
    ensures g.add(g.mul(g.add(g.mul(x, a), y), b), g.add(g.mul(y, a), z)) ==
            g.add(g.mul(g.add(g.mul(x, b), y), a), g.add(g.mul(y, b), z))
  {
    DistributesLeft(g, g.mul(x, a), y, b);
    DistributesLeft(g, g.mul(x, b), y, a);
    assert MulAssociates(g, x, a, b) && MulAssociates(g, x, b, a) && MulLaws(g, a, b);
    AddMiddle(g, g.mul(g.mul(x, a), b), g.mul(y, b), g.mul(y, a), z);
  }

  lemma MulLinearCommutes<F(!new)>(g: Field<F>, p: seq<F>, a: F, b: F)
    requires IsField(g)
    ensures MulLinear(g, MulLinear(g, p, a), b) == MulLinear(g, MulLinear(g, p, b), a)
  {
    var l, r := MulLinear(g, MulLinear(g, p, a), b), MulLinear(g, MulLinear(g, p, b), a);
    forall k | 0 <= k < |l| ensures l[k] == r[k] {
      CoeffMulLinear(g, p, a, k);
      CoeffMulLinear(g, p, a, k - 1);
      CoeffMulLinear(g, p, b, k);
      CoeffMulLinear(g, p, b, k - 1);
      MulLinearCommutesAt(g, Coeff(g, p, k), Coeff(g, p, k - 1), Coeff(g, p, k - 2), a, b);
    }
  }

  lemma CoeffMulLinear<F(!new)>(g: Field<F>, p: seq<F>, a: F, k: int)
    requires IsField(g)
    ensures Coeff(g, MulLinear(g, p, a), k) == g.add(g.mul(Coeff(g, p, k), a), Coeff(g, p, k - 1))
  {
    MulZero(g, a);
    AddZero(g, g.zero);
  }

  // ----- The master polynomial

  /** The product of `X - xs[i]` over all `i`. */
  ghost function Master<F>(g: Field<F>, xs: seq<F>): (p: seq<F>)
    ensures |p| == |xs| + 1
  {
    if xs == [] then [g.one] else MulLinear(g, Master(g, xs[..|xs| - 1]), xs[|xs| - 1])
  }

  ghost function Drop<T>(s: seq<T>, i: nat): seq<T>
    requires i < |s|
  {
    s[..i] + s[i + 1..]
  }

  /** Any node can be taken as the last factor. */
  lemma {:induction false} MasterAnyOrder<F(!new)>(g: Field<F>, xs: seq<F>, i: nat)
    requires IsField(g)
    requires i < |xs|
    ensures Master(g, xs) == MulLinear(g, Master(g, Drop(xs, i)), xs[i])
  {
    var n := |xs| - 1;
    if i == n {
      assert Drop(xs, i) == xs[..n];
    } else {
      var ys := Drop(xs, i);
      assert ys[..|ys| - 1] == Drop(xs[..n], i) && ys[|ys| - 1] == xs[n];
      MasterAnyOrder(g, xs[..n], i);
      MulLinearCommutes(g, Master(g, Drop(xs[..n], i)), xs[i], xs[n]);
    }
  }

  lemma {:induction false} MasterMonic<F(!new)>(g: Field<F>, xs: seq<F>)
    requires IsField(g)
    ensures Master(g, xs)[|xs|] == g.one
  {
    if xs != [] {
      var init, a := xs[..|xs| - 1], xs[|xs| - 1];
      MasterMonic(g, init);
      CoeffMulLinear(g, Master(g, init), a, |xs|);
      MulZero(g, a);
      AddZero(g, g.one);
    }
  }

  /** The roots of the master polynomial are exactly its nodes. */
  lemma {:induction false} MasterRoots<F(!new)>(g: Field<F>, xs: seq<F>, x: F)
    requires IsField(g)
    ensures Eval(g, Master(g, xs), x) == g.zero <==> x in xs
  {
    if xs == [] {
      assert [g.one][1..] == [];
      MulZero(g, x);
      AddZero(g, g.one);
    } else {
      var init, a := xs[..|xs| - 1], xs[|xs| - 1];
      assert xs == init + [a];
      var e := Eval(g, Master(g, init), x);
      MasterRoots(g, init, x);
      EvalMulLinear(g, Master(g, init), a, x);
      AddCancels(g, x, a);
      MulZero(g, e);
      MulZero(g, g.add(x, a));
      if x != a && g.mul(e, g.add(x, a)) == g.zero {
        NoZeroDivisors(g, e, g.add(x, a));
      }
    }
  }

  // ----- Lagrange terms

  ghost predicate Distinct<T>(s: seq<T>) {
    forall i, j :: 0 <= i < j < |s| ==> s[i] != s[j]
  }

  /** What is left of the master polynomial after dividing node `i` out. */
  ghost function Basis<F>(g: Field<F>, xs: seq<F>, i: nat): (q: seq<F>)
    requires i < |xs|
    ensures |q| == |xs|
  {
    Divide(g, Master(g, xs), xs[i])
  }

  lemma BasisIsMaster<F(!new)>(g: Field<F>, xs: seq<F>, i: nat)
    requires IsField(g)
    requires i < |xs|
    ensures Basis(g, xs, i) == Master(g, Drop(xs, i))
  {
    MasterAnyOrder(g, xs, i);
    DivideUndoes(g, Master(g, Drop(xs, i)), xs[i]);
  }

  /** A basis polynomial vanishes at every node but its own. */
  lemma BasisAtNodes<F(!new)>(g: Field<F>, xs: seq<F>, i: nat, j: nat)
    requires IsField(g)
    requires Distinct(xs) && i < |xs| && j < |xs|
    ensures Eval(g, Basis(g, xs, i), xs[j]) == g.zero <==> i != j
  {
    BasisIsMaster(g, xs, i);
    MasterRoots(g, Drop(xs, i), xs[j]);
    if i < j {
      assert Drop(xs, i)[j - 1] == xs[j];
    } else if j < i {
      assert Drop(xs, i)[j] == xs[j];
    }
  }

  ghost function Sum<F>(g: Field<F>, p: seq<F>, q: seq<F>): (r: seq<F>)
    requires |p| == |q|
    ensures |r| == |p|
  {
    seq(|p|, k requires 0 <= k < |p| => g.add(p[k], q[k]))
  }

  ghost function Scale<F>(g: Field<F>, p: seq<F>, s: F): (r: seq<F>)
    ensures |r| == |p|
  {
    seq(|p|, k requires 0 <= k < |p| => g.mul(p[k], s))
  }

  ghost function Zeros<F>(g: Field<F>, n: nat): (r: seq<F>)
    ensures |r| == n
  {
    seq(n, k => g.zero)
  }

  lemma {:induction false} EvalSum<F(!new)>(g: Field<F>, p: seq<F>, q: seq<F>, x: F)
    requires IsField(g)
    requires |p| == |q|
    ensures Eval(g, Sum(g, p, q), x) == g.add(Eval(g, p, x), Eval(g, q, x))
  {
    if p == [] {
      AddZero(g, g.zero);
    } else {
      assert Sum(g, p, q)[1..] == Sum(g, p[1..], q[1..]);
      EvalSum(g, p[1..], q[1..], x);
      var a, b := Eval(g, p[1..], x), Eval(g, q[1..], x);
      DistributesLeft(g, a, b, x);
      AddMiddle(g, p[0], q[0], g.mul(a, x), g.mul(b, x));
    }
  }

  lemma {:induction false} EvalScale<F(!new)>(g: Field<F>, p: seq<F>, s: F, x: F)
    requires IsField(g)
    ensures Eval(g, Scale(g, p, s), x) == g.mul(Eval(g, p, x), s)
  {
    if p == [] {
      MulZero(g, s);
    } else {
      assert Scale(g, p, s)[1..] == Scale(g, p[1..], s);
      EvalScale(g, p[1..], s, x);
      var a := Eval(g, p[1..], x);
      DistributesLeft(g, p[0], g.mul(a, x), s);
      assert MulAssociates(g, a, s, x) && MulAssociates(g, a, x, s) && MulLaws(g, s, x);
    }
  }

  lemma {:induction false} EvalZeros<F(!new)>(g: Field<F>, n: nat, x: F)
    requires IsField(g)
    ensures Eval(g, Zeros(g, n), x) == g.zero
  {
    if n > 0 {
      assert Zeros(g, n)[1..] == Zeros(g, n - 1);
      EvalZeros(g, n - 1, x);
      MulZero(g, x);
      AddZero(g, g.zero);
    }
  }

  ghost function Weight<F>(g: Field<F>, xs: seq<F>, ys: seq<F>, i: nat): F
    requires |xs| == |ys| && i < |xs|
  {
    g.mul(ys[i], g.inv(Eval(g, Basis(g, xs, i), xs[i])))
  }

  ghost function Term<F>(g: Field<F>, xs: seq<F>, ys: seq<F>, i: nat): (c: seq<F>)
    requires |xs| == |ys| && i < |xs|
    ensures |c| == |xs|
  {
    Scale(g, Basis(g, xs, i), Weight(g, xs, ys, i))
  }

  /** The sum of the first `n` Lagrange terms. */
  ghost function Lagrange<F>(g: Field<F>, xs: seq<F>, ys: seq<F>, n: nat): (c: seq<F>)
    requires n <= |xs| == |ys|
    ensures |c| == |xs|
  {
    if n == 0 then Zeros(g, |xs|)
    else Sum(g, Lagrange(g, xs, ys, n - 1), Term(g, xs, ys, n - 1))
  }

  lemma LagrangeStep<F(!new)>(g: Field<F>, xs: seq<F>, ys: seq<F>, n: nat, x: F)
    requires IsField(g)
    requires 0 < n <= |xs| == |ys|
    ensures Eval(g, Lagrange(g, xs, ys, n), x) ==
            g.add(Eval(g, Lagrange(g, xs, ys, n - 1), x), Eval(g, Term(g, xs, ys, n - 1), x))
  {
    EvalSum(g, Lagrange(g, xs, ys, n - 1), Term(g, xs, ys, n - 1), x);
  }

  lemma {:induction false} LagrangeAtNode<F(!new)>(g: Field<F>, xs: seq<F>, ys: seq<F>, n: nat, j: nat)
    requires IsField(g)
    requires n <= |xs| == |ys| && j < |xs|
    requires Distinct(xs)
    ensures Eval(g, Lagrange(g, xs, ys, n), xs[j]) == if j < n then ys[j] else g.zero
  {
    if n == 0 {
      EvalZeros(g, |xs|, xs[j]);
    } else {
      var i := n - 1;
      LagrangeStep(g, xs, ys, n, xs[j]);
      LagrangeAtNode(g, xs, ys, i, j);
      TermAtNode(g, xs, ys, i, j);
      AddZero(g, ys[j]);
      AddZero(g, g.zero);
    }
  }

  /** The `i`-th Lagrange term is `ys[i]` at node `i` and zero at the others. */
  lemma TermAtNode<F(!new)>(g: Field<F>, xs: seq<F>, ys: seq<F>, i: nat, j: nat)
    requires IsField(g)
    requires |xs| == |ys| && i < |xs| && j < |xs|
    requires Distinct(xs)
    ensures Eval(g, Term(g, xs, ys, i), xs[j]) == if i == j then ys[i] else g.zero
  {
    var b, w := Basis(g, xs, i), Weight(g, xs, ys, i);
    EvalScale(g, b, w, xs[j]);
    BasisAtNodes(g, xs, i, j);
    if i == j {
      WeightCancels(g, Eval(g, b, xs[j]), ys[i]);
    } else {
      MulZero(g, w);
    }
  }

  lemma WeightCancels<F(!new)>(g: Field<F>, e: F, y: F)
    requires IsField(g)
    requires e != g.zero
    ensures g.mul(e, g.mul(y, g.inv(e))) == y
  {
    var w := g.inv(e);
    assert Inverts(g, e);
    assert MulLaws(g, y, w) && MulAssociates(g, e, w, y) && MulLaws(g, g.one, y) && MulLaws(g, y, g.one);
  }

  // ----- A polynomial is determined by its values

  /** A polynomial with at least as many roots as coefficients is zero. */
  lemma {:induction false} ManyRoots<F(!new)>(g: Field<F>, p: seq<F>, xs: seq<F>)
    requires IsField(g)
    requires Distinct(xs) && |p| <= |xs|
    requires forall i :: 0 <= i < |xs| ==> Eval(g, p, xs[i]) == g.zero
    ensures p == Zeros(g, |p|)
    decreases |p|
  {
    if p != [] {
      var a := xs[0];
      var q := Divide(g, p, a);
      DivideExact(g, p, a);
      forall i | 0 <= i < |xs| - 1 ensures Eval(g, q, xs[1..][i]) == g.zero {
        var x := xs[i + 1];
        EvalMulLinear(g, q, a, x);
        AddCancels(g, x, a);
        NoZeroDivisors(g, Eval(g, q, x), g.add(x, a));
      }
      ManyRoots(g, q, xs[1..]);
      MulZero(g, a);
      AddZero(g, g.zero);
      assert forall k :: Coeff(g, q, k) == g.zero;
    }
  }

  /** Two polynomials with `n` coefficients that agree at `n` distinct points are the same. */
  lemma Determined<F(!new)>(g: Field<F>, p: seq<F>, q: seq<F>, xs: seq<F>)
    requires IsField(g)
    requires Distinct(xs) && |p| == |q| <= |xs|
    requires forall i :: 0 <= i < |xs| ==> Eval(g, p, xs[i]) == Eval(g, q, xs[i])
    ensures p == q
  {
    var d := Sum(g, p, q);
    forall i | 0 <= i < |xs| ensures Eval(g, d, xs[i]) == g.zero {
      EvalSum(g, p, q, xs[i]);
      AddZero(g, Eval(g, p, xs[i]));
    }
    ManyRoots(g, d, xs);
    forall k | 0 <= k < |p| ensures p[k] == q[k] {
      assert d[k] == g.zero;
      AddCancels(g, p[k], q[k]);
    }
  }

  // ----- Evaluate and Interpolate

  /** Horner's rule, from the last coefficient down. */
  method Evaluate<F(!new)>(g: Field<F>, coeffs: seq<F>, x: F) returns (y: F)
    requires IsField(g)
    requires coeffs != []
    ensures y == Eval(g, coeffs, x)
  {
    var i := |coeffs| - 1;
    y := coeffs[i];
    EvalFrom(g, coeffs, i, x);
    MulZero(g, x);
    AddZero(g, y);
    while i > 0
      invariant 0 <= i < |coeffs|
      invariant y == Eval(g, coeffs[i..], x)
    {
      i := i - 1;
      EvalFrom(g, coeffs, i, x);
      assert AddLaws(g, g.mul(y, x), coeffs[i]);
      y := g.add(g.mul(y, x), coeffs[i]);
    }
    assert coeffs[0..] == coeffs;
  }

  /** Multiplies the first `n` coefficients in the array by `X - a`, in place. */
  method MultiplyIn<F>(g: Field<F>, poly: array<F>, n: nat, a: F)
    requires n < poly.Length && forall i :: n <= i < poly.Length ==> poly[i] == g.zero
    modifies poly
    ensures poly[..n + 1] == MulLinear(g, old(poly[..n]), a)
    ensures forall i :: n < i < poly.Length ==> poly[i] == g.zero
  {
    ghost var p := poly[..n];
    ghost var r := MulLinear(g, p, a);
    var sum := g.zero;
    for k := 0 to n + 1
      invariant sum == Coeff(g, p, k - 1)
      invariant forall i :: 0 <= i < k ==> poly[i] == r[i]
      invariant forall i :: k <= i < poly.Length ==> poly[i] == Coeff(g, p, i)
    {
      assert r[k] == g.add(g.mul(Coeff(g, p, k), a), Coeff(g, p, k - 1));
      sum, poly[k] := poly[k], g.add(g.mul(poly[k], a), sum);
    }
    assert poly[..n + 1] == r;
  }

  /** Multiplies the factors `X - xs[j]` together in one array. */
  method BuildMaster<F>(g: Field<F>, xs: seq<F>) returns (poly: array<F>)
    ensures fresh(poly) && poly[..] == Master(g, xs)
  {
    poly := new F[|xs| + 1](_ => g.zero);
    poly[0] := g.one;
    for j := 0 to |xs|
      invariant poly[..j + 1] == Master(g, xs[..j])
      invariant forall k :: j < k < poly.Length ==> poly[k] == g.zero
    {
      MultiplyIn(g, poly, j + 1, xs[j]);
      assert xs[..j + 1][..j] == xs[..j];
    }
    assert xs[..|xs|] == xs;
    assert poly[..|xs| + 1] == poly[..];
  }

  /** Divides node `xi` out of a monic polynomial by synthetic division. */
  method DivideOut<F(!new)>(g: Field<F>, poly: array<F>, xi: F) returns (subpoly: array<F>)
    requires IsField(g)
    requires poly.Length >= 2 && poly[poly.Length - 1] == g.one
    ensures fresh(subpoly) && subpoly[..] == Divide(g, poly[..], xi)
  {
    var size := poly.Length - 1;
    ghost var p := poly[..];
    subpoly := new F[size](_ => g.zero);
    subpoly[size - 1] := g.one;
    LastQuotient(g, p, xi);
    ghost var q := Divide(g, p, xi);
    var k := size - 1;
    while k > 0
      invariant 0 <= k < size
      invariant forall i :: k <= i < size ==> subpoly[i] == q[i]
    {
      k := k - 1;
      QuotientStep(g, p, xi, k);
      subpoly[k] := g.add(poly[k + 1], g.mul(subpoly[k + 1], xi));
    }
  }

  lemma QuotientStep<F>(g: Field<F>, p: seq<F>, a: F, k: nat)
    requires k + 2 < |p|
    ensures Divide(g, p, a)[k] == g.add(p[k + 1], g.mul(Divide(g, p, a)[k + 1], a))
  {
    EvalFrom(g, p, k + 1, a);
  }

  lemma LastQuotient<F(!new)>(g: Field<F>, p: seq<F>, a: F)
    requires IsField(g) && |p| >= 2 && p[|p| - 1] == g.one
    ensures Divide(g, p, a)[|p| - 2] == g.one
  {
    EvalFrom(g, p, |p| - 1, a);
    assert p[|p|..] == [];
    MulZero(g, a);
    AddZero(g, g.one);
  }

  /**
   Interpolation. The sizes must match; then the result has one coefficient per node, and when the
   nodes are distinct it takes the given value at each of them.
   */
  method Interpolate<F(!new)>(g: Field<F>, xs: seq<F>, ys: seq<F>) returns (r: Option<seq<F>>)
    requires IsField(g)
    ensures r.Some? <==> |xs| == |ys|
    ensures r.Some? ==> |r.value| == |xs| && r.value == Lagrange(g, xs, ys, |xs|)
    ensures r.Some? && Distinct(xs) ==>
              forall i :: 0 <= i < |xs| ==> Eval(g, r.value, xs[i]) == ys[i]
  {
    if |xs| != |ys| {
      return None;
    }
    var c := Accumulate(g, xs, ys);
    r := Some(c);
    forall i | Distinct(xs) && 0 <= i < |xs| ensures Eval(g, r.value, xs[i]) == ys[i] {
      LagrangeAtNode(g, xs, ys, |xs|, i);
    }
  }

  /** Adds up the Lagrange terms. */
  method Accumulate<F(!new)>(g: Field<F>, xs: seq<F>, ys: seq<F>) returns (c: seq<F>)
    requires IsField(g) && |xs| == |ys|
    ensures c == Lagrange(g, xs, ys, |xs|)
  {
    var size := |xs|;
    var poly := BuildMaster(g, xs);
    MasterMonic(g, xs);
    var coeffs := new F[size](_ => g.zero);
    assert coeffs[..] == Lagrange(g, xs, ys, 0);
    for i := 0 to size
      invariant poly[..] == Master(g, xs)
      invariant coeffs[..] == Lagrange(g, xs, ys, i)
    {
      assert poly[size] == poly[..][size];
      var subpoly := DivideOut(g, poly, xs[i]);
      var e := Evaluate(g, subpoly[..], xs[i]);
      var prod := g.mul(ys[i], g.inv(e));
      AddTerm(g, coeffs, subpoly, prod);
    }
    c := coeffs[..];
  }

  method AddTerm<F>(g: Field<F>, coeffs: array<F>, subpoly: array<F>, prod: F)
    requires coeffs != subpoly && coeffs.Length == subpoly.Length
    modifies coeffs
    ensures coeffs[..] == Sum(g, old(coeffs[..]), Scale(g, subpoly[..], prod))
  {
    for k := 0 to coeffs.Length
      invariant forall i :: 0 <= i < k ==> coeffs[i] == g.add(old(coeffs[i]), g.mul(subpoly[i], prod))
      invariant forall i :: k <= i < coeffs.Length ==> coeffs[i] == old(coeffs[i])
    {
      coeffs[k] := g.add(coeffs[k], g.mul(subpoly[k], prod));
    }
  }

  /** Interpolating the values of a polynomial gives the polynomial back. */
  lemma InterpolateEvaluate<F(!new)>(g: Field<F>, xs: seq<F>, c: seq<F>, ys: seq<F>)
    requires IsField(g)
    requires Distinct(xs) && |c| == |xs| == |ys|
    requires forall i :: 0 <= i < |xs| ==> ys[i] == Eval(g, c, xs[i])
    ensures Lagrange(g, xs, ys, |xs|) == c
  {
    forall i | 0 <= i < |xs|
      ensures Eval(g, Lagrange(g, xs, ys, |xs|), xs[i]) == Eval(g, c, xs[i])
    {
      LagrangeAtNode(g, xs, ys, |xs|, i);
    }
    Determined(g, Lagrange(g, xs, ys, |xs|), c, xs);
  }

  // ----- Horner's rule computes the sum of coefficient times power

  ghost function Power<F>(g: Field<F>, x: F, k: nat): F {
    if k == 0 then g.one else g.mul(Power(g, x, k - 1), x)
  }

  ghost function PowerSum<F>(g: Field<F>, c: seq<F>, x: F, lo: nat): F
    requires lo <= |c|
    decreases |c| - lo
  {
    if lo == |c| then g.zero
    else g.add(g.mul(c[lo], Power(g, x, lo)), PowerSum(g, c, x, lo + 1))
  }

  lemma {:induction false} EvalIsPowerSum<F(!new)>(g: Field<F>, c: seq<F>, x: F, lo: nat)
    requires IsField(g)
    requires lo <= |c|
    ensures PowerSum(g, c, x, lo) == g.mul(Eval(g, c[lo..], x), Power(g, x, lo))
    decreases |c| - lo
  {
    var p := Power(g, x, lo);
    if lo == |c| {
      MulZero(g, p);
    } else {
      EvalFrom(g, c, lo, x);
      EvalIsPowerSum(g, c, x, lo + 1);
      var e := Eval(g, c[lo + 1..], x);
      DistributesLeft(g, c[lo], g.mul(e, x), p);
      assert MulAssociates(g, e, x, p) && MulLaws(g, x, p);
    }
  }

  lemma EvalMeaning<F(!new)>(g: Field<F>, c: seq<F>, x: F)
    requires IsField(g)
    ensures Eval(g, c, x) == PowerSum(g, c, x, 0)
  {
    EvalIsPowerSum(g, c, x, 0);
    assert c[0..] == c;
    assert MulLaws(g, Eval(g, c, x), g.one);
  }
}

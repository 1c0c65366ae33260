/**
 Sigma protocols over a group of prime order `q`, every point named by its discrete logarithm. One
 prover and verifier serve all proof types: they differ only in the homomorphism from witnesses to statements.
 */
module Sigma {
  import opened Wrappers
  import opened ModArith
  import opened SigmaConfig

  type Point = int

  function Mul(q: int, p: Point, s: int): (r: Point)
    requires q > 0
    ensures 0 <= r < q
  {
    (p * s) % q
  }

  function Add(q: int, a: Point, b: Point): (r: Point)
    requires q > 0
    ensures 0 <= r < q
  {
    (a + b) % q
  }

  // ----- The homomorphism

  ghost function Inner(g: seq<Point>, x: seq<int>, n: nat): int
    requires n <= |g| && n <= |x|
  {
    if n == 0 then 0 else Inner(g, x, n - 1) + g[n - 1] * x[n - 1]
  }

  /** Only the first `n` generators and witnesses matter. */
  lemma {:induction false} InnerPrefix(g: seq<Point>, x: seq<int>, h: seq<Point>, y: seq<int>, n: nat)
    requires n <= |g| && n <= |x| && n <= |h| && n <= |y| && g[..n] == h[..n] && x[..n] == y[..n]
    ensures Inner(g, x, n) == Inner(h, y, n)
  {
    if n > 0 {
      assert g[n - 1] == g[..n][n - 1] && x[n - 1] == x[..n][n - 1];
      assert g[..n - 1] == g[..n][..n - 1] && h[..n - 1] == h[..n][..n - 1];
      assert x[..n - 1] == x[..n][..n - 1] && y[..n - 1] == y[..n][..n - 1];
      InnerPrefix(g, x, h, y, n - 1);
    }
  }

  /** One generator contributes its product; the statement of two lists is the sum of their statements. */
  lemma {:induction false} InnerSplit(g: seq<Point>, x: seq<int>, h: seq<Point>, y: seq<int>, n: nat)
    requires |g| == |x| && n <= |h| && n <= |y|
    ensures Inner(g + h, x + y, |g| + n) == Inner(g, x, |g|) + Inner(h, y, n)
    ensures |g| == 1 ==> Inner(g, x, 1) == g[0] * x[0]
  {
    if n == 0 {
      assert (g + h)[..|g|] == g[..|g|] && (x + y)[..|g|] == x[..|g|];
      InnerPrefix(g + h, x + y, g, x, |g|);
    } else {
      InnerSplit(g, x, h, y, n - 1);
      assert (g + h)[|g| + n - 1] == h[n - 1] && (x + y)[|g| + n - 1] == y[n - 1];
    }
  }

  /** The witness that is 1 in place `i` and 0 elsewhere has the statement of generator `i`. */
  ghost predicate IsUnit(x: seq<int>, i: nat) {
    i < |x| && forall k :: 0 <= k < |x| ==> x[k] == if k == i then 1 else 0
  }

  lemma {:induction false} InnerOfUnit(g: seq<Point>, x: seq<int>, n: nat, i: nat)
    requires n <= |g| && n <= |x| && IsUnit(x, i)
    ensures Inner(g, x, n) == if i < n then g[i] else 0
  {
    if n > 0 {
      InnerOfUnit(g, x, n - 1, i);
    }
  }

  /** Sizes of generators and witness that `ToStatement` accepts. */
  predicate Fits(c: SigmaConfig, g: seq<Point>, x: seq<int>) {
    c.Supported() && |x| == c.numWitness && |g| >= c.numGenerator
  }

  /** Component `i` of the image of witness `x`, before reduction. */
  ghost function Linear(c: SigmaConfig, g: seq<Point>, x: seq<int>, i: nat): int
    requires Fits(c, g, x) && i < c.numStatement
  {
    SupportedSizes(c);
    match ShapeOf(c.kind)
    case NN1 => Inner(g, x, |x|)
    case NNN => g[i] * x[i]
    case OneNN => g[i] * x[0]
  }

  ghost predicate IsStatement(c: SigmaConfig, q: int, g: seq<Point>, x: seq<int>, s: seq<Point>)
    requires q > 0
  {
    && Fits(c, g, x)
    && |s| == c.numStatement
    && forall i :: 0 <= i < |s| ==> s[i] == Linear(c, g, x, i) % q
  }

  method EcStatementNN1(q: int, g: seq<Point>, x: seq<int>) returns (s: seq<Point>)
    requires q > 0 && 0 < |x| <= |g|
    ensures |s| == 1 && s[0] == Inner(g, x, |x|) % q
    ensures forall i: nat :: IsUnit(x, i) ==> s[0] == g[i] % q
  {
    forall i: nat | IsUnit(x, i) ensures Inner(g, x, |x|) == g[i] {
      InnerOfUnit(g, x, |x|, i);
    }
    var p := Mul(q, g[0], x[0]);
    assert Inner(g, x, 1) == g[0] * x[0];
    for i := 1 to |x|
      invariant p == Inner(g, x, i) % q
    {
      AddMul(q, Inner(g, x, i), g[i] * x[i]);
      p := Add(q, p, Mul(q, g[i], x[i]));
    }
    s := [p];
  }

  lemma AddMul(q: int, a: int, b: int)
    requires q > 0
    ensures (a % q + b % q) % q == (a + b) % q
  {
    ModIdem(a, q);
    ModIdem(b, q);
    CongAdd(a % q, a, b % q, b, q);
  }

  method EcStatementNNN(q: int, g: seq<Point>, x: seq<int>, n: nat) returns (s: seq<Point>)
    requires q > 0 && n <= |x| && n <= |g|
    ensures |s| == n && forall i :: 0 <= i < n ==> s[i] == (g[i] * x[i]) % q
  {
    s := [];
    for i := 0 to n
      invariant |s| == i && forall k :: 0 <= k < i ==> s[k] == (g[k] * x[k]) % q
    {
      s := s + [Mul(q, g[i], x[i])];
    }
  }

  method EcStatement1NN(q: int, g: seq<Point>, x: seq<int>, n: nat) returns (s: seq<Point>)
    requires q > 0 && 1 <= |x| && n <= |g|
    ensures |s| == n && forall i :: 0 <= i < n ==> s[i] == (g[i] * x[0]) % q
  {
    s := [];
    for i := 0 to n
      invariant |s| == i && forall k :: 0 <= k < i ==> s[k] == (g[k] * x[0]) % q
    {
      s := s + [Mul(q, g[i], x[0])];
    }
  }

  /** The statement of a witness; `None` when the configuration or a size is not right. */
  method ToStatement(c: SigmaConfig, q: int, g: seq<Point>, x: seq<int>) returns (r: Option<seq<Point>>)
    requires q > 0
    ensures r.Some? <==> Fits(c, g, x)
    ensures r.Some? ==> IsStatement(c, q, g, x, r.value) && IsStatementOf(c.kind, q, g, x, r.value)
  {
    if !(c.IsQualified() && |x| == c.numWitness && |g| >= c.numGenerator) {
      return None;
    }
    if c.kind.PedersenMult? || c.kind.PedersenMultOpenOne? {
      return None;
    }
    SupportedSizes(c);
    var s;
    match ShapeOf(c.kind) {
      case NN1 => s := EcStatementNN1(q, g, x);
      case NNN => s := EcStatementNNN(q, g, x, c.numStatement);
      case OneNN => s := EcStatement1NN(q, g, x, c.numStatement);
    }
    StatementByType(c, q, g, x, s);
    r := Some(s);
  }

  lemma InnerOfOne(g: seq<Point>, x: seq<int>)
    requires |g| >= 1 && |x| >= 1
    ensures Inner(g, x, 1) == g[0] * x[0]
  {
    assert Inner(g, x, 0) == 0;
  }

  lemma InnerOfTwo(g: seq<Point>, x: seq<int>)
    requires |g| >= 2 && |x| >= 2
    ensures Inner(g, x, 2) == g[0] * x[0] + g[1] * x[1]
  {
    InnerOfOne(g, x);
  }

  /** What the statement of each type is; `DlogEq` and `DHTripple` differ in what the generators are. */
  ghost predicate IsStatementOf(t: SigmaType, q: int, g: seq<Point>, x: seq<int>, s: seq<Point>)
    requires q > 0
  {
    match t
    case Dlog => |x| == 1 <= |g| && s == [g[0] * x[0] % q]
    case Pedersen => |x| == 2 <= |g| && s == [(g[0] * x[0] + g[1] * x[1]) % q]
    case DlogEq | DHTripple => |x| == 1 && 2 <= |g| && s == [g[0] * x[0] % q, g[1] * x[0] % q]
    case Representation => |x| <= |g| && s == [Inner(g, x, |x|) % q]
    case SeveralDlog => |s| == |x| <= |g| && forall i :: 0 <= i < |s| ==> s[i] == g[i] * x[i] % q
    case SeveralDlogEq => |x| == 1 && 2 <= |s| <= |g| && forall i :: 0 <= i < |s| ==> s[i] == g[i] * x[0] % q
    case PedersenMult | PedersenMultOpenOne => false
  }

  lemma SumStatement(c: SigmaConfig, q: int, g: seq<Point>, x: seq<int>, s: seq<Point>)
    requires q > 0 && IsStatement(c, q, g, x, s) && ShapeOf(c.kind).NN1?
    ensures IsStatementOf(c.kind, q, g, x, s)
  {
    SupportedSizes(c);
    assert s[0] == Linear(c, g, x, 0) % q;
    assert s == [Inner(g, x, |x|) % q];
    if |x| == 1 {
      InnerOfOne(g, x);
    } else if |x| == 2 {
      InnerOfTwo(g, x);
    }
  }

  lemma ListStatement(c: SigmaConfig, q: int, g: seq<Point>, x: seq<int>, s: seq<Point>)
    requires q > 0 && IsStatement(c, q, g, x, s) && !ShapeOf(c.kind).NN1?
    ensures IsStatementOf(c.kind, q, g, x, s)
  {
    SupportedSizes(c);
    forall i | 0 <= i < |s| ensures s[i] == g[i] * x[if c.kind.SeveralDlog? then i else 0] % q {
      assert s[i] == Linear(c, g, x, i) % q;
    }
    if |s| == 2 {
      assert s == [s[0], s[1]];
    }
  }

  lemma StatementByType(c: SigmaConfig, q: int, g: seq<Point>, x: seq<int>, s: seq<Point>)
    requires q > 0 && IsStatement(c, q, g, x, s)
    ensures IsStatementOf(c.kind, q, g, x, s)
  {
    if ShapeOf(c.kind).NN1? {
      SumStatement(c, q, g, x, s);
    } else {
      ListStatement(c, q, g, x, s);
    }
  }

  /** `z = a x + b y`, component by component and modulo `q`. */
  ghost predicate Combines(q: int, z: seq<int>, a: int, x: seq<int>, b: int, y: seq<int>)
    requires q > 0
  {
    |z| == |x| == |y| && forall i :: 0 <= i < |z| ==> Cong(z[i], a * x[i] + b * y[i], q)
  }

  lemma CombineProduct(q: int, g: int, z: int, a: int, x: int, b: int, y: int)
    requires q > 0 && Cong(z, a * x + b * y, q)
    ensures Cong(g * z, a * (g * x) + b * (g * y), q)
  {
    CongMul(g, g, z, a * x + b * y, q);
    assert g * (a * x + b * y) == a * (g * x) + b * (g * y);
  }

  lemma {:induction false} CombineInner(q: int, g: seq<Point>, z: seq<int>, a: int, x: seq<int>, b: int,
                                           y: seq<int>, n: nat)
    requires q > 0 && Combines(q, z, a, x, b, y) && n <= |z| && n <= |g|
    ensures Cong(Inner(g, z, n), a * Inner(g, x, n) + b * Inner(g, y, n), q)
  {
    if n > 0 {
      var k := n - 1;
      CombineInner(q, g, z, a, x, b, y, k);
      CombineProduct(q, g[k], z[k], a, x[k], b, y[k]);
      CongAdd(Inner(g, z, k), a * Inner(g, x, k) + b * Inner(g, y, k),
              g[k] * z[k], a * (g[k] * x[k]) + b * (g[k] * y[k]), q);
      Regroup(a, Inner(g, x, k), g[k] * x[k], b, Inner(g, y, k), g[k] * y[k]);
    }
  }

  lemma Regroup(a: int, s: int, t: int, b: int, u: int, v: int)
    ensures a * s + b * u + (a * t + b * v) == a * (s + t) + b * (u + v)
  {
  }

  /** The map from witnesses to statements is linear, in all three shapes. */
  lemma Homomorphism(c: SigmaConfig, q: int, g: seq<Point>, z: seq<int>, a: int, x: seq<int>, b: int, y: seq<int>,
                     i: nat)
    requires q > 0 && Fits(c, g, x) && Combines(q, z, a, x, b, y) && i < c.numStatement
    ensures Cong(Linear(c, g, z, i), a * Linear(c, g, x, i) + b * Linear(c, g, y, i), q)
  {
    SupportedSizes(c);
    match ShapeOf(c.kind) {
      case NN1 => CombineInner(q, g, z, a, x, b, y, |z|);
      case NNN => CombineProduct(q, g[i], z[i], a, x[i], b, y[i]);
      case OneNN => CombineProduct(q, g[i], z[0], a, x[0], b, y[0]);
    }
  }

  // ----- Prover and verifier

  /** The response `r = k - c x`, component by component. */
  method ProofOp(x: seq<int>, k: seq<int>, ch: int, q: int) returns (r: Option<seq<int>>)
    requires q > 0
    ensures r.Some? <==> |x| == |k|
    ensures r.Some? ==> Combines(q, r.value, 1, k, -ch, x)
    ensures r.Some? ==> forall i :: 0 <= i < |x| ==> 0 <= r.value[i] < q
  {
    if |x| != |k| {
      return None;
    }
    var result := [];
    for i := 0 to |x|
      invariant |result| == i
      invariant forall j :: 0 <= j < i ==> 0 <= result[j] < q && Cong(result[j], 1 * k[j] + -ch * x[j], q)
    {
      ResponseMod(x[i], k[i], ch, q);
      result := result + [(k[i] - ch * x[i] % q) % q];
    }
    r := Some(result);
  }

  lemma ResponseMod(x: int, k: int, ch: int, q: int)
    requires q > 0
    ensures Cong((k - ch * x % q) % q, 1 * k + -ch * x, q)
  {
    ModIdem(ch * x, q);
    CongSub(k, k, ch * x % q, ch * x, q);
    ModIdem(k - ch * x % q, q);
    assert -ch * x == -(ch * x);
  }

  /** The proof for a challenge; the sizes of witness and randomness must be the configured ones. */
  method Prove(c: SigmaConfig, x: seq<int>, k: seq<int>, ch: int, q: int) returns (r: Option<seq<int>>)
    requires q > 0 && c.Supported()
    ensures r.Some? <==> |x| == c.numWitness && |k| == c.numRndWitness
    ensures r.Some? ==> Combines(q, r.value, 1, k, -ch, x)
  {
    SupportedSizes(c);
    if |x| != c.numWitness || |k| != c.numRndWitness {
      return None;
    }
    r := ProofOp(x, k, ch, q);
  }

  /** What the verifier computes from statement `z`, the image `s` of the proof and the challenge. */
  function VerifyOp(q: int, z: Point, s: Point, ch: int): (t: Point)
    requires q > 0
    ensures 0 <= t < q
  {
    Add(q, Mul(q, z, ch), s)
  }

  method VerifyOpAll(q: int, z: seq<Point>, s: seq<Point>, ch: int) returns (t: Option<seq<Point>>)
    requires q > 0
    ensures t.Some? <==> |z| == |s|
    ensures t.Some? ==> |t.value| == |z| && forall i :: 0 <= i < |z| ==> t.value[i] == VerifyOp(q, z[i], s[i], ch)
  {
    if |s| != |z| {
      return None;
    }
    var all := [];
    for i := 0 to |z|
      invariant |all| == i && forall k :: 0 <= k < i ==> all[k] == VerifyOp(q, z[k], s[k], ch)
    {
      all := all + [Add(q, Mul(q, z[i], ch), s[i])];
    }
    t := Some(all);
  }

  /** The verifier's equation holds in every component. */
  ghost predicate Accepts(c: SigmaConfig, q: int, g: seq<Point>, z: seq<Point>, t: seq<Point>, ch: int, r: seq<int>)
    requires q > 0
  {
    && Fits(c, g, r) && |z| == |t| == c.numStatement
    && forall i :: 0 <= i < |z| ==> VerifyOp(q, z[i], Linear(c, g, r, i) % q, ch) == t[i]
  }

  /** Verification; `None` when a size is not right. */
  method Verify(c: SigmaConfig, q: int, g: seq<Point>, z: seq<Point>, t: seq<Point>, ch: int, r: seq<int>)
    returns (ok: Option<bool>)
    requires q > 0 && c.Supported()
    ensures ok.Some? <==> Fits(c, g, r) && |z| == |t| == c.numStatement
    ensures ok.Some? ==> (ok.value <==> Accepts(c, q, g, z, t, ch, r))
  {
    if |z| != c.numStatement || |t| != c.numStatement {
      return None;
    }
    var s := ToStatement(c, q, g, r);
    if s.None? {
      return None;
    }
    for i := 0 to c.numStatement
      invariant forall k :: 0 <= k < i ==> VerifyOp(q, z[k], Linear(c, g, r, k) % q, ch) == t[k]
    {
      if VerifyOp(q, z[i], s.value[i], ch) != t[i] {
        return Some(false);
      }
    }
    ok := Some(true);
  }

  lemma VerifyOpMod(q: int, z: Point, s: int, ch: int)
    requires q > 0
    ensures Cong(VerifyOp(q, z, s % q, ch), ch * z + s, q)
  {
    ModIdem(z * ch, q);
    ModIdem(s, q);
    CongAdd((z * ch) % q, z * ch, s % q, s, q);
    ModIdem((z * ch) % q + s % q, q);
    assert z * ch == ch * z;
  }

  /** An honest proof is accepted, for every type, size, witness, randomness and challenge. */
  lemma Completeness(c: SigmaConfig, q: int, g: seq<Point>, x: seq<int>, k: seq<int>, ch: int, r: seq<int>,
                     z: seq<Point>, t: seq<Point>)
    requires q > 0 && IsStatement(c, q, g, x, z) && IsStatement(c, q, g, k, t)
    requires Combines(q, r, 1, k, -ch, x)
    ensures Accepts(c, q, g, z, t, ch, r)
  {
    forall i | 0 <= i < |z| ensures VerifyOp(q, z[i], Linear(c, g, r, i) % q, ch) == t[i] {
      var lx, lk, lr := Linear(c, g, x, i), Linear(c, g, k, i), Linear(c, g, r, i);
      VerifyOpMod(q, z[i], lr, ch);
      Homomorphism(c, q, g, r, 1, k, -ch, x, i);
      ModIdem(lx, q);
      CongMul(ch, ch, z[i], lx, q);
      CongAdd(ch * z[i], ch * lx, lr, 1 * lk + -ch * lx, q);
      assert ch * lx + (1 * lk + -ch * lx) == lk;
      QuotientUnique(VerifyOp(q, z[i], lr % q, ch), 0, VerifyOp(q, z[i], lr % q, ch), q);
    }
  }

  // ----- Special soundness

  ghost function Inverse(q: int, d: int): int
    requires Prime(q) && d % q != 0
  {
    InvertMod(d % q, q)
  }

  lemma InverseMod(q: int, d: int)
    requires Prime(q) && d % q != 0
    ensures Cong(d * Inverse(q, d), 1, q)
  {
    var r := Inverse(q, d);
    ModIdem(d, q);
    CongMul(d % q, d, r, r, q);
    QuotientUnique(1, 0, 1, q);
  }

  /** `(r' - r) d`, component by component. */
  ghost function Extract(q: int, d: int, r: seq<int>, r': seq<int>): (x: seq<int>)
    requires q > 0 && |r| == |r'|
    ensures |x| == |r|
  {
    seq(|r|, i requires 0 <= i < |r| => ((r'[i] - r[i]) * d) % q)
  }

  lemma ExtractCombines(q: int, d: int, r: seq<int>, r': seq<int>)
    requires q > 0 && |r| == |r'|
    ensures Combines(q, Extract(q, d, r, r'), d, r', -d, r)
  {
    var x := Extract(q, d, r, r');
    forall i | 0 <= i < |x| ensures Cong(x[i], d * r'[i] + -d * r[i], q) {
      ModIdem((r'[i] - r[i]) * d, q);
      assert (r'[i] - r[i]) * d == d * r'[i] + -d * r[i];
    }
  }

  lemma SoundnessAt(q: int, z: int, l: int, l': int, ch: int, ch': int, d: int, lx: int)
    requires q > 0
    requires Cong(ch * z + l, ch' * z + l', q)
    requires Cong((ch - ch') * d, 1, q)
    requires Cong(lx, d * l' + -d * l, q)
    ensures Cong(lx, z, q)
  {
    CongSub(ch * z + l, ch' * z + l', ch' * z + l, ch' * z + l, q);
    assert ch * z + l - (ch' * z + l) == (ch - ch') * z;
    assert ch' * z + l' - (ch' * z + l) == l' - l;
    CongMul((ch - ch') * z, l' - l, d, d, q);
    assert (ch - ch') * z * d == (ch - ch') * d * z;
    CongMul((ch - ch') * d, 1, z, z, q);
    assert (l' - l) * d == d * l' + -d * l;
  }

  /** Two accepted transcripts with the same first message and different challenges yield a witness. */
  lemma SpecialSoundness(c: SigmaConfig, q: int, g: seq<Point>, z: seq<Point>, t: seq<Point>,
                         ch: int, r: seq<int>, ch': int, r': seq<int>)
    requires Prime(q) && (ch - ch') % q != 0
    requires Accepts(c, q, g, z, t, ch, r) && Accepts(c, q, g, z, t, ch', r')
    requires forall i :: 0 <= i < |z| ==> 0 <= z[i] < q
    ensures IsStatement(c, q, g, Extract(q, Inverse(q, ch - ch'), r, r'), z)
  {
    var d := Inverse(q, ch - ch');
    var x := Extract(q, d, r, r');
    InverseMod(q, ch - ch');
    ExtractCombines(q, d, r, r');
    forall i | 0 <= i < |z| ensures z[i] == Linear(c, g, x, i) % q {
      var l, l' := Linear(c, g, r, i), Linear(c, g, r', i);
      VerifyOpMod(q, z[i], l, ch);
      VerifyOpMod(q, z[i], l', ch');
      Homomorphism(c, q, g, x, d, r', -d, r, i);
      SoundnessAt(q, z[i], l, l', ch, ch', d, Linear(c, g, x, i));
      QuotientUnique(z[i], 0, z[i], q);
    }
  }

  // ----- Non-interactive proofs

  /** The challenge as a hash of generators, statement, first message and other data, below the order. */
  type Oracle = (seq<Point>, seq<Point>, seq<Point>, string) -> int

  datatype BatchProof = BatchProof(proof: seq<int>, rndStatement: seq<Point>)

  datatype ShortProof = ShortProof(proof: seq<int>, challenge: int)

  method ProveBatchable(c: SigmaConfig, q: int, g: seq<Point>, h: Oracle, z: seq<Point>, x: seq<int>, k: seq<int>,
                        info: string) returns (p: Option<BatchProof>)
    requires q > 0 && c.Supported()
    ensures p.Some? <==> Fits(c, g, x) && Fits(c, g, k)
    ensures p.Some? ==> IsStatement(c, q, g, k, p.value.rndStatement)
    ensures p.Some? ==> Combines(q, p.value.proof, 1, k, -h(g, z, p.value.rndStatement, info), x)
  {
    SupportedSizes(c);
    var t := ToStatement(c, q, g, k);
    if t.None? {
      return None;
    }
    var ch := h(g, z, t.value, info);
    var r := Prove(c, x, k, ch, q);
    if r.None? {
      return None;
    }
    p := Some(BatchProof(r.value, t.value));
  }

  ghost predicate AcceptsBatchable(c: SigmaConfig, q: int, g: seq<Point>, h: Oracle, z: seq<Point>, p: BatchProof,
                                   info: string)
    requires q > 0
  {
    Accepts(c, q, g, z, p.rndStatement, h(g, z, p.rndStatement, info), p.proof)
  }

  method VerifyBatchable(c: SigmaConfig, q: int, g: seq<Point>, h: Oracle, z: seq<Point>, p: BatchProof, info: string)
    returns (ok: Option<bool>)
    requires q > 0 && c.Supported()
    ensures ok.Some? <==> Fits(c, g, p.proof) && |z| == |p.rndStatement| == c.numStatement
    ensures ok.Some? ==> (ok.value <==> AcceptsBatchable(c, q, g, h, z, p, info))
  {
    var ch := h(g, z, p.rndStatement, info);
    ok := Verify(c, q, g, z, p.rndStatement, ch, p.proof);
  }

  method ProveCompact(c: SigmaConfig, q: int, g: seq<Point>, h: Oracle, z: seq<Point>, x: seq<int>, k: seq<int>,
                      info: string) returns (p: Option<ShortProof>, ghost t: seq<Point>)
    requires q > 0 && c.Supported()
    ensures p.Some? <==> Fits(c, g, x) && Fits(c, g, k)
    ensures p.Some? ==> IsStatement(c, q, g, k, t) && p.value.challenge == h(g, z, t, info)
    ensures p.Some? ==> Combines(q, p.value.proof, 1, k, -p.value.challenge, x)
  {
    SupportedSizes(c);
    t := [];
    var s := ToStatement(c, q, g, k);
    if s.None? {
      return None, [];
    }
    t := s.value;
    var ch := h(g, z, s.value, info);
    var r := Prove(c, x, k, ch, q);
    if r.None? {
      return None, [];
    }
    p := Some(ShortProof(r.value, ch));
  }

  /** The first message a compact proof stands for. */
  ghost function Implied(c: SigmaConfig, q: int, g: seq<Point>, z: seq<Point>, r: seq<int>, ch: int): (t: seq<Point>)
    requires q > 0 && Fits(c, g, r) && |z| == c.numStatement
    ensures |t| == |z|
  {
    seq(|z|, i requires 0 <= i < |z| => VerifyOp(q, z[i], Linear(c, g, r, i) % q, ch))
  }

  ghost predicate AcceptsCompact(c: SigmaConfig, q: int, g: seq<Point>, h: Oracle, z: seq<Point>, p: ShortProof,
                                 info: string)
    requires q > 0
  {
    && Fits(c, g, p.proof) && |z| == c.numStatement
    && h(g, z, Implied(c, q, g, z, p.proof, p.challenge), info) == p.challenge
  }

  method VerifyCompact(c: SigmaConfig, q: int, g: seq<Point>, h: Oracle, z: seq<Point>, p: ShortProof, info: string)
    returns (ok: Option<bool>)
    requires q > 0 && c.Supported()
    ensures ok.Some? <==> Fits(c, g, p.proof) && |z| == c.numStatement
    ensures ok.Some? ==> (ok.value <==> AcceptsCompact(c, q, g, h, z, p, info))
  {
    if |z| != c.numStatement {
      return None;
    }
    var s := ToStatement(c, q, g, p.proof);
    if s.None? {
      return None;
    }
    var t := VerifyOpAll(q, z, s.value, p.challenge);
    assert t.value == Implied(c, q, g, z, p.proof, p.challenge);
    ok := Some(h(g, z, t.value, info) == p.challenge);
  }

  lemma AcceptsIsImplied(c: SigmaConfig, q: int, g: seq<Point>, z: seq<Point>, t: seq<Point>, ch: int, r: seq<int>)
    requires q > 0 && Fits(c, g, r) && |z| == |t| == c.numStatement
    ensures Accepts(c, q, g, z, t, ch, r) <==> t == Implied(c, q, g, z, r, ch)
  {
    var s := Implied(c, q, g, z, r, ch);
    if Accepts(c, q, g, z, t, ch, r) {
      assert forall i :: 0 <= i < |t| ==> t[i] == s[i];
    } else {
      var i :| 0 <= i < |z| && VerifyOp(q, z[i], Linear(c, g, r, i) % q, ch) != t[i];
      assert s[i] != t[i];
    }
  }

  /** Honest non-interactive proofs are accepted in both forms. */
  lemma HonestAccepted(c: SigmaConfig, q: int, g: seq<Point>, h: Oracle, z: seq<Point>, x: seq<int>, k: seq<int>,
                       info: string, t: seq<Point>, r: seq<int>)
    requires q > 0 && IsStatement(c, q, g, x, z) && IsStatement(c, q, g, k, t)
    requires Combines(q, r, 1, k, -h(g, z, t, info), x)
    ensures AcceptsBatchable(c, q, g, h, z, BatchProof(r, t), info)
    ensures AcceptsCompact(c, q, g, h, z, ShortProof(r, h(g, z, t, info)), info)
  {
    var ch := h(g, z, t, info);
    Completeness(c, q, g, x, k, ch, r, z, t);
    AcceptsIsImplied(c, q, g, z, t, ch, r);
  }

  // ----- Batchable against compact

  /** A batchable proof and the compact form with the same challenge get the same verdict. */
  ghost predicate SameVerdict(c: SigmaConfig, q: int, g: seq<Point>, h: Oracle, z: seq<Point>, p: BatchProof,
                              info: string)
    requires q > 0
  {
    AcceptsBatchable(c, q, g, h, z, p, info) <==>
    AcceptsCompact(c, q, g, h, z, ShortProof(p.proof, h(g, z, p.rndStatement, info)), info)
  }

  ghost predicate RightSizes(c: SigmaConfig, g: seq<Point>, z: seq<Point>, p: BatchProof) {
    Fits(c, g, p.proof) && |z| == |p.rndStatement| == c.numStatement
  }

  /** `t` consists of reduced points, and `t - ch Z` is the statement of the witness `r`. */
  ghost predicate AnsweredBy(c: SigmaConfig, q: int, g: seq<Point>, z: seq<Point>, t: seq<Point>, ch: int, r: seq<int>)
    requires q > 0
  {
    && Fits(c, g, r) && |t| == |z| == c.numStatement
    && forall i :: 0 <= i < |t| ==> 0 <= t[i] < q && Cong(t[i] - ch * z[i], Linear(c, g, r, i), q)
  }

  /** The first message a response implies is the one it answers. */
  lemma ImpliedIsAnswered(c: SigmaConfig, q: int, g: seq<Point>, z: seq<Point>, t: seq<Point>, ch: int, r: seq<int>)
    requires q > 0 && Fits(c, g, r) && |t| == |z| == c.numStatement
    ensures AnsweredBy(c, q, g, z, t, ch, r) <==> t == Implied(c, q, g, z, r, ch)
  {
    var s := Implied(c, q, g, z, r, ch);
    forall i | 0 <= i < |t| ensures t[i] == s[i] <==> 0 <= t[i] < q && Cong(t[i] - ch * z[i], Linear(c, g, r, i), q) {
      AnsweredAt(q, z[i], Linear(c, g, r, i), ch, t[i]);
    }
  }

  lemma AnsweredAt(q: int, z: int, l: int, ch: int, t: int)
    requires q > 0
    ensures t == VerifyOp(q, z, l % q, ch) <==> 0 <= t < q && Cong(t - ch * z, l, q)
  {
    var v := VerifyOp(q, z, l % q, ch);
    VerifyOpMod(q, z, l, ch);
    CongSub(v, ch * z + l, ch * z, ch * z, q);
    if 0 <= t < q && Cong(t - ch * z, l, q) {
      CongAdd(t - ch * z, l, ch * z, ch * z, q);
      QuotientUnique(t, 0, t, q);
      QuotientUnique(v, 0, v, q);
    }
  }

  /** Two different first messages get the same challenge, and there is a response to it that answers the second. */
  ghost predicate Collision(c: SigmaConfig, q: int, g: seq<Point>, h: Oracle, z: seq<Point>, info: string,
                            t: seq<Point>, t': seq<Point>)
    requires q > 0
  {
    && |t| == |t'| == c.numStatement && t != t' && h(g, z, t, info) == h(g, z, t', info)
    && exists r :: AnsweredBy(c, q, g, z, t', h(g, z, t, info), r)
  }

  /** The verdicts on one proof differ exactly when its first message collides with the one its response implies. */
  lemma VerdictAt(c: SigmaConfig, q: int, g: seq<Point>, h: Oracle, z: seq<Point>, p: BatchProof, info: string)
    requires q > 0 && RightSizes(c, g, z, p)
    ensures var ch := h(g, z, p.rndStatement, info);
            var t := Implied(c, q, g, z, p.proof, ch);
            && (AcceptsBatchable(c, q, g, h, z, p, info) ==> SameVerdict(c, q, g, h, z, p, info))
            && (SameVerdict(c, q, g, h, z, p, info) <==> t == p.rndStatement || h(g, z, t, info) != ch)
  {
    AcceptsIsImplied(c, q, g, z, p.rndStatement, h(g, z, p.rndStatement, info), p.proof);
  }

  /**
   Batchable and compact proofs get the same verdict, for all proofs of the right sizes, if and only if the oracle
   has no collision whose second message some response answers.
   */
  lemma BatchableVersusCompact(c: SigmaConfig, q: int, g: seq<Point>, h: Oracle, z: seq<Point>, info: string)
    requires q > 0 && c.Supported() && |z| == c.numStatement
    ensures (forall p :: RightSizes(c, g, z, p) ==> SameVerdict(c, q, g, h, z, p, info)) <==>
            !exists t, t' :: Collision(c, q, g, h, z, info, t, t')
  {
    if t, t' :| Collision(c, q, g, h, z, info, t, t') {
      var r :| AnsweredBy(c, q, g, z, t', h(g, z, t, info), r);
      ImpliedIsAnswered(c, q, g, z, t', h(g, z, t, info), r);
      VerdictAt(c, q, g, h, z, BatchProof(r, t), info);
    } else {
      forall p | RightSizes(c, g, z, p) ensures SameVerdict(c, q, g, h, z, p, info) {
        var ch := h(g, z, p.rndStatement, info);
        var t' := Implied(c, q, g, z, p.proof, ch);
        VerdictAt(c, q, g, h, z, p, info);
        ImpliedIsAnswered(c, q, g, z, t', ch, p.proof);
        assert !Collision(c, q, g, h, z, info, p.rndStatement, t');
      }
    }
  }

  /** The generators let every point be reached: all of them for one product each, one of them for a sum. */
  ghost predicate Reaching(c: SigmaConfig, q: int, g: seq<Point>)
    requires q > 0
  {
    && c.Supported() && |g| >= c.numGenerator > 0
    && match ShapeOf(c.kind)
       case NN1 => g[0] % q != 0
       case NNN => forall i :: 0 <= i < c.numGenerator ==> g[i] % q != 0
       case OneNN => false
  }

  lemma SolveAt(q: int, g: int, d: int)
    requires Prime(q) && g % q != 0
    ensures Cong(d, g * (d * Inverse(q, g)), q)
  {
    InverseMod(q, g);
    CongScale(d, g * Inverse(q, g), 1, q);
    assert d * (g * Inverse(q, g)) == g * (d * Inverse(q, g));
  }

  /** Only the first entry counts when the others are zero. */
  lemma {:induction false} InnerOfFirst(g: seq<Point>, x: seq<int>, n: nat)
    requires 1 <= n <= |g| && n <= |x| && forall i :: 1 <= i < n ==> x[i] == 0
    ensures Inner(g, x, n) == g[0] * x[0]
  {
    if n > 1 {
      InnerOfFirst(g, x, n - 1);
    }
  }

  /** Every list of reduced points is answered by some response, whatever the challenge. */
  lemma AnswerExists(c: SigmaConfig, q: int, g: seq<Point>, z: seq<Point>, t: seq<Point>, ch: int) returns (r: seq<int>)
    requires Prime(q) && Reaching(c, q, g) && |t| == |z| == c.numStatement
    requires forall i :: 0 <= i < |t| ==> 0 <= t[i] < q
    ensures AnsweredBy(c, q, g, z, t, ch, r)
  {
    SupportedSizes(c);
    if ShapeOf(c.kind).NN1? {
      var d := t[0] - ch * z[0];
      r := [d * Inverse(q, g[0])] + seq(c.numWitness - 1, _ => 0);
      SolveAt(q, g[0], d);
      InnerOfFirst(g, r, |r|);
    } else {
      r := seq(c.numWitness, i requires 0 <= i < c.numWitness => (t[i] - ch * z[i]) * Inverse(q, g[i]));
      forall i | 0 <= i < |t| ensures Cong(t[i] - ch * z[i], g[i] * r[i], q) {
        SolveAt(q, g[i], t[i] - ch * z[i]);
      }
    }
  }

  /**
   With such generators and a prime order the condition is one on the oracle alone: the verdicts agree on all proofs
   if and only if no first message shares its challenge with another one made of reduced points.
   */
  lemma VerdictsAgreeIff(c: SigmaConfig, q: int, g: seq<Point>, h: Oracle, z: seq<Point>, info: string)
    requires Prime(q) && Reaching(c, q, g) && |z| == c.numStatement
    ensures (forall p :: RightSizes(c, g, z, p) ==> SameVerdict(c, q, g, h, z, p, info)) <==>
            (forall t, t' :: Shares(c, q, g, h, z, info, t, t') ==> t == t')
  {
    BatchableVersusCompact(c, q, g, h, z, info);
    forall t, t' ensures Collision(c, q, g, h, z, info, t, t') <==> Shares(c, q, g, h, z, info, t, t') && t != t' {
      if Shares(c, q, g, h, z, info, t, t') {
        var r := AnswerExists(c, q, g, z, t', h(g, z, t, info));
      }
    }
  }

  /** The first message `t` shares its challenge with `t'`, which is made of reduced points. */
  ghost predicate Shares(c: SigmaConfig, q: int, g: seq<Point>, h: Oracle, z: seq<Point>, info: string,
                         t: seq<Point>, t': seq<Point>)
  {
    && |t| == |t'| == c.numStatement && h(g, z, t, info) == h(g, z, t', info)
    && forall i :: 0 <= i < |t'| ==> 0 <= t'[i] < q
  }

  /** An oracle that always gives the challenge 1. */
  const CONSTANT: Oracle := (g: seq<Point>, z: seq<Point>, t: seq<Point>, info: string) => 1

  /**
   One where they differ: the order is 5, the generator 1, the statement 2. The response 0 implies the first message
   2, so its compact form is accepted; with the first message 3 the batchable form is not.
   */
  lemma CollidingOracle()
    ensures var c := GetSigmaConfig(Dlog);
            && RightSizes(c, [1], [2], BatchProof([0], [3]))
            && AcceptsCompact(c, 5, [1], CONSTANT, [2], ShortProof([0], 1), "")
            && !AcceptsBatchable(c, 5, [1], CONSTANT, [2], BatchProof([0], [3]), "")
  {
    var c := GetSigmaConfig(Dlog);
    VerdictAt(c, 5, [1], CONSTANT, [2], BatchProof([0], [3]), "");
    assert Inner([1], [0], 1) == 0;
    assert Implied(c, 5, [1], [2], [0], 1) == [2];
  }

  /** Completing a compact proof with the first message it implies gives a batchable proof of the same verdict. */
  lemma CompactToBatchable(c: SigmaConfig, q: int, g: seq<Point>, h: Oracle, z: seq<Point>, p: ShortProof, info: string)
    requires q > 0 && Fits(c, g, p.proof) && |z| == c.numStatement
    requires AcceptsCompact(c, q, g, h, z, p, info)
    ensures AcceptsBatchable(c, q, g, h, z, BatchProof(p.proof, Implied(c, q, g, z, p.proof, p.challenge)), info)
  {
    AcceptsIsImplied(c, q, g, z, Implied(c, q, g, z, p.proof, p.challenge), p.challenge, p.proof);
  }
}

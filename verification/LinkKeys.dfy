/** Message keys and context ids of the link layer, as strings. */
module LinkKeys {

  predicate IsDigit(c: char) {
    '0' <= c <= '9'
  }

  predicate AllDigits(s: string) {
    forall i :: 0 <= i < |s| ==> IsDigit(s[i])
  }

  function Digit(d: nat): (c: char)
    requires d < 10
    ensures IsDigit(c)
  {
    '0' + d as char
  }

  /** A number in decimal notation. */
  function Decimal(n: nat): (s: string)
    ensures s != [] && AllDigits(s)
  {
    if n < 10 then [Digit(n)] else Decimal(n / 10) + [Digit(n % 10)]
  }

  function DigitValue(c: char): nat
    requires IsDigit(c)
  {
    (c - '0') as nat
  }

  function Number(s: string): nat
    requires AllDigits(s)
  {
    if s == [] then 0 else 10 * Number(s[..|s| - 1]) + DigitValue(s[|s| - 1])
  }

  lemma {:induction false} NumberDecimal(n: nat)
    ensures Number(Decimal(n)) == n
  {
    if n < 10 {
      assert [Digit(n)][..0] == [];
    } else {
      NumberDecimal(n / 10);
      var s := Decimal(n);
      assert s[..|s| - 1] == Decimal(n / 10);
    }
  }

  lemma DecimalInjective(m: nat, n: nat)
    requires Decimal(m) == Decimal(n)
    ensures m == n
  {
    NumberDecimal(m);
    NumberDecimal(n);
  }

  /** The digits at the end of a string, and the sign before them, can be read off. */
  lemma SplitDigits(a: string, c: char, x: string, b: string, d: char, y: string)
    requires !IsDigit(c) && !IsDigit(d) && AllDigits(x) && AllDigits(y)
    requires a + [c] + x == b + [d] + y
    ensures a == b && c == d && x == y
  {
    var s := a + [c] + x;
    SignAt(a, c, x, s);
    SignAt(b, d, y, s);
    LastSign(s, |a|, |b|);
    assert a == s[..|a|] == b;
    assert x == s[|a| + 1..] == y;
    assert c == s[|a|] == d;
  }

  lemma SignAt(a: string, c: char, x: string, s: string)
    requires s == a + [c] + x && AllDigits(x)
    ensures s[|a|] == c && forall k :: |a| < k < |s| ==> IsDigit(s[k])
  {
    forall k | |a| < k < |s| ensures IsDigit(s[k]) {
      assert s[k] == x[k - |a| - 1];
    }
  }

  lemma LastSign(s: string, i: nat, j: nat)
    requires i < |s| && j < |s| && !IsDigit(s[i]) && !IsDigit(s[j])
    requires forall k :: i < k < |s| ==> IsDigit(s[k])
    requires forall k :: j < k < |s| ==> IsDigit(s[k])
    ensures i == j
  {
  }

  /** The key of the `n`-th message from `src` to `dst` in the context `id`. */
  function P2PKey(id: string, n: nat, src: nat, dst: nat): string {
    id + ":P2P-" + Decimal(n) + ":" + Decimal(src) + "->" + Decimal(dst)
  }

  /** A key determines the context, the number and the direction, whatever the context id contains. */
  lemma KeyInjective(id: string, n: nat, src: nat, dst: nat, id': string, n': nat, src': nat, dst': nat)
    requires P2PKey(id, n, src, dst) == P2PKey(id', n', src', dst')
    ensures id == id' && n == n' && src == src' && dst == dst'
  {
    var y, y' := id + ":P2P-" + Decimal(n), id' + ":P2P-" + Decimal(n');
    var x, x' := y + ":" + Decimal(src), y' + ":" + Decimal(src');
    SplitArrow(x, dst, x', dst');
    SplitDigits(y, ':', Decimal(src), y', ':', Decimal(src'));
    SplitNumber(id, n, id', n');
    DecimalInjective(src, src');
  }

  lemma SplitArrow(x: string, dst: nat, x': string, dst': nat)
    requires x + "->" + Decimal(dst) == x' + "->" + Decimal(dst')
    ensures x == x' && dst == dst'
  {
    assert x + "->" + Decimal(dst) == (x + "-") + ['>'] + Decimal(dst);
    assert x' + "->" + Decimal(dst') == (x' + "-") + ['>'] + Decimal(dst');
    SplitDigits(x + "-", '>', Decimal(dst), x' + "-", '>', Decimal(dst'));
    CancelSuffix(x, x', "-");
    DecimalInjective(dst, dst');
  }

  lemma SplitNumber(id: string, n: nat, id': string, n': nat)
    requires id + ":P2P-" + Decimal(n) == id' + ":P2P-" + Decimal(n')
    ensures id == id' && n == n'
  {
    assert id + ":P2P-" + Decimal(n) == (id + ":P2P") + ['-'] + Decimal(n);
    assert id' + ":P2P-" + Decimal(n') == (id' + ":P2P") + ['-'] + Decimal(n');
    SplitDigits(id + ":P2P", '-', Decimal(n), id' + ":P2P", '-', Decimal(n'));
    CancelSuffix(id, id', ":P2P");
    DecimalInjective(n, n');
  }

  lemma CancelSuffix(a: string, b: string, s: string)
    requires a + s == b + s
    ensures a == b
  {
    assert |a| == |b|;
    assert a == (a + s)[..|a|] && b == (b + s)[..|b|];
  }

  // ----- Context ids

  /** The id of the `k`-th automatically numbered child of a context. */
  function SpawnId(id: string, k: nat): string {
    id + "-" + Decimal(k)
  }

  /** The id reached from `root` by the child numbers in `path`. */
  function PathId(root: string, path: seq<nat>): string {
    if path == [] then root else SpawnId(PathId(root, path[..|path| - 1]), path[|path| - 1])
  }

  lemma {:induction false} PathLonger(root: string, path: seq<nat>)
    ensures |PathId(root, path)| >= |root| + 2 * |path|
  {
    if path != [] {
      PathLonger(root, path[..|path| - 1]);
    }
  }

  /** Automatically numbered contexts under one root never share an id. */
  lemma {:induction false} PathInjective(root: string, p: seq<nat>, q: seq<nat>)
    requires PathId(root, p) == PathId(root, q)
    ensures p == q
    decreases |p|
  {
    PathLonger(root, p);
    PathLonger(root, q);
    if p != [] && q != [] {
      var p', k := p[..|p| - 1], p[|p| - 1];
      var q', l := q[..|q| - 1], q[|q| - 1];
      SplitDigits(PathId(root, p'), '-', Decimal(k), PathId(root, q'), '-', Decimal(l));
      PathInjective(root, p', q');
      DecimalInjective(k, l);
      assert p == p' + [k] && q == q' + [l];
    }
  }

  /** So they never share a key on the channels they share. */
  lemma PathKeysInjective(root: string, p: seq<nat>, n: nat, src: nat, dst: nat,
                          q: seq<nat>, n': nat, src': nat, dst': nat)
    requires P2PKey(PathId(root, p), n, src, dst) == P2PKey(PathId(root, q), n', src', dst')
    ensures p == q && n == n' && src == src' && dst == dst'
  {
    KeyInjective(PathId(root, p), n, src, dst, PathId(root, q), n', src', dst');
    PathInjective(root, p, q);
  }
}

/**
 The batch modular inversion inside decryption: all differences are multiplied together in a
 product tree laid out in one array, the root alone is inverted, and the inverses of
 the leaves are recovered on the way down.
 */
module BatchInverse {
  import opened ModArith
  import opened MachineWords

  /** Node `imax + t` is the product of the nodes `2 t` and `2 t + 1`. */
  ghost predicate IsProduct(tree: seq<int>, imax: nat, p: int, t: nat)
    requires |tree| == 2 * imax && t < imax - 1 && p > 0
  {
    Cong(tree[imax + t], tree[2 * t] * tree[2 * t + 1], p)
  }

  ghost predicate Products(tree: seq<int>, imax: nat, p: int, n: nat)
    requires |tree| == 2 * imax && n < imax && p > 0
  {
    forall t :: 0 <= t < n ==> IsProduct(tree, imax, p, t)
  }

  ghost predicate Units(tree: seq<int>, p: int, n: nat)
    requires n <= |tree| && p > 0
  {
    forall x :: 0 <= x < n ==> tree[x] % p != 0
  }

  ghost predicate IsProductTree(tree: seq<int>, imax: nat, p: int) {
    && |tree| == 2 * imax && imax > 0 && p > 0
    && Products(tree, imax, p, imax - 1)
    && Units(tree, p, 2 * imax - 1)
  }

  method MulMod(a: int, b: int, p: int) returns (r: int)
    requires Prime(p)
    ensures Cong(r, a * b, p) && 0 <= r < p
    ensures a % p != 0 && b % p != 0 ==> r % p != 0
  {
    r := (a * b) % p;
    ModIdem(a * b, p);
    if a % p != 0 && b % p != 0 {
      NoZeroDivisors(a, b, p);
    }
  }

  lemma TreeExtends(tree: seq<int>, imax: nat, p: int, t: nat, v: int)
    requires |tree| == 2 * imax && t < imax - 1 && p > 0
    requires Products(tree, imax, p, t) && Units(tree, p, imax + t)
    requires Cong(v, tree[2 * t] * tree[2 * t + 1], p) && v % p != 0
    ensures Products(tree[imax + t := v], imax, p, t + 1) && Units(tree[imax + t := v], p, imax + t + 1)
  {
    var after := tree[imax + t := v];
    forall s | 0 <= s < t + 1 ensures IsProduct(after, imax, p, s) {
      if s < t {
        assert IsProduct(tree, imax, p, s);
      }
    }
  }

  method BuildTree(z: seq<int>, p: int) returns (tree: array<int>)
    requires z != [] && Prime(p)
    requires forall j :: 0 <= j < |z| ==> z[j] % p != 0
    ensures fresh(tree) && IsProductTree(tree[..], |z|, p)
    ensures tree[..|z|] == z
  {
    var imax := |z|;
    tree := new int[2 * imax](_ => 0);
    for i := 0 to imax
      invariant tree[..i] == z[..i]
    {
      tree[i] := z[i];
    }
    assert tree[..imax] == z;
    var offset := imax;
    var i := 0;
    while i < 2 * imax - 3
      invariant i == 2 * (offset - imax) && imax <= offset <= 2 * imax - 1
      invariant tree[..imax] == z
      invariant Products(tree[..], imax, p, offset - imax) && Units(tree[..], p, offset)
    {
      ghost var before := tree[..];
      var product := MulMod(tree[i], tree[i + 1], p);
      TreeExtends(before, imax, p, offset - imax, product);
      tree[offset] := product;
      assert tree[..] == before[offset := product];
      offset := offset + 1;
      i := i + 2;
    }
  }

  lemma XorOne(x: nat)
    ensures Xor(x, 1) == if x % 2 == 0 then x + 1 else x - 1
  {
    assert Xor(x / 2, 0) == x / 2 by { XorZero(x / 2); }
  }

  /** The inverse of a child is the inverse of the parent times the sibling. */
  lemma ChildInverse(parent: int, left: int, right: int, inv: int, p: int)
    requires p > 1
    requires Cong(parent, left * right, p)
    requires (inv * parent) % p == 1
    ensures ((right * inv) % p * left) % p == 1
  {
    ModIdem(right * inv, p);
    CongMul((right * inv) % p, right * inv, left, left, p);
    CongMul(inv, inv, parent, left * right, p);
    Rotate(right, inv, left);
  }

  lemma Rotate(r: int, i: int, l: int)
    ensures r * i * l == i * (l * r)
  {
    MulCommutes(r, i);
    MulCommutes(r, l);
    MulAssociates(i, r, l);
  }

  ghost predicate Inverted(inv: int, x: int, p: int)
    requires p > 0
  {
    (inv * x) % p == 1
  }

  /** One floor down: node `x` below parent `imax + x / 2`. */
  lemma FloorStep(tree: seq<int>, imax: nat, p: int, x: nat, sibling: nat, inv: int)
    requires |tree| == 2 * imax && x < 2 * imax - 2 && p > 1
    requires sibling == if x % 2 == 0 then x + 1 else x - 1
    requires IsProduct(tree, imax, p, x / 2)
    requires Inverted(inv, tree[imax + x / 2], p)
    ensures Inverted((tree[sibling] * inv) % p, tree[x], p)
  {
    var parent, l, r := tree[imax + x / 2], tree[2 * (x / 2)], tree[2 * (x / 2) + 1];
    if x % 2 == 0 {
      ChildInverse(parent, l, r, inv, p);
    } else {
      RightChildInverse(parent, l, r, inv, p);
    }
  }

  lemma RightChildInverse(parent: int, left: int, right: int, inv: int, p: int)
    requires p > 1
    requires Cong(parent, left * right, p)
    requires (inv * parent) % p == 1
    ensures ((left * inv) % p * right) % p == 1
  {
    MulCommutes(left, right);
    ChildInverse(parent, right, left, inv, p);
  }

  /** The inverses of all nodes from `lo` up to the root are in place. */
  ghost predicate InvertedFrom(inv: seq<int>, tree: seq<int>, imax: nat, p: int, lo: nat)
    requires |inv| == |tree| == 2 * imax && p > 0
  {
    forall x :: lo <= x < 2 * imax - 1 ==> Inverted(inv[x], tree[x], p)
  }

  /** Fills the floor of `2 num` nodes that ends where the floor of `num` nodes at `flag` begins. */
  method FillFloor(tree: array<int>, inv: array<int>, imax: nat, p: int, flag: nat, num: nat)
    requires tree != inv && tree.Length == inv.Length == 2 * imax && p > 1
    requires 0 < 2 * num <= imax && flag == 2 * imax - 2 * num
    requires Products(tree[..], imax, p, imax - 1)
    requires InvertedFrom(inv[..], tree[..], imax, p, flag)
    modifies inv
    ensures InvertedFrom(inv[..], tree[..], imax, p, flag - 2 * num)
  {
    var thisFlag := flag - 2 * num;
    ghost var z := tree[..];
    for f := 0 to 2 * num
      invariant z == tree[..]
      invariant InvertedFrom(inv[..], z, imax, p, flag)
      invariant forall x :: thisFlag <= x < thisFlag + f ==> Inverted(inv[x], z[x], p)
    {
      var thisIndex := f + thisFlag;
      assert flag + f / 2 == imax + thisIndex / 2;
      assert IsProduct(z, imax, p, thisIndex / 2);
      assert Inverted(inv[..][flag + f / 2], z[flag + f / 2], p);
      XorOne(thisIndex);
      var treeIndex := Xor(thisIndex, 1);
      FloorStep(z, imax, p, thisIndex, treeIndex, inv[flag + f / 2]);
      inv[thisIndex] := (tree[treeIndex] * inv[flag + f / 2]) % p;
    }
  }

  /** Inverts the root and walks down floor by floor; the last floor begins at index zero. */
  method Descend(tree: array<int>, ilen: nat, p: int) returns (inv: array<int>)
    requires Prime(p)
    requires tree.Length == 2 * Pow2(ilen)
    requires IsProductTree(tree[..], Pow2(ilen), p)
    ensures fresh(inv) && inv.Length == tree.Length
    ensures InvertedFrom(inv[..], tree[..], Pow2(ilen), p, 0)
  {
    var imax := Pow2(ilen);
    inv := new int[2 * imax](_ => 0);
    var root := 2 * imax - 2;
    var rootInv := InvertRoot(tree[root], p);
    inv[root] := rootInv;
    var flag: int, num := root, 1;
    for i := 0 to ilen
      invariant unchanged(tree)
      invariant num == Pow2(i) <= imax && flag == 2 * imax - 2 * num
      invariant InvertedFrom(inv[..], tree[..], imax, p, flag)
    {
      Pow2Step(i, ilen);
      FillFloor(tree, inv, imax, p, flag, num);
      flag, num := flag - 2 * num, 2 * num;
    }
    assert flag == 0;
  }

  method InvertRoot(a: int, p: int) returns (r: int)
    requires Prime(p) && a % p != 0
    ensures Inverted(r, a, p)
  {
    r := InvertMod(a % p, p);
    ModIdem(a, p);
    CongMul(a % p, a, r, r, p);
    MulCommutes(r, a);
  }

  lemma Pow2Step(i: nat, n: nat)
    requires i < n
    ensures Pow2(i + 1) == 2 * Pow2(i) <= Pow2(n)
  {
    Pow2Mono(i + 1, n);
  }

  /** Every entry is inverted modulo the prime. */
  method BatchInvert(z: seq<int>, ilen: nat, p: int) returns (inv: seq<int>)
    requires Prime(p)
    requires |z| == Pow2(ilen)
    requires forall j :: 0 <= j < |z| ==> z[j] % p != 0
    ensures |inv| == |z|
    ensures forall j :: 0 <= j < |z| ==> (inv[j] * z[j]) % p == 1
  {
    var tree := BuildTree(z, p);
    var all := Descend(tree, ilen, p);
    inv := all[..|z|];
    forall j | 0 <= j < |z| ensures (inv[j] * z[j]) % p == 1 {
      assert tree[j] == tree[..|z|][j] == z[j];
      assert Inverted(all[..][j], tree[..][j], p);
    }
  }
}

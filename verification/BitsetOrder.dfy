/** The order of bitsets: by numeric value first, then by length. */
module BitsetOrder {
  import opened Wrappers
  import opened ModArith
  import opened Bits
  import opened BitsetOps
  import M = MachineWords

  // ----- The value of a row of words

  ghost function Number(blocks: seq<Block>, w: nat): nat {
    if blocks == [] then 0 else Value(blocks[0]) + M.Pow2(w) * Number(blocks[1..], w)
  }

  lemma DoubleMul(x: int, v: int)
    ensures 2 * x * v == 2 * (x * v)
  {
  }

  /** A larger leading part outweighs any lower digit. */
  lemma DigitStep(x: nat, y: nat, p: nat, s: nat, t: nat)
    requires x < p && s < t
    ensures x + p * s < y + p * t
  {
    MulMono(s + 1, t, p);
  }

  lemma {:induction false} ValueBound(b: Block)
    ensures Value(b) < M.Pow2(|b|)
  {
    if b != [] {
      ValueBound(b[1..]);
    }
  }

  lemma {:induction false} ValueConcat(a: Block, b: Block)
    ensures Value(a + b) == Value(a) + M.Pow2(|a|) * Value(b)
  {
    if a == [] {
      assert a + b == b;
    } else {
      assert (a + b)[1..] == a[1..] + b;
      ValueConcat(a[1..], b);
      DoubleMul(M.Pow2(|a| - 1), Value(b));
    }
  }

  lemma {:induction false} ValueZero(b: Block)
    ensures Value(b) == 0 <==> forall r :: 0 <= r < |b| ==> !b[r]
  {
    if b != [] {
      ValueZero(b[1..]);
      if forall r :: 0 <= r < |b| ==> !b[r] {
        assert forall r :: 0 <= r < |b[1..]| ==> !b[1..][r];
      } else if !b[0] {
        var r :| 0 <= r < |b| && b[r];
        assert b[1..][r - 1];
      }
    }
  }

  lemma {:induction false} ValueInjective(a: Block, b: Block)
    requires |a| == |b| && Value(a) == Value(b)
    ensures a == b
  {
    if a != [] {
      assert a[0] == b[0];
      ValueInjective(a[1..], b[1..]);
      assert a == [a[0]] + a[1..] && b == [b[0]] + b[1..];
    }
  }

  lemma ShlKeeps(b: Block, n: nat)
    requires n <= |b|
    ensures Value(Shl(b, n)) == M.Pow2(n) * Value(b[..|b| - n])
  {
    assert Shl(b, n) == Zeros(n) + b[..|b| - n];
    ValueConcat(Zeros(n), b[..|b| - n]);
    ValueZero(Zeros(n));
  }

  /** Shifting up multiplies by a power of two, modulo the range of the word. */
  lemma ShlValue(b: Block, n: nat)
    requires n <= |b|
    ensures Value(Shl(b, n)) == (Value(b) * M.Pow2(n)) % M.Pow2(|b|)
  {
    var low, high := b[..|b| - n], b[|b| - n..];
    ShlKeeps(b, n);
    assert b == low + high;
    ValueConcat(low, high);
    ValueBound(Shl(b, n));
    PowSum(|b| - n, n);
    Remainder(Value(low), M.Pow2(|b| - n), Value(high), M.Pow2(n), M.Pow2(|b|));
  }

  lemma Remainder(l: int, q: int, h: int, p: int, r: int)
    requires q * p == r && 0 <= p * l < r
    ensures ((l + q * h) * p) % r == p * l
  {
    ProductSplit(l, q, h, p, r);
    QuotientUnique((l + q * h) * p, h, p * l, r);
  }

  lemma ProductSplit(l: int, q: int, h: int, p: int, r: int)
    requires q * p == r
    ensures (l + q * h) * p == h * r + p * l
  {
    assert q * h * p == q * p * h;
  }

  lemma {:induction false} PowSum(m: nat, n: nat)
    ensures M.Pow2(m) * M.Pow2(n) == M.Pow2(m + n)
  {
    if m > 0 {
      PowSum(m - 1, n);
      DoubleMul(M.Pow2(m - 1), M.Pow2(n));
    }
  }

  lemma ShrDrops(b: Block, n: nat)
    requires n <= |b|
    ensures Value(Shr(b, n)) == Value(b[n..])
  {
    assert Shr(b, n) == b[n..] + Zeros(n);
    ValueConcat(b[n..], Zeros(n));
    ValueZero(Zeros(n));
  }

  /** Shifting down divides by a power of two. */
  lemma ShrValue(b: Block, n: nat)
    requires n <= |b|
    ensures Value(Shr(b, n)) == Value(b) / M.Pow2(n)
  {
    ShrDrops(b, n);
    assert b == b[..n] + b[n..];
    ValueConcat(b[..n], b[n..]);
    ValueBound(b[..n]);
    Quotient(Value(b), M.Pow2(n), Value(b[n..]), Value(b[..n]));
  }

  lemma Quotient(v: int, p: int, q: int, r: int)
    requires v == r + p * q && 0 <= r < p
    ensures v / p == q
  {
    QuotientUnique(v, q, r, p);
  }

  /** The words of a consistent bitset and its bits have the same value. */
  lemma {:induction false} NumberIsValue(blocks: seq<Block>, w: nat, size: nat)
    requires Consistent(blocks, w, size)
    ensures Number(blocks, w) == Value(Contents(blocks, w, size))
    decreases |blocks|
  {
    if size == 0 {
      SizeZero(blocks, w);
    } else if size <= w {
      OneWord(blocks, w, size);
      var c := Contents(blocks, w, size);
      assert blocks[0] == c + blocks[0][size..] by {
        assert forall p :: 0 <= p < w ==> Bit(blocks, w, p) == blocks[0][p];
      }
      ValueConcat(c, blocks[0][size..]);
      ValueZero(blocks[0][size..]);
    } else {
      DropWord(blocks, w, size);
      NumberIsValue(blocks[1..], w, size - w);
      ValueConcat(blocks[0], Contents(blocks[1..], w, size - w));
    }
  }

  lemma SizeZero(blocks: seq<Block>, w: nat)
    requires Consistent(blocks, w, 0)
    ensures blocks == []
  {
    QuotientUnique(0, 0, 0, w);
  }

  lemma OneWord(blocks: seq<Block>, w: nat, size: nat)
    requires Consistent(blocks, w, size) && 0 < size <= w
    ensures |blocks| == 1 && Number(blocks, w) == Value(blocks[0])
    ensures forall r :: size <= r < w ==> !blocks[0][r]
  {
    if size < w {
      QuotientUnique(size, 0, size, w);
    } else {
      QuotientUnique(size, 1, 0, w);
    }
    assert blocks[1..] == [];
    forall r | size <= r < w ensures !blocks[0][r] {
      assert !Bit(blocks, w, r);
    }
  }

  lemma DropWord(blocks: seq<Block>, w: nat, size: nat)
    requires Consistent(blocks, w, size) && size > w
    ensures blocks != [] && Consistent(blocks[1..], w, size - w)
    ensures Contents(blocks, w, size) == blocks[0] + Contents(blocks[1..], w, size - w)
  {
    SizePlusWord(w, size - w);
    forall p | p >= size - w ensures !Bit(blocks[1..], w, p) {
      assert !Bit(blocks, w, p + w);
    }
    var c, d := Contents(blocks, w, size), Contents(blocks[1..], w, size - w);
    forall p | 0 <= p < size ensures c[p] == (blocks[0] + d)[p] {
      if p >= w {
        assert c[p] == Bit(blocks[1..], w, p - w);
      }
    }
  }

  // ----- Comparing word by word

  /** The highest word in which two rows of the same length differ decides. */
  lemma {:induction false} TopWordDecides(a: seq<Block>, b: seq<Block>, w: nat, i: nat)
    requires Words(a, w) && Words(b, w) && |a| == |b| && i < |a|
    requires forall k :: i < k < |a| ==> a[k] == b[k]
    ensures Value(a[i]) < Value(b[i]) ==> Number(a, w) < Number(b, w)
    decreases i
  {
    if i == 0 {
      assert a[1..] == b[1..];
    } else {
      TopWordDecides(a[1..], b[1..], w, i - 1);
      if Value(a[i]) < Value(b[i]) {
        ValueBound(a[0]);
        DigitStep(Value(a[0]), Value(b[0]), M.Pow2(w), Number(a[1..], w), Number(b[1..], w));
      }
    }
  }

  lemma {:induction false} HighWords(a: seq<Block>, w: nat, n: nat)
    requires Words(a, w) && n <= |a|
    ensures (forall k :: n <= k < |a| ==> a[k] == Zeros(w)) ==> Number(a, w) == Number(a[..n], w)
    decreases n
  {
    if n == 0 {
      AllZero(a, w);
    } else {
      HighWords(a[1..], w, n - 1);
      assert a[..n][1..] == a[1..][..n - 1];
      if forall k :: n <= k < |a| ==> a[k] == Zeros(w) {
        assert forall k :: n - 1 <= k < |a[1..]| ==> a[1..][k] == Zeros(w);
      }
    }
  }

  lemma {:induction false} AllZero(a: seq<Block>, w: nat)
    requires Words(a, w)
    ensures (forall k :: 0 <= k < |a| ==> a[k] == Zeros(w)) ==> Number(a, w) == 0
  {
    if a != [] {
      AllZero(a[1..], w);
      ValueZero(Zeros(w));
    }
  }

  /** A row with a word other than zero at `n` or above exceeds every row of `n` words. */
  lemma {:induction false} HighWordExceeds(a: seq<Block>, b: seq<Block>, w: nat, k: nat)
    requires Words(a, w) && Words(b, w) && |b| <= k < |a| && a[k] != Zeros(w)
    ensures Number(b, w) < Number(a, w)
    decreases k
  {
    if b == [] {
      NotZero(a, w, k);
    } else {
      ValueBound(b[0]);
      HighWordExceeds(a[1..], b[1..], w, k - 1);
      DigitStep(Value(b[0]), Value(a[0]), M.Pow2(w), Number(b[1..], w), Number(a[1..], w));
    }
  }

  lemma {:induction false} NotZero(a: seq<Block>, w: nat, k: nat)
    requires Words(a, w) && k < |a| && a[k] != Zeros(w)
    ensures Number(a, w) > 0
    decreases k
  {
    if k == 0 {
      ValueZero(a[0]);
      NonZeroWord(a[0]);
    } else {
      NotZero(a[1..], w, k - 1);
      MulMono(1, Number(a[1..], w), M.Pow2(w));
    }
  }

  // ----- The comparison

  /** Lexicographic comparison of value and length. */
  ghost predicate Below(c: seq<bool>, d: seq<bool>) {
    Value(c) < Value(d) || (Value(c) == Value(d) && |c| < |d|)
  }

  /** Compares the lowest `n` words of both sides, from the top; `None` when they are equal. */
  method CompareWords(a: seq<Block>, b: seq<Block>, w: nat, n: nat) returns (r: Option<bool>)
    requires Words(a, w) && Words(b, w) && 0 < n <= |a| && n <= |b|
    ensures match r
            case Some(less) =>
              if less then Number(a[..n], w) < Number(b[..n], w) else Number(b[..n], w) < Number(a[..n], w)
            case None => a[..n] == b[..n]
  {
    var i := n - 1;
    while i > 0
      invariant 0 <= i < n
      invariant forall k :: i < k < n ==> a[k] == b[k]
    {
      if a[i] != b[i] {
        WordDecides(a, b, w, n, i);
        return Some(Value(a[i]) < Value(b[i]));
      }
      i := i - 1;
    }
    if a[0] != b[0] {
      WordDecides(a, b, w, n, 0);
      return Some(Value(a[0]) < Value(b[0]));
    }
    r := None;
  }

  lemma WordDecides(a: seq<Block>, b: seq<Block>, w: nat, n: nat, i: nat)
    requires Words(a, w) && Words(b, w) && i < n <= |a| && n <= |b| && a[i] != b[i]
    requires forall k :: i < k < n ==> a[k] == b[k]
    ensures if Value(a[i]) < Value(b[i]) then Number(a[..n], w) < Number(b[..n], w)
            else Number(b[..n], w) < Number(a[..n], w)
  {
    TopWordDecides(a[..n], b[..n], w, i);
    TopWordDecides(b[..n], a[..n], w, i);
    if Value(a[i]) == Value(b[i]) {
      ValueInjective(a[i], b[i]);
    }
  }

  /** The words of `long` from index `n` on are not all zero. */
  method HasHighWord(long: seq<Block>, w: nat, n: nat) returns (r: bool)
    requires Words(long, w) && n <= |long|
    ensures r <==> exists k :: n <= k < |long| && long[k] != Zeros(w)
  {
    var i := |long| - 1;
    while i >= n
      invariant n - 1 <= i < |long|
      invariant forall k :: i < k < |long| ==> long[k] == Zeros(w)
    {
      if long[i] != Zeros(w) {
        return true;
      }
      i := i - 1;
    }
    r := false;
  }

  /** The comparison operator of bitsets. */
  method Less(a: seq<Block>, aSize: nat, b: seq<Block>, bSize: nat, w: nat) returns (r: bool)
    requires Consistent(a, w, aSize) && Consistent(b, w, bSize)
    ensures r <==> Below(Contents(a, w, aSize), Contents(b, w, bSize))
  {
    NumberIsValue(a, w, aSize);
    NumberIsValue(b, w, bSize);
    if aSize == bSize {
      if aSize == 0 {
        SizeZero(a, w);
        SizeZero(b, w);
        return false;
      }
      IndexInside(w, 0, aSize);
      assert a[..|a|] == a && b[..|a|] == b;
      var c := CompareWords(a, b, w, |a|);
      return c == Some(true);
    }
    if aSize == 0 {
      SizeZero(a, w);
      return true;
    }
    if bSize == 0 {
      SizeZero(b, w);
      return false;
    }
    r := LessLonger(a, aSize, b, bSize, w);
  }

  method LessLonger(a: seq<Block>, aSize: nat, b: seq<Block>, bSize: nat, w: nat) returns (r: bool)
    requires Consistent(a, w, aSize) && Consistent(b, w, bSize) && aSize != bSize && aSize > 0 && bSize > 0
    ensures r <==> Number(a, w) < Number(b, w) || (Number(a, w) == Number(b, w) && aSize < bSize)
  {
    IndexInside(w, 0, aSize);
    IndexInside(w, 0, bSize);
    var bLonger := bSize > aSize;
    BlocksRequiredMono(w, if bLonger then aSize else bSize, if bLonger then bSize else aSize);
    var long, short := if bLonger then b else a, if bLonger then a else b;
    var high := HasHighWord(long, w, |short|);
    if high {
      var k :| |short| <= k < |long| && long[k] != Zeros(w);
      HighWordExceeds(long, short, w, k);
      return bLonger;
    }
    HighWords(long, w, |short|);
    assert short[..|short|] == short;
    var c := CompareWords(a, b, w, |short|);
    match c {
      case Some(less) => return less;
      case None => return aSize < bSize;
    }
  }

  // ----- A strict total order

  lemma BelowIsStrictOrder(c: seq<bool>, d: seq<bool>, e: seq<bool>)
    ensures !Below(c, c)
    ensures Below(c, d) && Below(d, e) ==> Below(c, e)
    ensures Below(c, d) ==> !Below(d, c)
    ensures Below(c, d) || Below(d, c) || c == d
  {
    if !Below(c, d) && !Below(d, c) {
      ValueInjective(c, d);
    }
  }

  /** Two bitsets have the same size and words exactly when they have the same bits. */
  lemma EqualIff(a: seq<Block>, aSize: nat, b: seq<Block>, bSize: nat, w: nat)
    requires Consistent(a, w, aSize) && Consistent(b, w, bSize)
    ensures aSize == bSize && a == b <==> Contents(a, w, aSize) == Contents(b, w, bSize)
  {
    if Contents(a, w, aSize) == Contents(b, w, bSize) {
      forall p | 0 <= p < aSize ensures Bit(a, w, p) == Bit(b, w, p) {
        assert Contents(a, w, aSize)[p] == Contents(b, w, bSize)[p];
      }
      forall i, r | 0 <= i < |a| && 0 <= r < w ensures a[i][r] == b[i][r] {
        BitAt(a, w, i, r);
        BitAt(b, w, i, r);
        assert i * w + r >= aSize ==> !Bit(a, w, i * w + r) && !Bit(b, w, i * w + r);
        MulMono(0, i, w);
      }
      forall i | 0 <= i < |a| ensures a[i] == b[i] {
        assert forall r :: 0 <= r < w ==> a[i][r] == b[i][r];
      }
    }
  }
}

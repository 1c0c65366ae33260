/**
 Words of `w` bits and lists of such words, read as one long row of bits. Bit 0 of a word is its least
 significant one. `Bit(blocks, w, p)` is bit `p` of the row, and false past its end.
 */
module Bits {
  import opened ModArith

  type Block = seq<bool>

  function Zeros(w: nat): (b: Block)
    ensures |b| == w
  {
    seq(w, _ => false)
  }

  function Ones(w: nat): (b: Block)
    ensures |b| == w
  {
    seq(w, _ => true)
  }

  function Or(a: Block, b: Block): (r: Block)
    requires |a| == |b|
    ensures |r| == |a|
  {
    seq(|a|, k requires 0 <= k < |a| => a[k] || b[k])
  }

  function And(a: Block, b: Block): (r: Block)
    requires |a| == |b|
    ensures |r| == |a|
  {
    seq(|a|, k requires 0 <= k < |a| => a[k] && b[k])
  }

  function Xor(a: Block, b: Block): (r: Block)
    requires |a| == |b|
    ensures |r| == |a|
  {
    seq(|a|, k requires 0 <= k < |a| => a[k] != b[k])
  }

  function Not(a: Block): (r: Block)
    ensures |r| == |a|
  {
    seq(|a|, k requires 0 <= k < |a| => !a[k])
  }

  /** Shift towards the more significant bits. */
  function Shl(a: Block, n: nat): (r: Block)
    ensures |r| == |a|
  {
    seq(|a|, k requires 0 <= k < |a| => k >= n && a[k - n])
  }

  function Shr(a: Block, n: nat): (r: Block)
    ensures |r| == |a|
  {
    seq(|a|, k requires 0 <= k < |a| => k + n < |a| && a[k + n])
  }

  /** The word with value one, or zero, for `value`. */
  function FromBool(w: nat, value: bool): (b: Block)
    requires w > 0
    ensures |b| == w
  {
    Zeros(w)[0 := value]
  }

  /** Subtraction of one, wrapping around at zero. */
  function Decrement(b: Block): (r: Block)
    ensures |r| == |b|
  {
    if b == [] then [] else if b[0] then [false] + b[1..] else [true] + Decrement(b[1..])
  }

  /** The numeric value of a word. */
  function Value(b: Block): nat {
    if b == [] then 0 else (if b[0] then 1 else 0) + 2 * Value(b[1..])
  }

  lemma {:induction false} DecrementValue(b: Block)
    ensures Value(b) > 0 ==> Value(Decrement(b)) == Value(b) - 1
  {
    if b != [] && !b[0] {
      DecrementValue(b[1..]);
    }
  }

  /** One less than a power of two: the low bits are set. */
  lemma {:induction false} DecrementPower(w: nat, k: nat, r: nat)
    requires k < w && r < w
    ensures Decrement(Shl(FromBool(w, true), k))[r] == (r < k)
    decreases w
  {
    var b := Shl(FromBool(w, true), k);
    if k == 0 {
      assert b[0] && forall i :: 0 < i < w ==> !b[i];
    } else {
      assert b[1..] == Shl(FromBool(w - 1, true), k - 1);
      if r > 0 {
        DecrementPower(w - 1, k - 1, r - 1);
      }
    }
  }

  /** The word whose bits `first` to `last` are set. */
  function BitMask(w: nat, first: nat, last: nat): (m: Block)
    requires first <= last < w
    ensures |m| == w
    ensures forall r :: 0 <= r < w ==> m[r] == (first <= r <= last)
  {
    if last == w - 1 then
      Shl(Ones(w), first)
    else
      var one := FromBool(w, true);
      var m := Xor(Decrement(Shl(one, last + 1)), Decrement(Shl(one, first)));
      assert forall r :: 0 <= r < w ==> m[r] == (first <= r <= last) by {
        forall r | 0 <= r < w ensures m[r] == (first <= r <= last) {
          DecrementPower(w, last + 1, r);
          DecrementPower(w, first, r);
        }
      }
      m
  }

  function SetBlockBits(b: Block, first: nat, last: nat, value: bool): (c: Block)
    requires first <= last < |b|
    ensures |c| == |b|
    ensures forall r :: 0 <= r < |b| ==> c[r] == if first <= r <= last then value else b[r]
  {
    var mask := BitMask(|b|, first, last);
    if value then Or(b, mask) else And(b, Not(mask))
  }

  // ----- Rows of bits

  ghost predicate Words(blocks: seq<Block>, w: nat) {
    w > 0 && forall i :: 0 <= i < |blocks| ==> |blocks[i]| == w
  }

  ghost function Bit(blocks: seq<Block>, w: nat, p: int): bool
    requires Words(blocks, w)
    decreases |blocks|
  {
    if p < 0 || blocks == [] then false
    else if p < w then blocks[0][p]
    else Bit(blocks[1..], w, p - w)
  }

  /** Bit `r` of word `i`, and false past the end. */
  ghost predicate WordBit(blocks: seq<Block>, w: nat, i: int, r: nat)
    requires Words(blocks, w) && r < w
  {
    0 <= i < |blocks| && blocks[i][r]
  }

  /** Position `i w + r` is bit `r` of word `i`. */
  lemma {:induction false} BitAt(blocks: seq<Block>, w: nat, i: nat, r: nat)
    requires Words(blocks, w) && r < w
    ensures Bit(blocks, w, i * w + r) == WordBit(blocks, w, i, r)
    decreases i
  {
    MulMono(0, i, w);
    if i > 0 && blocks != [] {
      MulMono(1, i, w);
      MulSucc(i - 1, w);
      BitAt(blocks[1..], w, i - 1, r);
    }
  }

  lemma Split(p: nat, w: nat) returns (i: nat, r: nat)
    requires w > 0
    ensures p == i * w + r && r < w
    ensures i == p / w && r == p % w
  {
    i, r := p / w, p % w;
  }

  /** Positions compare by word first and by bit within the word second. */
  lemma PositionOrder(w: nat, i: int, r: nat, j: int, q: nat)
    requires r < w && q < w
    ensures i * w + r < j * w + q <==> i < j || (i == j && r < q)
  {
    if i < j {
      MulMono(i + 1, j, w);
    } else if j < i {
      MulMono(j + 1, i, w);
    }
  }

  function BlocksRequired(w: nat, n: nat): nat
    requires w > 0
  {
    n / w + if n % w > 0 then 1 else 0
  }

  /** The invariant of a bitset: exactly the words needed, and unused bits zero. */
  ghost predicate Consistent(blocks: seq<Block>, w: nat, size: nat) {
    && Words(blocks, w)
    && |blocks| == BlocksRequired(w, size)
    && forall p :: p >= size ==> !Bit(blocks, w, p)
  }

  /** The abstract value of a bitset. */
  ghost function Contents(blocks: seq<Block>, w: nat, size: nat): (c: seq<bool>)
    requires Words(blocks, w)
    ensures |c| == size
  {
    seq(size, p => Bit(blocks, w, p))
  }

  lemma BitPush(blocks: seq<Block>, w: nat, b: Block, p: nat)
    requires Words(blocks, w) && |b| == w
    ensures Words(blocks + [b], w) && |blocks| * w >= 0
    ensures Bit(blocks + [b], w, p) ==
            if p < |blocks| * w then Bit(blocks, w, p) else p < |blocks| * w + w && b[p - |blocks| * w]
  {
    var n := |blocks|;
    var i, r := Split(p, w);
    MulMono(0, n, w);
    BitAt(blocks, w, i, r);
    BitAt(blocks + [b], w, i, r);
    PositionOrder(w, i, r, n, 0);
    PositionOrder(w, i, r, n + 1, 0);
    MulSucc(n, w);
  }
}

/**
 What the operations of a bitset do to its words, and what that means for the bits: each result is
 described word by word and shown to be the plain operation on the row of bits.
 */
module BitsetOps {
  import opened ModArith
  import opened Bits

  // ----- Clearing the unused bits

  ghost function Cleaned(blocks: seq<Block>, w: nat, size: nat): (clean: seq<Block>)
    requires Words(blocks, w) && |blocks| == BlocksRequired(w, size)
    ensures Words(clean, w) && |clean| == |blocks|
  {
    var k := |blocks| - 1;
    if size % w > 0 then blocks[k := And(blocks[k], Not(Shl(Ones(w), size % w)))] else blocks
  }

  lemma CleanedBit(blocks: seq<Block>, w: nat, size: nat, p: nat)
    requires Words(blocks, w) && |blocks| == BlocksRequired(w, size)
    ensures Bit(Cleaned(blocks, w, size), w, p) == (p < size && Bit(blocks, w, p))
  {
    var i, r := Split(p, w);
    var n, e := Split(size, w);
    PositionOrder(w, i, r, n, e);
    BitAt(blocks, w, i, r);
    BitAt(Cleaned(blocks, w, size), w, i, r);
  }

  lemma CleanedConsistent(blocks: seq<Block>, w: nat, size: nat)
    requires Words(blocks, w) && |blocks| == BlocksRequired(w, size)
    ensures Consistent(Cleaned(blocks, w, size), w, size)
    ensures Contents(Cleaned(blocks, w, size), w, size) == Contents(blocks, w, size)
  {
    var clean := Cleaned(blocks, w, size);
    forall p | 0 <= p ensures Bit(clean, w, p) == (p < size && Bit(blocks, w, p)) {
      CleanedBit(blocks, w, size, p);
    }
  }

  // ----- Resizing

  ghost function Resized(blocks: seq<Block>, w: nat, size: nat, nbits: nat, value: bool): (r: seq<Block>)
    requires Consistent(blocks, w, size)
    ensures Words(r, w) && |r| == BlocksRequired(w, nbits)
  {
    var oldNum, newNum := |blocks|, BlocksRequired(w, nbits);
    var init := if value then Ones(w) else Zeros(w);
    var b := if newNum < oldNum then blocks[..newNum] else blocks + seq(newNum - oldNum, _ => init);
    if value && nbits > size && oldNum > 0 && size % w > 0 then
      BlocksRequiredMono(w, size, nbits);
      b[oldNum - 1 := Or(b[oldNum - 1], Shl(init, size % w))]
    else b
  }

  lemma BlocksRequiredMono(w: nat, m: nat, n: nat)
    requires w > 0 && m <= n
    ensures BlocksRequired(w, m) <= BlocksRequired(w, n)
  {
    var i, r := Split(m, w);
    var j, q := Split(n, w);
    PositionOrder(w, j, q, i, r);
  }

  lemma IndexInside(w: nat, p: nat, n: nat)
    requires w > 0 && p < n
    ensures p / w < BlocksRequired(w, n)
  {
    var i, r := Split(p, w);
    var j, q := Split(n, w);
    PositionOrder(w, i, r, j, q);
  }

  lemma ResizedBit(blocks: seq<Block>, w: nat, size: nat, nbits: nat, value: bool, p: nat)
    requires Consistent(blocks, w, size) && p < nbits
    ensures Bit(Resized(blocks, w, size, nbits, value), w, p) == if p < size then Bit(blocks, w, p) else value
  {
    var i, r := Split(p, w);
    var n, e := Split(size, w);
    var n', e' := Split(nbits, w);
    PositionOrder(w, i, r, n, e);
    PositionOrder(w, i, r, n', e');
    BitAt(blocks, w, i, r);
    BitAt(Resized(blocks, w, size, nbits, value), w, i, r);
    assert p >= size ==> !Bit(blocks, w, p);
  }

  lemma ResizedContents(blocks: seq<Block>, w: nat, size: nat, nbits: nat, value: bool)
    requires Consistent(blocks, w, size)
    ensures Contents(Resized(blocks, w, size, nbits, value), w, nbits) ==
            if nbits <= size then Contents(blocks, w, size)[..nbits]
            else Contents(blocks, w, size) + seq(nbits - size, _ => value)
  {
    var b := Resized(blocks, w, size, nbits, value);
    forall p | 0 <= p < nbits ensures Bit(b, w, p) == if p < size then Bit(blocks, w, p) else value {
      ResizedBit(blocks, w, size, nbits, value, p);
    }
  }

  // ----- Appending a word

  ghost function Appended(blocks: seq<Block>, w: nat, size: nat, b: Block): (r: seq<Block>)
    requires Words(blocks, w) && |blocks| == BlocksRequired(w, size) && |b| == w
    ensures Words(r, w) && |r| == |blocks| + 1
  {
    var e, k := size % w, |blocks| - 1;
    if e == 0 then blocks + [b]
    else blocks[k := Or(blocks[k], Shl(b, e))] + [Shr(b, w - e)]
  }

  lemma AppendedBit(blocks: seq<Block>, w: nat, size: nat, b: Block, p: nat)
    requires Consistent(blocks, w, size) && |b| == w
    ensures Bit(Appended(blocks, w, size, b), w, p) ==
            if p < size then Bit(blocks, w, p) else p < size + w && b[p - size]
  {
    var i, r := Split(p, w);
    var n, e := Split(size, w);
    MulSucc(n, w);
    PositionOrder(w, i, r, n, e);
    PositionOrder(w, i, r, n + 1, e);
    BitAt(blocks, w, i, r);
    BitAt(Appended(blocks, w, size, b), w, i, r);
    assert p >= size ==> !Bit(blocks, w, p);
    assert i == n ==> p - size + e == r;
    assert i == n + 1 ==> p - size + e == w + r;
  }

  lemma SizePlusWord(w: nat, size: nat)
    requires w > 0
    ensures (size + w) % w == size % w && BlocksRequired(w, size + w) == BlocksRequired(w, size) + 1
  {
    var n, e := Split(size, w);
    MulSucc(n, w);
    QuotientUnique(size + w, n + 1, e, w);
  }

  lemma AppendedConsistent(blocks: seq<Block>, w: nat, size: nat, b: Block)
    requires Consistent(blocks, w, size) && |b| == w
    ensures Consistent(Appended(blocks, w, size, b), w, size + w)
    ensures Contents(Appended(blocks, w, size, b), w, size + w) == Contents(blocks, w, size) + b
  {
    SizePlusWord(w, size);
    var a := Appended(blocks, w, size, b);
    forall p | 0 <= p ensures Bit(a, w, p) == if p < size then Bit(blocks, w, p) else p < size + w && b[p - size] {
      AppendedBit(blocks, w, size, b, p);
    }
  }

  // ----- Appending many words

  ghost function AppendedAll(blocks: seq<Block>, w: nat, size: nat, bs: seq<Block>): (r: seq<Block>)
    requires Consistent(blocks, w, size) && Words(bs, w)
    ensures Consistent(r, w, size + |bs| * w)
  {
    if bs == [] then blocks
    else
      var init, b := bs[..|bs| - 1], bs[|bs| - 1];
      var n := size + |init| * w;
      AppendedConsistent(AppendedAll(blocks, w, size, init), w, n, b);
      MulSucc(|init|, w);
      Appended(AppendedAll(blocks, w, size, init), w, n, b)
  }

  lemma {:induction false} AppendedAllBit(blocks: seq<Block>, w: nat, size: nat, bs: seq<Block>, p: nat)
    requires Consistent(blocks, w, size) && Words(bs, w)
    ensures Bit(AppendedAll(blocks, w, size, bs), w, p) == if p < size then Bit(blocks, w, p) else Bit(bs, w, p - size)
    decreases |bs|
  {
    if bs != [] {
      var init, b := bs[..|bs| - 1], bs[|bs| - 1];
      AppendedAllBit(blocks, w, size, init, p);
      assert bs == init + [b];
      AppendedStepBit(AppendedAll(blocks, w, size, init), w, size, init, b, p);
    }
  }

  /** One more word on top of `size` bits and the words `init`. */
  lemma AppendedStepBit(prev: seq<Block>, w: nat, size: nat, init: seq<Block>, b: Block, p: nat)
    requires Words(init, w) && |b| == w && |init| * w >= 0 && Consistent(prev, w, size + |init| * w)
    requires p >= size ==> Bit(prev, w, p) == Bit(init, w, p - size)
    ensures Bit(Appended(prev, w, size + |init| * w, b), w, p) ==
            if p < size then Bit(prev, w, p) else Bit(init + [b], w, p - size)
  {
    AppendedBit(prev, w, size + |init| * w, b, p);
    if p >= size {
      BitPush(init, w, b, p - size);
    }
  }

  lemma AppendedAllContents(blocks: seq<Block>, w: nat, size: nat, bs: seq<Block>, m: nat)
    requires Consistent(blocks, w, size) && Words(bs, w)
    ensures Contents(AppendedAll(blocks, w, size, bs), w, size + m) == Contents(blocks, w, size) + Contents(bs, w, m)
  {
    var a := AppendedAll(blocks, w, size, bs);
    forall p | 0 <= p ensures Bit(a, w, p) == if p < size then Bit(blocks, w, p) else Bit(bs, w, p - size) {
      AppendedAllBit(blocks, w, size, bs, p);
    }
  }

  /** With a carry word: appending one more word to `cur + [carry]`. */
  lemma CarryStep(cur: seq<Block>, carry: Block, w: nat, size: nat, b: Block)
    requires Words(cur + [carry], w) && |carry| == |b| == w
    requires |cur| + 1 == BlocksRequired(w, size) && size % w > 0
    ensures Appended(cur + [carry], w, size, b) == cur + [Or(carry, Shl(b, size % w))] + [Shr(b, w - size % w)]
  {
  }

  lemma {:induction false} AppendedAligned(blocks: seq<Block>, w: nat, size: nat, bs: seq<Block>)
    requires Consistent(blocks, w, size) && Words(bs, w) && size % w == 0
    ensures AppendedAll(blocks, w, size, bs) == blocks + bs
    ensures (size + |bs| * w) % w == 0
  {
    ModShift(size, |bs|, w);
    if bs != [] {
      AppendedAligned(blocks, w, size, bs[..|bs| - 1]);
    }
  }

  lemma AppendedOne(blocks: seq<Block>, w: nat, size: nat, b: Block)
    requires Consistent(blocks, w, size) && |b| == w
    ensures AppendedAll(blocks, w, size, [b]) == Appended(blocks, w, size, b)
  {
    assert [b][..0] == [];
    assert AppendedAll(blocks, w, size, []) == blocks;
  }

  lemma AppendedFirst(blocks: seq<Block>, w: nat, size: nat, bs: seq<Block>)
    requires Consistent(blocks, w, size) && Words(bs, w) && bs != [] && size % w > 0
    ensures var k := |blocks| - 1;
            AppendedAll(blocks, w, size, bs[..1]) ==
            blocks[k := Or(blocks[k], Shl(bs[0], size % w))] + [Shr(bs[0], w - size % w)]
  {
    assert bs[..1] == [bs[0]];
    AppendedOne(blocks, w, size, bs[0]);
  }

  lemma CarryNext(prev: seq<Block>, cur: seq<Block>, carry: Block, w: nat, n: nat, e: nat, b: Block)
    requires Consistent(prev, w, n) && prev == cur + [carry] && |carry| == |b| == w && n % w == e > 0
    ensures Appended(prev, w, n, b) == cur + [Or(carry, Shl(b, e))] + [Shr(b, w - e)]
  {
    CarryStep(cur, carry, w, n, b);
  }

  lemma CarryOn(blocks: seq<Block>, w: nat, size: nat, bs: seq<Block>, i: nat, cur: seq<Block>, carry: Block, e: nat)
    requires Consistent(blocks, w, size) && Words(bs, w) && i < |bs| && size % w == e > 0 && |carry| == w
    requires cur + [carry] == AppendedAll(blocks, w, size, bs[..i])
    ensures AppendedAll(blocks, w, size, bs[..i + 1]) == cur + [Or(carry, Shl(bs[i], e))] + [Shr(bs[i], w - e)]
  {
    AppendedAllStep(blocks, w, size, bs, i);
    ModShift(size, i, w);
    CarryNext(AppendedAll(blocks, w, size, bs[..i]), cur, carry, w, size + i * w, e, bs[i]);
  }

  lemma AppendedAllStep(blocks: seq<Block>, w: nat, size: nat, bs: seq<Block>, i: nat)
    requires Consistent(blocks, w, size) && Words(bs, w) && i < |bs|
    ensures size + i * w >= 0
    ensures Consistent(AppendedAll(blocks, w, size, bs[..i]), w, size + i * w)
    ensures AppendedAll(blocks, w, size, bs[..i + 1]) ==
            Appended(AppendedAll(blocks, w, size, bs[..i]), w, size + i * w, bs[i])
  {
    assert bs[..i + 1][..i] == bs[..i];
  }

  lemma BlocksCover(w: nat, n: nat)
    requires w > 0
    ensures n <= BlocksRequired(w, n) * w
  {
    var i, r := Split(n, w);
    MulSucc(i, w);
  }

  /** The bits of word `i`, as far as they are within the first `n` bits of the row. */
  lemma ReadWord(blocks: seq<Block>, w: nat, size: nat, i: nat, n: nat)
    requires Consistent(blocks, w, size) && i < |blocks| && n <= size
    ensures i * w >= 0
    ensures forall r :: 0 <= r < w && i * w + r < n ==> blocks[i][r] == Contents(blocks, w, size)[i * w + r]
  {
    MulMono(0, i, w);
    forall r | 0 <= r < w && i * w + r < n ensures blocks[i][r] == Contents(blocks, w, size)[i * w + r] {
      BitAt(blocks, w, i, r);
    }
  }

  // ----- One bit more or less

  /** `b` is `blocks` with the bits from `lo` up to `hi` replaced by `value`. */
  ghost predicate IsRangeSet(blocks: seq<Block>, b: seq<Block>, w: nat, lo: int, hi: int, value: bool) {
    && Words(blocks, w) && Words(b, w) && |b| == |blocks|
    && forall i, r :: 0 <= i < |b| && 0 <= r < w ==>
         b[i][r] == if lo <= i * w + r < hi then value else blocks[i][r]
  }

  lemma RangeSetContents(blocks: seq<Block>, b: seq<Block>, w: nat, size: nat, lo: nat, hi: nat, value: bool)
    requires Consistent(blocks, w, size) && IsRangeSet(blocks, b, w, lo, hi, value)
    requires lo <= hi <= size
    ensures Consistent(b, w, size)
    ensures Contents(b, w, size) ==
            Contents(blocks, w, size)[..lo] + seq(hi - lo, _ => value) + Contents(blocks, w, size)[hi..]
  {
    forall p: nat ensures Bit(b, w, p) == if lo <= p < hi then value else Bit(blocks, w, p) {
      var i, r := Split(p, w);
      BitAt(b, w, i, r);
      BitAt(blocks, w, i, r);
      if p < size {
        IndexInside(w, p, size);
      }
    }
  }

  /** The same, with the two ends given by word and bit. */
  lemma WordsAreRangeSet(blocks: seq<Block>, b: seq<Block>, w: nat, lo: nat, hi: nat, value: bool)
    requires Words(blocks, w) && Words(b, w) && |b| == |blocks| && lo <= hi
    requires forall i, r :: 0 <= i < |b| && 0 <= r < w ==>
               b[i][r] == if (lo / w < i || (lo / w == i && lo % w <= r))
                              && (i < hi / w || (i == hi / w && r <= hi % w))
                          then value else blocks[i][r]
    ensures IsRangeSet(blocks, b, w, lo, hi + 1, value)
  {
    var n, e := Split(lo, w);
    var m, f := Split(hi, w);
    forall i, r | 0 <= i < |b| && 0 <= r < w
      ensures b[i][r] == if lo <= i * w + r < hi + 1 then value else blocks[i][r]
    {
      PositionOrder(w, i, r, n, e);
      PositionOrder(w, m, f, i, r);
    }
  }

  lemma BlockOrder(w: nat, p: nat, q: nat)
    requires w > 0 && p <= q
    ensures p / w < q / w || (p / w == q / w && p % w <= q % w)
  {
    var i, r := Split(p, w);
    var j, s := Split(q, w);
    PositionOrder(w, j, s, i, r);
  }

  lemma SetBitIsRangeSet(blocks: seq<Block>, w: nat, pos: nat, b: Block, value: bool)
    requires Words(blocks, w) && pos / w < |blocks| && |b| == w
    requires forall r :: 0 <= r < w ==> b[r] == if r == pos % w then value else blocks[pos / w][r]
    ensures IsRangeSet(blocks, blocks[pos / w := b], w, pos, pos + 1, value)
  {
    var n, e := Split(pos, w);
    forall i, r | 0 <= i < |blocks| && 0 <= r < w
      ensures blocks[n := b][i][r] == if pos <= i * w + r < pos + 1 then value else blocks[i][r]
    {
      PositionOrder(w, i, r, n, e);
      PositionOrder(w, n, e, i, r);
    }
  }

  /** There is room for one more bit exactly when the last word is not full. */
  lemma CapacityIff(w: nat, size: nat)
    requires w > 0
    ensures size + 1 <= BlocksRequired(w, size) * w <==> size % w > 0
    ensures size % w > 0 ==> size / w < BlocksRequired(w, size)
    ensures BlocksRequired(w, size + 1) == if size % w > 0 then BlocksRequired(w, size) else BlocksRequired(w, size) + 1
  {
    var n, e := Split(size, w);
    MulSucc(n, w);
    if e + 1 < w {
      QuotientUnique(size + 1, n, e + 1, w);
    } else {
      QuotientUnique(size + 1, n + 1, 0, w);
    }
  }

  ghost function Pushed(blocks: seq<Block>, w: nat, size: nat, value: bool): (r: seq<Block>)
    requires Words(blocks, w) && |blocks| == BlocksRequired(w, size)
    ensures Words(r, w) && |r| == BlocksRequired(w, size + 1)
  {
    CapacityIff(w, size);
    var k := size / w;
    if size % w == 0 then blocks + [FromBool(w, value)]
    else if value then blocks[k := Or(blocks[k], Shl(FromBool(w, true), size % w))]
    else blocks
  }

  lemma PushedBit(blocks: seq<Block>, w: nat, size: nat, value: bool, p: nat)
    requires Consistent(blocks, w, size)
    ensures Bit(Pushed(blocks, w, size, value), w, p) == if p == size then value else Bit(blocks, w, p)
  {
    var i, r := Split(p, w);
    var n, e := Split(size, w);
    CapacityIff(w, size);
    BitAt(Pushed(blocks, w, size, value), w, i, r);
    BitAt(blocks, w, i, r);
    assert p >= size ==> !Bit(blocks, w, p);
  }

  lemma PushedContents(blocks: seq<Block>, w: nat, size: nat, value: bool)
    requires Consistent(blocks, w, size)
    ensures Consistent(Pushed(blocks, w, size, value), w, size + 1)
    ensures Contents(Pushed(blocks, w, size, value), w, size + 1) == Contents(blocks, w, size) + [value]
  {
    var b := Pushed(blocks, w, size, value);
    forall p: nat ensures Bit(b, w, p) == if p == size then value else Bit(blocks, w, p) {
      PushedBit(blocks, w, size, value, p);
    }
  }

  lemma PoppedContents(blocks: seq<Block>, w: nat, size: nat)
    requires Words(blocks, w) && |blocks| == BlocksRequired(w, size + 1) > BlocksRequired(w, size)
    ensures Consistent(blocks[..|blocks| - 1], w, size)
    ensures Contents(blocks[..|blocks| - 1], w, size) == Contents(blocks, w, size)
  {
    CapacityIff(w, size);
    var b, n := blocks[..|blocks| - 1], |blocks| - 1;
    assert size == n * w;
    forall p: nat ensures Bit(b, w, p) == (p < size && Bit(blocks, w, p)) {
      var i, r := Split(p, w);
      BitAt(b, w, i, r);
      BitAt(blocks, w, i, r);
      PositionOrder(w, i, r, n, 0);
    }
  }

  // ----- Shifting

  /** Word `i` of a row shifted up by `bs` words and `off` bits. */
  ghost function ShiftedUp(blocks: seq<Block>, w: nat, bs: nat, off: nat, i: nat): (b: Block)
    requires Words(blocks, w) && off < w && i < |blocks|
    ensures |b| == w
  {
    if i < bs then Zeros(w)
    else if off == 0 then blocks[i - bs]
    else if i == bs then Shl(blocks[0], off)
    else Or(Shl(blocks[i - bs], off), Shr(blocks[i - bs - 1], w - off))
  }

  ghost predicate IsShiftedUp(blocks: seq<Block>, b: seq<Block>, w: nat, bs: nat, off: nat)
    requires Words(blocks, w) && off < w
  {
    |b| == |blocks| && forall i :: 0 <= i < |b| ==> b[i] == ShiftedUp(blocks, w, bs, off, i)
  }

  lemma PositionShift(w: nat, i: int, r: int, bs: int, off: int)
    ensures i * w + r + (bs * w + off) == (i + bs) * w + (r + off)
    ensures i * w + r + (bs * w + off) == (i + bs + 1) * w + (r + off - w)
    ensures i * w + r + (bs * w + off) == (i + bs - 1) * w + (r + off + w)
    ensures -bs * w == -(bs * w)
  {
  }

  lemma OrAt(a: Block, b: Block, w: nat, off: nat, r: nat)
    requires |a| == |b| == w && 0 < off < w && r < w
    ensures Or(Shl(a, off), Shr(b, w - off))[r] == if r >= off then a[r - off] else b[r + w - off]
  {
    assert Shl(a, off)[r] == (r >= off && a[r - off]);
    assert Shr(b, w - off)[r] == (r < off && b[r + (w - off)]);
  }

  lemma ShiftedUpWord(blocks: seq<Block>, w: nat, bs: nat, off: nat, i: nat, r: nat)
    requires Words(blocks, w) && off < w && i < |blocks| && r < w
    ensures ShiftedUp(blocks, w, bs, off, i)[r] ==
            if r >= off then i >= bs && blocks[i - bs][r - off] else i > bs && blocks[i - bs - 1][r + w - off]
  {
    if i > bs && off > 0 {
      OrAt(blocks[i - bs], blocks[i - bs - 1], w, off, r);
    }
  }

  lemma ShiftedUpBit(blocks: seq<Block>, b: seq<Block>, w: nat, bs: nat, off: nat, p: nat)
    requires Words(blocks, w) && off < w && IsShiftedUp(blocks, b, w, bs, off)
    ensures Words(b, w)
    ensures p / w < |blocks| ==> Bit(b, w, p) == Bit(blocks, w, p - (bs * w + off))
  {
    var i, r := Split(p, w);
    if i < |blocks| {
      BitAt(b, w, i, r);
      ShiftedUpWord(blocks, w, bs, off, i, r);
      PositionOrder(w, i, r, bs, off);
      PositionShift(w, i, r, 0 - bs, 0 - off);
      if r >= off {
        assert p - (bs * w + off) == (i - bs) * w + (r - off);
        if i >= bs {
          BitAt(blocks, w, i - bs, r - off);
        }
      } else {
        assert p - (bs * w + off) == (i - bs - 1) * w + (r + w - off);
        if i > bs {
          BitAt(blocks, w, i - bs - 1, r + w - off);
        }
      }
    }
  }

  /** Word `i` of a row shifted down by `bs` words and `off` bits. */
  ghost function ShiftedDown(blocks: seq<Block>, w: nat, bs: nat, off: nat, i: nat): (b: Block)
    requires Words(blocks, w) && off < w && i < |blocks|
    ensures |b| == w
  {
    if i + bs >= |blocks| then Zeros(w)
    else if off == 0 then blocks[i + bs]
    else if i + bs == |blocks| - 1 then Shr(blocks[i + bs], off)
    else Or(Shr(blocks[i + bs], off), Shl(blocks[i + bs + 1], w - off))
  }

  ghost predicate IsShiftedDown(blocks: seq<Block>, b: seq<Block>, w: nat, bs: nat, off: nat)
    requires Words(blocks, w) && off < w
  {
    |b| == |blocks| && forall i :: 0 <= i < |b| ==> b[i] == ShiftedDown(blocks, w, bs, off, i)
  }

  lemma ShiftedDownBit(blocks: seq<Block>, b: seq<Block>, w: nat, bs: nat, off: nat, p: nat)
    requires Words(blocks, w) && off < w && IsShiftedDown(blocks, b, w, bs, off)
    ensures Words(b, w)
    ensures Bit(b, w, p) == Bit(blocks, w, p + (bs * w + off))
  {
    var i, r := Split(p, w);
    BitAt(b, w, i, r);
    PositionShift(w, i, r, bs, off);
    if r + off < w {
      BitAt(blocks, w, i + bs, r + off);
    } else {
      BitAt(blocks, w, i + bs + 1, r + off - w);
    }
  }

  /** A row of `size` bits moved up by `s`: zeros come in, and what passes the end is lost. */
  ghost function UpBy(c: seq<bool>, s: nat): seq<bool> {
    seq(|c|, p requires 0 <= p < |c| => p >= s && c[p - s])
  }

  ghost function DownBy(c: seq<bool>, s: nat): seq<bool> {
    seq(|c|, p requires 0 <= p < |c| => p + s < |c| && c[p + s])
  }

  /** Shifting up and down again keeps the bits that were not pushed over the end. */
  lemma UpThenDown(c: seq<bool>, s: nat)
    ensures DownBy(UpBy(c, s), s) == seq(|c|, p requires 0 <= p < |c| => p + s < |c| && c[p])
  {
  }

  lemma ShiftedUpContents(blocks: seq<Block>, b: seq<Block>, w: nat, size: nat, s: nat)
    requires Consistent(blocks, w, size) && IsShiftedUp(blocks, b, w, s / w, s % w)
    ensures Words(b, w) && Contents(b, w, size) == UpBy(Contents(blocks, w, size), s)
  {
    var bs, off := Split(s, w);
    ShiftedUpBit(blocks, b, w, bs, off, 0);
    forall p | 0 <= p < size ensures Bit(b, w, p) == Bit(blocks, w, p - s) {
      IndexInside(w, p, size);
      ShiftedUpBit(blocks, b, w, bs, off, p);
    }
  }

  lemma ShiftedDownContents(blocks: seq<Block>, b: seq<Block>, w: nat, size: nat, s: nat)
    requires Consistent(blocks, w, size) && IsShiftedDown(blocks, b, w, s / w, s % w)
    ensures Consistent(b, w, size) && Contents(b, w, size) == DownBy(Contents(blocks, w, size), s)
  {
    var bs, off := Split(s, w);
    forall p: nat ensures Words(b, w) && Bit(b, w, p) == Bit(blocks, w, p + s) {
      ShiftedDownBit(blocks, b, w, bs, off, p);
    }
    assert forall p :: p >= size ==> !Bit(blocks, w, p);
    forall p | p >= size ensures !Bit(b, w, p) {
      assert !Bit(blocks, w, p + s);
    }
  }

  lemma ZeroRow(blocks: seq<Block>, w: nat)
    requires w > 0 && forall i :: 0 <= i < |blocks| ==> blocks[i] == Zeros(w)
    ensures Words(blocks, w)
    ensures forall p :: 0 <= p ==> !Bit(blocks, w, p)
  {
    forall p | 0 <= p ensures !Bit(blocks, w, p) {
      var i, r := Split(p, w);
      BitAt(blocks, w, i, r);
    }
  }

  // ----- Searching

  lemma NonZeroWord(b: Block)
    requires b != Zeros(|b|)
    ensures exists k :: 0 <= k < |b| && b[k]
  {
    assert !(forall k :: 0 <= k < |b| ==> b[k] == Zeros(|b|)[k]);
  }

  lemma ZeroWord(blocks: seq<Block>, w: nat, i: nat)
    requires Words(blocks, w) && i < |blocks| && blocks[i] == Zeros(w)
    ensures forall q :: i * w <= q < (i + 1) * w ==> !Bit(blocks, w, q)
  {
    MulMono(0, i, w);
    MulSucc(i, w);
    forall q | i * w <= q < (i + 1) * w ensures !Bit(blocks, w, q) {
      BitAt(blocks, w, i, q - i * w);
    }
  }

  lemma FoundInWord(blocks: seq<Block>, w: nat, from: nat, i: nat, n: nat)
    requires Words(blocks, w) && from <= i < |blocks| && n < w
    requires blocks[i][n] && forall k :: 0 <= k < n ==> !blocks[i][k]
    requires forall q :: from * w <= q < i * w ==> !Bit(blocks, w, q)
    ensures 0 <= from * w <= i * w + n && Bit(blocks, w, i * w + n)
    ensures forall q :: from * w <= q < i * w + n ==> !Bit(blocks, w, q)
  {
    MulMono(0, from, w);
    MulMono(from, i, w);
    BitAt(blocks, w, i, n);
    forall q | i * w <= q < i * w + n ensures !Bit(blocks, w, q) {
      BitAt(blocks, w, i, q - i * w);
    }
  }

  lemma PastEnd(blocks: seq<Block>, w: nat)
    requires Words(blocks, w)
    ensures forall q :: |blocks| * w <= q ==> !Bit(blocks, w, q)
  {
    MulMono(0, |blocks|, w);
    forall q | |blocks| * w <= q ensures !Bit(blocks, w, q) {
      var i, r := Split(q, w);
      BitAt(blocks, w, i, r);
      PositionOrder(w, i, r, |blocks|, 0);
    }
  }

  lemma FoundInShifted(blocks: seq<Block>, w: nat, p: nat, n: nat)
    requires Words(blocks, w) && p / w < |blocks| && n < w
    requires var s := Shr(blocks[p / w], p % w); s[n] && forall k :: 0 <= k < n ==> !s[k]
    ensures Bit(blocks, w, p + n) && forall q :: p <= q < p + n ==> !Bit(blocks, w, q)
  {
    var i, r := Split(p, w);
    BitAt(blocks, w, i, r + n);
    forall q | p <= q < p + n ensures !Bit(blocks, w, q) {
      BitAt(blocks, w, i, r + (q - p));
      assert !Shr(blocks[i], r)[q - p];
    }
  }

  lemma NothingInShifted(blocks: seq<Block>, w: nat, p: nat, i: nat, r: nat)
    requires Words(blocks, w) && p == i * w + r && r < w && i < |blocks| && Shr(blocks[i], r) == Zeros(w)
    ensures p < (i + 1) * w
    ensures forall q :: p <= q < (i + 1) * w ==> !Bit(blocks, w, q)
  {
    NothingAbove(blocks, w, i, r);
    MulSucc(i, w);
  }

  lemma NothingAbove(blocks: seq<Block>, w: nat, i: nat, r: nat)
    requires Words(blocks, w) && i < |blocks| && r < w && Shr(blocks[i], r) == Zeros(w)
    ensures i * w >= 0
    ensures forall q :: i * w + r <= q < i * w + w ==> !Bit(blocks, w, q)
  {
    MulMono(0, i, w);
    forall q | i * w + r <= q < i * w + w ensures !Bit(blocks, w, q) {
      BitAt(blocks, w, i, q - i * w);
      assert !Shr(blocks[i], r)[q - i * w - r];
    }
  }

  /** The positions below `n` whose bit is set, in ascending order. */
  ghost function SetBits(c: seq<bool>, n: nat): seq<nat>
    requires n <= |c|
  {
    if n == 0 then [] else SetBits(c, n - 1) + if c[n - 1] then [n - 1] else []
  }

  lemma {:induction false} NoneBetween(c: seq<bool>, lo: nat, hi: nat)
    requires lo <= hi <= |c| && forall q :: lo <= q < hi ==> !c[q]
    ensures SetBits(c, hi) == SetBits(c, lo)
    decreases hi
  {
    if lo < hi {
      NoneBetween(c, lo, hi - 1);
    }
  }

  lemma SetBitsNext(c: seq<bool>, p: nat, hi: nat)
    requires p < hi <= |c| && c[p] && forall q :: p < q < hi ==> !c[q]
    ensures SetBits(c, hi) == SetBits(c, p) + [p]
  {
    NoneBetween(c, p + 1, hi);
  }

  lemma {:induction false} SetBitsPrefix(c: seq<bool>, m: nat, n: nat)
    requires m <= n <= |c|
    ensures SetBits(c, m) <= SetBits(c, n)
    decreases n
  {
    if m < n {
      SetBitsPrefix(c, m, n - 1);
    }
  }

  /** The list names each set bit once, in order. */
  lemma {:induction false} SetBitsAreAll(c: seq<bool>, n: nat)
    requires n <= |c|
    ensures forall p :: p in SetBits(c, n) <==> 0 <= p < n && c[p]
    ensures forall i, j :: 0 <= i < j < |SetBits(c, n)| ==> SetBits(c, n)[i] < SetBits(c, n)[j]
  {
    if n > 0 {
      SetBitsAreAll(c, n - 1);
      var s := SetBits(c, n - 1);
      assert forall i :: 0 <= i < |s| ==> s[i] in s;
    }
  }

  // ----- Strings

  /** The text of a row of bits, the last bit first. */
  function Text(c: seq<bool>, zero: char, one: char): (s: string)
    ensures |s| == |c|
  {
    seq(|c|, i requires 0 <= i < |c| => if c[|c| - 1 - i] then one else zero)
  }

  /** A text read as a number in binary notation, the usual way round. */
  function Binary(s: string, one: char): nat {
    if s == [] then 0 else 2 * Binary(s[..|s| - 1], one) + if s[|s| - 1] == one then 1 else 0
  }

  /** The text of a row of bits is its value in binary notation. */
  lemma {:induction false} TextIsBinary(c: seq<bool>, zero: char, one: char)
    requires zero != one
    ensures Binary(Text(c, zero, one), one) == Value(c)
  {
    if c != [] {
      var s := Text(c, zero, one);
      TextIsBinary(c[1..], zero, one);
      assert s[..|s| - 1] == Text(c[1..], zero, one);
    }
  }

  /** The bits a text stands for. */
  function Parse(s: string, one: char): (c: seq<bool>)
    ensures |c| == |s|
  {
    seq(|s|, p requires 0 <= p < |s| => s[|s| - 1 - p] == one)
  }

  lemma ParseText(c: seq<bool>, zero: char, one: char)
    requires zero != one
    ensures Parse(Text(c, zero, one), one) == c
  {
  }

  lemma TextParse(s: string, zero: char, one: char)
    requires forall i :: 0 <= i < |s| ==> s[i] == zero || s[i] == one
    ensures Text(Parse(s, one), zero, one) == s
  {
  }

  /** Position `p` is one of the first `limit` bits of the word that starts at `start`, and set. */
  predicate Marked(word: Block, start: nat, limit: nat, p: int) {
    start <= p < start + limit && p < start + |word| && word[p - start]
  }

  /** The text shows the bits below `hi`. */
  ghost predicate TextUpTo(blocks: seq<Block>, w: nat, s: string, hi: nat, zero: char, one: char)
    requires Words(blocks, w)
  {
    forall k :: 0 <= k < |s| ==> s[k] == if |s| - 1 - k < hi && Bit(blocks, w, |s| - 1 - k) then one else zero
  }

  lemma TextStep(blocks: seq<Block>, w: nat, size: nat, i: nat, s: string, r: string, zero: char, one: char)
    requires Consistent(blocks, w, size) && i < |blocks| && |r| == |s| == size
    requires 0 <= i * w < size && TextUpTo(blocks, w, s, i * w, zero, one)
    requires forall k :: 0 <= k < |s| ==>
               r[k] == if Marked(blocks[i], i * w, size - i * w, |s| - 1 - k) then one else s[k]
    ensures TextUpTo(blocks, w, r, i * w + w, zero, one)
  {
    WordStart(blocks, w, size, i);
    var start := i * w;
    forall k | 0 <= k < |s|
      ensures r[k] == if |s| - 1 - k < start + w && Bit(blocks, w, |s| - 1 - k) then one else zero
    {
      var p := |s| - 1 - k;
      assert start <= p < start + w ==> Bit(blocks, w, p) == blocks[i][p - start];
    }
  }

  /** A mask of one bit finds out whether that bit is set; past the word it finds nothing. */
  lemma MaskBit(b: Block, w: nat, k: nat)
    requires w > 0 && |b| == w
    ensures And(b, Shl(FromBool(w, true), k)) != Zeros(w) <==> k < w && b[k]
  {
    var m := And(b, Shl(FromBool(w, true), k));
    if k < w && b[k] {
      assert m[k] && !Zeros(w)[k];
    } else {
      assert forall r :: 0 <= r < w ==> !m[r];
    }
  }

  lemma ShlOnce(w: nat, k: nat)
    requires w > 0
    ensures Shl(Shl(FromBool(w, true), k), 1) == Shl(FromBool(w, true), k + 1)
  {
  }

  /** Where word `i` starts and which bits it holds. */
  lemma WordStart(blocks: seq<Block>, w: nat, size: nat, i: nat)
    requires Consistent(blocks, w, size) && i < |blocks|
    ensures 0 <= i * w < size && (i + 1) * w == i * w + w
    ensures forall p :: i * w <= p < i * w + w ==> Bit(blocks, w, p) == blocks[i][p - i * w]
  {
    MulMono(0, i, w);
    var n, e := Split(size, w);
    PositionOrder(w, i, 0, n, e);
    forall p | i * w <= p < i * w + w ensures Bit(blocks, w, p) == blocks[i][p - i * w] {
      BitAt(blocks, w, i, p - i * w);
    }
  }
}

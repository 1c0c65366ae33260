/**
 A bit vector packed into words of `w` bits. Every operation keeps the words exact and the unused bits zero,
 and does to the bits what the plain operation on a sequence of booleans does.
 */
module DynamicBitset {
  import opened Wrappers
  import opened ModArith
  import opened Bits
  import opened BitsetOps

  class DynamicBitset {
    const w: nat
    var blocks: seq<Block>
    var size: nat

    ghost predicate Valid()
      reads this
    {
      Consistent(blocks, w, size)
    }

    ghost function Abs(): (c: seq<bool>)
      reads this
      requires Valid()
      ensures |c| == size
    {
      Contents(blocks, w, size)
    }

    constructor (width: nat)
      requires width > 0
      ensures Valid() && w == width && Abs() == []
    {
      w := width;
      blocks := [];
      size := 0;
    }

    /** Clears the unused bits of the last word. */
    method Sanitize()
      requires Words(blocks, w) && |blocks| == BlocksRequired(w, size)
      modifies this`blocks
      ensures blocks == Cleaned(old(blocks), w, size)
      ensures Valid() && Abs() == Contents(old(blocks), w, size)
    {
      CleanedConsistent(blocks, w, size);
      var shift := size % w;
      if shift > 0 {
        var k := |blocks| - 1;
        blocks := blocks[k := And(blocks[k], Not(Shl(Ones(w), shift)))];
      }
    }

    method Resize(nbits: nat, value: bool)
      requires Valid()
      modifies this
      ensures Valid()
      ensures Abs() == if nbits <= old(size) then old(Abs())[..nbits]
                       else old(Abs()) + seq(nbits - old(size), _ => value)
    {
      if nbits == size {
        return;
      }
      ResizedContents(blocks, w, size, nbits, value);
      ghost var target := Resized(blocks, w, size, nbits, value);
      var oldNum, newNum := |blocks|, BlocksRequired(w, nbits);
      var init := if value then Ones(w) else Zeros(w);
      if newNum < oldNum {
        blocks := blocks[..newNum];
      } else {
        blocks := blocks + seq(newNum - oldNum, _ => init);
      }
      if value && nbits > size && oldNum > 0 {
        BlocksRequiredMono(w, size, nbits);
        var extra := size % w;
        if extra > 0 {
          blocks := blocks[oldNum - 1 := Or(blocks[oldNum - 1], Shl(init, extra))];
        }
      }
      assert blocks == target;
      size := nbits;
      Sanitize();
    }

    /** The words with bit `pos` set to `value`. */
    function WithBit(pos: nat, value: bool): seq<Block>
      reads this
      requires Words(blocks, w) && pos / w < |blocks|
    {
      var mask := Shl(FromBool(w, true), pos % w);
      var b := blocks[pos / w];
      blocks[pos / w := if value then Or(b, mask) else And(b, Not(mask))]
    }

    method Set(pos: nat, value: bool)
      requires Valid() && pos < size
      modifies this`blocks
      ensures Valid() && Abs() == old(Abs())[pos := value]
    {
      IndexInside(w, pos, size);
      ghost var before := blocks;
      blocks := WithBit(pos, value);
      SetBitIsRangeSet(before, w, pos, blocks[pos / w], value);
      RangeSetContents(before, blocks, w, size, pos, pos + 1, value);
    }

    method PushBack(value: bool)
      requires Valid()
      modifies this
      ensures Valid() && Abs() == old(Abs()) + [value]
    {
      CapacityIff(w, size);
      PushedContents(blocks, w, size, value);
      ghost var target := Pushed(blocks, w, size, value);
      if size + 1 <= |blocks| * w {
        if value {
          blocks := WithBit(size, value);
        }
      } else {
        blocks := blocks + [FromBool(w, value)];
      }
      assert blocks == target;
      size := size + 1;
    }

    method PopBack()
      requires Valid()
      modifies this
      ensures Valid() && Abs() == if old(size) == 0 then [] else old(Abs())[..old(size) - 1]
    {
      if size == 0 {
        return;
      }
      ghost var before := blocks;
      size := size - 1;
      if |blocks| > BlocksRequired(w, size) {
        blocks := blocks[..|blocks| - 1];
        PoppedContents(before, w, size);
      } else {
        BlocksRequiredMono(w, size, size + 1);
        Sanitize();
      }
    }

    // ----- Appending

    method AppendBlock(b: Block)
      requires Valid() && |b| == w
      modifies this
      ensures blocks == Appended(old(blocks), w, old(size), b) && size == old(size) + w
      ensures Valid() && Abs() == old(Abs()) + b
    {
      AppendedConsistent(blocks, w, size, b);
      var extra := size % w;
      if extra == 0 {
        blocks := blocks + [b];
      } else {
        var k := |blocks| - 1;
        blocks := blocks[k := Or(blocks[k], Shl(b, extra))];
        blocks := blocks + [Shr(b, w - extra)];
      }
      size := size + w;
    }

    /** Appends a run of words, carrying the bits that do not fit into the word before. */
    method AppendRange(bs: seq<Block>)
      requires Valid() && Words(bs, w)
      modifies this
      ensures size == old(size) + |bs| * w
      ensures Valid() && blocks == AppendedAll(old(blocks), w, old(size), bs)
    {
      if bs == [] {
        return;
      }
      if size % w == 0 {
        AppendedAligned(blocks, w, size, bs);
        blocks := blocks + bs;
        size := size + |bs| * w;
      } else {
        AppendCarrying(bs);
      }
    }

    method AppendCarrying(bs: seq<Block>)
      requires Valid() && Words(bs, w) && bs != [] && size % w > 0
      modifies this
      ensures size == old(size) + |bs| * w
      ensures Valid() && blocks == AppendedAll(old(blocks), w, old(size), bs)
    {
      ghost var before, n := blocks, size;
      var extra, unused := size % w, w - size % w;
      var k := |blocks| - 1;
      blocks := blocks[k := Or(blocks[k], Shl(bs[0], extra))];
      var carry := Shr(bs[0], unused);
      AppendedFirst(before, w, n, bs);
      for i := 1 to |bs|
        invariant |carry| == w && blocks + [carry] == AppendedAll(before, w, n, bs[..i])
        invariant size + w == n + i * w
      {
        CarryOn(before, w, n, bs, i, blocks, carry, extra);
        MulSucc(i, w);
        carry := Or(carry, Shl(bs[i], extra));
        blocks := blocks + [carry];
        size := size + w;
        carry := Shr(bs[i], unused);
      }
      blocks := blocks + [carry];
      size := size + w;
      assert bs[..|bs|] == bs;
    }

    method AppendOther(other: DynamicBitset)
      requires Valid() && other != this && other.Valid() && other.w == w
      modifies this
      ensures Valid() && Abs() == old(Abs()) + other.Abs()
    {
      var finalSize := size + other.size;
      AppendedAllContents(blocks, w, size, other.blocks, other.size);
      BlocksCover(w, other.size);
      AppendRange(other.blocks);
      Resize(finalSize, false);
    }

    /** Appends a bitset to itself, word by word, while its last word changes. */
    method AppendSelf()
      requires Valid()
      modifies this
      ensures Valid() && Abs() == old(Abs()) + old(Abs())
    {
      var finalSize, blockNum := size + size, |blocks|;
      ghost var c, n := Abs(), size;
      BlocksCover(w, n);
      for i := 0 to blockNum
        invariant Valid() && size == n + i * w && |blocks| == blockNum + i
        invariant Abs()[..n] == c
        invariant forall q :: 0 <= q < n && q < i * w ==> Abs()[n + q] == c[q]
      {
        ghost var abs := Abs();
        ReadWord(blocks, w, size, i, n);
        var b := blocks[i];
        AppendBlock(b);
        MulSucc(i, w);
      }
      Resize(finalSize, false);
    }

    // ----- Shifting

    /** Moves whole words up in place, from the last one down, so that no word is read after it is written. */
    method MoveWordsUp(bs: nat)
      requires Words(blocks, w) && bs < |blocks|
      modifies this`blocks
      ensures |blocks| == |old(blocks)|
      ensures forall k :: bs <= k < |blocks| ==> blocks[k] == ShiftedUp(old(blocks), w, bs, 0, k)
    {
      ghost var before := blocks;
      var i := |blocks| - 1;
      while i >= bs
        invariant bs - 1 <= i < |blocks| == |before|
        invariant forall k :: i < k < |blocks| ==> blocks[k] == before[k - bs]
        invariant forall k :: 0 <= k <= i ==> blocks[k] == before[k]
      {
        blocks := blocks[i := blocks[i - bs]];
        i := i - 1;
      }
    }

    /** The same when the bits move within the words as well. */
    method MoveBitsUp(bs: nat, off: nat)
      requires Words(blocks, w) && bs < |blocks| && 0 < off < w
      modifies this`blocks
      ensures |blocks| == |old(blocks)|
      ensures forall k :: bs <= k < |blocks| ==> blocks[k] == ShiftedUp(old(blocks), w, bs, off, k)
    {
      ghost var before := blocks;
      var i := |blocks| - 1;
      while i > bs
        invariant bs <= i < |blocks| == |before|
        invariant forall k :: i < k < |blocks| ==> blocks[k] == ShiftedUp(before, w, bs, off, k)
        invariant forall k :: 0 <= k <= i ==> blocks[k] == before[k]
      {
        blocks := blocks[i := Or(Shl(blocks[i - bs], off), Shr(blocks[i - bs - 1], w - off))];
        i := i - 1;
      }
      blocks := blocks[bs := Shl(blocks[0], off)];
    }

    method ClearWords(lo: nat, hi: nat)
      requires lo <= hi <= |blocks|
      modifies this`blocks
      ensures |blocks| == |old(blocks)|
      ensures forall k :: 0 <= k < |blocks| ==> blocks[k] == if lo <= k < hi then Zeros(w) else old(blocks)[k]
    {
      for j := lo to hi
        invariant |blocks| == |old(blocks)|
        invariant forall k :: 0 <= k < |blocks| ==> blocks[k] == if lo <= k < j then Zeros(w) else old(blocks)[k]
      {
        blocks := blocks[j := Zeros(w)];
      }
    }

    method ApplyLeftShift(shift: nat)
      requires Valid() && 0 < shift < size
      modifies this`blocks
      ensures IsShiftedUp(old(blocks), blocks, w, shift / w, shift % w)
    {
      var bs, off := shift / w, shift % w;
      IndexInside(w, shift, size);
      if off == 0 {
        MoveWordsUp(bs);
      } else {
        MoveBitsUp(bs, off);
      }
      ClearWords(0, bs);
    }

    method MoveWordsDown(bs: nat)
      requires Words(blocks, w) && bs < |blocks|
      modifies this`blocks
      ensures |blocks| == |old(blocks)|
      ensures forall k :: 0 <= k < |blocks| - bs ==> blocks[k] == ShiftedDown(old(blocks), w, bs, 0, k)
    {
      ghost var before := blocks;
      for i := 0 to |blocks| - bs
        invariant |blocks| == |before|
        invariant forall k :: 0 <= k < i ==> blocks[k] == before[k + bs]
        invariant forall k :: i <= k < |blocks| ==> blocks[k] == before[k]
      {
        blocks := blocks[i := blocks[i + bs]];
      }
    }

    method MoveBitsDown(bs: nat, off: nat)
      requires Words(blocks, w) && bs < |blocks| && 0 < off < w
      modifies this`blocks
      ensures |blocks| == |old(blocks)|
      ensures forall k :: 0 <= k < |blocks| - bs ==> blocks[k] == ShiftedDown(old(blocks), w, bs, off, k)
    {
      ghost var before := blocks;
      var last := |blocks| - bs - 1;
      for i := 0 to last
        invariant |blocks| == |before|
        invariant forall k :: 0 <= k < i ==> blocks[k] == ShiftedDown(before, w, bs, off, k)
        invariant forall k :: i <= k < |blocks| ==> blocks[k] == before[k]
      {
        blocks := blocks[i := Or(Shr(blocks[i + bs], off), Shl(blocks[i + bs + 1], w - off))];
      }
      blocks := blocks[last := Shr(blocks[|blocks| - 1], off)];
    }

    method ApplyRightShift(shift: nat)
      requires Valid() && 0 < shift < size
      modifies this`blocks
      ensures IsShiftedDown(old(blocks), blocks, w, shift / w, shift % w)
    {
      var bs, off := shift / w, shift % w;
      IndexInside(w, shift, size);
      if off == 0 {
        MoveWordsDown(bs);
      } else {
        MoveBitsDown(bs, off);
      }
      ClearWords(|blocks| - bs, |blocks|);
    }

    /** Clears all bits. */
    method Reset()
      requires Valid()
      modifies this`blocks
      ensures Valid() && Abs() == seq(size, _ => false)
    {
      blocks := seq(|blocks|, _ => Zeros(w));
      ZeroRow(blocks, w);
    }

    method ShiftLeft(shift: nat)
      requires Valid()
      modifies this`blocks
      ensures Valid() && Abs() == UpBy(old(Abs()), shift)
    {
      if shift != 0 {
        if shift >= size {
          Reset();
        } else {
          ghost var before := blocks;
          ApplyLeftShift(shift);
          ShiftedUpContents(before, blocks, w, size, shift);
          Sanitize();
        }
      }
    }

    method ShiftRight(shift: nat)
      requires Valid()
      modifies this`blocks
      ensures Valid() && Abs() == DownBy(old(Abs()), shift)
    {
      if shift != 0 {
        if shift >= size {
          Reset();
        } else {
          ghost var before := blocks;
          ApplyRightShift(shift);
          ShiftedDownContents(before, blocks, w, size, shift);
        }
      }
    }

    // ----- Setting a range

    /** Sets the bits `lo` to `hi`: partial words at the ends through masks, full words in between. */
    method SetBlocks(firstBlock: nat, firstBit: nat, lastBlock: nat, lastBit: nat, value: bool)
      requires Words(blocks, w) && firstBlock < lastBlock < |blocks| && firstBit < w && lastBit < w
      modifies this`blocks
      ensures |blocks| == |old(blocks)| && Words(blocks, w)
      ensures forall i, r :: 0 <= i < |blocks| && 0 <= r < w ==>
                blocks[i][r] == if (firstBlock < i || (firstBlock == i && firstBit <= r))
                                && (i < lastBlock || (i == lastBlock && r <= lastBit))
                                then value else old(blocks)[i][r]
    {
      ghost var before := blocks;
      var firstFull, lastFull := firstBlock, lastBlock;
      if firstBit != 0 {
        firstFull := firstFull + 1;
        blocks := blocks[firstBlock := SetBlockBits(blocks[firstBlock], firstBit, w - 1, value)];
      }
      if lastBit != w - 1 {
        lastFull := lastFull - 1;
        blocks := blocks[lastBlock := SetBlockBits(blocks[lastBlock], 0, lastBit, value)];
      }
      ghost var ends := blocks;
      var full := if value then Ones(w) else Zeros(w);
      for i := firstFull to lastFull + 1
        invariant |blocks| == |before|
        invariant forall k :: 0 <= k < |blocks| ==> blocks[k] == if firstFull <= k < i then full else ends[k]
      {
        blocks := blocks[i := full];
      }
    }

    method SetRange(pos: nat, len: nat, value: bool)
      requires Valid() && pos < size && pos + len <= size
      modifies this`blocks
      ensures Valid()
      ensures Abs() == old(Abs())[..pos] + seq(len, _ => value) + old(Abs())[pos + len..]
    {
      if len == 0 {
        return;
      }
      ghost var before := blocks;
      var last := pos + len - 1;
      IndexInside(w, pos, size);
      IndexInside(w, last, size);
      BlockOrder(w, pos, last);
      var firstBlock, lastBlock := pos / w, last / w;
      var firstBit, lastBit := pos % w, last % w;
      if firstBlock == lastBlock {
        blocks := blocks[firstBlock := SetBlockBits(blocks[firstBlock], firstBit, lastBit, value)];
      } else {
        SetBlocks(firstBlock, firstBit, lastBlock, lastBit, value);
      }
      WordsAreRangeSet(before, blocks, w, pos, last, value);
      RangeSetContents(before, blocks, w, size, pos, pos + len, value);
    }

    // ----- Searching

    /** The lowest set bit of a word that has one. */
    static method TrailingZeros(b: Block) returns (n: nat)
      requires exists k :: 0 <= k < |b| && b[k]
      ensures n < |b| && b[n] && forall k :: 0 <= k < n ==> !b[k]
    {
      n := 0;
      while !b[n]
        invariant n < |b| && forall k :: 0 <= k < n ==> !b[k]
        decreases |b| - n
      {
        n := n + 1;
      }
    }

    /** The first set bit in the words from `from` on; `None` stands for the largest position. */
    method ScanFrom(from: nat) returns (r: Option<nat>)
      requires Words(blocks, w) && from <= |blocks|
      ensures match r
              case Some(p) => from * w <= p && Bit(blocks, w, p) && forall q :: from * w <= q < p ==> !Bit(blocks, w, q)
              case None => forall q :: from * w <= q ==> !Bit(blocks, w, q)
    {
      for i := from to |blocks|
        invariant forall q :: from * w <= q < i * w ==> !Bit(blocks, w, q)
      {
        if blocks[i] != Zeros(w) {
          NonZeroWord(blocks[i]);
          var n := TrailingZeros(blocks[i]);
          FoundInWord(blocks, w, from, i, n);
          return Some(i * w + n);
        }
        ZeroWord(blocks, w, i);
      }
      PastEnd(blocks, w);
      r := None;
    }

    method FindFirst() returns (r: Option<nat>)
      requires Valid()
      ensures match r
              case Some(p) => p < size && Abs()[p] && forall q :: 0 <= q < p ==> !Abs()[q]
              case None => forall q :: 0 <= q < size ==> !Abs()[q]
    {
      r := ScanFrom(0);
    }

    method FindNext(prev: nat) returns (r: Option<nat>)
      requires Valid()
      ensures match r
              case Some(p) => prev < p < size && Abs()[p] && forall q :: prev < q < p ==> !Abs()[q]
              case None => forall q :: prev < q < size ==> !Abs()[q]
    {
      if size == 0 || prev >= size - 1 {
        return None;
      }
      IndexInside(w, prev + 1, size);
      r := NextBit(prev + 1);
    }

    /** The first set bit from `firstBit` on: in its own word, shifted down, or in a later word. */
    method NextBit(firstBit: nat) returns (r: Option<nat>)
      requires Words(blocks, w) && firstBit / w < |blocks|
      ensures match r
              case Some(p) => firstBit <= p && Bit(blocks, w, p) && forall q :: firstBit <= q < p ==> !Bit(blocks, w, q)
              case None => forall q :: firstBit <= q ==> !Bit(blocks, w, q)
    {
      var firstBlock := firstBit / w;
      var shifted := Shr(blocks[firstBlock], firstBit % w);
      if shifted != Zeros(w) {
        NonZeroWord(shifted);
        var n := TrailingZeros(shifted);
        FoundInShifted(blocks, w, firstBit, n);
        return Some(firstBit + n);
      }
      NothingInShifted(blocks, w, firstBit, firstBlock, firstBit % w);
      r := ScanFrom(firstBlock + 1);
    }

    /**
     Visits the set bits one after the other until the callback returns false; `visited` lists the positions handed
     to it. A callback without a result is one that always returns true.
     */
    method IterateBitsOn(callback: nat -> bool) returns (visited: seq<nat>)
      requires Valid()
      ensures visited <= SetBits(Abs(), size)
      ensures forall i :: 0 <= i < |visited| - 1 ==> callback(visited[i])
      ensures visited == SetBits(Abs(), size) || (visited != [] && !callback(visited[|visited| - 1]))
    {
      visited := [];
      var bit := FindFirst();
      NoneBetween(Abs(), 0, if bit.Some? then bit.value else size);
      while bit.Some?
        invariant bit.Some? ==> bit.value < size && Abs()[bit.value] && visited == SetBits(Abs(), bit.value)
        invariant bit.None? ==> visited == SetBits(Abs(), size)
        invariant forall i :: 0 <= i < |visited| ==> callback(visited[i])
        decreases if bit.Some? then size - bit.value else -1
      {
        var p := bit.value;
        visited := visited + [p];
        if !callback(p) {
          SetBitsPrefix(Abs(), p + 1, size);
          return;
        }
        bit := FindNext(p);
        SetBitsNext(Abs(), p, if bit.Some? then bit.value else size);
      }
    }

    // ----- Strings

    /** Marks the bits of a word that starts at bit `start`; the mask runs out after the last bit of the word. */
    static method WriteWord(word: Block, text: string, start: nat, limit: nat, one: char) returns (r: string)
      requires word != [] && start + limit <= |text|
      ensures |r| == |text|
      ensures forall k :: 0 <= k < |text| ==>
                r[k] == if Marked(word, start, limit, |text| - 1 - k) then one else text[k]
    {
      r := text;
      var w := |word|;
      var mask := FromBool(w, true);
      for b := 0 to limit
        invariant |r| == |text| && mask == Shl(FromBool(w, true), b)
        invariant forall k :: 0 <= k < |text| ==>
                    r[k] == if Marked(word, start, b, |text| - 1 - k) then one else text[k]
      {
        MaskBit(word, w, b);
        if And(word, mask) != Zeros(w) {
          r := r[|text| - (start + b + 1) := one];
        }
        mask := Shl(mask, 1);
        ShlOnce(w, b);
      }
    }

    method ToString(zero: char, one: char) returns (s: string)
      requires Valid()
      ensures s == Text(Abs(), zero, one)
    {
      var len := size;
      s := seq(len, _ => zero);
      var start := 0;
      for i := 0 to |blocks|
        invariant |s| == len && start == i * w
        invariant TextUpTo(blocks, w, s, start, zero, one)
      {
        WordStart(blocks, w, size, i);
        ghost var before := s;
        if blocks[i] != Zeros(w) {
          s := WriteWord(blocks[i], s, start, len - start, one);
        }
        TextStep(blocks, w, size, i, before, s, zero, one);
        start := start + w;
      }
      BlocksCover(w, size);
    }

    /** Reads a bitset from `n` characters of a text, the last character being bit 0. */
    method InitFromString(str: string, pos: nat, n: nat, zero: char, one: char)
      requires w > 0 && pos < |str|
      modifies this
      ensures Valid()
      ensures var m := if n < |str| - pos then n else |str| - pos; Abs() == Parse(str[pos..pos + m], one)
    {
      var m := if n < |str| - pos then n else |str| - pos;
      size := m;
      blocks := seq(BlocksRequired(w, m), _ => Zeros(w));
      ZeroRow(blocks, w);
      for i := 0 to m
        invariant Valid() && size == m
        invariant forall p :: 0 <= p < m ==> Abs()[p] == (p < i && str[pos + m - 1 - p] == one)
      {
        if str[pos + m - 1 - i] == one {
          Set(i, true);
        }
      }
    }
  }
}

/**
 Conversions between kinds of oblivious transfer: correlated to random (each side hashes its
 blocks) and random to chosen-message (the receiver masks its choices, the sender masks its messages, batch
 by batch). Blocks are 128-bit words given by their numeric values.
 */
module OtKernel {
  import opened MachineWords

  type Word = nat

  // ----- Correlated transfers

  /** The block for message bit `msg`, from what the sender holds: one block per transfer and the common difference. */
  function CotBlock(blocks: seq<Word>, delta: Word, i: nat, msg: bool): Word
    requires i < |blocks|
  {
    Xor(blocks[i], if msg then delta else 0)
  }

  /** The receiver's choice is the lowest bit of its block. */
  function Choice(b: Word): bool {
    b % 2 == 1
  }

  lemma CotBlocks(blocks: seq<Word>, delta: Word, i: nat)
    requires i < |blocks|
    ensures CotBlock(blocks, delta, i, false) == blocks[i]
    ensures CotBlock(blocks, delta, i, true) == Xor(blocks[i], delta)
  {
    XorZero(blocks[i]);
  }

  /** The receiver's block of each transfer is the sender's block, shifted by the difference if that is its choice. */
  ghost predicate Correlated(blocks: seq<Word>, delta: Word, mine: seq<Word>) {
    && |mine| == |blocks|
    && forall i :: 0 <= i < |mine| ==> mine[i] == if Choice(mine[i]) then Xor(blocks[i], delta) else blocks[i]
  }

  /** A random transfer: the receiver knows the block of its choice. */
  ghost predicate RandomOt(keys: seq<Word>, choices: seq<bool>, mine: seq<Word>) {
    && |keys| == 2 * |choices| && |mine| == |choices|
    && forall i :: 0 <= i < |choices| ==> mine[i] == keys[2 * i + if choices[i] then 1 else 0]
  }

  /** The sender's side: the two keys of a transfer are the hashes of its block and of the block with the difference. */
  method CotToRotSend(blocks: seq<Word>, delta: Word, hash: Word -> Word, rot: array<Word>)
    requires rot.Length == 2 * |blocks|
    modifies rot
    ensures forall i :: 0 <= i < |blocks| ==>
              rot[2 * i] == hash(blocks[i]) && rot[2 * i + 1] == hash(Xor(blocks[i], delta))
  {
    for i := 0 to |blocks|
      invariant forall k :: 0 <= k < i ==>
                  rot[2 * k] == hash(blocks[k]) && rot[2 * k + 1] == hash(Xor(blocks[k], delta))
    {
      CotBlocks(blocks, delta, i);
      rot[2 * i] := hash(CotBlock(blocks, delta, i, false));
      rot[2 * i + 1] := hash(CotBlock(blocks, delta, i, true));
    }
  }

  /** The receiver's side: the choices stay, the blocks are hashed. */
  method CotToRotRecv(mine: seq<Word>, hash: Word -> Word) returns (choices: seq<bool>, rot: seq<Word>)
    ensures |choices| == |rot| == |mine|
    ensures forall i :: 0 <= i < |mine| ==> choices[i] == Choice(mine[i]) && rot[i] == hash(mine[i])
  {
    choices, rot := [], [];
    for i := 0 to |mine|
      invariant |choices| == |rot| == i
      invariant forall k :: 0 <= k < i ==> choices[k] == Choice(mine[k]) && rot[k] == hash(mine[k])
    {
      choices := choices + [Choice(mine[i])];
      rot := rot + [hash(mine[i])];
    }
  }

  /** From any correlated pair and any hash the two sides obtain random transfers. */
  lemma CotToRotCorrect(blocks: seq<Word>, delta: Word, mine: seq<Word>, hash: Word -> Word,
                        keys: seq<Word>, choices: seq<bool>, rot: seq<Word>)
    requires Correlated(blocks, delta, mine)
    requires |keys| == 2 * |blocks| && |choices| == |rot| == |mine|
    requires forall i :: 0 <= i < |blocks| ==>
               keys[2 * i] == hash(blocks[i]) && keys[2 * i + 1] == hash(Xor(blocks[i], delta))
    requires forall i :: 0 <= i < |mine| ==> choices[i] == Choice(mine[i]) && rot[i] == hash(mine[i])
    ensures RandomOt(keys, choices, rot)
  {
    forall i | 0 <= i < |choices| ensures rot[i] == keys[2 * i + if choices[i] then 1 else 0] {
      assert keys[2 * i] == hash(blocks[i]) && keys[2 * i + 1] == hash(Xor(blocks[i], delta));
    }
  }

  /**
   When blocks are even and the difference is odd, the lowest bit of the block the receiver obtains for choice `c`
   is `c`, so the choice can be read back from it.
   */
  lemma ChoiceIsLowBit(block: Word, delta: Word, c: bool)
    requires block % 2 == 0 && delta % 2 == 1
    ensures Choice(Xor(block, if c then delta else 0)) == c
  {
    var d := if c then delta else 0;
    XorHalves(block, d);
    LowBit(Xor(block, d), block, d, c);
  }

  lemma LowBit(x: nat, block: nat, d: nat, c: bool)
    requires x % 2 == (block + d) % 2 && block % 2 == 0 && d % 2 == if c then 1 else 0
    ensures Choice(x) == c
  {
  }

  // ----- Chosen messages

  type Pair = (Word, Word)

  function Pick(p: Pair, c: bool): Word {
    if c then p.1 else p.0
  }

  /** The masked pair the sender sends for one transfer. */
  function MaskPair(k0: Word, k1: Word, masked: bool, m: Pair): Pair {
    if !masked then (Xor(k0, m.0), Xor(k1, m.1)) else (Xor(k1, m.0), Xor(k0, m.1))
  }

  /** The receiver unmasks exactly the message of its choice. */
  lemma UnmaskPair(k0: Word, k1: Word, bit: bool, c: bool, m: Pair)
    ensures Xor(Pick(MaskPair(k0, k1, bit != c, m), c), if bit then k1 else k0) == Pick(m, c)
  {
    var k := if bit then k1 else k0;
    assert Pick(MaskPair(k0, k1, bit != c, m), c) == Xor(k, Pick(m, c));
    XorCommutes(k, Pick(m, c));
    XorCancels(Pick(m, c), k);
  }

  /** Masks the transfers from `from` on, `limit` of them. */
  method SendBatch(keys: seq<Word>, masked: seq<bool>, msgs: seq<Pair>, from: nat, limit: nat)
    returns (batch: seq<Pair>)
    requires |keys| == 2 * |msgs| && |masked| == |msgs| && from + limit <= |msgs|
    ensures |batch| == limit
    ensures forall j :: 0 <= j < limit ==>
              batch[j] == MaskPair(keys[2 * (from + j)], keys[2 * (from + j) + 1], masked[from + j], msgs[from + j])
  {
    batch := [];
    for j := 0 to limit
      invariant |batch| == j
      invariant forall k :: 0 <= k < j ==>
                  batch[k] == MaskPair(keys[2 * (from + k)], keys[2 * (from + k) + 1], masked[from + k], msgs[from + k])
    {
      var idx := from + j;
      var pair: Pair;
      if !masked[idx] {
        pair := (Xor(keys[2 * idx], msgs[idx].0), Xor(keys[2 * idx + 1], msgs[idx].1));
      } else {
        pair := (Xor(keys[2 * idx + 1], msgs[idx].0), Xor(keys[2 * idx], msgs[idx].1));
      }
      batch := batch + [pair];
    }
  }

  /** Unmasks one batch into `out`, at its own positions. */
  method RecvBatch(batch: seq<Pair>, mine: seq<Word>, choices: seq<bool>, out: array<Word>, from: nat)
    requires |mine| == |choices| == out.Length && from + |batch| <= out.Length
    modifies out
    ensures forall i :: 0 <= i < out.Length ==>
              out[i] == if from <= i < from + |batch| then Xor(Pick(batch[i - from], choices[i]), mine[i])
                        else old(out[i])
  {
    for j := 0 to |batch|
      invariant forall i :: 0 <= i < out.Length ==>
                  out[i] == if from <= i < from + j then Xor(Pick(batch[i - from], choices[i]), mine[i])
                            else old(out[i])
    {
      out[from + j] := Xor(Pick(batch[j], choices[from + j]), mine[from + j]);
    }
  }

  function Min(a: nat, b: nat): nat {
    if a < b then a else b
  }

  /**
   Both sides of the conversion from random to chosen-message transfers, over batches of `size` transfers of which the
   last may be short: the receiver ends up with the message of its choice in every transfer.
   */
  method RotToOt(keys: seq<Word>, msgs: seq<Pair>, bits: seq<bool>, mine: seq<Word>, choices: seq<bool>, size: nat)
    returns (out: array<Word>)
    requires size > 0 && RandomOt(keys, bits, mine)
    requires |msgs| == |choices| == |bits|
    ensures fresh(out) && out.Length == |msgs|
    ensures forall i :: 0 <= i < |msgs| ==> out[i] == Pick(msgs[i], choices[i])
  {
    var num := |msgs|;
    var masked := seq(num, i requires 0 <= i < num => bits[i] != choices[i]);
    out := new Word[num](_ => 0);
    var done := 0;
    for i := 0 to (num + size - 1) / size
      invariant done == Min(num, i * size)
      invariant forall k :: 0 <= k < done ==> out[k] == Pick(msgs[k], choices[k])
    {
      BatchStart(num, size, i);
      var limit := Min(size, num - i * size);
      var batch := SendBatch(keys, masked, msgs, done, limit);
      RecvBatch(batch, mine, choices, out, done);
      forall k | done <= k < done + limit ensures out[k] == Pick(msgs[k], choices[k]) {
        UnmaskPair(keys[2 * k], keys[2 * k + 1], bits[k], choices[k], msgs[k]);
        assert batch[k - done] == MaskPair(keys[2 * (done + (k - done))], keys[2 * (done + (k - done)) + 1],
                                           masked[done + (k - done)], msgs[done + (k - done)]);
      }
      done := done + limit;
    }
    BatchesCover(num, size);
  }

  lemma BatchStart(num: nat, size: nat, i: nat)
    requires size > 0 && i < (num + size - 1) / size
    ensures 0 <= i * size < num && (i + 1) * size == i * size + size
  {
    var b := (num + size - 1) / size;
    assert b * size <= num + size - 1;
    assert (b - 1 - i) * size >= 0;
    assert (b - 1) * size == b * size - size;
    assert (b - 1 - i) * size == (b - 1) * size - i * size;
  }

  lemma BatchesCover(num: nat, size: nat)
    requires size > 0
    ensures (num + size - 1) / size * size >= num
  {
  }
}

/**
 Cuckoo hashing of inputs into bins and a small stash: `Insert` moves evicted inputs on to
 their next hash function, reading and compacting one list of candidates in place.
 */
module CuckooIndex {
  import opened MachineWords
  import opened ModArith

  // ----- Bins

  /** The number of input indices a bin can name; the hash index sits above them. */
  const INPUTS: nat := 0x100_0000_0000_0000

  const EMPTY: nat := 0xFFFF_FFFF_FFFF_FFFF

  /** An encoded bin: hash index in the upper 8 of 64 bits, input index in the lower 56. */
  type Bin = nat

  function Encode(inputIdx: nat, hashIdx: nat): Bin {
    inputIdx + hashIdx * INPUTS
  }

  function HashIdx(b: Bin): nat {
    b / INPUTS
  }

  function InputIdx(b: Bin): nat {
    b % INPUTS
  }

  lemma DecodeEncode(inputIdx: nat, hashIdx: nat)
    requires inputIdx < INPUTS && hashIdx < 255
    ensures InputIdx(Encode(inputIdx, hashIdx)) == inputIdx
    ensures HashIdx(Encode(inputIdx, hashIdx)) == hashIdx
    ensures Encode(inputIdx, hashIdx) != EMPTY
  {
  }

  datatype Options = Options(numInput: nat, numStash: nat, numHash: nat, numBins: nat, maxTryCount: nat) {

    predicate Valid() {
      numInput <= INPUTS && 1 <= numHash <= 5 && numBins > 0
    }
  }

  /** Eight bytes of a 128-bit code, two bytes further on for each hash function. */
  function GetHash(code: nat, idx: nat): nat {
    code / Pow2(16 * idx) % 0x1_0000_0000_0000_0000
  }

  /** The hash is a window of 64 bits that starts `16 idx` bits into the code. */
  lemma HashWindow(low: nat, mid: nat, high: nat, idx: nat)
    requires low < Pow2(16 * idx) && mid < 0x1_0000_0000_0000_0000
    ensures GetHash(low + Pow2(16 * idx) * (mid + 0x1_0000_0000_0000_0000 * high), idx) == mid
  {
    var rest := mid + 0x1_0000_0000_0000_0000 * high;
    QuotientUnique(low + Pow2(16 * idx) * rest, rest, low, Pow2(16 * idx));
  }

  /** The bin an encoded candidate belongs to. */
  function Target(opt: Options, hashes: seq<nat>, b: Bin): (k: nat)
    requires opt.Valid() && InputIdx(b) < |hashes|
    ensures k < opt.numBins
  {
    GetHash(hashes[InputIdx(b)], HashIdx(b)) % opt.numBins
  }

  // ----- How often a list of bins holds an input

  function Has(b: Bin, v: nat): nat {
    if b != EMPTY && InputIdx(b) == v then 1 else 0
  }

  function Count(s: seq<Bin>, v: nat): nat {
    if s == [] then 0 else Has(s[0], v) + Count(s[1..], v)
  }

  lemma {:induction false} CountUpdate(s: seq<Bin>, i: nat, b: Bin, v: nat)
    requires i < |s|
    ensures Count(s[i := b], v) == Count(s, v) - Has(s[i], v) + Has(b, v)
  {
    if i == 0 {
      assert s[0 := b][1..] == s[1..];
    } else {
      assert s[i := b][1..] == s[1..][i - 1 := b];
      CountUpdate(s[1..], i - 1, b, v);
    }
  }

  lemma {:induction false} CountConcat(s: seq<Bin>, t: seq<Bin>, v: nat)
    ensures Count(s + t, v) == Count(s, v) + Count(t, v)
  {
    if s == [] {
      assert s + t == t;
    } else {
      assert (s + t)[1..] == s[1..] + t;
      CountConcat(s[1..], t, v);
    }
  }

  lemma CountUpTo(s: seq<Bin>, i: nat, v: nat)
    requires i < |s|
    ensures Count(s[..i + 1], v) == Count(s[..i], v) + Has(s[i], v)
  {
    assert s[..i + 1] == s[..i] + [s[i]];
    CountConcat(s[..i], [s[i]], v);
    assert [s[i]][1..] == [];
  }

  lemma {:induction false} CountAbsent(s: seq<Bin>, v: nat)
    requires forall i :: 0 <= i < |s| ==> Has(s[i], v) == 0
    ensures Count(s, v) == 0
  {
    if s != [] {
      CountAbsent(s[1..], v);
    }
  }

  lemma {:induction false} CountPresent(s: seq<Bin>, i: nat, v: nat)
    requires i < |s| && Has(s[i], v) == 1
    ensures Count(s, v) >= 1
  {
    if i > 0 {
      CountPresent(s[1..], i - 1, v);
    }
  }

  lemma {:induction false} CountWitness(s: seq<Bin>, v: nat) returns (i: nat)
    requires Count(s, v) >= 1
    ensures i < |s| && Has(s[i], v) == 1
  {
    if Has(s[0], v) == 1 {
      i := 0;
    } else {
      i := CountWitness(s[1..], v);
      i := i + 1;
    }
  }

  /** Two places of the same input count twice. */
  lemma {:induction false} CountTwice(s: seq<Bin>, i: nat, j: nat, v: nat)
    requires i < j < |s| && Has(s[i], v) == 1 && Has(s[j], v) == 1
    ensures Count(s, v) >= 2
  {
    if i == 0 {
      CountPresent(s[1..], j - 1, v);
    } else {
      CountTwice(s[1..], i - 1, j - 1, v);
    }
  }

  // ----- The invariant

  /** A candidate names an inserted input and an existing hash function. */
  predicate WellFormed(opt: Options, n: nat, b: Bin) {
    b != EMPTY && InputIdx(b) < n && HashIdx(b) < opt.numHash
  }

  /** Every filled bin holds an input that one of its hash functions sends there. */
  ghost predicate Placed(opt: Options, hashes: seq<nat>, bins: seq<Bin>)
    requires opt.Valid()
  {
    forall k :: 0 <= k < |bins| && bins[k] != EMPTY ==>
      WellFormed(opt, |hashes|, bins[k]) && Target(opt, hashes, bins[k]) == k
  }

  ghost predicate AllWellFormed(opt: Options, n: nat, s: seq<Bin>) {
    forall i :: 0 <= i < |s| ==> WellFormed(opt, n, s[i])
  }

  /**
   Each of the first `n` inputs is in exactly one of the bins, the stash and two lists of candidates,
   and nothing else is anywhere.
   */
  ghost predicate Balanced(bins: seq<Bin>, stash: seq<Bin>, done: seq<Bin>, todo: seq<Bin>, n: nat) {
    forall v :: 0 <= v ==> Total(bins, stash, done, todo, v) == if v < n then 1 else 0
  }

  ghost function Total(bins: seq<Bin>, stash: seq<Bin>, done: seq<Bin>, todo: seq<Bin>, v: nat): nat {
    Count(bins, v) + Count(stash, v) + Count(done, v) + Count(todo, v)
  }

  ghost predicate Conserved(bins: seq<Bin>, stash: seq<Bin>, n: nat) {
    Balanced(bins, stash, [], [], n)
  }

  /** Putting the first candidate into bin `k` passes what was there on to the other list. */
  lemma EvictStep(bins: seq<Bin>, stash: seq<Bin>, done: seq<Bin>, todo: seq<Bin>, n: nat, k: nat, next: Bin)
    requires Balanced(bins, stash, done, todo, n)
    requires k < |bins| && todo != []
    requires bins[k] != EMPTY ==> next != EMPTY && InputIdx(next) == InputIdx(bins[k])
    ensures Balanced(bins[k := todo[0]], stash, if bins[k] == EMPTY then done else done + [next], todo[1..], n)
  {
    var bins', done' := bins[k := todo[0]], if bins[k] == EMPTY then done else done + [next];
    forall v: nat
      ensures Total(bins', stash, done', todo[1..], v) == Total(bins, stash, done, todo, v)
    {
      CountUpdate(bins, k, todo[0], v);
      CountConcat(done, [next], v);
      assert [next][1..] == [];
    }
  }

  /** Moving the first candidate to an empty place of the stash. */
  lemma StashStep(bins: seq<Bin>, stash: seq<Bin>, todo: seq<Bin>, n: nat, k: nat, b: Bin)
    requires Balanced(bins, stash, [], todo, n)
    requires k < |stash| && stash[k] == EMPTY && todo != [] && todo[0] != EMPTY
    requires b != EMPTY && InputIdx(b) == InputIdx(todo[0])
    ensures Balanced(bins, stash[k := b], [], todo[1..], n)
  {
    var stash' := stash[k := b];
    forall v: nat
      ensures Total(bins, stash', [], todo[1..], v) == if v < n then 1 else 0
    {
      assert Total(bins, stash, [], todo, v) == if v < n then 1 else 0;
      CountUpdate(stash, k, b, v);
    }
  }

  lemma {:induction false} FreshCount(from: nat, s: seq<Bin>, v: nat)
    requires from + |s| <= INPUTS
    requires forall i :: 0 <= i < |s| ==> s[i] == from + i
    ensures Count(s, v) == if from <= v < from + |s| then 1 else 0
    decreases |s|
  {
    if s != [] {
      FreshCount(from + 1, s[1..], v);
    }
  }

  /** New inputs enter as candidates for their first hash function. */
  lemma FreshBalanced(bins: seq<Bin>, stash: seq<Bin>, n: nat, todo: seq<Bin>)
    requires Conserved(bins, stash, n)
    requires n + |todo| <= INPUTS
    requires forall i :: 0 <= i < |todo| ==> todo[i] == n + i
    ensures Balanced(bins, stash, [], todo, n + |todo|)
  {
    forall v: nat
      ensures Total(bins, stash, [], todo, v) == if v < n + |todo| then 1 else 0
    {
      assert Total(bins, stash, [], [], v) == if v < n then 1 else 0;
      FreshCount(n, todo, v);
    }
  }

  // ----- What a pass over the candidates computes

  /** Bin `b`'s input, sent on to its next hash function. */
  function Onward(opt: Options, b: Bin): (r: Bin)
    requires opt.Valid()
  {
    Encode(InputIdx(b), (HashIdx(b) + 1) % opt.numHash)
  }

  lemma OnwardIsNext(opt: Options, n: nat, b: Bin)
    requires opt.Valid() && WellFormed(opt, n, b)
    ensures WellFormed(opt, n, Onward(opt, b)) && InputIdx(Onward(opt, b)) == InputIdx(b)
    ensures HashIdx(Onward(opt, b)) == if HashIdx(b) + 1 < opt.numHash then HashIdx(b) + 1 else 0
  {
    DecodeEncode(InputIdx(b), (HashIdx(b) + 1) % opt.numHash);
  }

  /** One candidate put into its bin: the new bins and the candidates this evicts, one or none. */
  function Put(opt: Options, hashes: seq<nat>, bins: seq<Bin>, b: Bin): (r: (seq<Bin>, seq<Bin>))
    requires opt.Valid() && |bins| == opt.numBins && InputIdx(b) < |hashes|
  {
    var k := Target(opt, hashes, b);
    (bins[k := b], if bins[k] == EMPTY then [] else [Onward(opt, bins[k])])
  }

  ghost predicate Ready(opt: Options, hashes: seq<nat>, bins: seq<Bin>, todo: seq<Bin>) {
    opt.Valid() && |bins| == opt.numBins && Placed(opt, hashes, bins) && AllWellFormed(opt, |hashes|, todo)
  }

  lemma PutPlaced(opt: Options, hashes: seq<nat>, bins: seq<Bin>, b: Bin)
    requires opt.Valid() && |bins| == opt.numBins && Placed(opt, hashes, bins) && WellFormed(opt, |hashes|, b)
    ensures var r := Put(opt, hashes, bins, b);
            Placed(opt, hashes, r.0) && AllWellFormed(opt, |hashes|, r.1)
  {
    var k := Target(opt, hashes, b);
    if bins[k] != EMPTY {
      OnwardIsNext(opt, |hashes|, bins[k]);
    }
  }

  /** The first `i` candidates put into their bins one after another, and all that this evicts, in order. */
  ghost function Passed(opt: Options, hashes: seq<nat>, bins: seq<Bin>, todo: seq<Bin>, i: nat)
    : (r: (seq<Bin>, seq<Bin>))
    requires Ready(opt, hashes, bins, todo) && i <= |todo|
    ensures Ready(opt, hashes, r.0, r.1) && |r.1| <= i
  {
    if i == 0 then (bins, [])
    else
      var (b, out) := Passed(opt, hashes, bins, todo, i - 1);
      PutPlaced(opt, hashes, b, todo[i - 1]);
      var (b', evicted) := Put(opt, hashes, b, todo[i - 1]);
      (b', out + evicted)
  }

  /** A pass over `todo` that began with bins `start` has dealt with `i` candidates. */
  ghost predicate Reached(opt: Options, hashes: seq<nat>, start: seq<Bin>, todo: seq<Bin>, i: nat, bins: seq<Bin>,
                          out: seq<Bin>)
  {
    Ready(opt, hashes, start, todo) && i <= |todo| && (bins, out) == Passed(opt, hashes, start, todo, i)
  }

  /** The next step of a pass, which writes `next` where an input was evicted. */
  lemma PassedStep(opt: Options, hashes: seq<nat>, start: seq<Bin>, todo: seq<Bin>, i: nat, bins: seq<Bin>,
                   out: seq<Bin>, k: nat)
    requires Ready(opt, hashes, start, todo) && i < |todo|
    requires (bins, out) == Passed(opt, hashes, start, todo, i) && k == Target(opt, hashes, todo[i])
    ensures Passed(opt, hashes, start, todo, i + 1) ==
            (bins[k := todo[i]], if bins[k] == EMPTY then out else out + [Onward(opt, bins[k])])
  {
    assert out + [] == out;
  }

  /** That many passes, each over what the one before evicted. */
  ghost function Settled(opt: Options, hashes: seq<nat>, bins: seq<Bin>, todo: seq<Bin>, tries: nat)
    : (r: (seq<Bin>, seq<Bin>))
    requires Ready(opt, hashes, bins, todo)
    ensures Ready(opt, hashes, r.0, r.1)
  {
    if tries == 0 then (bins, todo)
    else
      var (b, rest) := Settled(opt, hashes, bins, todo, tries - 1);
      Passed(opt, hashes, b, rest, |rest|)
  }

  /** What is left after passes that go on until there is no candidate or the tries are used up. */
  ghost predicate Settles(opt: Options, hashes: seq<nat>, bins: seq<Bin>, todo: seq<Bin>, r: (seq<Bin>, seq<Bin>)) {
    && Ready(opt, hashes, bins, todo)
    && exists t :: 0 <= t <= opt.maxTryCount && r == Settled(opt, hashes, bins, todo, t)
                && (r.1 == [] || t == opt.maxTryCount)
  }

  lemma PutBalanced(opt: Options, hashes: seq<nat>, bins: seq<Bin>, stash: seq<Bin>, done: seq<Bin>, todo: seq<Bin>)
    requires Ready(opt, hashes, bins, todo) && todo != []
    requires Balanced(bins, stash, done, todo, |hashes|)
    ensures var r := Put(opt, hashes, bins, todo[0]);
            Balanced(r.0, stash, done + r.1, todo[1..], |hashes|)
  {
    var k := Target(opt, hashes, todo[0]);
    if bins[k] != EMPTY {
      OnwardIsNext(opt, |hashes|, bins[k]);
    }
    EvictStep(bins, stash, done, todo, |hashes|, k, Onward(opt, bins[k]));
    assert done + [] == done;
  }

  /** A pass loses no input and duplicates none. */
  lemma {:induction false} PassedBalanced(opt: Options, hashes: seq<nat>, bins: seq<Bin>, stash: seq<Bin>,
                                          todo: seq<Bin>, i: nat)
    requires Ready(opt, hashes, bins, todo) && i <= |todo|
    requires Balanced(bins, stash, [], todo, |hashes|)
    ensures var r := Passed(opt, hashes, bins, todo, i);
            Balanced(r.0, stash, r.1, todo[i..], |hashes|)
  {
    if i == 0 {
      assert todo[0..] == todo;
    } else {
      PassedBalanced(opt, hashes, bins, stash, todo, i - 1);
      var (b, out) := Passed(opt, hashes, bins, todo, i - 1);
      assert todo[i - 1..][0] == todo[i - 1] && todo[i - 1..][1..] == todo[i..];
      PutBalanced(opt, hashes, b, stash, out, todo[i - 1..]);
    }
  }

  lemma {:induction false} SettledBalanced(opt: Options, hashes: seq<nat>, bins: seq<Bin>, stash: seq<Bin>,
                                           todo: seq<Bin>, tries: nat)
    requires Ready(opt, hashes, bins, todo)
    requires Balanced(bins, stash, [], todo, |hashes|)
    ensures var r := Settled(opt, hashes, bins, todo, tries);
            Balanced(r.0, stash, [], r.1, |hashes|)
  {
    if tries > 0 {
      SettledBalanced(opt, hashes, bins, stash, todo, tries - 1);
      var (b, rest) := Settled(opt, hashes, bins, todo, tries - 1);
      PassedBalanced(opt, hashes, b, stash, rest, |rest|);
      var r := Passed(opt, hashes, b, rest, |rest|);
      assert rest[|rest|..] == [];
      SwapLists(r.0, stash, r.1, |hashes|);
    }
  }

  // ----- One eviction

  /** After `t` passes the bins are `b` and no candidate is left. */
  ghost predicate Quiet(opt: Options, hashes: seq<nat>, bins: seq<Bin>, todo: seq<Bin>, t: nat, b: seq<Bin>) {
    Ready(opt, hashes, bins, todo) && Settled(opt, hashes, bins, todo, t) == (b, [])
  }

  lemma QuietNext(opt: Options, hashes: seq<nat>, bins: seq<Bin>, todo: seq<Bin>, t: nat, b: seq<Bin>)
    requires Quiet(opt, hashes, bins, todo, t, b)
    ensures Quiet(opt, hashes, bins, todo, t + 1, b)
  {
    NoPass(opt, hashes, b);
  }

  /** Passes over no candidates change nothing. */
  lemma QuietStays(opt: Options, hashes: seq<nat>, bins: seq<Bin>, todo: seq<Bin>, t: nat, t': nat, b: seq<Bin>)
    requires t <= t' && Quiet(opt, hashes, bins, todo, t, b)
    ensures Quiet(opt, hashes, bins, todo, t', b)
  {
    var i := t;
    while i < t'
      invariant t <= i <= t' && Quiet(opt, hashes, bins, todo, i, b)
    {
      QuietNext(opt, hashes, bins, todo, i, b);
      i := i + 1;
    }
  }

  lemma NoPass(opt: Options, hashes: seq<nat>, bins: seq<Bin>)
    requires Ready(opt, hashes, bins, [])
    ensures Passed(opt, hashes, bins, [], 0) == (bins, [])
  {
  }

  /** Once no candidate is left within the tries, that is where insertion settles. */
  lemma SettlesAt(opt: Options, hashes: seq<nat>, bins: seq<Bin>, todo: seq<Bin>, r: (seq<Bin>, seq<Bin>), t: nat)
    requires Settles(opt, hashes, bins, todo, r) && t <= opt.maxTryCount
    requires Settled(opt, hashes, bins, todo, t).1 == []
    ensures r == Settled(opt, hashes, bins, todo, t)
  {
    var t' :| 0 <= t' <= opt.maxTryCount && r == Settled(opt, hashes, bins, todo, t')
              && (r.1 == [] || t' == opt.maxTryCount);
    if t <= t' {
      QuietStays(opt, hashes, bins, todo, t, t', Settled(opt, hashes, bins, todo, t).0);
    } else {
      QuietStays(opt, hashes, bins, todo, t', t, r.0);
    }
  }

  /** The bin of input `v` under hash function `d`. */
  function BinAt(opt: Options, hashes: seq<nat>, v: nat, d: nat): nat
    requires opt.Valid() && v < |hashes|
  {
    hashes[v] / Pow2(16 * d) % 0x1_0000_0000_0000_0000 % opt.numBins
  }

  lemma PassOne(opt: Options, hashes: seq<nat>, bins: seq<Bin>, b: Bin, k: nat)
    requires Ready(opt, hashes, bins, [b]) && WellFormed(opt, |hashes|, b) && k == Target(opt, hashes, b)
    ensures Passed(opt, hashes, bins, [b], 1) ==
            (bins[k := b], if bins[k] == EMPTY then [] else [Onward(opt, bins[k])])
  {
    PassedStep(opt, hashes, bins, [b], 0, bins, [], k);
    assert [] + [Onward(opt, bins[k])] == [Onward(opt, bins[k])];
  }

  /** A candidate whose bin is empty is put there, and nothing else happens. */
  lemma NoEviction(opt: Options, hashes: seq<nat>, bins: seq<Bin>, v: nat, r: (seq<Bin>, seq<Bin>), k: nat)
    requires Ready(opt, hashes, bins, [Encode(v, 0)]) && v < |hashes| && v < INPUTS && opt.maxTryCount >= 1
    requires k == BinAt(opt, hashes, v, 0) && bins[k] == EMPTY
    requires Settles(opt, hashes, bins, [Encode(v, 0)], r)
    ensures r == (bins[k := Encode(v, 0)], [])
  {
    DecodeEncode(v, 0);
    PassOne(opt, hashes, bins, Encode(v, 0), k);
    assert Settled(opt, hashes, bins, [Encode(v, 0)], 0) == (bins, [Encode(v, 0)]);
    SettlesAt(opt, hashes, bins, [Encode(v, 0)], r, 1);
  }

  /**
   A candidate whose bin is taken by input `u`, under hash function `d`, takes the bin, and `u` goes to its bin under
   the next hash function; if that one is empty, this is all.
   */
  lemma OneEviction(opt: Options, hashes: seq<nat>, bins: seq<Bin>, v: nat, r: (seq<Bin>, seq<Bin>), k: nat,
                    u: nat, d: nat, d': nat, k': nat)
    requires Ready(opt, hashes, bins, [Encode(v, 0)]) && v < |hashes| && v < INPUTS && opt.maxTryCount >= 2
    requires k == BinAt(opt, hashes, v, 0) && bins[k] == Encode(u, d) && u < |hashes| && u < INPUTS && d < opt.numHash
    requires d' == (if d + 1 < opt.numHash then d + 1 else 0)
    requires k' == BinAt(opt, hashes, u, d') && bins[k'] == EMPTY
    requires Settles(opt, hashes, bins, [Encode(v, 0)], r)
    ensures r == (bins[k := Encode(v, 0)][k' := Encode(u, d')], [])
  {
    var b, c := Encode(v, 0), Encode(u, d');
    DecodeEncode(v, 0);
    DecodeEncode(u, d);
    DecodeEncode(u, d');
    OnwardIsNext(opt, |hashes|, bins[k]);
    PassOne(opt, hashes, bins, b, k);
    assert Settled(opt, hashes, bins, [b], 0) == (bins, [b]);
    var bins' := bins[k := b];
    assert Settled(opt, hashes, bins, [b], 1) == (bins', [c]);
    PassOne(opt, hashes, bins', c, k');
    SettlesAt(opt, hashes, bins, [b], r, 2);
  }

  /** The number of empty places. */
  ghost function Empties(s: seq<Bin>): nat {
    if s == [] then 0 else Empties(s[1..]) + if s[0] == EMPTY then 1 else 0
  }

  lemma {:induction false} EmptiesTaken(s: seq<Bin>, i: nat, b: Bin)
    requires i < |s| && s[i] == EMPTY && b != EMPTY
    ensures Empties(s[i := b]) == Empties(s) - 1
  {
    if i == 0 {
      assert s[0 := b][1..] == s[1..];
    } else {
      assert s[i := b][1..] == s[1..][i - 1 := b];
      EmptiesTaken(s[1..], i - 1, b);
    }
  }

  lemma {:induction false} NoEmpties(s: seq<Bin>)
    requires forall i :: 0 <= i < |s| ==> s[i] != EMPTY
    ensures Empties(s) == 0
  {
    if s != [] {
      NoEmpties(s[1..]);
    }
  }

  predicate FirstEmpty(s: seq<Bin>, i: int) {
    0 <= i < |s| && s[i] == EMPTY && forall k :: 0 <= k < i ==> s[k] != EMPTY
  }

  /** Candidates for `size` new inputs, for their first hash function each. */
  function Fresh(offset: nat, size: nat): (s: seq<Bin>)
    ensures |s| == size && forall i :: 0 <= i < size ==> s[i] == offset + i
  {
    seq(size, i requires 0 <= i => offset + i)
  }

  class CuckooIndex {
    const opt: Options
    var bins: seq<Bin>
    var stash: seq<Bin>
    var hashes: seq<nat>

    ghost predicate Shape()
      reads this
    {
      opt.Valid() && |bins| == opt.numBins && |stash| == opt.numStash && |hashes| <= opt.numInput
    }

    /** Each inserted input is in exactly one place, and a place that is one of its own. */
    ghost predicate Valid()
      reads this
    {
      && Shape()
      && Placed(opt, hashes, bins)
      && Conserved(bins, stash, |hashes|)
    }

    constructor (options: Options)
      requires options.Valid()
      ensures Valid() && opt == options && hashes == []
    {
      opt := options;
      bins := seq(options.numBins, _ => EMPTY);
      stash := seq(options.numStash, _ => EMPTY);
      hashes := [];
      new;
      forall v: nat ensures Count(bins, v) == Count(stash, v) == 0 {
        CountAbsent(bins, v);
        CountAbsent(stash, v);
      }
    }

    /** Puts candidate `i` of a pass into its bin; an input this evicts comes back as the candidate `next`. */
    method PutCandidate(candid: Bin, ghost start: seq<Bin>, ghost candidates: seq<Bin>, ghost i: nat,
                        ghost out: seq<Bin>)
      returns (evicts: bool, next: Bin)
      requires i < |candidates| && candid == candidates[i]
      requires Reached(opt, hashes, start, candidates, i, bins, out)
      modifies this`bins
      ensures evicts ==> Reached(opt, hashes, start, candidates, i + 1, bins, out + [next])
      ensures !evicts ==> Reached(opt, hashes, start, candidates, i + 1, bins, out)
    {
      var binIdx := Target(opt, hashes, candid);
      PassedStep(opt, hashes, start, candidates, i, bins, out, binIdx);
      var evicted := bins[binIdx];
      bins := bins[binIdx := candid];
      evicts, next := evicted != EMPTY, Onward(opt, evicted);
    }

    /**
     One pass over the candidates. The evicted inputs are written over the front of the list that is still
     being read; this never touches a candidate not yet read, so the outcome is that of two separate lists.
     */
    method Pass(candidates: seq<Bin>) returns (rest: seq<Bin>)
      requires Ready(opt, hashes, bins, candidates)
      modifies this`bins
      ensures (bins, rest) == Passed(opt, hashes, old(bins), candidates, |candidates|)
    {
      var buf: seq<Bin>, writeIdx := candidates, 0;
      ghost var start: seq<Bin>, out: seq<Bin> := bins, [];
      for i := 0 to |candidates|
        invariant |out| == writeIdx <= i && |buf| == |candidates|
        invariant buf[..writeIdx] == out
        invariant forall k :: i <= k < |buf| ==> buf[k] == candidates[k]
        invariant Reached(opt, hashes, start, candidates, i, bins, out)
      {
        var evicts, next := PutCandidate(buf[i], start, candidates, i, out);
        if evicts {
          buf := buf[writeIdx := next];
          writeIdx, out := writeIdx + 1, out + [next];
          assert buf[..writeIdx] == out;
        }
      }
      rest := buf[..writeIdx];
    }

    /** Passes until no candidate is left or the tries are used up. */
    method Settle(candidates: seq<Bin>) returns (rest: seq<Bin>)
      requires Ready(opt, hashes, bins, candidates)
      modifies this`bins
      ensures Settles(opt, hashes, old(bins), candidates, (bins, rest))
    {
      rest := candidates;
      var tryCount := 0;
      while |rest| > 0 && tryCount < opt.maxTryCount
        invariant tryCount <= opt.maxTryCount
        invariant (bins, rest) == Settled(opt, hashes, old(bins), candidates, tryCount)
      {
        tryCount := tryCount + 1;
        rest := Pass(rest);
      }
    }

    /** The first empty place of the stash takes the input; a full stash is an error. */
    method PutToStash(inputIdx: nat) returns (ok: bool)
      requires Shape() && inputIdx < INPUTS
      modifies this`stash
      ensures ok <==> exists i :: 0 <= i < |old(stash)| && old(stash)[i] == EMPTY
      ensures ok ==> exists i :: FirstEmpty(old(stash), i) && stash == old(stash)[i := inputIdx]
      ensures !ok ==> stash == old(stash)
    {
      for i := 0 to |stash|
        invariant stash == old(stash)
        invariant forall k :: 0 <= k < i ==> stash[k] != EMPTY
      {
        if stash[i] == EMPTY {
          assert FirstEmpty(old(stash), i);
          stash := stash[i := inputIdx];
          return true;
        }
      }
      ok := false;
    }

    /** The candidates left over go to the stash; this fails when it is full. */
    method StashAll(candidates: seq<Bin>) returns (ok: bool)
      requires Shape() && AllWellFormed(opt, |hashes|, candidates)
      requires Balanced(bins, stash, [], candidates, |hashes|)
      modifies this`stash
      ensures Shape()
      ensures ok ==> Conserved(bins, stash, |hashes|)
      ensures ok <==> |candidates| <= Empties(old(stash))
      ensures !ok ==> forall i :: 0 <= i < |stash| ==> stash[i] != EMPTY
    {
      for i := 0 to |candidates|
        invariant Shape()
        invariant Balanced(bins, stash, [], candidates[i..], |hashes|)
        invariant Empties(stash) + i == Empties(old(stash))
      {
        ghost var before := stash;
        ok := PutToStash(InputIdx(candidates[i]));
        if !ok {
          NoEmpties(stash);
          return;
        }
        ghost var k :| FirstEmpty(before, k) && stash == before[k := InputIdx(candidates[i])];
        EmptiesTaken(before, k, InputIdx(candidates[i]));
        StashStep(bins, before, candidates[i..], |hashes|, k, InputIdx(candidates[i]));
        assert candidates[i..][1..] == candidates[i + 1..];
      }
      ok := true;
    }

    /**
     Inserts the inputs with the given hash codes. It fails exactly when there are more inputs than announced or
     when more of them are left over than the stash has empty places; otherwise every input, old or new, ends up
     in exactly one place.
     */
    method Insert(codes: seq<nat>) returns (ok: bool)
      requires Valid()
      modifies this
      ensures hashes == old(hashes) + codes
      ensures ok ==> Valid()
      ensures |hashes| > opt.numInput ==> !ok && bins == old(bins) && stash == old(stash)
      ensures |hashes| <= opt.numInput ==>
                exists rest ::
                  && Settles(opt, hashes, old(bins), Fresh(|old(hashes)|, |codes|), (bins, rest))
                  && (ok <==> |rest| <= Empties(old(stash)))
      ensures !ok && |hashes| <= opt.numInput ==> forall i :: 0 <= i < |stash| ==> stash[i] != EMPTY
    {
      var inputOffset := |hashes|;
      PlacedGrows(opt, hashes, codes, bins);
      hashes := hashes + codes;
      if |hashes| > opt.numInput {
        return false;
      }
      var candidates := Fresh(inputOffset, |codes|);
      FreshBalanced(bins, stash, inputOffset, candidates);
      var rest := Settle(candidates);
      ghost var t :| 0 <= t && (bins, rest) == Settled(opt, hashes, old(bins), candidates, t);
      SettledBalanced(opt, hashes, old(bins), stash, candidates, t);
      ok := StashAll(rest);
    }

    /** Collects the inputs of a list of bins; fails when one of them is there already. */
    static method Collect(s: seq<Bin>, seen: set<nat>) returns (all: set<nat>, ok: bool)
      ensures ok <==> forall v :: 0 <= v ==> Count(s, v) + (if v in seen then 1 else 0) <= 1
      ensures ok ==> forall v :: v in all <==> v in seen || Count(s, v) > 0
    {
      all, ok := seen, true;
      assert s[..0] == [];
      for i := 0 to |s|
        invariant forall v :: 0 <= v ==> Count(s[..i], v) + (if v in seen then 1 else 0) <= 1
        invariant forall v :: v in all <==> v in seen || Count(s[..i], v) > 0
      {
        forall v: nat ensures Count(s[..i + 1], v) == Count(s[..i], v) + Has(s[i], v) {
          CountUpTo(s, i, v);
        }
        if s[i] != EMPTY {
          var v := InputIdx(s[i]);
          if v in all {
            CountPrefix(s, i + 1, v);
            return all, false;
          }
          all := all + {v};
        }
      }
      assert s[..|s|] == s;
    }

    /** The class's own check passes exactly when every announced input is in exactly one place. */
    method SanityCheck() returns (ok: bool)
      ensures ok <==> Conserved(bins, stash, opt.numInput)
    {
      var inBins, ok1 := Collect(bins, {});
      if !ok1 {
        var v :| 0 <= v && Count(bins, v) > 1;
        assert Total(bins, stash, [], [], v) > 1;
        return false;
      }
      var all, ok2 := Collect(stash, inBins);
      if !ok2 {
        var v :| 0 <= v && Count(stash, v) + (if v in inBins then 1 else 0) > 1;
        assert Total(bins, stash, [], [], v) > 1;
        return false;
      }
      forall v: nat ensures Total(bins, stash, [], [], v) == if v in all then 1 else 0 {
        assert Count(bins, v) + (if v in {} then 1 else 0) <= 1;
        assert Count(stash, v) + (if v in inBins then 1 else 0) <= 1;
      }
      if |all| != opt.numInput {
        if Conserved(bins, stash, opt.numInput) {
          RangeSize(all, opt.numInput);
        }
        return false;
      }
      var rest: set<nat>, idx: nat := all, 0;
      while rest != {}
        invariant rest == set v | v in all && v >= idx
        invariant forall v :: 0 <= v < idx ==> v in all
        invariant idx + |rest| == |all|
        decreases rest
      {
        var i := Least(rest);
        if idx != i {
          assert idx in all ==> idx in rest;
          assert Total(bins, stash, [], [], idx) == 0;
          return false;
        }
        rest, idx := rest - {i}, idx + 1;
      }
      forall v: nat ensures v in all <==> v < opt.numInput {
        assert v in all && v >= idx ==> v in rest;
      }
      assert Conserved(bins, stash, opt.numInput);
      ok := true;
    }

    /**
     The first hash function that sends the input of bin `binIndex` there. For a filled bin there is one, so the
     fall-through value is never returned.
     */
    method MinCollidingHashIdx(binIndex: nat) returns (h: int)
      requires Valid() && binIndex < |bins| && bins[binIndex] != EMPTY
      ensures 0 <= h <= HashIdx(bins[binIndex]) < opt.numHash
      ensures GetHash(hashes[InputIdx(bins[binIndex])], h) % opt.numBins == binIndex
      ensures forall i :: 0 <= i < h ==> GetHash(hashes[InputIdx(bins[binIndex])], i) % opt.numBins != binIndex
    {
      var bin := bins[binIndex];
      for i := 0 to opt.numHash
        invariant i <= HashIdx(bin)
        invariant forall j :: 0 <= j < i ==> GetHash(hashes[InputIdx(bin)], j) % opt.numBins != binIndex
      {
        var target := GetHash(hashes[InputIdx(bin)], i) % opt.numBins;
        if target == binIndex {
          return i;
        }
      }
      h := 255;
    }
  }

  method Least(s: set<nat>) returns (m: nat)
    requires s != {}
    ensures m in s && forall v :: v in s ==> m <= v
  {
    m :| m in s;
    var rest := s - {m};
    while rest != {}
      invariant rest <= s && m in s
      invariant forall v :: v in s && v !in rest ==> m <= v
      decreases rest
    {
      var v :| v in rest;
      rest := rest - {v};
      if v < m {
        m := v;
      }
    }
  }

  lemma {:induction false} RangeSize(s: set<nat>, n: nat)
    requires forall v :: v in s <==> 0 <= v < n
    ensures |s| == n
    decreases n
  {
    if n == 0 {
      assert s == {};
    } else {
      RangeSize(s - {n - 1}, n - 1);
    }
  }

  lemma CountPrefix(s: seq<Bin>, i: nat, v: nat)
    requires i <= |s|
    ensures Count(s[..i], v) <= Count(s, v)
  {
    assert s == s[..i] + s[i..];
    CountConcat(s[..i], s[i..], v);
  }

  /** Conservation, read off: an input is in one bin and not in the stash, or the other way round. */
  lemma ExactlyOnePlace(bins: seq<Bin>, stash: seq<Bin>, n: nat, v: nat)
    requires Conserved(bins, stash, n) && v < n
    ensures (exists k :: 0 <= k < |bins| && Has(bins[k], v) == 1) <==>
            !exists k :: 0 <= k < |stash| && Has(stash[k], v) == 1
    ensures forall i, j :: 0 <= i < j < |bins| ==> !(Has(bins[i], v) == 1 && Has(bins[j], v) == 1)
    ensures forall i, j :: 0 <= i < j < |stash| ==> !(Has(stash[i], v) == 1 && Has(stash[j], v) == 1)
  {
    assert Total(bins, stash, [], [], v) == 1;
    if Count(bins, v) == 1 {
      var k := CountWitness(bins, v);
    } else {
      var k := CountWitness(stash, v);
    }
    forall k | 0 <= k < |bins| && Has(bins[k], v) == 1 ensures Count(bins, v) >= 1 {
      CountPresent(bins, k, v);
    }
    forall k | 0 <= k < |stash| && Has(stash[k], v) == 1 ensures Count(stash, v) >= 1 {
      CountPresent(stash, k, v);
    }
    forall i, j | 0 <= i < j < |bins| ensures !(Has(bins[i], v) == 1 && Has(bins[j], v) == 1) {
      if Has(bins[i], v) == 1 && Has(bins[j], v) == 1 {
        CountTwice(bins, i, j, v);
      }
    }
    forall i, j | 0 <= i < j < |stash| ensures !(Has(stash[i], v) == 1 && Has(stash[j], v) == 1) {
      if Has(stash[i], v) == 1 && Has(stash[j], v) == 1 {
        CountTwice(stash, i, j, v);
      }
    }
  }

  lemma PlacedGrows(opt: Options, hashes: seq<nat>, codes: seq<nat>, bins: seq<Bin>)
    requires opt.Valid() && Placed(opt, hashes, bins)
    ensures Placed(opt, hashes + codes, bins)
  {
  }

  lemma SwapLists(bins: seq<Bin>, stash: seq<Bin>, s: seq<Bin>, n: nat)
    requires Balanced(bins, stash, s, [], n)
    ensures Balanced(bins, stash, [], s, n)
  {
    forall v: nat ensures Total(bins, stash, [], s, v) == Total(bins, stash, s, [], v) {
    }
  }
}

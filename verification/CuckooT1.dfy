/**
 The baby-step table T1: a cuckoo hash table from the first coordinates of `G`, `2 G`, ... to
 their multipliers. A slot keeps the multiplier and a 32-bit key taken from the coordinate's bytes.
 */
module CuckooT1 {
  type Byte = b: nat | b < 256

  /** Bytes `start` to `end` read as a 32-bit number, most significant byte first. */
  function SubBytes(x: seq<Byte>, start: nat, end: nat): (r: nat)
    requires start <= end <= |x|
    ensures r < 0x1_0000_0000
  {
    if start == end then 0 else (SubBytes(x, start, end - 1) * 256 + x[end - 1]) % 0x1_0000_0000
  }

  lemma SubBytesFour(x: seq<Byte>, s: nat)
    requires s + 4 <= |x|
    ensures var a: nat, b: nat, c: nat, d: nat := x[s], x[s + 1], x[s + 2], x[s + 3];
            SubBytes(x, s, s + 4) == ((a * 256 + b) * 256 + c) * 256 + d
  {
    var a: nat, b: nat, c: nat := x[s], x[s + 1], x[s + 2];
    assert SubBytes(x, s, s + 1) == a;
    assert SubBytes(x, s, s + 2) == a * 256 + b;
    assert SubBytes(x, s, s + 3) == (a * 256 + b) * 256 + c;
  }

  /** The bytes that hash functions 1 to `id` read are there. */
  predicate Readable(x: seq<Byte>, id: nat) {
    |x| >= 8 * id
  }

  predicate LongEnough(x: seq<Byte>) {
    Readable(x, 3)
  }

  /** The slot of hash function `id`, one of 1, 2, 3, in a table of `len` slots. */
  function Slot(len: nat, x: seq<Byte>, id: nat): (h: nat)
    requires len > 0 && 1 <= id <= 3 && Readable(x, id)
    ensures h < len
  {
    SubBytes(x, (id - 1) * 8, (id - 1) * 8 + 4) % len
  }

  function Key(x: seq<Byte>, id: nat): nat
    requires 1 <= id <= 3 && Readable(x, id)
  {
    SubBytes(x, (id - 1) * 8 + 4, (id - 1) * 8 + 8)
  }

  /** Hash function `id` takes slot and key from the eight bytes from `8 (id - 1)` on, four each. */
  lemma SlotAndKey(len: nat, x: seq<Byte>, id: nat)
    requires len > 0 && 1 <= id <= 3 && Readable(x, id)
    ensures var s := 8 * id - 8;
            var a: nat, b: nat, c: nat, d: nat := x[s], x[s + 1], x[s + 2], x[s + 3];
            Slot(len, x, id) == (a * 0x100_0000 + b * 0x1_0000 + c * 0x100 + d) % len
    ensures var s := 8 * id - 4;
            var a: nat, b: nat, c: nat, d: nat := x[s], x[s + 1], x[s + 2], x[s + 3];
            Key(x, id) == a * 0x100_0000 + b * 0x1_0000 + c * 0x100 + d
  {
    SubBytesFour(x, 8 * id - 8);
    SubBytesFour(x, 8 * id - 4);
  }

  /** Slot `h` is free, or holds an entry of `data` where hash function `ids[h]` puts it, with its key. */
  ghost predicate SlotOk(data: seq<seq<Byte>>, vs: seq<nat>, ks: seq<nat>, ids: seq<nat>, h: nat)
    requires |vs| == |ks| == |ids| && h < |vs|
  {
    if ids[h] == 0 then vs[h] == 0 && ks[h] == 0
    else
      && ids[h] <= 3
      && 1 <= vs[h] <= |data|
      && Readable(data[vs[h] - 1], ids[h])
      && Slot(|vs|, data[vs[h] - 1], ids[h]) == h
      && ks[h] == Key(data[vs[h] - 1], ids[h])
  }

  ghost predicate TableOk(data: seq<seq<Byte>>, vs: seq<nat>, ks: seq<nat>, ids: seq<nat>) {
    && |vs| == |ks| == |ids| > 0
    && forall h :: 0 <= h < |vs| ==> SlotOk(data, vs, ks, ids, h)
  }

  /** The multipliers 1 to `n` are in the table once each, except `hand`, which is not. */
  ghost predicate Holds(vs: seq<nat>, n: nat, hand: nat) {
    forall u :: 1 <= u ==> multiset(vs)[u] == if u <= n && u != hand then 1 else 0
  }

  /** A table while multiplier `v` is on its way to a slot of hash function `id`; 0 means that none is. */
  datatype Walk = Walk(vs: seq<nat>, ks: seq<nat>, ids: seq<nat>, v: nat, id: nat)

  predicate CanKick(data: seq<seq<Byte>>, s: Walk) {
    |s.vs| == |s.ks| == |s.ids| > 0 && 1 <= s.v <= |data| && 1 <= s.id <= 3 && Readable(data[s.v - 1], s.id)
  }

  /** The multiplier takes its slot; what was there is to go to the slot of its next hash function. */
  function Kick(data: seq<seq<Byte>>, s: Walk): Walk
    requires CanKick(data, s)
  {
    var x := data[s.v - 1];
    var h := Slot(|s.vs|, x, s.id);
    Walk(s.vs[h := s.v], s.ks[h := Key(x, s.id)], s.ids[h := s.id], s.vs[h], s.ids[h] % 3 + 1)
  }

  /** The hash function after `d`, in a circle. */
  function NextHash(d: nat): nat {
    if d == 1 then 2 else if d == 2 then 3 else 1
  }

  /** What hash function `d` had put into a slot goes, when evicted, to its slot of the next hash function. */
  lemma EvictedGoesOn(data: seq<seq<Byte>>, s: Walk, h: nat, u: nat, d: nat)
    requires CanKick(data, s) && h == Slot(|s.vs|, data[s.v - 1], s.id)
    requires s.vs[h] == u && s.ids[h] == d && 1 <= d <= 3 && 1 <= u <= |data| && LongEnough(data[u - 1])
    ensures var s' := Kick(data, s);
            && s'.vs[h] == s.v && CanKick(data, s')
            && (d == 1 ==> Kick(data, s').vs[Slot(|s.vs|, data[u - 1], 2)] == u)
            && (d == 2 ==> Kick(data, s').vs[Slot(|s.vs|, data[u - 1], 3)] == u)
            && (d == 3 ==> Kick(data, s').vs[Slot(|s.vs|, data[u - 1], 1)] == u)
  {
  }

  ghost function Kicked(data: seq<seq<Byte>>, s: Walk, j: nat): Walk {
    if j == 0 then s
    else
      var before := Kicked(data, s, j - 1);
      if CanKick(data, before) then Kick(data, before) else before
  }

  lemma KickedStep(data: seq<seq<Byte>>, s: Walk, j: nat, w: Walk)
    requires Kicked(data, s, j) == w && CanKick(data, w)
    ensures Kicked(data, s, j + 1) == Kick(data, w)
  {
  }

  /** Once no multiplier is on its way, nothing changes. */
  lemma {:induction false} KickedStays(data: seq<seq<Byte>>, s: Walk, j: nat, j': nat)
    requires j <= j' && Kicked(data, s, j).v == 0
    ensures Kicked(data, s, j') == Kicked(data, s, j)
    decreases j'
  {
    if j < j' {
      KickedStays(data, s, j, j' - 1);
    }
  }

  // ----- Chains of evictions

  /** A multiplier on its way and the hash function that says where to. */
  datatype Move = Move(v: nat, id: nat)

  predicate MoveOk(data: seq<seq<Byte>>, m: Move) {
    1 <= m.v <= |data| && 1 <= m.id <= 3 && Readable(data[m.v - 1], m.id)
  }

  function Target(data: seq<seq<Byte>>, len: nat, m: Move): (h: nat)
    requires MoveOk(data, m) && len > 0
    ensures h < len
  {
    Slot(len, data[m.v - 1], m.id)
  }

  function MoveKey(data: seq<seq<Byte>>, m: Move): nat
    requires MoveOk(data, m)
  {
    Key(data[m.v - 1], m.id)
  }

  predicate MovesOk(data: seq<seq<Byte>>, chain: seq<Move>) {
    forall t :: 0 <= t < |chain| ==> MoveOk(data, chain[t])
  }

  /** The slots that a chain of moves goes to. */
  function Targets(data: seq<seq<Byte>>, len: nat, chain: seq<Move>): (hs: seq<nat>)
    requires len > 0 && MovesOk(data, chain)
    ensures |hs| == |chain| && forall t :: 0 <= t < |hs| ==> hs[t] == Target(data, len, chain[t])
  {
    seq(|chain|, t requires 0 <= t < |chain| => Target(data, len, chain[t]))
  }

  /** What was in the slot of move `t` makes the next move. */
  predicate Pushes(vs: seq<nat>, ids: seq<nat>, h: nat, next: Move)
    requires h < |vs| == |ids|
  {
    ids[h] != 0 && next == Move(vs[h], NextHash(ids[h]))
  }

  /**
   Each move but the last goes to a slot whose content makes the next move; the last goes to a free slot, and no slot
   comes twice.
   */
  ghost predicate IsChain(data: seq<seq<Byte>>, vs: seq<nat>, ids: seq<nat>, v: nat, chain: seq<Move>) {
    && |vs| == |ids| > 0 && chain != [] && chain[0] == Move(v, 1) && MovesOk(data, chain)
    && var hs := Targets(data, |vs|, chain);
    && Different(hs) && ids[hs[|hs| - 1]] == 0
    && forall t {:trigger Pushes(vs, ids, hs[t], chain[t + 1])} ::
         0 <= t < |chain| - 1 ==> Pushes(vs, ids, hs[t], chain[t + 1])
  }

  ghost predicate Different(hs: seq<nat>) {
    forall t, u :: 0 <= t < u < |hs| ==> hs[t] != hs[u]
  }

  /** `s` with the first `t` entries of `xs` put at the places `hs`, one after the other. */
  ghost function Assign(s: seq<nat>, hs: seq<nat>, xs: seq<nat>, t: nat): (r: seq<nat>)
    requires t <= |hs| == |xs| && Inside(hs, |s|)
    ensures |r| == |s|
  {
    if t == 0 then s else Assign(s, hs, xs, t - 1)[hs[t - 1] := xs[t - 1]]
  }

  ghost predicate Inside(hs: seq<nat>, len: nat) {
    forall u :: 0 <= u < |hs| ==> hs[u] < len
  }

  lemma {:induction false} AssignOther(s: seq<nat>, hs: seq<nat>, xs: seq<nat>, t: nat, h: nat)
    requires t <= |hs| == |xs| && Inside(hs, |s|) && h < |s| && h !in hs[..t]
    ensures Assign(s, hs, xs, t)[h] == s[h]
  {
    if t > 0 {
      assert hs[..t - 1] == hs[..t][..t - 1] && hs[t - 1] == hs[..t][t - 1];
      AssignOther(s, hs, xs, t - 1, h);
    }
  }

  lemma {:induction false} AssignAt(s: seq<nat>, hs: seq<nat>, xs: seq<nat>, t: nat, u: nat)
    requires u < t <= |hs| == |xs| && Inside(hs, |s|) && Different(hs)
    ensures Assign(s, hs, xs, t)[hs[u]] == xs[u]
  {
    if u < t - 1 {
      AssignAt(s, hs, xs, t - 1, u);
    }
  }

  function Multipliers(chain: seq<Move>): (vs: seq<nat>)
    ensures |vs| == |chain| && forall t :: 0 <= t < |vs| ==> vs[t] == chain[t].v
  {
    seq(|chain|, t requires 0 <= t < |chain| => chain[t].v)
  }

  function Keys(data: seq<seq<Byte>>, chain: seq<Move>): (ks: seq<nat>)
    requires MovesOk(data, chain)
    ensures |ks| == |chain| && forall t :: 0 <= t < |ks| ==> ks[t] == MoveKey(data, chain[t])
  {
    seq(|chain|, t requires 0 <= t < |chain| => MoveKey(data, chain[t]))
  }

  function HashIds(chain: seq<Move>): (ids: seq<nat>)
    ensures |ids| == |chain| && forall t :: 0 <= t < |ids| ==> ids[t] == chain[t].id
  {
    seq(|chain|, t requires 0 <= t < |chain| => chain[t].id)
  }

  /** One move of a chain: its slot takes it, and what was there comes next. */
  lemma KickMove(data: seq<seq<Byte>>, w: Walk, m: Move, h: nat)
    requires MoveOk(data, m) && w.v == m.v && w.id == m.id && |w.vs| == |w.ks| == |w.ids| > 0
    requires h == Target(data, |w.vs|, m)
    ensures CanKick(data, w)
    ensures var r := Kick(data, w);
            && r.vs == w.vs[h := m.v] && r.ks == w.ks[h := MoveKey(data, m)] && r.ids == w.ids[h := m.id]
            && r.v == w.vs[h] && (1 <= w.ids[h] <= 3 ==> r.id == NextHash(w.ids[h]))
  {
  }

  /** The walk has made the first `t` moves. */
  ghost predicate At(data: seq<seq<Byte>>, s: Walk, chain: seq<Move>, hs: seq<nat>, t: nat, w: Walk)
    requires t <= |chain| == |hs| && MovesOk(data, chain)
    requires Inside(hs, |s.vs|) && |s.vs| == |s.ks| == |s.ids|
  {
    && w.vs == Assign(s.vs, hs, Multipliers(chain), t)
    && w.ks == Assign(s.ks, hs, Keys(data, chain), t)
    && w.ids == Assign(s.ids, hs, HashIds(chain), t)
    && if t < |chain| then w.v == chain[t].v && w.id == chain[t].id else w.v == 0
  }

  /** What was in the slot of move `t` is what comes next. */
  ghost predicate LeadsOn(vs: seq<nat>, ids: seq<nat>, chain: seq<Move>, h: nat, t: nat)
    requires h < |vs| == |ids| && t < |chain|
  {
    if t + 1 < |chain| then 1 <= ids[h] <= 3 && Pushes(vs, ids, h, chain[t + 1]) else vs[h] == 0
  }

  lemma ChainMove(data: seq<seq<Byte>>, s: Walk, chain: seq<Move>, hs: seq<nat>, t: nat, w: Walk)
    requires |s.vs| == |s.ks| == |s.ids| > 0 && MovesOk(data, chain) && Different(hs)
    requires hs == Targets(data, |s.vs|, chain) && t < |chain| && At(data, s, chain, hs, t, w)
    requires LeadsOn(s.vs, s.ids, chain, hs[t], t)
    ensures CanKick(data, w) && At(data, s, chain, hs, t + 1, Kick(data, w))
  {
    AssignOther(s.vs, hs, Multipliers(chain), t, hs[t]);
    AssignOther(s.ids, hs, HashIds(chain), t, hs[t]);
    KickMove(data, w, chain[t], hs[t]);
  }

  lemma ChainStart(data: seq<seq<Byte>>, s: Walk, chain: seq<Move>, hs: seq<nat>)
    requires |s.vs| == |s.ks| == |s.ids| > 0 && MovesOk(data, chain) && chain != [] && chain[0] == Move(s.v, s.id)
    requires hs == Targets(data, |s.vs|, chain)
    ensures At(data, s, chain, hs, 0, Kicked(data, s, 0))
  {
  }

  lemma {:induction false} ChainMoves(data: seq<seq<Byte>>, s: Walk, chain: seq<Move>, hs: seq<nat>, t: nat)
    requires |s.vs| == |s.ks| == |s.ids| > 0 && MovesOk(data, chain) && Different(hs)
    requires hs == Targets(data, |s.vs|, chain) && t <= |chain| && chain != [] && chain[0] == Move(s.v, s.id)
    requires forall u {:trigger LeadsOn(s.vs, s.ids, chain, hs[u], u)} ::
               0 <= u < |chain| ==> LeadsOn(s.vs, s.ids, chain, hs[u], u)
    ensures At(data, s, chain, hs, t, Kicked(data, s, t))
  {
    if t == 0 {
      ChainStart(data, s, chain, hs);
    } else {
      ChainMoves(data, s, chain, hs, t - 1);
      var w := Kicked(data, s, t - 1);
      ChainMove(data, s, chain, hs, t - 1, w);
      KickedStep(data, s, t - 1, w);
    }
  }

  /** Multiplier and key of a move are in its slot. */
  ghost predicate PlacedAt(data: seq<seq<Byte>>, vs: seq<nat>, ks: seq<nat>, m: Move)
    requires |vs| == |ks| > 0 && MoveOk(data, m)
  {
    vs[Target(data, |vs|, m)] == m.v && ks[Target(data, |vs|, m)] == MoveKey(data, m)
  }

  /** All of a chain is placed, and the slots it does not go to are as they were. */
  ghost predicate ChainPlaced(data: seq<seq<Byte>>, vs: seq<nat>, ks: seq<nat>, chain: seq<Move>,
                              vs': seq<nat>, ks': seq<nat>)
    requires |vs'| == |ks'| == |vs| == |ks| > 0 && MovesOk(data, chain)
  {
    && (forall t :: 0 <= t < |chain| ==> PlacedAt(data, vs', ks', chain[t]))
    && (forall h :: 0 <= h < |vs| && h !in Targets(data, |vs|, chain) ==> vs'[h] == vs[h] && ks'[h] == ks[h])
  }

  lemma PlacedBy(data: seq<seq<Byte>>, vs: seq<nat>, ks: seq<nat>, m: Move, h: nat)
    requires |vs| == |ks| > 0 && MoveOk(data, m) && h == Target(data, |vs|, m)
    requires vs[h] == m.v && ks[h] == MoveKey(data, m)
    ensures PlacedAt(data, vs, ks, m)
  {
  }

  lemma AssignAll(s: seq<nat>, hs: seq<nat>, xs: seq<nat>)
    requires |hs| == |xs| && Inside(hs, |s|) && Different(hs)
    ensures forall t :: 0 <= t < |hs| ==> Assign(s, hs, xs, |hs|)[hs[t]] == xs[t]
  {
    forall t | 0 <= t < |hs| ensures Assign(s, hs, xs, |hs|)[hs[t]] == xs[t] {
      AssignAt(s, hs, xs, |hs|, t);
    }
  }

  lemma AssignOthers(s: seq<nat>, hs: seq<nat>, xs: seq<nat>)
    requires |hs| == |xs| && Inside(hs, |s|)
    ensures forall h :: 0 <= h < |s| && h !in hs ==> Assign(s, hs, xs, |hs|)[h] == s[h]
  {
    forall h | 0 <= h < |s| && h !in hs ensures Assign(s, hs, xs, |hs|)[h] == s[h] {
      assert h !in hs[..|hs|];
      AssignOther(s, hs, xs, |hs|, h);
    }
  }

  lemma AssignedIsPlaced(data: seq<seq<Byte>>, vs: seq<nat>, ks: seq<nat>, chain: seq<Move>, hs: seq<nat>,
                         vs': seq<nat>, ks': seq<nat>)
    requires |vs| == |ks| > 0 && MovesOk(data, chain)
    requires hs == Targets(data, |vs|, chain) && Different(hs)
    requires vs' == Assign(vs, hs, Multipliers(chain), |hs|) && ks' == Assign(ks, hs, Keys(data, chain), |hs|)
    ensures ChainPlaced(data, vs, ks, chain, vs', ks')
  {
    AssignAll(vs, hs, Multipliers(chain));
    AssignAll(ks, hs, Keys(data, chain));
    forall t | 0 <= t < |chain| ensures PlacedAt(data, vs', ks', chain[t]) {
      PlacedBy(data, vs', ks', chain[t], hs[t]);
    }
    AssignOthers(vs, hs, Multipliers(chain));
    AssignOthers(ks, hs, Keys(data, chain));
  }

  lemma ChainLeadsOn(data: seq<seq<Byte>>, s: Walk, chain: seq<Move>, hs: seq<nat>, t: nat)
    requires TableOk(data, s.vs, s.ks, s.ids) && IsChain(data, s.vs, s.ids, s.v, chain)
    requires hs == Targets(data, |s.vs|, chain) && t < |chain|
    ensures LeadsOn(s.vs, s.ids, chain, hs[t], t)
  {
    assert SlotOk(data, s.vs, s.ks, s.ids, hs[t]);
    if t + 1 < |chain| {
      assert Pushes(s.vs, s.ids, hs[t], chain[t + 1]);
    }
  }

  /** A multiplier at the head of a chain that is not longer than the tries is placed, and all of the chain with it. */
  lemma ChainPlaces(data: seq<seq<Byte>>, s: Walk, chain: seq<Move>, maxiter: nat)
    requires TableOk(data, s.vs, s.ks, s.ids) && IsChain(data, s.vs, s.ids, s.v, chain) && s.id == 1
    requires |chain| <= maxiter
    ensures var w := Kicked(data, s, maxiter);
            && w.v == 0 && |w.vs| == |w.ks| == |s.vs|
            && ChainPlaced(data, s.vs, s.ks, chain, w.vs, w.ks)
  {
    var hs := Targets(data, |s.vs|, chain);
    forall t | 0 <= t < |chain| ensures LeadsOn(s.vs, s.ids, chain, hs[t], t) {
      ChainLeadsOn(data, s, chain, hs, t);
    }
    ChainMoves(data, s, chain, hs, |chain|);
    var w := Kicked(data, s, |chain|);
    AssignedIsPlaced(data, s.vs, s.ks, chain, hs, w.vs, w.ks);
    KickedStays(data, s, |chain|, maxiter);
  }

  /** `r` is the table after all chains that start with multiplier `s.v` and are not too long have been placed. */
  ghost predicate PlacesChains(data: seq<seq<Byte>>, s: Walk, maxiter: nat, r: Walk)
    requires |s.vs| == |s.ks| > 0
  {
    forall chain :: IsChain(data, s.vs, s.ids, s.v, chain) && |chain| <= maxiter ==>
      r.v == 0 && |r.vs| == |r.ks| == |s.vs| && ChainPlaced(data, s.vs, s.ks, chain, r.vs, r.ks)
  }

  lemma ChainsPlace(data: seq<seq<Byte>>, s: Walk, maxiter: nat)
    requires TableOk(data, s.vs, s.ks, s.ids) && s.id == 1
    ensures PlacesChains(data, s, maxiter, Kicked(data, s, maxiter))
  {
    var r := Kicked(data, s, maxiter);
    forall chain | IsChain(data, s.vs, s.ids, s.v, chain) && |chain| <= maxiter
      ensures r.v == 0 && |r.vs| == |r.ks| == |s.vs| && ChainPlaced(data, s.vs, s.ks, chain, r.vs, r.ks)
    {
      ChainPlaces(data, s, chain, maxiter);
    }
  }

  /** The shortest case: the slot is taken, and what is in it has its next slot free. */
  lemma TwoTries(data: seq<seq<Byte>>, s: Walk, maxiter: nat, h: nat, h': nat)
    requires TableOk(data, s.vs, s.ks, s.ids) && MoveOk(data, Move(s.v, 1)) && s.id == 1 && maxiter >= 2
    requires h == Slot(|s.vs|, data[s.v - 1], 1) && s.ids[h] != 0
    requires MoveOk(data, Move(s.vs[h], NextHash(s.ids[h])))
    requires h' == Slot(|s.vs|, data[s.vs[h] - 1], NextHash(s.ids[h])) && s.ids[h'] == 0
    ensures var w := Kicked(data, s, maxiter);
            w.v == 0 && |w.vs| == |s.vs| && w.vs[h] == s.v && w.vs[h'] == s.vs[h]
  {
    var chain := [Move(s.v, 1), Move(s.vs[h], NextHash(s.ids[h]))];
    var hs := Targets(data, |s.vs|, chain);
    assert hs[0] == h && hs[1] == h' && Different(hs);
    assert IsChain(data, s.vs, s.ids, s.v, chain);
    ChainPlaces(data, s, chain, maxiter);
    var w := Kicked(data, s, maxiter);
    assert PlacedAt(data, w.vs, w.ks, chain[0]) && PlacedAt(data, w.vs, w.ks, chain[1]);
  }

  /**
   The table of `len` slots after the multipliers up to `i` have been placed one after the other, with `maxiter`
   tries for each; a multiplier still on its way after that many tries stops everything.
   */
  ghost function Filled(data: seq<seq<Byte>>, len: nat, maxiter: nat, i: nat): Walk {
    if i == 0 then Walk(seq(len, _ => 0), seq(len, _ => 0), seq(len, _ => 0), 0, 1)
    else
      var s := Filled(data, len, maxiter, i - 1);
      if s.v != 0 then s else Kicked(data, Walk(s.vs, s.ks, s.ids, i, 1), maxiter)
  }

  /** The first `i` multipliers are placed, and this is the table. */
  ghost predicate FilledIs(data: seq<seq<Byte>>, len: nat, maxiter: nat, i: nat,
                           vs: seq<nat>, ks: seq<nat>, ids: seq<nat>)
  {
    var r := Filled(data, len, maxiter, i);
    r.v == 0 && r.vs == vs && r.ks == ks && r.ids == ids
  }

  lemma FilledStep(data: seq<seq<Byte>>, len: nat, maxiter: nat, i: nat, vs: seq<nat>, ks: seq<nat>, ids: seq<nat>)
    requires FilledIs(data, len, maxiter, i, vs, ks, ids)
    ensures Filled(data, len, maxiter, i + 1) == Kicked(data, Walk(vs, ks, ids, i + 1, 1), maxiter)
  {
  }

  lemma EmptyTable(data: seq<seq<Byte>>, len: nat, maxiter: nat, empty: seq<nat>)
    requires len > 0 && empty == seq(len, _ => 0)
    ensures TableOk(data, empty, empty, empty) && Holds(empty, 0, 0)
    ensures FilledIs(data, len, maxiter, 0, empty, empty, empty)
  {
    assert forall u :: 1 <= u ==> u !in empty;
  }

  lemma {:induction false} FilledStays(data: seq<seq<Byte>>, len: nat, maxiter: nat, i: nat, i': nat)
    requires i <= i' && Filled(data, len, maxiter, i).v != 0
    ensures Filled(data, len, maxiter, i').v != 0
    decreases i'
  {
    if i < i' {
      FilledStays(data, len, maxiter, i, i' - 1);
    }
  }

  class CuckooT1 {
    const maxiter: nat
    var tableV: seq<nat>
    var tableK: seq<nat>

    constructor (len: nat, iterations: nat)
      requires len > 0
      ensures tableV == tableK == seq(len, _ => 0) && maxiter == iterations
    {
      maxiter := iterations;
      tableV := seq(len, _ => 0);
      tableK := seq(len, _ => 0);
    }

    /** One try for multiplier `v`: it takes its slot, and `v'` is what was there, or 0 if the slot was free. */
    method Try(data: seq<seq<Byte>>, ids: seq<nat>, n: nat, v: nat, id: nat) returns (ids': seq<nat>, v': nat, id': nat)
      requires 1 <= v <= n <= |data| && 1 <= id <= 3 && Readable(data[v - 1], id)
      requires TableOk(data, tableV, tableK, ids) && Holds(tableV, n, v)
      modifies this
      ensures |tableV| == old(|tableV|) && TableOk(data, tableV, tableK, ids')
      ensures Holds(tableV, n, v') && v' <= n && 1 <= id' <= 3
      ensures Walk(tableV, tableK, ids', v', id') == Kick(data, Walk(old(tableV), old(tableK), ids, v, id))
    {
      var x := data[v - 1];
      var key := Key(x, id);
      var h := Slot(|tableV|, x, id);
      assert SlotOk(data, tableV, tableK, ids, h);
      PutStep(tableV, h, v, n);
      PutTable(data, tableV, tableK, ids, h, v, id);
      if ids[h] == 0 {
        v', id' := 0, 1;
      } else {
        v', id' := tableV[h], ids[h] % 3 + 1;
      }
      ids', tableV, tableK := ids[h := id], tableV[h := v], tableK[h := key];
    }

    /** Places multiplier `i + 1`, evicting others as needed; fails when the tries are used up. */
    method Place(data: seq<seq<Byte>>, ids: seq<nat>, i: nat) returns (ids': seq<nat>, ok: bool)
      requires i < |data| && forall k :: 0 <= k < |data| ==> LongEnough(data[k])
      requires TableOk(data, tableV, tableK, ids) && Holds(tableV, i, 0)
      modifies this
      ensures |tableV| == old(|tableV|)
      ensures ok ==> TableOk(data, tableV, tableK, ids') && Holds(tableV, i + 1, 0)
      ensures var s := Walk(old(tableV), old(tableK), ids, i + 1, 1);
              var r := Kicked(data, s, maxiter);
              tableV == r.vs && tableK == r.ks && ids' == r.ids && (ok <==> r.v == 0)
    {
      ghost var start := Walk(tableV, tableK, ids, i + 1, 1);
      ids' := ids;
      var v, id := i + 1, 1;
      HoldsNext(tableV, i);
      for j := 0 to maxiter
        invariant 1 <= v <= i + 1 && 1 <= id <= 3
        invariant |tableV| == old(|tableV|)
        invariant TableOk(data, tableV, tableK, ids') && Holds(tableV, i + 1, v)
        invariant Kicked(data, start, j) == Walk(tableV, tableK, ids', v, id)
      {
        KickedStep(data, start, j, Walk(tableV, tableK, ids', v, id));
        ids', v, id := Try(data, ids', i + 1, v, id);
        if v == 0 {
          KickedStays(data, start, j + 1, maxiter);
          return ids', true;
        }
      }
      ok := false;
    }

    /** What that means for every chain of evictions: it is placed if it is not longer than the tries. */
    method InsertOne(data: seq<seq<Byte>>, ids: seq<nat>, i: nat) returns (ids': seq<nat>, ok: bool)
      requires i < |data| && forall k :: 0 <= k < |data| ==> LongEnough(data[k])
      requires TableOk(data, tableV, tableK, ids) && Holds(tableV, i, 0)
      modifies this
      ensures |tableV| == old(|tableV|)
      ensures ok ==> TableOk(data, tableV, tableK, ids') && Holds(tableV, i + 1, 0)
      ensures var s := Walk(old(tableV), old(tableK), ids, i + 1, 1);
              var r := Kicked(data, s, maxiter);
              && tableV == r.vs && tableK == r.ks && ids' == r.ids && (ok <==> r.v == 0)
              && PlacesChains(data, s, maxiter, r)
    {
      ChainsPlace(data, Walk(tableV, tableK, ids, i + 1, 1), maxiter);
      ids', ok := Place(data, ids, i);
    }

    /** Builds the table; fails exactly when some multiplier finds no place within the allowed tries. */
    method Insert(data: seq<seq<Byte>>, jmax: nat) returns (ok: bool)
      requires jmax <= |data| && forall k :: 0 <= k < |data| ==> LongEnough(data[k])
      requires |tableV| > 0 && tableV == tableK == seq(|tableV|, _ => 0)
      modifies this
      ensures var r := Filled(data, |old(tableV)|, maxiter, jmax);
              && (ok <==> r.v == 0)
              && (ok ==> tableV == r.vs && tableK == r.ks && TableOk(data, tableV, tableK, r.ids))
      ensures ok ==> |tableV| == |old(tableV)| && Holds(tableV, jmax, 0)
      ensures ok ==> forall v :: 1 <= v <= jmax ==> Stored(data, tableV, tableK, v)
    {
      ghost var len := |tableV|;
      var ids := seq(|tableV|, _ => 0);
      EmptyTable(data, len, maxiter, ids);
      for i := 0 to jmax
        invariant |tableV| == len
        invariant TableOk(data, tableV, tableK, ids) && Holds(tableV, i, 0)
        invariant FilledIs(data, len, maxiter, i, tableV, tableK, ids)
      {
        FilledStep(data, len, maxiter, i, tableV, tableK, ids);
        ids, ok := InsertOne(data, ids, i);
        if !ok {
          FilledStays(data, len, maxiter, i + 1, jmax);
          return;
        }
      }
      ok := true;
      AllStored(data, tableV, tableK, ids, jmax);
    }
  }

  /** Multiplier `v` is in one of its own slots with its own key. */
  ghost predicate StoredAt(data: seq<seq<Byte>>, vs: seq<nat>, ks: seq<nat>, v: nat, id: nat)
    requires 1 <= v <= |data| && Readable(data[v - 1], id) && 1 <= id <= 3 && |vs| == |ks| > 0
  {
    var h := Slot(|vs|, data[v - 1], id);
    vs[h] == v && ks[h] == Key(data[v - 1], id)
  }

  ghost predicate Stored(data: seq<seq<Byte>>, vs: seq<nat>, ks: seq<nat>, v: nat)
    requires 1 <= v <= |data| && LongEnough(data[v - 1]) && |vs| == |ks| > 0
  {
    exists id :: 1 <= id <= 3 && StoredAt(data, vs, ks, v, id)
  }

  /** The next multiplier is in hand. */
  lemma HoldsNext(vs: seq<nat>, n: nat)
    requires Holds(vs, n, 0)
    ensures Holds(vs, n + 1, n + 1)
  {
  }

  lemma PutStep(vs: seq<nat>, h: nat, v: nat, n: nat)
    requires h < |vs| && 1 <= v <= n && Holds(vs, n, v)
    ensures Holds(vs[h := v], n, vs[h]) && vs[h] <= n
  {
    var vs' := vs[h := v];
    assert vs[h] in multiset(vs);
    assert multiset(vs') == multiset(vs) - multiset{vs[h]} + multiset{v};
    assert vs[h] >= 1 ==> multiset(vs)[vs[h]] == if vs[h] <= n && vs[h] != v then 1 else 0;
  }

  lemma PutTable(data: seq<seq<Byte>>, vs: seq<nat>, ks: seq<nat>, ids: seq<nat>, h: nat, v: nat, id: nat)
    requires TableOk(data, vs, ks, ids) && 1 <= v <= |data| && Readable(data[v - 1], id) && 1 <= id <= 3
    requires h == Slot(|vs|, data[v - 1], id)
    ensures TableOk(data, vs[h := v], ks[h := Key(data[v - 1], id)], ids[h := id])
  {
    var vs', ks', ids' := vs[h := v], ks[h := Key(data[v - 1], id)], ids[h := id];
    forall g | 0 <= g < |vs| ensures SlotOk(data, vs', ks', ids', g) {
      assert SlotOk(data, vs, ks, ids, g);
    }
  }

  lemma StoredByIds(data: seq<seq<Byte>>, vs: seq<nat>, ks: seq<nat>, ids: seq<nat>, v: nat)
    requires TableOk(data, vs, ks, ids) && 1 <= v <= |data| && LongEnough(data[v - 1])
    requires multiset(vs)[v] == 1
    ensures Stored(data, vs, ks, v)
  {
    assert v in multiset(vs);
    var h :| 0 <= h < |vs| && vs[h] == v;
    assert SlotOk(data, vs, ks, ids, h);
    assert StoredAt(data, vs, ks, v, ids[h]);
  }

  lemma AllStored(data: seq<seq<Byte>>, vs: seq<nat>, ks: seq<nat>, ids: seq<nat>, n: nat)
    requires TableOk(data, vs, ks, ids) && Holds(vs, n, 0) && n <= |data|
    requires forall k :: 0 <= k < |data| ==> LongEnough(data[k])
    ensures forall v :: 1 <= v <= n ==> Stored(data, vs, ks, v)
  {
    forall v | 1 <= v <= n ensures Stored(data, vs, ks, v) {
      StoredByIds(data, vs, ks, ids, v);
    }
  }

  // ----- Search

  /** The slot that hash function `id` probes carries the key of `x`. */
  predicate Probes(ks: seq<nat>, x: seq<Byte>, id: nat)
    requires 1 <= id <= 3 && Readable(x, id) && |ks| > 0
  {
    ks[Slot(|ks|, x, id)] == Key(x, id)
  }

  /** `Beyond`: the search goes on past the end of the bytes, and they do not determine its outcome. */
  datatype Found = Hit(v: nat) | Miss | Beyond

  /** Hash functions `lo` to `id - 1` probe slots whose keys do not match. */
  predicate NoneBefore(ks: seq<nat>, x: seq<Byte>, lo: nat, id: nat)
    requires |ks| > 0 && lo >= 1 && id <= 4
  {
    forall d :: lo <= d < id ==> Readable(x, d) && !Probes(ks, x, d)
  }

  predicate FirstMatch(ks: seq<nat>, x: seq<Byte>, lo: nat, id: nat)
    requires |ks| > 0 && lo >= 1
  {
    lo <= id <= 3 && Readable(x, id) && Probes(ks, x, id) && NoneBefore(ks, x, lo, id)
  }

  /** The content of the first slot with a matching key that hash functions `id`, ..., 3 probe. */
  function LookupFrom(vs: seq<nat>, ks: seq<nat>, x: seq<Byte>, id: nat): (r: Found)
    requires |vs| == |ks| > 0 && 1 <= id <= 4
    ensures match r
            case Hit(v) => exists e :: FirstMatch(ks, x, id, e) && v == vs[Slot(|vs|, x, e)]
            case Miss => NoneBefore(ks, x, id, 4)
            case Beyond => exists e :: id <= e <= 3 && !Readable(x, e) && NoneBefore(ks, x, id, e)
    decreases 4 - id
  {
    if id == 4 then Miss
    else if !Readable(x, id) then Beyond
    else if Probes(ks, x, id) then
      assert FirstMatch(ks, x, id, id);
      Hit(vs[Slot(|vs|, x, id)])
    else
      var r := LookupFrom(vs, ks, x, id + 1);
      assert forall e :: FirstMatch(ks, x, id + 1, e) ==> FirstMatch(ks, x, id, e);
      r
  }

  function Lookup(vs: seq<nat>, ks: seq<nat>, x: seq<Byte>): Found
    requires |vs| == |ks| > 0
  {
    LookupFrom(vs, ks, x, 1)
  }

  method OpSearch(vs: seq<nat>, ks: seq<nat>, x: seq<Byte>) returns (r: Found)
    requires |vs| == |ks| > 0
    ensures r == Lookup(vs, ks, x)
  {
    for i := 0 to 3
      invariant Lookup(vs, ks, x) == LookupFrom(vs, ks, x, i + 1)
    {
      if |x| < i * 8 + 8 {
        return Beyond;
      }
      var key := SubBytes(x, i * 8 + 4, i * 8 + 8);
      var h := SubBytes(x, i * 8, i * 8 + 4) % |ks|;
      if ks[h] == key {
        assert Probes(ks, x, i + 1);
        return Hit(vs[h]);
      }
    }
    r := Miss;
  }

  /** A slot probed before hash function `id` carries the key of `x` and content `r`. */
  ghost predicate Shadows(vs: seq<nat>, ks: seq<nat>, x: seq<Byte>, id: nat, r: nat)
    requires |vs| == |ks| > 0 && LongEnough(x)
  {
    exists e :: 1 <= e <= 3 && e < id && Probes(ks, x, e) && vs[Slot(|vs|, x, e)] == r
  }

  /**
   Searching for a stored coordinate always succeeds, and yields its multiplier unless a slot
   probed earlier carries the same key.
   */
  lemma SearchStored(data: seq<seq<Byte>>, vs: seq<nat>, ks: seq<nat>, v: nat)
    requires |vs| == |ks| > 0 && 1 <= v <= |data| && LongEnough(data[v - 1])
    requires Stored(data, vs, ks, v)
    ensures var r := Lookup(vs, ks, data[v - 1]);
            && r.Hit?
            && (r.v == v || forall id :: 1 <= id <= 3 && StoredAt(data, vs, ks, v, id) ==>
                              Shadows(vs, ks, data[v - 1], id, r.v))
  {
    var x, r := data[v - 1], Lookup(vs, ks, data[v - 1]);
    forall id | 1 <= id <= 3 && StoredAt(data, vs, ks, v, id)
      ensures r.Hit? && (r.v == v || Shadows(vs, ks, x, id, r.v))
    {
      assert Probes(ks, x, id);
      assert r.Hit?;
      var e :| FirstMatch(ks, x, 1, e) && r.v == vs[Slot(|vs|, x, e)];
    }
  }
}

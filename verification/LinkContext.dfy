/** The context object of the link layer: ranks, message keys, sending, receiving and spawning. */
module LinkContext {
  import opened Wrappers
  import opened ModArith
  import opened LinkKeys
  import opened LinkRun

  // ----- Ranks

  const SIZE_T: nat := 0x1_0000_0000_0000_0000

  /** Addition and subtraction of machine words wrap around. */
  function NextRank(rank: nat, world: nat, stride: nat): (r: nat)
    requires rank < world
    ensures r < world
  {
    (rank + stride) % SIZE_T % world
  }

  function PrevRank(rank: nat, world: nat, stride: nat): (r: nat)
    requires rank < world
    ensures r < world
  {
    ((rank - stride) % SIZE_T + world) % SIZE_T % world
  }

  /** Going back `stride` ranks is exact as long as the subtraction does not wrap around. */
  lemma PrevRankExact(rank: nat, world: nat, stride: nat)
    requires rank < world && rank + world < SIZE_T && stride < SIZE_T
    ensures stride <= rank + world ==> PrevRank(rank, world, stride) == (rank - stride) % world
    ensures stride > rank + world ==> PrevRank(rank, world, stride) == (rank - stride + SIZE_T) % world
  {
    var d := rank - stride;
    if d >= 0 {
      QuotientUnique(d, 0, d, SIZE_T);
      QuotientUnique(d + world, 0, d + world, SIZE_T);
      ModShift(d, 1, world);
    } else {
      QuotientUnique(d, -1, d + SIZE_T, SIZE_T);
      if d + world >= 0 {
        QuotientUnique(d + SIZE_T + world, 1, d + world, SIZE_T);
        ModShift(d, 1, world);
      } else {
        QuotientUnique(d + SIZE_T + world, 0, d + SIZE_T + world, SIZE_T);
        ModShift(d + SIZE_T, 1, world);
      }
    }
  }

  /** What going on a stride gives, with and without wrap-around. */
  lemma NextRankExact(rank: nat, world: nat, stride: nat)
    requires rank < world && rank < SIZE_T && stride < SIZE_T
    ensures NextRank(rank, world, stride) ==
            if rank + stride < SIZE_T then (rank + stride) % world else (rank + stride - SIZE_T) % world
  {
    if rank + stride < SIZE_T {
      QuotientUnique(rank + stride, 0, rank + stride, SIZE_T);
    } else {
      QuotientUnique(rank + stride, 1, rank + stride - SIZE_T, SIZE_T);
    }
  }

  /**
   `PrevRank` undoes `NextRank` exactly when both wrap around or neither does, or the world size divides the range
   of the machine word.
   */
  lemma PrevUndoesNext(rank: nat, world: nat, stride: nat)
    requires rank < world && 2 * world <= SIZE_T && stride < SIZE_T
    ensures var there := NextRank(rank, world, stride);
            PrevRank(there, world, stride) == rank <==>
              (rank + stride >= SIZE_T <==> stride > there + world) || SIZE_T % world == 0
  {
    var there := NextRank(rank, world, stride);
    var up, back := if rank + stride < SIZE_T then 0 else SIZE_T, if stride <= there + world then 0 else SIZE_T;
    NextRankExact(rank, world, stride);
    PrevRankExact(there, world, stride);
    ModIdem(rank + stride - up, world);
    CongSub(there, rank + stride - up, stride, stride, world);
    CongAdd(there - stride, rank - up, back, back, world);
    assert PrevRank(there, world, stride) == (rank - up + back) % world;
    WrapDifference(rank, up, back, world);
  }

  lemma WrapDifference(rank: nat, up: int, back: int, world: nat)
    requires rank < world && (up == 0 || up == SIZE_T) && (back == 0 || back == SIZE_T)
    ensures (rank - up + back) % world == rank <==> up == back || SIZE_T % world == 0
  {
    QuotientUnique(rank, 0, rank, world);
    QuotientUnique(0, 0, 0, world);
    if up != back {
      var d := back - up;
      if SIZE_T % world == 0 {
        CongSub(0, 0, SIZE_T, 0, world);
        CongAdd(rank, rank, d, 0, world);
      } else if (rank + d) % world == rank {
        CongSub(rank + d, rank, rank, rank, world);
        CongSub(0, 0, d, 0, world);
      }
    }
  }

  /** A world of three: seven ranks on from rank 0 and seven back again does not lead to rank 0. */
  lemma PrevRankWraps()
    ensures NextRank(0, 3, 7) == 1 && PrevRank(1, 3, 7) == 1
  {
    QuotientUnique(7, 0, 7, SIZE_T);
    PrevRankExact(1, 3, 7);
  }

  // ----- The objects of a world

  /** One direction of the channel between two parties. */
  class Mailbox {
    var msgs: map<string, Bytes>

    constructor ()
      ensures msgs == map[]
    {
      msgs := map[];
    }

    /** A message arrives; a key that is there already keeps its value. */
    method OnMessage(key: string, value: Bytes)
      modifies this
      ensures msgs == if key in old(msgs) then old(msgs) else old(msgs)[key := value]
    {
      if key !in msgs {
        msgs := msgs[key := value];
      }
    }

    /** Takes the message out, if it is there. */
    method Take(key: string) returns (r: Option<Bytes>)
      modifies this
      ensures r == if key in old(msgs) then Some(old(msgs)[key]) else None
      ensures msgs == old(msgs) - {key}
    {
      if key in msgs {
        r := Some(msgs[key]);
        msgs := msgs - {key};
      } else {
        r := None;
      }
    }
  }

  /** Counters that a context shares with the contexts spawned from it; `cell` names the object. */
  class Statistics {
    ghost const cell: nat
    var stats: Stats

    constructor (ghost cell: nat)
      ensures stats == Stats(0, 0, 0, 0) && this.cell == cell
    {
      this.cell := cell;
      stats := Stats(0, 0, 0, 0);
    }
  }

  /** All objects of a world: the contexts by rank and id, the mailboxes by direction, the statistics by cell. */
  datatype Net = Net(world: nat, contexts: map<(nat, string), Context>, boxes: map<(nat, nat), Mailbox>,
                     cells: map<nat, Statistics>)

  /** The context at `k` has its own rank and id, the mailboxes of its rank, and a statistics object of the world. */
  ghost predicate WiredAt(net: Net, k: (nat, string), c: Context) {
    && c.rank == k.0 < net.world && c.id == k.1
    && |c.outbox| == |c.inbox| == net.world
    && (forall d :: 0 <= d < net.world ==> (c.rank, d) in net.boxes && c.outbox[d] == net.boxes[(c.rank, d)])
    && (forall d :: 0 <= d < net.world ==> (d, c.rank) in net.boxes && c.inbox[d] == net.boxes[(d, c.rank)])
    && c.shared.cell in net.cells && net.cells[c.shared.cell] == c.shared
  }

  /** The objects are connected as the constructors connect them, and different names name different objects. */
  ghost predicate Wired(net: Net) {
    && (forall p, q :: p in net.boxes && q in net.boxes && net.boxes[p] == net.boxes[q] ==> p == q)
    && (forall k :: k in net.contexts ==> WiredAt(net, k, net.contexts[k]))
    && (forall n :: n in net.cells ==> net.cells[n].cell == n)
  }

  // ----- The state the objects are in

  /** The messages of a mailbox are those that have arrived in direction `p`. */
  ghost predicate Arrived(msgs: map<string, Bytes>, mailbox: map<Addr, Msg>, p: (nat, nat)) {
    forall key ::
      && (key in msgs <==> Addr(p.0, p.1, key) in mailbox)
      && (key in msgs ==> msgs[key] == mailbox[Addr(p.0, p.1, key)].value)
  }

  lemma ArrivedPut(msgs: map<string, Bytes>, mailbox: map<Addr, Msg>, p: (nat, nat), key: string, m: Msg)
    requires Arrived(msgs, mailbox, p)
    ensures Arrived(msgs[key := m.value], mailbox[Addr(p.0, p.1, key) := m], p)
  {
  }

  lemma ArrivedTaken(msgs: map<string, Bytes>, mailbox: map<Addr, Msg>, p: (nat, nat), key: string)
    requires Arrived(msgs, mailbox, p)
    ensures Arrived(msgs - {key}, mailbox - {Addr(p.0, p.1, key)}, p)
  {
  }

  /** The values the objects of a world hold. */
  datatype World = World(size: nat, contexts: map<(nat, string), Ctx>, boxes: map<(nat, nat), map<string, Bytes>>,
                         cells: map<nat, Stats>)

  ghost function Contexts(net: Net): map<(nat, string), Ctx>
    reads net.contexts.Values
  {
    map k | k in net.contexts :: net.contexts[k].View()
  }

  ghost function Boxes(net: Net): map<(nat, nat), map<string, Bytes>>
    reads net.boxes.Values
  {
    map p | p in net.boxes :: net.boxes[p].msgs
  }

  ghost function Cells(net: Net): map<nat, Stats>
    reads net.cells.Values
  {
    map n | n in net.cells :: net.cells[n].stats
  }

  ghost function WorldOf(net: Net): World
    reads net.contexts.Values, net.boxes.Values, net.cells.Values
  {
    World(net.world, Contexts(net), Boxes(net), Cells(net))
  }

  ghost predicate BoxesMatch(boxes: map<(nat, nat), map<string, Bytes>>, mailbox: map<Addr, Msg>) {
    forall p :: p in boxes ==> Arrived(boxes[p], mailbox, p)
  }

  /** The values are those of the state `s` of the link layer, with nothing in flight. */
  ghost predicate Matches(w: World, s: State) {
    && s.world == w.size && s.flight == map[]
    && w.contexts == s.ctxs && BoxesMatch(w.boxes, s.mailbox) && CellsMatch(w.cells, s)
  }

  ghost predicate CellsMatch(cells: map<nat, Stats>, s: State) {
    forall n :: n in cells ==> cells[n] == StatsOf(s, n)
  }

  lemma CellsRecorded(cells: map<nat, Stats>, s: State, cell: nat, st: Stats, s': State)
    requires CellsMatch(cells, s) && s'.stats == s.stats[cell := st]
    ensures CellsMatch(cells[cell := st], s')
  {
    forall n | n in cells[cell := st] ensures cells[cell := st][n] == StatsOf(s', n) {
      assert n != cell ==> cells[n] == StatsOf(s, n);
    }
  }

  /** A mailbox other than that of direction `p` does not notice what comes and goes there. */
  lemma ArrivedElsewhere(msgs: map<string, Bytes>, mailbox: map<Addr, Msg>, p: (nat, nat), q: (nat, nat),
                         key: string, m: Msg)
    requires Arrived(msgs, mailbox, q) && p != q
    ensures Arrived(msgs, mailbox[Addr(p.0, p.1, key) := m], q) && Arrived(msgs, mailbox - {Addr(p.0, p.1, key)}, q)
  {
  }

  lemma BoxesPut(boxes: map<(nat, nat), map<string, Bytes>>, mailbox: map<Addr, Msg>, p: (nat, nat), key: string,
                 m: Msg)
    requires BoxesMatch(boxes, mailbox) && p in boxes
    ensures BoxesMatch(boxes[p := boxes[p][key := m.value]], mailbox[Addr(p.0, p.1, key) := m])
  {
    ArrivedPut(boxes[p], mailbox, p, key, m);
    forall q | q in boxes && q != p ensures Arrived(boxes[q], mailbox[Addr(p.0, p.1, key) := m], q) {
      ArrivedElsewhere(boxes[q], mailbox, p, q, key, m);
    }
  }

  lemma BoxesTaken(boxes: map<(nat, nat), map<string, Bytes>>, mailbox: map<Addr, Msg>, p: (nat, nat), key: string)
    requires BoxesMatch(boxes, mailbox) && p in boxes && key in boxes[p]
    ensures BoxesMatch(boxes[p := boxes[p] - {key}], mailbox - {Addr(p.0, p.1, key)})
  {
    ArrivedTaken(boxes[p], mailbox, p, key);
    forall q | q in boxes && q != p ensures Arrived(boxes[q], mailbox - {Addr(p.0, p.1, key)}, q) {
      ArrivedElsewhere(boxes[q], mailbox, p, q, key, mailbox[Addr(p.0, p.1, key)]);
    }
  }

  ghost function NextOut(s: State, rank: nat, id: string, dst: nat): Addr
    requires (rank, id) in s.ctxs
  {
    AddrOf(Flow(id, rank, dst), Counter(s.ctxs[(rank, id)], rank, dst) + 1)
  }

  /** The state after a send; its message arrives at once, as it does over a channel in memory, unless that fails. */
  ghost function AfterSend(s: State, rank: nat, id: string, dst: nat, value: Bytes, fails: bool): State
    requires (rank, id) in s.ctxs
  {
    var c, f := s.ctxs[(rank, id)], Flow(id, rank, dst);
    var v := Sent(s, Send(rank, id, dst, value, fails));
    var addr := NextOut(s, rank, id, dst);
    s.(ctxs := s.ctxs[(rank, id) := Bump(c, rank, dst)],
       mailbox := if v == None then s.mailbox else s.mailbox[addr := Msg(value, f, Counter(c, rank, dst) + 1)],
       stats := s.stats[c.cell := CountSent(StatsOf(s, c.cell), v)],
       sent := s.sent[f := Log(s.sent, f) + [v]])
  }

  /** It is the state after the send step of the run and, if that succeeds, the step in which the message arrives. */
  lemma AfterSendIsSteps(s: State, rank: nat, id: string, dst: nat, value: Bytes, fails: bool)
    requires Inv(s) && s.flight == map[] && (rank, id) in s.ctxs && dst != rank
    ensures var s1, s2 := Step(s, Send(rank, id, dst, value, fails)), AfterSend(s, rank, id, dst, value, fails);
            if dst < s.world && !fails then
              NextOut(s, rank, id, dst) in s1.flight && s2 == Step(s1, Deliver(NextOut(s, rank, id, dst)))
            else s2 == s1
  {
    NextOutFree(s, rank, id, dst);
  }

  lemma NextOutFree(s: State, rank: nat, id: string, dst: nat)
    requires Inv(s) && (rank, id) in s.ctxs && dst != rank
    ensures NextOut(s, rank, id, dst) !in s.mailbox
  {
    assert CountersAt(s, rank, id, dst);
    NextAddrFree(s, Flow(id, rank, dst));
  }

  /** So it is sound again. */
  lemma AfterSendInv(s: State, rank: nat, id: string, dst: nat, value: Bytes, fails: bool)
    requires Inv(s) && s.flight == map[] && (rank, id) in s.ctxs && dst != rank
    ensures Inv(AfterSend(s, rank, id, dst, value, fails))
  {
    var a := Send(rank, id, dst, value, fails);
    AfterSendIsSteps(s, rank, id, dst, value, fails);
    StepInv(s, a);
    if dst < s.world && !fails {
      StepInv(Step(s, a), Deliver(NextOut(s, rank, id, dst)));
    }
  }

  // ----- Sending and receiving on the values

  ghost predicate HasContext(w: World, rank: nat, id: string) {
    && (rank, id) in w.contexts && w.contexts[(rank, id)].cell in w.cells
    && forall d :: 0 <= d < w.size ==> (rank, d) in w.boxes && (d, rank) in w.boxes
  }

  ghost function Bumped(w: World, rank: nat, id: string, src: nat, dst: nat): World
    requires HasContext(w, rank, id)
  {
    w.(contexts := w.contexts[(rank, id) := Bump(w.contexts[(rank, id)], src, dst)])
  }

  ghost function OutKey(w: World, rank: nat, id: string, dst: nat): string
    requires HasContext(w, rank, id)
  {
    P2PKey(id, Counter(w.contexts[(rank, id)], rank, dst) + 1, rank, dst)
  }

  ghost function InKey(w: World, rank: nat, id: string, src: nat): string
    requires HasContext(w, rank, id)
  {
    P2PKey(id, Counter(w.contexts[(rank, id)], src, rank) + 1, src, rank)
  }

  ghost function WorldSend(w: World, rank: nat, id: string, dst: nat, value: Bytes): World
    requires HasContext(w, rank, id) && dst < w.size
  {
    var cell := w.contexts[(rank, id)].cell;
    Bumped(w, rank, id, rank, dst).(
      boxes := w.boxes[(rank, dst) := w.boxes[(rank, dst)][OutKey(w, rank, id, dst) := value]],
      cells := w.cells[cell := CountSent(w.cells[cell], Some(value))])
  }

  ghost function WorldRecv(w: World, rank: nat, id: string, src: nat): World
    requires HasContext(w, rank, id) && src < w.size && InKey(w, rank, id, src) in w.boxes[(src, rank)]
  {
    var cell, key := w.contexts[(rank, id)].cell, InKey(w, rank, id, src);
    Bumped(w, rank, id, src, rank).(
      boxes := w.boxes[(src, rank) := w.boxes[(src, rank)] - {key}],
      cells := w.cells[cell := CountRecv(w.cells[cell], Some(w.boxes[(src, rank)][key]))])
  }

  /** The key of the next message is not in the mailbox it will go to. */
  lemma KeyIsFree(w: World, s: State, rank: nat, id: string, dst: nat)
    requires Matches(w, s) && Inv(s) && HasContext(w, rank, id) && rank != dst < w.size
    ensures OutKey(w, rank, id, dst) !in w.boxes[(rank, dst)]
  {
    NextOutFree(s, rank, id, dst);
    assert Arrived(w.boxes[(rank, dst)], s.mailbox, (rank, dst));
  }

  lemma SendMatches(w: World, s: State, rank: nat, id: string, dst: nat, value: Bytes)
    requires Matches(w, s) && HasContext(w, rank, id) && dst < w.size
    ensures Matches(WorldSend(w, rank, id, dst, value), AfterSend(s, rank, id, dst, value, false))
  {
    var n, cell := Counter(w.contexts[(rank, id)], rank, dst) + 1, w.contexts[(rank, id)].cell;
    CellsRecorded(w.cells, s, cell, CountSent(w.cells[cell], Some(value)), AfterSend(s, rank, id, dst, value, false));
    BoxesPut(w.boxes, s.mailbox, (rank, dst), OutKey(w, rank, id, dst), Msg(value, Flow(id, rank, dst), n));
  }

  lemma FailedSendMatches(w: World, s: State, rank: nat, id: string, dst: nat, value: Bytes, fails: bool)
    requires Matches(w, s) && HasContext(w, rank, id) && (dst >= w.size || fails)
    ensures Matches(Bumped(w, rank, id, rank, dst), AfterSend(s, rank, id, dst, value, fails))
  {
  }

  lemma RecvMatches(w: World, s: State, rank: nat, id: string, src: nat)
    requires Matches(w, s) && HasContext(w, rank, id) && rank != src < w.size
    ensures var a, key := Recv(rank, id, src), InKey(w, rank, id, src);
            && Received(s, a) == (if key in w.boxes[(src, rank)] then Some(w.boxes[(src, rank)][key]) else None)
            && Matches(if key in w.boxes[(src, rank)] then WorldRecv(w, rank, id, src)
                       else Bumped(w, rank, id, src, rank), Step(s, a))
  {
    var key := InKey(w, rank, id, src);
    assert Arrived(w.boxes[(src, rank)], s.mailbox, (src, rank));
    if key in w.boxes[(src, rank)] {
      var cell := w.contexts[(rank, id)].cell;
      var st := CountRecv(w.cells[cell], Some(w.boxes[(src, rank)][key]));
      CellsRecorded(w.cells, s, cell, st, Step(s, Recv(rank, id, src)));
      BoxesTaken(w.boxes, s.mailbox, (src, rank), key);
    }
  }

  lemma FailedRecvMatches(w: World, s: State, rank: nat, id: string, src: nat)
    requires Matches(w, s) && HasContext(w, rank, id) && src != rank && src >= w.size
    ensures Received(s, Recv(rank, id, src)) == None
    ensures Matches(Bumped(w, rank, id, src, rank), Step(s, Recv(rank, id, src)))
  {
  }

  lemma SpawnMatches(w: World, s: State, c: Ctx, rank: nat, id: string, child: string, auto: bool, w': World)
    requires Matches(w, s) && (rank, id) in w.contexts && w.contexts[(rank, id)] == c
    requires (rank, child) !in w.contexts && (auto ==> child == SpawnId(id, c.children))
    requires w'.size == w.size && w'.boxes == w.boxes && w'.cells == w.cells
    requires w'.contexts == w.contexts[(rank, id) := if auto then c.(children := c.children + 1) else c]
                                      [(rank, child) := Ctx(map[], 0, c.cell)]
    ensures var a := Spawn(rank, id, child, auto);
            Enabled(s, a) && Matches(w', Step(s, a)) && (Inv(s) ==> Inv(Step(s, a)))
  {
    if Inv(s) {
      StepInv(s, Spawn(rank, id, child, auto));
    }
  }

  lemma ChildIsWired(net: Net, parent: Context, child: Context)
    requires WiredAt(net, (parent.rank, parent.id), parent) && child.rank == parent.rank
    requires child.outbox == parent.outbox && child.inbox == parent.inbox && child.shared == parent.shared
    ensures WiredAt(net, (child.rank, child.id), child)
  {
  }

  /** A world with one more context. */
  lemma AddContext(net: Net, child: Context)
    requires Wired(net) && WiredAt(net, (child.rank, child.id), child)
    ensures var net' := net.(contexts := net.contexts[(child.rank, child.id) := child]);
            && child.In(net')
            && Contexts(net') == Contexts(net)[(child.rank, child.id) := child.View()]
            && Boxes(net') == Boxes(net) && Cells(net') == Cells(net)
  {
    var net' := net.(contexts := net.contexts[(child.rank, child.id) := child]);
    forall k | k in net'.contexts ensures WiredAt(net', k, net'.contexts[k]) {
      assert k != (child.rank, child.id) ==> WiredAt(net, k, net.contexts[k]);
      assert WiredAt(net, k, net'.contexts[k]);
    }
  }

  // ----- The objects change

  /** A message comes into one mailbox of a world. */
  method Deposit(p: (nat, nat), box: Mailbox, key: string, value: Bytes, ghost net: Net)
    requires Wired(net) && p in net.boxes && net.boxes[p] == box && key !in box.msgs
    modifies box
    ensures Contexts(net) == old(Contexts(net)) && Cells(net) == old(Cells(net))
    ensures Boxes(net) == old(Boxes(net))[p := old(Boxes(net))[p][key := value]]
  {
    box.OnMessage(key, value);
  }

  /** A message is taken out of one mailbox of a world. */
  method Withdraw(p: (nat, nat), box: Mailbox, key: string, ghost net: Net) returns (value: Bytes)
    requires Wired(net) && p in net.boxes && net.boxes[p] == box && key in box.msgs
    modifies box
    ensures value == old(Boxes(net))[p][key]
    ensures Contexts(net) == old(Contexts(net)) && Cells(net) == old(Cells(net))
    ensures Boxes(net) == old(Boxes(net))[p := old(Boxes(net))[p] - {key}]
  {
    var r := box.Take(key);
    value := r.value;
  }

  /** One statistics object of a world changes. */
  method Record(shared: Statistics, stats: Stats, ghost net: Net)
    requires Wired(net) && shared.cell in net.cells && net.cells[shared.cell] == shared
    modifies shared
    ensures Contexts(net) == old(Contexts(net)) && Boxes(net) == old(Boxes(net))
    ensures Cells(net) == old(Cells(net))[shared.cell := stats]
  {
    shared.stats := stats;
  }

  class Context {
    const id: string
    const rank: nat
    const outbox: seq<Mailbox>
    const inbox: seq<Mailbox>
    const shared: Statistics
    var counters: map<(nat, nat), nat>
    var children: nat

    ghost function View(): Ctx
      reads this
    {
      Ctx(counters, children, shared.cell)
    }

    /** The context is one of the world's. */
    ghost predicate In(net: Net) {
      Wired(net) && (rank, id) in net.contexts && net.contexts[(rank, id)] == this
    }

    constructor (id: string, rank: nat, outbox: seq<Mailbox>, inbox: seq<Mailbox>, shared: Statistics)
      ensures this.id == id && this.rank == rank && this.outbox == outbox && this.inbox == inbox
      ensures this.shared == shared && counters == map[] && children == 0
    {
      this.id, this.rank, this.outbox, this.inbox, this.shared := id, rank, outbox, inbox, shared;
      counters, children := map[], 0;
    }

    lemma InWorld(net: Net)
      requires In(net)
      ensures HasContext(WorldOf(net), rank, id) && WorldOf(net).contexts[(rank, id)] == View()
      ensures WiredAt(net, (rank, id), this)
    {
      assert WiredAt(net, (rank, id), this);
    }

    /** The key of the next message in a direction. It belongs to that message of this context, and to no other. */
    method NextP2PId(src: nat, dst: nat) returns (key: string)
      modifies this`counters
      ensures View() == Bump(old(View()), src, dst)
      ensures key == AddrOf(Flow(id, src, dst), Counter(View(), src, dst)).key
      ensures forall f: Flow, n: nat :: AddrOf(f, n).key == key ==>
                f == Flow(id, src, dst) && n == Counter(old(View()), src, dst) + 1
    {
      var n := (if (src, dst) in counters then counters[(src, dst)] else 0) + 1;
      counters := counters[(src, dst) := n];
      key := P2PKey(id, n, src, dst);
      forall f: Flow, n': nat | AddrOf(f, n').key == key ensures f == Flow(id, src, dst) && n' == n {
        KeyInjective(f.id, n', f.src, f.dst, id, n, src, dst);
      }
    }

    /** Takes the next number of a direction, and changes nothing else in the world. */
    method TakeNumber(src: nat, dst: nat, ghost net: Net) returns (key: string)
      requires In(net)
      modifies this`counters
      ensures Contexts(net) == old(Contexts(net))[(rank, id) := Bump(old(View()), src, dst)]
      ensures Boxes(net) == old(Boxes(net)) && Cells(net) == old(Cells(net))
      ensures key == P2PKey(id, Counter(old(View()), src, dst) + 1, src, dst)
    {
      forall k | k in net.contexts ensures net.contexts[k] == this <==> k == (rank, id) {
        assert WiredAt(net, k, net.contexts[k]);
      }
      key := NextP2PId(src, dst);
    }

    /** Puts a message into the channel to `dst` and counts it. */
    method Post(dst: nat, key: string, value: Bytes, ghost net: Net)
      requires In(net) && dst < net.world && (rank, dst) in Boxes(net) && shared.cell in Cells(net)
      requires key !in Boxes(net)[(rank, dst)]
      modifies outbox, shared
      ensures Contexts(net) == old(Contexts(net))
      ensures Boxes(net) == old(Boxes(net))[(rank, dst) := old(Boxes(net))[(rank, dst)][key := value]]
      ensures Cells(net) == old(Cells(net))[shared.cell := CountSent(old(Cells(net))[shared.cell], Some(value))]
    {
      assert WiredAt(net, (rank, id), this);
      Deposit((rank, dst), outbox[dst], key, value, net);
      var st := shared.stats;
      Record(shared, st.(sentActions := st.sentActions + 1, sentBytes := st.sentBytes + |value|), net);
    }

    /** Takes a message out of the channel from `src` and counts it. */
    method Fetch(src: nat, key: string, ghost net: Net) returns (value: Bytes)
      requires In(net) && src < net.world && (src, rank) in Boxes(net) && shared.cell in Cells(net)
      requires key in Boxes(net)[(src, rank)]
      modifies inbox, shared
      ensures value == old(Boxes(net))[(src, rank)][key]
      ensures Contexts(net) == old(Contexts(net))
      ensures Boxes(net) == old(Boxes(net))[(src, rank) := old(Boxes(net))[(src, rank)] - {key}]
      ensures Cells(net) == old(Cells(net))[shared.cell := CountRecv(old(Cells(net))[shared.cell], Some(value))]
    {
      assert WiredAt(net, (rank, id), this);
      value := Withdraw((src, rank), inbox[src], key, net);
      var st := shared.stats;
      Record(shared, st.(recvActions := st.recvActions + 1, recvBytes := st.recvBytes + |value|), net);
    }

    /** A call that fails changes only the counter of its direction. */
    method Miss(src: nat, dst: nat, ghost net: Net) returns (key: string)
      requires In(net) && HasContext(WorldOf(net), rank, id)
      modifies this`counters
      ensures WorldOf(net) == Bumped(old(WorldOf(net)), rank, id, src, dst)
      ensures key == P2PKey(id, Counter(old(View()), src, dst) + 1, src, dst)
    {
      InWorld(net);
      key := TakeNumber(src, dst, net);
    }

    /** What a send whose rank is in range changes. */
    method Transmit(dst: nat, value: Bytes, ghost net: Net)
      requires In(net) && dst < net.world && HasContext(WorldOf(net), rank, id)
      requires OutKey(WorldOf(net), rank, id, dst) !in Boxes(net)[(rank, dst)]
      modifies this`counters, outbox, shared
      ensures WorldOf(net) == WorldSend(old(WorldOf(net)), rank, id, dst, value)
    {
      InWorld(net);
      var key := TakeNumber(rank, dst, net);
      Post(dst, key, value, net);
    }

    /**
     A call is the send step of the run, and over a channel in memory the message arrives with it. The send fails when
     the rank is out of range or the peer has released the channel. The state is sound again for the next call.
     */
    method SendAsync(dst: nat, value: Bytes, released: bool, ghost net: Net, ghost s: State) returns (ok: bool)
      requires In(net) && Matches(WorldOf(net), s) && Inv(s) && dst != rank
      modifies this`counters, outbox, shared
      ensures ok <==> dst < net.world && !released
      ensures Matches(WorldOf(net), AfterSend(s, rank, id, dst, value, released))
      ensures Inv(AfterSend(s, rank, id, dst, value, released))
    {
      InWorld(net);
      AfterSendInv(s, rank, id, dst, value, released);
      ok := dst < |outbox| && !released;
      if ok {
        KeyIsFree(WorldOf(net), s, rank, id, dst);
        SendMatches(WorldOf(net), s, rank, id, dst, value);
        Transmit(dst, value, net);
      } else {
        FailedSendMatches(WorldOf(net), s, rank, id, dst, value, released);
        var key := Miss(rank, dst, net);
      }
    }

    /** What a receive from a rank in range changes. */
    method Collect(src: nat, ghost net: Net) returns (r: Option<Bytes>)
      requires In(net) && src < net.world && HasContext(WorldOf(net), rank, id)
      modifies this`counters, inbox, shared
      ensures var w, key := old(WorldOf(net)), InKey(old(WorldOf(net)), rank, id, src);
              && r == (if key in w.boxes[(src, rank)] then Some(w.boxes[(src, rank)][key]) else None)
              && WorldOf(net) == if r.Some? then WorldRecv(w, rank, id, src) else Bumped(w, rank, id, src, rank)
    {
      InWorld(net);
      var key := TakeNumber(src, rank, net);
      if key in inbox[src].msgs {
        var value := Fetch(src, key, net);
        r := Some(value);
      } else {
        r := None;
      }
    }

    /** A call is the receive step of the run: it returns what is there under the next number, or fails. */
    method Recv(src: nat, ghost net: Net, ghost s: State) returns (r: Option<Bytes>)
      requires In(net) && Matches(WorldOf(net), s) && src != rank
      modifies this`counters, inbox, shared
      ensures r == Received(s, LinkRun.Recv(rank, id, src))
      ensures Matches(WorldOf(net), Step(s, LinkRun.Recv(rank, id, src)))
      ensures Inv(s) ==> Inv(Step(s, LinkRun.Recv(rank, id, src)))
    {
      InWorld(net);
      if Inv(s) {
        StepInv(s, LinkRun.Recv(rank, id, src));
      }
      if src < |inbox| {
        RecvMatches(WorldOf(net), s, rank, id, src);
        r := Collect(src, net);
      } else {
        FailedRecvMatches(WorldOf(net), s, rank, id, src);
        var key := Miss(src, rank, net);
        r := None;
      }
    }

    /** The id of the next child: numbered, unless it is given a name. */
    function ChildId(name: string): string
      reads this
    {
      if name == "" then SpawnId(id, children) else id + "-" + name
    }

    /** A given name follows the parent's id and a dash, so children of one parent with different names differ. */
    lemma ChildIdIsNamed(name: string, other: string)
      requires name != "" && other != ""
      ensures ChildId(name)[..|id|] == id && ChildId(name)[|id|..] == "-" + name
      ensures ChildId(name) == ChildId(other) <==> name == other
    {
      assert ChildId(name)[|id|..][1..] == name && ChildId(other)[|id|..][1..] == other;
    }

    /** Creates a child with the parent's channels and statistics. */
    method MakeChild(name: string, ghost net: Net) returns (child: Context)
      requires In(net)
      modifies this`children
      ensures fresh(child) && child.rank == rank && child.id == old(ChildId(name))
      ensures WiredAt(net, (rank, child.id), child) && child.View() == Ctx(map[], 0, shared.cell)
      ensures Boxes(net) == old(Boxes(net)) && Cells(net) == old(Cells(net))
      ensures var c := old(View());
              Contexts(net) ==
              old(Contexts(net))[(rank, id) := if name == "" then c.(children := c.children + 1) else c]
    {
      forall k | k in net.contexts ensures net.contexts[k] == this <==> k == (rank, id) {
        assert WiredAt(net, k, net.contexts[k]);
      }
      var childId := ChildId(name);
      if name == "" {
        children := children + 1;
      }
      child := new Context(childId, rank, outbox, inbox, shared);
      ChildIsWired(net, this, child);
    }

    /**
     A call is the spawn step of the run when the child's id is new, which it always is under automatic numbering:
     the world with the child in it is in the state after that step.
     */
    method Spawn(name: string, ghost net: Net, ghost s: State) returns (child: Context, ghost net': Net)
      requires In(net) && Matches(WorldOf(net), s)
      modifies this`children
      ensures fresh(child) && child.rank == rank && child.id == old(ChildId(name))
      ensures net' == net.(contexts := net.contexts[(rank, child.id) := child])
      ensures child.In(net')
      ensures var a := LinkRun.Spawn(rank, id, child.id, name == "");
              (rank, child.id) !in net.contexts ==>
                Enabled(s, a) && Matches(WorldOf(net'), Step(s, a)) && (Inv(s) ==> Inv(Step(s, a)))
    {
      ghost var w, c := WorldOf(net), View();
      assert w.contexts[(rank, id)] == c && w.contexts.Keys == net.contexts.Keys;
      child, net' := Branch(name, net);
      if (rank, child.id) !in w.contexts {
        SpawnMatches(w, s, c, rank, id, child.id, name == "", WorldOf(net'));
      }
    }

    /** The world with the child in it. */
    method Branch(name: string, ghost net: Net) returns (child: Context, ghost net': Net)
      requires In(net)
      modifies this`children
      ensures fresh(child) && child.rank == rank && child.id == old(ChildId(name))
      ensures net' == net.(contexts := net.contexts[(rank, child.id) := child]) && child.In(net')
      ensures var c := old(View());
              Contexts(net') ==
              old(Contexts(net))[(rank, id) := if name == "" then c.(children := c.children + 1) else c]
                                [(rank, child.id) := Ctx(map[], 0, c.cell)]
      ensures Boxes(net') == old(Boxes(net)) && Cells(net') == old(Cells(net))
    {
      child := MakeChild(name, net);
      AddContext(net, child);
      net' := net.(contexts := net.contexts[(rank, child.id) := child]);
    }
  }

  // ----- A message goes from one object to another

  /** Both parties have taken the same numbers in the direction from `src` to `dst`. */
  ghost predicate InStep(s: State, id: string, src: nat, dst: nat) {
    && (src, id) in s.ctxs && (dst, id) in s.ctxs
    && Counter(s.ctxs[(src, id)], src, dst) == Counter(s.ctxs[(dst, id)], src, dst)
  }

  lemma SentIsReceived(s: State, id: string, src: nat, dst: nat, value: Bytes)
    requires InStep(s, id, src, dst) && src != dst < s.world && src < s.world
    ensures var s', a := AfterSend(s, src, id, dst, value, false), Recv(dst, id, src);
            Enabled(s', a) && Received(s', a) == Some(value) && InStep(Step(s', a), id, src, dst)
  {
  }

  /** As long as two parties are in step, what one sends is what the other then receives. */
  method SendRecv(a: Context, b: Context, value: Bytes, ghost net: Net, ghost s: State)
    returns (r: Option<Bytes>, ghost s': State)
    requires a.In(net) && b.In(net) && a.id == b.id && a.rank != b.rank
    requires Matches(WorldOf(net), s) && Inv(s) && InStep(s, a.id, a.rank, b.rank)
    modifies a`counters, a.outbox, a.shared, b`counters, b.inbox, b.shared
    ensures r == Some(value)
    ensures Matches(WorldOf(net), s') && Inv(s') && InStep(s', a.id, a.rank, b.rank)
  {
    assert WiredAt(net, (a.rank, a.id), a) && WiredAt(net, (b.rank, b.id), b);
    SentIsReceived(s, a.id, a.rank, b.rank, value);
    var ok := a.SendAsync(b.rank, value, false, net, s);
    s' := AfterSend(s, a.rank, a.id, b.rank, value, false);
    r := b.Recv(a.rank, net, s');
    s' := Step(s', Recv(b.rank, b.id, a.rank));
  }

  // ----- A world is set up

  ghost predicate AreBoxes(boxes: map<(nat, nat), Mailbox>, world: nat) {
    && (forall p :: p in boxes <==> p.0 < world && p.1 < world)
    && (forall p, q :: p in boxes && q in boxes && boxes[p] == boxes[q] ==> p == q)
  }

  /** A mailbox for each direction, all of them different and empty. */
  method MakeBoxes(world: nat) returns (boxes: map<(nat, nat), Mailbox>)
    ensures AreBoxes(boxes, world)
    ensures forall p :: p in boxes ==> fresh(boxes[p]) && boxes[p].msgs == map[]
  {
    boxes := map[];
    for i := 0 to world
      invariant forall p :: p in boxes <==> p.0 < i && p.1 < world
      invariant forall p, q :: p in boxes && q in boxes && boxes[p] == boxes[q] ==> p == q
      invariant forall p :: p in boxes ==> fresh(boxes[p]) && boxes[p].msgs == map[]
    {
      for j := 0 to world
        invariant forall p :: p in boxes <==> p.1 < world && (p.0 < i || (p.0 == i && p.1 < j))
        invariant forall p, q :: p in boxes && q in boxes && boxes[p] == boxes[q] ==> p == q
        invariant forall p :: p in boxes ==> fresh(boxes[p]) && boxes[p].msgs == map[]
      {
        var box := new Mailbox();
        boxes := boxes[(i, j) := box];
      }
    }
  }

  /** The context of party `i`, with statistics of its own. */
  method MakeContext(root: string, i: nat, world: nat, boxes: map<(nat, nat), Mailbox>)
    returns (c: Context, shared: Statistics)
    requires AreBoxes(boxes, world) && i < world
    ensures fresh(c) && fresh(shared) && c.View() == Ctx(map[], 0, i) && shared.stats == Stats(0, 0, 0, 0)
    ensures shared.cell == i && IsParty(c, root, i, world, boxes, shared)
  {
    shared := new Statistics(i);
    var outbox := seq(world, d requires (i, d) in boxes => boxes[(i, d)]);
    var inbox := seq(world, d requires (d, i) in boxes => boxes[(d, i)]);
    c := new Context(root, i, outbox, inbox, shared);
  }

  ghost predicate IsParty(c: Context, root: string, i: nat, world: nat, boxes: map<(nat, nat), Mailbox>,
                          shared: Statistics)
    requires AreBoxes(boxes, world) && i < world
  {
    && c.rank == i && c.id == root && c.shared == shared && |c.outbox| == |c.inbox| == world
    && (forall d :: 0 <= d < world ==> c.outbox[d] == boxes[(i, d)] && c.inbox[d] == boxes[(d, i)])
  }

  ghost predicate AreParties(ctxs: seq<Context>, root: string, world: nat, boxes: map<(nat, nat), Mailbox>,
                             cells: seq<Statistics>)
    requires AreBoxes(boxes, world)
  {
    && |ctxs| == |cells| <= world
    && forall i :: 0 <= i < |ctxs| ==> IsParty(ctxs[i], root, i, world, boxes, cells[i]) && cells[i].cell == i
  }

  /** All objects of a world of parties. */
  ghost function SessionNet(ctxs: seq<Context>, root: string, boxes: map<(nat, nat), Mailbox>, cells: seq<Statistics>)
    : Net
  {
    Net(|ctxs|, map i: nat | i < |ctxs| :: (i, root) := ctxs[i], boxes, map i: nat | i < |cells| :: cells[i])
  }

  lemma SessionWired(ctxs: seq<Context>, root: string, boxes: map<(nat, nat), Mailbox>, cells: seq<Statistics>)
    requires AreBoxes(boxes, |ctxs|) && AreParties(ctxs, root, |ctxs|, boxes, cells)
    ensures var net := SessionNet(ctxs, root, boxes, cells);
            forall i :: 0 <= i < |ctxs| ==> ctxs[i].rank == i && ctxs[i].id == root && ctxs[i].In(net)
  {
    var net := SessionNet(ctxs, root, boxes, cells);
    forall k | k in net.contexts ensures WiredAt(net, k, net.contexts[k]) {
      assert IsParty(ctxs[k.0], root, k.0, |ctxs|, boxes, cells[k.0]);
    }
    forall i | 0 <= i < |ctxs| ensures ctxs[i].rank == i && ctxs[i].id == root && ctxs[i].In(net) {
      assert IsParty(ctxs[i], root, i, |ctxs|, boxes, cells[i]);
    }
  }

  /** The state in which `world` parties start. */
  ghost function StartState(world: nat, root: string): (s: State)
    ensures Init(s, root) && s.world == world
  {
    var ctxs := map i: nat | i < world :: (i, root) := Ctx(map[], 0, i);
    State(world, ctxs, map[], map[], map[], map[], map[])
  }

  /** For two parties it is the start of `OutOfStep`. */
  lemma TwoPartiesStart(root: string)
    ensures StartState(2, root) == TwoParties(root)
  {
    assert StartState(2, root).ctxs == TwoParties(root).ctxs;
  }

  lemma SessionMatches(ctxs: seq<Context>, root: string, boxes: map<(nat, nat), Mailbox>, cells: seq<Statistics>)
    requires |cells| == |ctxs| && forall p :: p in boxes ==> boxes[p].msgs == map[]
    requires forall i :: 0 <= i < |ctxs| ==> ctxs[i].View() == Ctx(map[], 0, i) && cells[i].stats == Stats(0, 0, 0, 0)
    ensures Matches(WorldOf(SessionNet(ctxs, root, boxes, cells)), StartState(|ctxs|, root))
  {
    assert Contexts(SessionNet(ctxs, root, boxes, cells)) == StartState(|ctxs|, root).ctxs;
  }

  /** Creates the parties, one after the other. */
  method MakeParties(root: string, world: nat, boxes: map<(nat, nat), Mailbox>)
    returns (ctxs: seq<Context>, cells: seq<Statistics>)
    requires AreBoxes(boxes, world)
    ensures |ctxs| == world && AreParties(ctxs, root, world, boxes, cells)
    ensures forall i :: 0 <= i < world ==> ctxs[i].View() == Ctx(map[], 0, i) && cells[i].stats == Stats(0, 0, 0, 0)
  {
    ctxs, cells := [], [];
    for i := 0 to world
      invariant |ctxs| == i && AreParties(ctxs, root, world, boxes, cells)
      invariant forall k :: 0 <= k < i ==> ctxs[k].View() == Ctx(map[], 0, k) && cells[k].stats == Stats(0, 0, 0, 0)
    {
      var c, shared := MakeContext(root, i, world, boxes);
      ctxs, cells := ctxs + [c], cells + [shared];
    }
  }

  /** Parties connected over channels in memory are in a state in which runs start. */
  method CreateSession(world: nat, root: string) returns (ctxs: seq<Context>, ghost net: Net)
    ensures |ctxs| == world == net.world
    ensures forall i :: 0 <= i < world ==> ctxs[i].rank == i && ctxs[i].id == root && ctxs[i].In(net)
    ensures Matches(WorldOf(net), StartState(world, root)) && Inv(StartState(world, root))
  {
    InitInv(StartState(world, root), root);
    var boxes := MakeBoxes(world);
    var cells;
    ctxs, cells := MakeParties(root, world, boxes);
    SessionWired(ctxs, root, boxes, cells);
    SessionMatches(ctxs, root, boxes, cells);
    net := SessionNet(ctxs, root, boxes, cells);
  }
}

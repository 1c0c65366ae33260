/**
 Runs of the link layer: parties with trees of contexts send and receive over shared channels. A
 channel is a mailbox keyed by strings; messages in flight may arrive in any order.
 */
module LinkRun {
  import opened LinkKeys
  import opened Wrappers

  type Bytes = seq<nat>

  /**
   The state of one context object: its message counters per direction, its number of children, and the
   statistics cell it writes to.
   */
  datatype Ctx = Ctx(counters: map<(nat, nat), nat>, children: nat, cell: nat)

  function Counter(c: Ctx, src: nat, dst: nat): nat {
    if (src, dst) in c.counters then c.counters[(src, dst)] else 0
  }

  function Bump(c: Ctx, src: nat, dst: nat): Ctx {
    c.(counters := c.counters[(src, dst) := Counter(c, src, dst) + 1])
  }

  /** Everything one context sends in one direction. */
  datatype Flow = Flow(id: string, src: nat, dst: nat)

  /** A place in the channel from `src` to `dst`. */
  datatype Addr = Addr(src: nat, dst: nat, key: string)

  /** A message; `flow` and `n` record where it comes from and are not read by any step. */
  datatype Msg = Msg(value: Bytes, flow: Flow, n: nat)

  datatype Stats = Stats(sentActions: nat, sentBytes: nat, recvActions: nat, recvBytes: nat)

  /** The calls made for a flow in one direction, in order: the value of each, or `None` if it failed. */
  type History = seq<Option<Bytes>>

  /** `sent` and `recv` are the history of each flow; `stats` is indexed by cell. */
  datatype State = State(
    world: nat, ctxs: map<(nat, string), Ctx>, flight: map<Addr, Msg>, mailbox: map<Addr, Msg>,
    stats: map<nat, Stats>, sent: map<Flow, History>, recv: map<Flow, History>)

  function Log(m: map<Flow, History>, f: Flow): History {
    if f in m then m[f] else []
  }

  function StatsOf(s: State, cell: nat): Stats {
    if cell in s.stats then s.stats[cell] else Stats(0, 0, 0, 0)
  }

  datatype Action =
    | Spawn(rank: nat, parent: string, id: string, auto: bool)
    | Send(rank: nat, id: string, dst: nat, value: Bytes, fails: bool)
    | Deliver(addr: Addr)
    | Recv(rank: nat, id: string, src: nat)

  function AddrOf(f: Flow, n: nat): Addr {
    Addr(f.src, f.dst, P2PKey(f.id, n, f.src, f.dst))
  }

  /** The place where the next receive of a context looks. */
  function NextAddr(s: State, rank: nat, id: string, src: nat): Addr
    requires (rank, id) in s.ctxs
  {
    AddrOf(Flow(id, src, rank), Counter(s.ctxs[(rank, id)], src, rank) + 1)
  }

  predicate Enabled(s: State, a: Action) {
    match a
    case Spawn(rank, parent, id, auto) =>
      && (rank, parent) in s.ctxs && (rank, id) !in s.ctxs
      && (auto ==> id == SpawnId(parent, s.ctxs[(rank, parent)].children))
    case Send(rank, id, dst, value, _) => (rank, id) in s.ctxs && dst != rank
    case Deliver(addr) => addr in s.flight
    case Recv(rank, id, src) => (rank, id) in s.ctxs && src != rank
  }

  /** What a send puts on its way: nothing when the rank is out of range or the channel fails. */
  function Sent(s: State, a: Action): Option<Bytes>
    requires a.Send?
  {
    if a.dst < s.world && !a.fails then Some(a.value) else None
  }

  /**
   What a receive returns: the message with the next number if it is there. Otherwise the receive has given up
   waiting, or the rank is out of range.
   */
  function Received(s: State, a: Action): Option<Bytes>
    requires a.Recv? && Enabled(s, a)
  {
    var addr := NextAddr(s, a.rank, a.id, a.src);
    if a.src < s.world && addr in s.mailbox then Some(s.mailbox[addr].value) else None
  }

  function CountSent(st: Stats, v: Option<Bytes>): Stats {
    if v == None then st else st.(sentActions := st.sentActions + 1, sentBytes := st.sentBytes + |v.value|)
  }

  function CountRecv(st: Stats, v: Option<Bytes>): Stats {
    if v == None then st else st.(recvActions := st.recvActions + 1, recvBytes := st.recvBytes + |v.value|)
  }

  /** A call that fails has taken its number all the same. */
  function Step(s: State, a: Action): State
    requires Enabled(s, a)
  {
    match a
    case Spawn(rank, parent, id, auto) =>
      var p := s.ctxs[(rank, parent)];
      s.(ctxs := s.ctxs[(rank, parent) := if auto then p.(children := p.children + 1) else p]
                       [(rank, id) := Ctx(map[], 0, p.cell)])
    case Send(rank, id, dst, value, _) =>
      var c, f := s.ctxs[(rank, id)], Flow(id, rank, dst);
      var n := Counter(c, rank, dst) + 1;
      s.(ctxs := s.ctxs[(rank, id) := Bump(c, rank, dst)],
         flight := if Sent(s, a) == None then s.flight else s.flight[AddrOf(f, n) := Msg(value, f, n)],
         stats := s.stats[c.cell := CountSent(StatsOf(s, c.cell), Sent(s, a))],
         sent := s.sent[f := Log(s.sent, f) + [Sent(s, a)]])
    case Deliver(addr) =>
      s.(flight := s.flight - {addr},
         mailbox := if addr in s.mailbox then s.mailbox else s.mailbox[addr := s.flight[addr]])
    case Recv(rank, id, src) =>
      var c, f := s.ctxs[(rank, id)], Flow(id, src, rank);
      s.(ctxs := s.ctxs[(rank, id) := Bump(c, src, rank)],
         mailbox := if Received(s, a) == None then s.mailbox else s.mailbox - {NextAddr(s, rank, id, src)},
         stats := s.stats[c.cell := CountRecv(StatsOf(s, c.cell), Received(s, a))],
         recv := s.recv[f := Log(s.recv, f) + [Received(s, a)]])
  }

  /** At the start every party has at most the root context, with a statistics cell of its own. */
  ghost predicate Init(s: State, root: string) {
    && (forall k :: k in s.ctxs ==> k.1 == root && s.ctxs[k].counters == map[] && s.ctxs[k].children == 0)
    && (forall k, k' :: k in s.ctxs && k' in s.ctxs && s.ctxs[k].cell == s.ctxs[k'].cell ==> k == k')
    && s.flight == map[] && s.mailbox == map[] && s.stats == map[] && s.sent == map[] && s.recv == map[]
  }

  // ----- The invariant

  /** The counters of every context say how many calls its flows have seen. */
  ghost predicate CountersAt(s: State, r: nat, id: string, peer: nat) {
    if (r, id) in s.ctxs then
      && Counter(s.ctxs[(r, id)], r, peer) == |Log(s.sent, Flow(id, r, peer))|
      && Counter(s.ctxs[(r, id)], peer, r) == |Log(s.recv, Flow(id, peer, r))|
    else
      Log(s.sent, Flow(id, r, peer)) == [] && Log(s.recv, Flow(id, peer, r)) == []
  }

  /** Message number `n` of a flow has not been received; its receive may have been tried in vain. */
  ghost predicate Pending(s: State, f: Flow, n: nat) {
    n >= 1 && (|Log(s.recv, f)| < n || Log(s.recv, f)[n - 1] == None)
  }

  ghost predicate WasSent(s: State, f: Flow, n: nat) {
    1 <= n <= |Log(s.sent, f)| && Log(s.sent, f)[n - 1].Some?
  }

  /** Message `m` sits at its own address, has been sent and not yet received. */
  ghost predicate MsgOk(s: State, a: Addr, m: Msg) {
    && a == AddrOf(m.flow, m.n)
    && WasSent(s, m.flow, m.n) && Log(s.sent, m.flow)[m.n - 1] == Some(m.value)
    && Pending(s, m.flow, m.n)
  }

  /** What attempt number `k + 1` received is what was sent under that number. */
  ghost predicate FlowOk(s: State, f: Flow, k: nat) {
    k < |Log(s.recv, f)| && Log(s.recv, f)[k].Some? ==>
      k < |Log(s.sent, f)| && Log(s.sent, f)[k] == Log(s.recv, f)[k]
  }

  /** Every message sent and not yet received is in flight or in the mailbox. */
  ghost predicate NotLost(s: State, f: Flow, n: nat) {
    WasSent(s, f, n) && Pending(s, f, n) ==> AddrOf(f, n) in s.flight || AddrOf(f, n) in s.mailbox
  }

  ghost predicate Inv(s: State) {
    && (forall r: nat, id, peer: nat :: r != peer ==> CountersAt(s, r, id, peer))
    && (forall a :: a in s.flight ==> MsgOk(s, a, s.flight[a]) && a !in s.mailbox)
    && (forall a :: a in s.mailbox ==> MsgOk(s, a, s.mailbox[a]))
    && (forall f, k: nat :: FlowOk(s, f, k))
    && (forall f, n: nat :: NotLost(s, f, n))
  }

  lemma AddrInjective(f: Flow, n: nat, f': Flow, n': nat)
    requires AddrOf(f, n) == AddrOf(f', n')
    ensures f == f' && n == n'
  {
    KeyInjective(f.id, n, f.src, f.dst, f'.id, n', f'.src, f'.dst);
  }

  lemma InitInv(s: State, root: string)
    requires Init(s, root)
    ensures Inv(s)
  {
  }

  lemma SpawnInv(s: State, a: Action)
    requires Inv(s) && a.Spawn? && Enabled(s, a)
    ensures Inv(Step(s, a))
  {
    var s' := Step(s, a);
    forall r: nat, id, peer: nat | r != peer ensures CountersAt(s', r, id, peer) {
      assert CountersAt(s, r, id, peer);
    }
    forall a | a in s'.flight ensures MsgOk(s', a, s'.flight[a]) {
      assert MsgOk(s, a, s.flight[a]);
    }
    forall a | a in s'.mailbox ensures MsgOk(s', a, s'.mailbox[a]) {
      assert MsgOk(s, a, s.mailbox[a]);
    }
    forall f, k: nat ensures FlowOk(s', f, k) && NotLost(s', f, k) {
      assert FlowOk(s, f, k) && NotLost(s, f, k);
    }
  }

  lemma DeliverMsgs(s: State, a: Action, b: Addr)
    requires Inv(s) && a.Deliver? && Enabled(s, a)
    ensures var s' := Step(s, a);
            && (b in s'.flight ==> MsgOk(s', b, s'.flight[b]) && b !in s'.mailbox)
            && (b in s'.mailbox ==> MsgOk(s', b, s'.mailbox[b]))
  {
    if b in s.flight {
      MsgKept(s, Step(s, a), b, s.flight[b]);
    } else if b in s.mailbox {
      MsgKept(s, Step(s, a), b, s.mailbox[b]);
    }
  }

  lemma DeliverFlows(s: State, a: Action, f: Flow, n: nat)
    requires FlowOk(s, f, n) && NotLost(s, f, n) && a.Deliver? && Enabled(s, a)
    ensures FlowOk(Step(s, a), f, n) && NotLost(Step(s, a), f, n)
  {
  }

  lemma DeliverInv(s: State, a: Action)
    requires Inv(s) && a.Deliver? && Enabled(s, a)
    ensures Inv(Step(s, a))
  {
    var s' := Step(s, a);
    forall r: nat, id, peer: nat | r != peer ensures CountersAt(s', r, id, peer) {
      assert CountersAt(s, r, id, peer);
    }
    forall b | b in s'.flight ensures MsgOk(s', b, s'.flight[b]) && b !in s'.mailbox {
      DeliverMsgs(s, a, b);
    }
    forall b | b in s'.mailbox ensures MsgOk(s', b, s'.mailbox[b]) {
      DeliverMsgs(s, a, b);
    }
    forall f, n: nat ensures FlowOk(s', f, n) && NotLost(s', f, n) {
      assert FlowOk(s, f, n) && NotLost(s, f, n);
      DeliverFlows(s, a, f, n);
    }
  }

  lemma SendCounters(s: State, a: Action, r: nat, id: string, peer: nat)
    requires Inv(s) && a.Send? && Enabled(s, a) && r != peer
    ensures CountersAt(Step(s, a), r, id, peer)
  {
    assert CountersAt(s, r, id, peer);
    assert CountersAt(s, a.rank, a.id, a.dst);
  }

  /** A message stays good when its flow sends more. */
  lemma MsgKept(s: State, s': State, b: Addr, m: Msg)
    requires MsgOk(s, b, m)
    requires Log(s.sent, m.flow) <= Log(s'.sent, m.flow) && Pending(s', m.flow, m.n)
    ensures MsgOk(s', b, m)
  {
  }

  /** The address of the next message of a flow is free, so no key is ever used twice. */
  lemma NextAddrFree(s: State, f: Flow)
    requires Inv(s)
    ensures var a := AddrOf(f, |Log(s.sent, f)| + 1); a !in s.flight && a !in s.mailbox
  {
    var a := AddrOf(f, |Log(s.sent, f)| + 1);
    if a in s.flight {
      assert MsgOk(s, a, s.flight[a]);
      AddrInjective(f, |Log(s.sent, f)| + 1, s.flight[a].flow, s.flight[a].n);
    }
    if a in s.mailbox {
      assert MsgOk(s, a, s.mailbox[a]);
      AddrInjective(f, |Log(s.sent, f)| + 1, s.mailbox[a].flow, s.mailbox[a].n);
    }
  }

  /** What a send changes. */
  lemma SendEffect(s: State, a: Action)
    requires a.Send? && Enabled(s, a) && CountersAt(s, a.rank, a.id, a.dst)
    ensures var f, s' := Flow(a.id, a.rank, a.dst), Step(s, a);
            var n := |Log(s.sent, f)| + 1;
            && s'.flight == (if Sent(s, a) == None then s.flight else s.flight[AddrOf(f, n) := Msg(a.value, f, n)])
            && s'.mailbox == s.mailbox && s'.recv == s.recv
            && Log(s'.sent, f) == Log(s.sent, f) + [Sent(s, a)]
            && forall g :: g != f ==> Log(s'.sent, g) == Log(s.sent, g)
  {
  }

  lemma SendKeeps(s: State, a: Action, b: Addr, m: Msg)
    requires a.Send? && Enabled(s, a) && CountersAt(s, a.rank, a.id, a.dst) && MsgOk(s, b, m)
    ensures MsgOk(Step(s, a), b, m)
  {
    SendEffect(s, a);
    MsgKept(s, Step(s, a), b, m);
  }

  /** The receiver may have tried for the new message before it was sent. */
  lemma SendNew(s: State, a: Action)
    requires a.Send? && Enabled(s, a) && Sent(s, a).Some? && CountersAt(s, a.rank, a.id, a.dst)
    requires FlowOk(s, Flow(a.id, a.rank, a.dst), |Log(s.sent, Flow(a.id, a.rank, a.dst))|)
    ensures var f := Flow(a.id, a.rank, a.dst);
            var n := |Log(s.sent, f)| + 1;
            MsgOk(Step(s, a), AddrOf(f, n), Msg(a.value, f, n))
  {
    SendEffect(s, a);
  }

  lemma SendMsgs(s: State, a: Action, b: Addr)
    requires Inv(s) && a.Send? && Enabled(s, a)
    ensures var s' := Step(s, a);
            && (b in s'.flight ==> MsgOk(s', b, s'.flight[b]) && b !in s'.mailbox)
            && (b in s'.mailbox ==> MsgOk(s', b, s'.mailbox[b]))
  {
    var f := Flow(a.id, a.rank, a.dst);
    assert CountersAt(s, a.rank, a.id, a.dst) && FlowOk(s, f, |Log(s.sent, f)|);
    NextAddrFree(s, f);
    SendEffect(s, a);
    if b in s.mailbox {
      SendKeeps(s, a, b, s.mailbox[b]);
    } else if b in s.flight {
      SendKeeps(s, a, b, s.flight[b]);
    } else if Sent(s, a).Some? {
      SendNew(s, a);
    }
  }

  lemma SendFlows(s: State, a: Action, f: Flow, n: nat)
    requires Inv(s) && a.Send? && Enabled(s, a)
    ensures FlowOk(Step(s, a), f, n) && NotLost(Step(s, a), f, n)
  {
    assert CountersAt(s, a.rank, a.id, a.dst);
    SendEffect(s, a);
    assert FlowOk(s, f, n) && NotLost(s, f, n);
  }

  lemma SendInv(s: State, a: Action)
    requires Inv(s) && a.Send? && Enabled(s, a)
    ensures Inv(Step(s, a))
  {
    var s' := Step(s, a);
    forall r: nat, id, peer: nat | r != peer ensures CountersAt(s', r, id, peer) {
      SendCounters(s, a, r, id, peer);
    }
    forall b | b in s'.flight ensures MsgOk(s', b, s'.flight[b]) && b !in s'.mailbox {
      SendMsgs(s, a, b);
    }
    forall b | b in s'.mailbox ensures MsgOk(s', b, s'.mailbox[b]) {
      SendMsgs(s, a, b);
    }
    forall f, n: nat ensures FlowOk(s', f, n) && NotLost(s', f, n) {
      SendFlows(s, a, f, n);
    }
  }

  lemma RecvCounters(s: State, a: Action, r: nat, id: string, peer: nat)
    requires Inv(s) && a.Recv? && Enabled(s, a) && r != peer
    ensures CountersAt(Step(s, a), r, id, peer)
  {
    assert CountersAt(s, r, id, peer);
    assert CountersAt(s, a.rank, a.id, a.src);
  }

  /** What a receive changes. */
  lemma RecvEffect(s: State, a: Action)
    requires a.Recv? && Enabled(s, a) && CountersAt(s, a.rank, a.id, a.src)
    ensures var f, s' := Flow(a.id, a.src, a.rank), Step(s, a);
            && NextAddr(s, a.rank, a.id, a.src) == AddrOf(f, |Log(s.recv, f)| + 1)
            && s'.flight == s.flight && s'.sent == s.sent
            && s'.mailbox == (if Received(s, a) == None then s.mailbox
                              else s.mailbox - {NextAddr(s, a.rank, a.id, a.src)})
            && Log(s'.recv, f) == Log(s.recv, f) + [Received(s, a)]
            && forall g :: g != f ==> Log(s'.recv, g) == Log(s.recv, g)
  {
  }

  lemma StillPending(s: State, a: Action, b: Addr, m: Msg)
    requires a.Recv? && Enabled(s, a) && MsgOk(s, b, m) && CountersAt(s, a.rank, a.id, a.src)
    requires Received(s, a) == None || b != NextAddr(s, a.rank, a.id, a.src)
    ensures Pending(Step(s, a), m.flow, m.n)
  {
    RecvEffect(s, a);
  }

  lemma RecvMsgs(s: State, a: Action, b: Addr)
    requires Inv(s) && a.Recv? && Enabled(s, a)
    ensures var s' := Step(s, a);
            && (b in s'.flight ==> MsgOk(s', b, s'.flight[b]) && b !in s'.mailbox)
            && (b in s'.mailbox ==> MsgOk(s', b, s'.mailbox[b]))
  {
    var s' := Step(s, a);
    assert CountersAt(s, a.rank, a.id, a.src);
    RecvEffect(s, a);
    if b in s'.flight {
      StillPending(s, a, b, s.flight[b]);
      MsgKept(s, s', b, s.flight[b]);
    }
    if b in s'.mailbox {
      StillPending(s, a, b, s.mailbox[b]);
      MsgKept(s, s', b, s.mailbox[b]);
    }
  }

  lemma RecvFlows(s: State, a: Action, f: Flow, n: nat)
    requires Inv(s) && a.Recv? && Enabled(s, a)
    ensures FlowOk(Step(s, a), f, n)
  {
    assert CountersAt(s, a.rank, a.id, a.src);
    RecvEffect(s, a);
    assert FlowOk(s, f, n);
    if Received(s, a).Some? {
      RecvGetsNext(s, a);
    }
  }

  lemma RecvNotLost(s: State, a: Action, f: Flow, n: nat)
    requires a.Recv? && Enabled(s, a) && CountersAt(s, a.rank, a.id, a.src) && NotLost(s, f, n)
    ensures NotLost(Step(s, a), f, n)
  {
    var f0, addr := Flow(a.id, a.src, a.rank), NextAddr(s, a.rank, a.id, a.src);
    RecvEffect(s, a);
    if AddrOf(f, n) == addr {
      AddrInjective(f, n, f0, |Log(s.recv, f0)| + 1);
    }
  }

  lemma RecvInv(s: State, a: Action)
    requires Inv(s) && a.Recv? && Enabled(s, a)
    ensures Inv(Step(s, a))
  {
    var s' := Step(s, a);
    forall r: nat, id, peer: nat | r != peer ensures CountersAt(s', r, id, peer) {
      RecvCounters(s, a, r, id, peer);
    }
    forall b | b in s'.flight ensures MsgOk(s', b, s'.flight[b]) && b !in s'.mailbox {
      RecvMsgs(s, a, b);
    }
    forall b | b in s'.mailbox ensures MsgOk(s', b, s'.mailbox[b]) {
      RecvMsgs(s, a, b);
    }
    forall f, n: nat ensures FlowOk(s', f, n) && NotLost(s', f, n) {
      RecvFlows(s, a, f, n);
      assert CountersAt(s, a.rank, a.id, a.src) && NotLost(s, f, n);
      RecvNotLost(s, a, f, n);
    }
  }

  /** A receive that succeeds takes the message of its own flow that has its own number, and no other. */
  lemma RecvGetsNext(s: State, a: Action)
    requires Inv(s) && a.Recv? && Enabled(s, a) && Received(s, a).Some?
    ensures var f, addr := Flow(a.id, a.src, a.rank), NextAddr(s, a.rank, a.id, a.src);
            && s.mailbox[addr].flow == f
            && s.mailbox[addr].n == |Log(s.recv, f)| + 1 <= |Log(s.sent, f)|
            && Received(s, a) == Log(s.sent, f)[|Log(s.recv, f)|]
  {
    var f, addr := Flow(a.id, a.src, a.rank), NextAddr(s, a.rank, a.id, a.src);
    assert CountersAt(s, a.rank, a.id, a.src);
    assert MsgOk(s, addr, s.mailbox[addr]);
    AddrInjective(f, |Log(s.recv, f)| + 1, s.mailbox[addr].flow, s.mailbox[addr].n);
  }

  lemma StepInv(s: State, a: Action)
    requires Inv(s) && Enabled(s, a)
    ensures Inv(Step(s, a))
  {
    match a
    case Spawn(_, _, _, _) => SpawnInv(s, a);
    case Send(_, _, _, _, _) => SendInv(s, a);
    case Deliver(_) => DeliverInv(s, a);
    case Recv(_, _, _) => RecvInv(s, a);
  }

  // ----- Whole runs

  datatype Run = Run(states: seq<State>, acts: seq<Action>)

  ghost predicate IsRun(root: string, run: Run) {
    && |run.states| == |run.acts| + 1
    && Init(run.states[0], root)
    && forall k :: 0 <= k < |run.acts| ==> IsStep(run.states[k], run.acts[k], run.states[k + 1])
  }

  ghost predicate IsStep(s: State, a: Action, s': State) {
    Enabled(s, a) && s' == Step(s, a)
  }

  lemma {:induction false} RunInv(root: string, run: Run, k: nat)
    requires IsRun(root, run) && k <= |run.acts|
    ensures Inv(run.states[k])
  {
    if k == 0 {
      InitInv(run.states[0], root);
    } else {
      RunInv(root, run, k - 1);
      assert IsStep(run.states[k - 1], run.acts[k - 1], run.states[k - 1 + 1]);
      StepInv(run.states[k - 1], run.acts[k - 1]);
    }
  }

  /** What one action adds to the sent history of a flow, and to the received one. */
  ghost function SentBy(s: State, a: Action, f: Flow): History {
    if a.Send? && f == Flow(a.id, a.rank, a.dst) then [Sent(s, a)] else []
  }

  ghost function ReceivedBy(s: State, a: Action, f: Flow): History {
    if a.Recv? && f == Flow(a.id, a.src, a.rank) && Enabled(s, a) then [Received(s, a)] else []
  }

  /** The values sent on a flow by the first `k` actions of a run, in order; `None` for a send that failed. */
  ghost function SentValues(run: Run, f: Flow, k: nat): History
    requires k <= |run.acts| && |run.states| == |run.acts| + 1
  {
    if k == 0 then [] else SentValues(run, f, k - 1) + SentBy(run.states[k - 1], run.acts[k - 1], f)
  }

  /** What the receives from a flow among the first `k` actions returned, in order; `None` for one that failed. */
  ghost function Results(run: Run, f: Flow, k: nat): History
    requires k <= |run.acts| && |run.states| == |run.acts| + 1
  {
    if k == 0 then [] else Results(run, f, k - 1) + ReceivedBy(run.states[k - 1], run.acts[k - 1], f)
  }

  /** The histories kept in the states are those of the run. */
  ghost predicate LogsAgree(s: State, run: Run, f: Flow, k: nat)
    requires k <= |run.acts| && |run.states| == |run.acts| + 1
  {
    Log(s.sent, f) == SentValues(run, f, k) && Log(s.recv, f) == Results(run, f, k)
  }

  lemma {:induction false} HistoryOf(root: string, run: Run, f: Flow, k: nat)
    requires IsRun(root, run) && k <= |run.acts|
    ensures LogsAgree(run.states[k], run, f, k)
  {
    if k > 0 {
      HistoryOf(root, run, f, k - 1);
      assert IsStep(run.states[k - 1], run.acts[k - 1], run.states[k - 1 + 1]);
      HistoryStep(run, f, k);
    }
  }

  lemma HistoryStep(run: Run, f: Flow, k: nat)
    requires 0 < k <= |run.acts| && |run.states| == |run.acts| + 1
    requires IsStep(run.states[k - 1], run.acts[k - 1], run.states[k]) && LogsAgree(run.states[k - 1], run, f, k - 1)
    ensures LogsAgree(run.states[k], run, f, k)
  {
    SentStep(run.states[k - 1], run.acts[k - 1], f);
    RecvStep(run.states[k - 1], run.acts[k - 1], f);
  }

  lemma SentStep(s: State, a: Action, f: Flow)
    requires Enabled(s, a)
    ensures Log(Step(s, a).sent, f) == Log(s.sent, f) + SentBy(s, a, f)
  {
  }

  lemma RecvStep(s: State, a: Action, f: Flow)
    requires Enabled(s, a)
    ensures Log(Step(s, a).recv, f) == Log(s.recv, f) + ReceivedBy(s, a, f)
  {
  }

  /**
   In-order delivery: in every run, the n-th receive from a party in a context returns the n-th value which
   that party sent here in the context of the same id, or fails; it never returns another.
   */
  lemma InOrderDelivery(root: string, run: Run, k: nat)
    requires IsRun(root, run) && k < |run.acts| && run.acts[k].Recv?
    ensures Enabled(run.states[k], run.acts[k])
    ensures var a := run.acts[k];
            var f := Flow(a.id, a.src, a.rank);
            var n, r := |Results(run, f, k)|, Received(run.states[k], a);
            r.Some? ==> n < |SentValues(run, f, k)| && SentValues(run, f, k)[n] == r
  {
    var a := run.acts[k];
    var f := Flow(a.id, a.src, a.rank);
    RunInv(root, run, k);
    HistoryOf(root, run, f, k);
    assert IsStep(run.states[k], a, run.states[k + 1]);
    if Received(run.states[k], a).Some? {
      RecvGetsNext(run.states[k], a);
    }
  }

  /** What one call counts for: its bytes or one action, and nothing if it failed. */
  ghost function Worth(e: Option<Bytes>, bytes: bool): nat {
    if e == None then 0 else if bytes then |e.value| else 1
  }

  /** The bytes of a history, or its number of successful calls. */
  ghost function Total(h: History, bytes: bool): nat {
    if h == [] then 0 else Total(h[..|h| - 1], bytes) + Worth(h[|h| - 1], bytes)
  }

  /** The number of calls that succeeded. */
  ghost function Got(h: History): nat {
    Total(h, false)
  }

  lemma {:induction false} GotAll(h: History)
    ensures Got(h) <= |h|
    ensures Got(h) == |h| <==> None !in h
  {
    if h != [] {
      GotAll(h[..|h| - 1]);
      assert h == h[..|h| - 1] + [h[|h| - 1]];
    }
  }

  /**
   The n-th receive that succeeds takes the message with number n if and only if no earlier receive of its flow
   has failed.
   */
  lemma SuccessIsNthIff(root: string, run: Run, k: nat)
    requires IsRun(root, run) && k < |run.acts| && run.acts[k].Recv?
    requires Enabled(run.states[k], run.acts[k]) && Received(run.states[k], run.acts[k]).Some?
    ensures var s, a := run.states[k], run.acts[k];
            var earlier := Results(run, Flow(a.id, a.src, a.rank), k);
            s.mailbox[NextAddr(s, a.rank, a.id, a.src)].n == Got(earlier) + 1 <==> None !in earlier
  {
    var a := run.acts[k];
    var f := Flow(a.id, a.src, a.rank);
    RunInv(root, run, k);
    HistoryOf(root, run, f, k);
    RecvGetsNext(run.states[k], a);
    GotAll(Results(run, f, k));
  }

  /** Two parties with a root context each, before anything has happened. */
  ghost function TwoParties(root: string): State {
    State(2, map[(0, root) := Ctx(map[], 0, 0), (1, root) := Ctx(map[], 0, 1)], map[], map[], map[], map[], map[])
  }

  /** A run goes on with any enabled action. */
  lemma Extend(root: string, run: Run, a: Action) returns (run': Run)
    requires IsRun(root, run) && Enabled(run.states[|run.acts|], a)
    ensures IsRun(root, run') && run'.acts == run.acts + [a]
    ensures run'.states == run.states + [Step(run.states[|run.acts|], a)]
  {
    run' := Run(run.states + [Step(run.states[|run.acts|], a)], run.acts + [a]);
    forall k | 0 <= k < |run'.acts| ensures IsStep(run'.states[k], run'.acts[k], run'.states[k + 1]) {
      assert k < |run.acts| ==> IsStep(run.states[k], run.acts[k], run.states[k + 1]);
    }
  }

  /** Party 1 has tried to receive once, party 0 has sent `n` messages, and nothing has arrived. */
  ghost predicate GaveUp(root: string, s: State, n: nat) {
    && s.world == 2 && s.mailbox == map[] && (0, root) in s.ctxs && (1, root) in s.ctxs
    && Counter(s.ctxs[(1, root)], 0, 1) == 1 && Counter(s.ctxs[(0, root)], 0, 1) == n
  }

  lemma SendMore(root: string, s: State, n: nat, v: Bytes)
    requires GaveUp(root, s, n)
    ensures var s' := Step(s, Send(0, root, 1, v, false));
            var addr := AddrOf(Flow(root, 0, 1), n + 1);
            GaveUp(root, s', n + 1) && addr in s'.flight && s'.flight[addr].value == v
  {
  }

  /** Party 1 gives up on a first message, and party 0 then sends two. */
  lemma GiveUpAndSend(root: string, v: Bytes, w: Bytes) returns (run: Run)
    ensures IsRun(root, run) && run.states[0] == TwoParties(root)
    ensures run.acts == [Recv(1, root, 0), Send(0, root, 1, v, false), Send(0, root, 1, w, false)]
    ensures var s, addr := run.states[3], AddrOf(Flow(root, 0, 1), 2);
            GaveUp(root, s, 2) && addr in s.flight && s.flight[addr].value == w
  {
    run := GiveUp(root);
    SendMore(root, run.states[1], 0, v);
    run := Extend(root, run, Send(0, root, 1, v, false));
    SendMore(root, run.states[2], 1, w);
    run := Extend(root, run, Send(0, root, 1, w, false));
  }

  lemma GiveUp(root: string) returns (run: Run)
    ensures IsRun(root, run) && run.states[0] == TwoParties(root) && run.acts == [Recv(1, root, 0)]
    ensures GaveUp(root, run.states[1], 0)
  {
    run := Extend(root, Run([TwoParties(root)], []), Recv(1, root, 0));
  }

  /** A run in which it does not: the first receive of party 1 that succeeds returns the second value. */
  lemma OutOfStep(root: string, v: Bytes, w: Bytes) returns (run: Run)
    ensures IsRun(root, run) && run.states[0] == TwoParties(root)
    ensures run.acts == [Recv(1, root, 0), Send(0, root, 1, v, false), Send(0, root, 1, w, false)] +
                        [Deliver(AddrOf(Flow(root, 0, 1), 2)), Recv(1, root, 0)]
    ensures Received(TwoParties(root), Recv(1, root, 0)) == None
    ensures Enabled(run.states[4], run.acts[4]) && Received(run.states[4], run.acts[4]) == Some(w)
  {
    run := GiveUpAndSend(root, v, w);
    run := Extend(root, run, Deliver(AddrOf(Flow(root, 0, 1), 2)));
    assert NextAddr(run.states[4], 1, root, 0) == AddrOf(Flow(root, 0, 1), 2);
    run := Extend(root, run, Recv(1, root, 0));
  }

  /** Nothing is lost: once all messages have arrived, a receive whose message has been sent succeeds. */
  lemma ReceiveReady(root: string, run: Run, k: nat, rank: nat, id: string, src: nat)
    requires IsRun(root, run) && k <= |run.acts|
    requires run.states[k].flight == map[] && (rank, id) in run.states[k].ctxs
    requires src != rank && src < run.states[k].world
    requires var n := |Results(run, Flow(id, src, rank), k)|;
             n < |SentValues(run, Flow(id, src, rank), k)| && SentValues(run, Flow(id, src, rank), k)[n].Some?
    ensures Received(run.states[k], Recv(rank, id, src)).Some?
  {
    RunInv(root, run, k);
    HistoryOf(root, run, Flow(id, src, rank), k);
    MessageIsThere(run.states[k], rank, id, src);
  }

  lemma MessageIsThere(s: State, rank: nat, id: string, src: nat)
    requires Inv(s) && s.flight == map[] && (rank, id) in s.ctxs && src != rank && src < s.world
    requires WasSent(s, Flow(id, src, rank), |Log(s.recv, Flow(id, src, rank))| + 1)
    ensures Received(s, Recv(rank, id, src)).Some?
  {
    var f := Flow(id, src, rank);
    assert CountersAt(s, rank, id, src);
    assert NotLost(s, f, |Log(s.recv, f)| + 1);
  }

  // ----- Automatically numbered contexts

  /** Context ids are paths from the root, and the child numbers given out lie below the parent's counter. */
  ghost predicate Numbered(s: State, root: string) {
    forall r, id :: (r, id) in s.ctxs ==> exists path :: PathOk(s, root, r, id, path)
  }

  ghost predicate PathOk(s: State, root: string, r: nat, id: string, path: seq<nat>) {
    && id == PathId(root, path)
    && (path != [] ==>
          var parent := PathId(root, path[..|path| - 1]);
          (r, parent) in s.ctxs && path[|path| - 1] < s.ctxs[(r, parent)].children)
  }

  /** Under automatic numbering the id of a new context is new, so such a spawn is always possible. */
  lemma AutoSpawnIsFresh(s: State, root: string, r: nat, parent: string)
    requires Numbered(s, root) && (r, parent) in s.ctxs
    ensures (r, SpawnId(parent, s.ctxs[(r, parent)].children)) !in s.ctxs
  {
    var k := s.ctxs[(r, parent)].children;
    var id := SpawnId(parent, k);
    if (r, id) in s.ctxs {
      var p :| PathOk(s, root, r, parent, p);
      var q :| PathOk(s, root, r, id, q);
      assert (p + [k])[..|p|] == p;
      assert PathId(root, p + [k]) == id;
      PathInjective(root, p + [k], q);
    }
  }

  /** Contexts stay, and the number of their children never falls. */
  lemma ContextsGrow(s: State, a: Action, r: nat, id: string)
    requires Enabled(s, a) && (r, id) in s.ctxs
    ensures (r, id) in Step(s, a).ctxs && s.ctxs[(r, id)].children <= Step(s, a).ctxs[(r, id)].children
  {
  }

  lemma PathKept(s: State, root: string, a: Action, r: nat, id: string, path: seq<nat>)
    requires Enabled(s, a) && PathOk(s, root, r, id, path)
    ensures PathOk(Step(s, a), root, r, id, path)
  {
    if path != [] {
      ContextsGrow(s, a, r, PathId(root, path[..|path| - 1]));
    }
  }

  lemma PathExtended(s: State, root: string, a: Action, path: seq<nat>)
    requires a.Spawn? && a.auto && Enabled(s, a) && PathOk(s, root, a.rank, a.parent, path)
    ensures PathOk(Step(s, a), root, a.rank, a.id, path + [s.ctxs[(a.rank, a.parent)].children])
  {
    var k := s.ctxs[(a.rank, a.parent)].children;
    assert (path + [k])[..|path|] == path;
    assert PathId(root, path + [k]) == a.id;
  }

  lemma OnlySpawnAdds(s: State, a: Action, r: nat, id: string)
    requires Enabled(s, a) && (r, id) in Step(s, a).ctxs && (r, id) !in s.ctxs
    ensures a.Spawn? && r == a.rank && id == a.id
  {
  }

  lemma NumberedStep(s: State, root: string, a: Action)
    requires Numbered(s, root) && Enabled(s, a) && (a.Spawn? ==> a.auto)
    ensures Numbered(Step(s, a), root)
  {
    var s' := Step(s, a);
    forall r, id | (r, id) in s'.ctxs ensures exists path :: PathOk(s', root, r, id, path) {
      if (r, id) in s.ctxs {
        var p :| PathOk(s, root, r, id, p);
        PathKept(s, root, a, r, id, p);
      } else {
        OnlySpawnAdds(s, a, r, id);
        var p :| PathOk(s, root, a.rank, a.parent, p);
        PathExtended(s, root, a, p);
      }
    }
  }

  /** When all spawns of a run are automatic, every context id stays a path from the root. */
  lemma {:induction false} NumberedRun(root: string, run: Run, k: nat)
    requires IsRun(root, run) && k <= |run.acts|
    requires forall i :: 0 <= i < |run.acts| && run.acts[i].Spawn? ==> run.acts[i].auto
    ensures Numbered(run.states[k], root)
  {
    if k == 0 {
      forall r, id | (r, id) in run.states[0].ctxs ensures exists path :: PathOk(run.states[0], root, r, id, path) {
        assert PathOk(run.states[0], root, r, id, []);
      }
    } else {
      NumberedRun(root, run, k - 1);
      assert IsStep(run.states[k - 1], run.acts[k - 1], run.states[k - 1 + 1]);
      NumberedStep(run.states[k - 1], root, run.acts[k - 1]);
    }
  }
}

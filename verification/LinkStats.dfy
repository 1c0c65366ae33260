/**
 The statistics of the link layer. Every context writes to a cell, a spawned context to that of its parent; what a
 cell shows is the total over the histories of all contexts that hold it.
 */
module LinkStats {
  import opened LinkKeys
  import opened LinkRun
  import opened Wrappers

  // ----- Sums over histories

  lemma TotalAppend(h: History, e: Option<Bytes>, bytes: bool)
    ensures Total(h + [e], bytes) == Total(h, bytes) + Worth(e, bytes)
  {
    assert (h + [e])[..|h|] == h;
  }

  /** The total over a set of flows. */
  ghost function Sum(fs: set<Flow>, m: map<Flow, History>, bytes: bool): nat {
    if fs == {} then 0 else var f :| f in fs; Total(Log(m, f), bytes) + Sum(fs - {f}, m, bytes)
  }

  /** Any flow of the set may be taken out first. */
  lemma {:induction false} SumRemove(fs: set<Flow>, m: map<Flow, History>, bytes: bool, f: Flow)
    requires f in fs
    ensures Sum(fs, m, bytes) == Total(Log(m, f), bytes) + Sum(fs - {f}, m, bytes)
    decreases |fs|
  {
    var g :| g in fs && Sum(fs, m, bytes) == Total(Log(m, g), bytes) + Sum(fs - {g}, m, bytes);
    if g != f {
      SumRemove(fs - {g}, m, bytes, f);
      SumRemove(fs - {f}, m, bytes, g);
      assert fs - {g} - {f} == fs - {f} - {g};
    }
  }

  lemma {:induction false} SumSame(fs: set<Flow>, m: map<Flow, History>, m': map<Flow, History>, bytes: bool)
    requires forall f :: f in fs ==> Log(m, f) == Log(m', f)
    ensures Sum(fs, m, bytes) == Sum(fs, m', bytes)
    decreases |fs|
  {
    if fs != {} {
      var f :| f in fs;
      SumRemove(fs, m, bytes, f);
      SumRemove(fs, m', bytes, f);
      SumSame(fs - {f}, m, m', bytes);
    }
  }

  /** One more call of flow `f`. */
  lemma SumAppend(fs: set<Flow>, m: map<Flow, History>, f: Flow, e: Option<Bytes>, bytes: bool)
    requires f !in fs ==> f !in m
    ensures Sum(fs + {f}, m[f := Log(m, f) + [e]], bytes) == Sum(fs, m, bytes) + Worth(e, bytes)
  {
    var m', rest := m[f := Log(m, f) + [e]], fs - {f};
    TotalAppend(Log(m, f), e, bytes);
    SumRemove(fs + {f}, m', bytes, f);
    assert fs + {f} - {f} == rest;
    SumSame(rest, m, m', bytes);
    if f in fs {
      SumRemove(fs, m, bytes, f);
    } else {
      assert rest == fs;
    }
  }

  // ----- The totals of a cell

  /** The context whose call a flow's history records. */
  ghost function Owner(f: Flow, sending: bool): (nat, string) {
    (if sending then f.src else f.dst, f.id)
  }

  /** The flows with a history in `m` whose context holds the cell. */
  ghost function Owned(m: map<Flow, History>, ctxs: map<(nat, string), Ctx>, cell: nat, sending: bool): set<Flow> {
    set f | f in m && Owner(f, sending) in ctxs && ctxs[Owner(f, sending)].cell == cell
  }

  ghost function CellSum(m: map<Flow, History>, ctxs: map<(nat, string), Ctx>, cell: nat, sending: bool, bytes: bool)
    : nat
  {
    Sum(Owned(m, ctxs, cell, sending), m, bytes)
  }

  /** Actions and bytes over all contexts that hold the cell. */
  ghost function Totals(s: State, cell: nat): Stats {
    Stats(CellSum(s.sent, s.ctxs, cell, true, false), CellSum(s.sent, s.ctxs, cell, true, true),
          CellSum(s.recv, s.ctxs, cell, false, false), CellSum(s.recv, s.ctxs, cell, false, true))
  }

  /** Only existing contexts have made calls. */
  ghost predicate Owners(m: map<Flow, History>, ctxs: map<(nat, string), Ctx>, sending: bool) {
    forall f :: f in m ==> Owner(f, sending) in ctxs
  }

  /** The second map has all contexts of the first, with the same cells. */
  ghost predicate CellsKept(ctxs: map<(nat, string), Ctx>, ctxs': map<(nat, string), Ctx>) {
    forall k :: k in ctxs ==> k in ctxs' && ctxs'[k].cell == ctxs[k].cell
  }

  lemma StepKeepsCells(s: State, a: Action)
    requires Enabled(s, a)
    ensures CellsKept(s.ctxs, Step(s, a).ctxs)
  {
  }

  /** New contexts and new counters change no total. */
  lemma SumKept(m: map<Flow, History>, ctxs: map<(nat, string), Ctx>, ctxs': map<(nat, string), Ctx>,
                cell: nat, sending: bool, bytes: bool)
    requires Owners(m, ctxs, sending) && CellsKept(ctxs, ctxs')
    ensures Owners(m, ctxs', sending)
    ensures CellSum(m, ctxs', cell, sending, bytes) == CellSum(m, ctxs, cell, sending, bytes)
  {
    assert Owned(m, ctxs', cell, sending) == Owned(m, ctxs, cell, sending);
  }

  /** A call counts for the cell of its context and for no other. */
  lemma SumGrows(m: map<Flow, History>, ctxs: map<(nat, string), Ctx>, cell: nat, sending: bool, bytes: bool,
                 f: Flow, e: Option<Bytes>)
    requires Owners(m, ctxs, sending) && Owner(f, sending) in ctxs
    ensures var m' := m[f := Log(m, f) + [e]];
            && Owners(m', ctxs, sending)
            && CellSum(m', ctxs, cell, sending, bytes) ==
               CellSum(m, ctxs, cell, sending, bytes) +
               if ctxs[Owner(f, sending)].cell == cell then Worth(e, bytes) else 0
  {
    var m' := m[f := Log(m, f) + [e]];
    var fs := Owned(m, ctxs, cell, sending);
    if ctxs[Owner(f, sending)].cell == cell {
      assert Owned(m', ctxs, cell, sending) == fs + {f};
      SumAppend(fs, m, f, e, bytes);
    } else {
      assert Owned(m', ctxs, cell, sending) == fs;
      SumSame(fs, m, m', bytes);
    }
  }

  ghost predicate StatsInv(s: State) {
    && Owners(s.sent, s.ctxs, true) && Owners(s.recv, s.ctxs, false)
    && forall cell: nat :: StatsOf(s, cell) == Totals(s, cell)
  }

  /** The totals of both kinds after a call with outcome `e`. */
  lemma SumsAfterCall(m: map<Flow, History>, ctxs: map<(nat, string), Ctx>, ctxs': map<(nat, string), Ctx>,
                      cell: nat, sending: bool, f: Flow, e: Option<Bytes>)
    requires Owners(m, ctxs, sending) && CellsKept(ctxs, ctxs') && Owner(f, sending) in ctxs
    ensures var m', own := m[f := Log(m, f) + [e]], ctxs[Owner(f, sending)].cell == cell;
            && Owners(m', ctxs', sending)
            && CellSum(m', ctxs', cell, sending, false) ==
               CellSum(m, ctxs, cell, sending, false) + (if own then Worth(e, false) else 0)
            && CellSum(m', ctxs', cell, sending, true) ==
               CellSum(m, ctxs, cell, sending, true) + (if own then Worth(e, true) else 0)
  {
    SumKept(m, ctxs, ctxs', cell, sending, false);
    SumKept(m, ctxs, ctxs', cell, sending, true);
    SumGrows(m, ctxs', cell, sending, false, f, e);
    SumGrows(m, ctxs', cell, sending, true, f, e);
  }

  lemma SendStats(s: State, a: Action, cell: nat)
    requires StatsInv(s) && a.Send? && Enabled(s, a)
    ensures var s' := Step(s, a);
            && Owners(s'.sent, s'.ctxs, true) && Owners(s'.recv, s'.ctxs, false)
            && StatsOf(s', cell) == Totals(s', cell)
  {
    var s' := Step(s, a);
    StepKeepsCells(s, a);
    SumsAfterCall(s.sent, s.ctxs, s'.ctxs, cell, true, Flow(a.id, a.rank, a.dst), Sent(s, a));
    SumKept(s.recv, s.ctxs, s'.ctxs, cell, false, false);
    SumKept(s.recv, s.ctxs, s'.ctxs, cell, false, true);
    assert StatsOf(s, cell) == Totals(s, cell);
  }

  lemma RecvStats(s: State, a: Action, cell: nat)
    requires StatsInv(s) && a.Recv? && Enabled(s, a)
    ensures var s' := Step(s, a);
            && Owners(s'.sent, s'.ctxs, true) && Owners(s'.recv, s'.ctxs, false)
            && StatsOf(s', cell) == Totals(s', cell)
  {
    var s' := Step(s, a);
    StepKeepsCells(s, a);
    SumsAfterCall(s.recv, s.ctxs, s'.ctxs, cell, false, Flow(a.id, a.src, a.rank), Received(s, a));
    SumKept(s.sent, s.ctxs, s'.ctxs, cell, true, false);
    SumKept(s.sent, s.ctxs, s'.ctxs, cell, true, true);
    assert StatsOf(s, cell) == Totals(s, cell);
  }

  lemma OtherStats(s: State, a: Action, cell: nat)
    requires StatsInv(s) && (a.Spawn? || a.Deliver?) && Enabled(s, a)
    ensures var s' := Step(s, a);
            && Owners(s'.sent, s'.ctxs, true) && Owners(s'.recv, s'.ctxs, false)
            && StatsOf(s', cell) == Totals(s', cell)
  {
    var s' := Step(s, a);
    StepKeepsCells(s, a);
    forall bytes: bool
      ensures Owners(s'.sent, s'.ctxs, true) && Owners(s'.recv, s'.ctxs, false)
      ensures CellSum(s'.sent, s'.ctxs, cell, true, bytes) == CellSum(s.sent, s.ctxs, cell, true, bytes)
      ensures CellSum(s'.recv, s'.ctxs, cell, false, bytes) == CellSum(s.recv, s.ctxs, cell, false, bytes)
    {
      SumKept(s.sent, s.ctxs, s'.ctxs, cell, true, bytes);
      SumKept(s.recv, s.ctxs, s'.ctxs, cell, false, bytes);
    }
    assert StatsOf(s, cell) == Totals(s, cell);
  }

  lemma StatsStep(s: State, a: Action)
    requires StatsInv(s) && Enabled(s, a)
    ensures StatsInv(Step(s, a))
  {
    forall cell: nat
      ensures var s' := Step(s, a);
              && Owners(s'.sent, s'.ctxs, true) && Owners(s'.recv, s'.ctxs, false)
              && StatsOf(s', cell) == Totals(s', cell)
    {
      if a.Send? {
        SendStats(s, a, cell);
      } else if a.Recv? {
        RecvStats(s, a, cell);
      } else {
        OtherStats(s, a, cell);
      }
    }
  }

  /** In every run, what a cell shows is the total over the histories of the contexts that hold it. */
  lemma {:induction false} StatsAreTotals(root: string, run: Run, k: nat)
    requires IsRun(root, run) && k <= |run.acts|
    ensures StatsInv(run.states[k])
  {
    if k > 0 {
      StatsAreTotals(root, run, k - 1);
      assert IsStep(run.states[k - 1], run.acts[k - 1], run.states[k - 1 + 1]);
      StatsStep(run.states[k - 1], run.acts[k - 1]);
    }
  }

  /** Two contexts hold the same cell exactly when they belong to the same party. */
  ghost predicate CellPerParty(s: State) {
    forall k, k' :: k in s.ctxs && k' in s.ctxs ==> (s.ctxs[k].cell == s.ctxs[k'].cell <==> k.0 == k'.0)
  }

  lemma CellsStep(s: State, a: Action)
    requires CellPerParty(s) && Enabled(s, a)
    ensures CellPerParty(Step(s, a))
  {
  }

  /** In every run, the contexts of a party's spawn tree share one cell, and no other party's contexts hold it. */
  lemma {:induction false} TreeSharesCell(root: string, run: Run, k: nat)
    requires IsRun(root, run) && k <= |run.acts|
    ensures CellPerParty(run.states[k])
  {
    if k > 0 {
      TreeSharesCell(root, run, k - 1);
      assert IsStep(run.states[k - 1], run.acts[k - 1], run.states[k - 1 + 1]);
      CellsStep(run.states[k - 1], run.acts[k - 1]);
    }
  }
}

/**
 The multi-threaded giant-step search: threads share the flags `found` and `result_found` and one
 result cell, and take atomic steps in any order. `probe(j)` is the outcome of giant step `j`.
 */
module ParSearch {
  import opened Wrappers
  import opened ModArith
  import opened Curve
  import opened ElGamal
  import opened Decrypt

  // ----- Chunks

  function Start(imax: nat, threads: nat, i: nat): int
    requires threads > 0
  {
    i * (imax / threads) + 1
  }

  function End(imax: nat, threads: nat, i: nat): int
    requires threads > 0
  {
    if i == threads - 1 then imax + 1 else Start(imax, threads, i) + imax / threads
  }

  lemma ChunkFits(imax: nat, threads: nat, i: nat)
    requires i < threads
    ensures 1 <= Start(imax, threads, i) <= End(imax, threads, i) <= imax + 1
    ensures i + 1 < threads ==> End(imax, threads, i) == Start(imax, threads, i + 1)
  {
    var size := imax / threads;
    MulMono(i + 1, threads, size);
    assert size * threads <= imax;
    assert (i + 1) * size == i * size + size;
    MulMono(0, i, size);
  }

  /** The chunks cover every step exactly once. */
  lemma ChunksPartition(imax: nat, threads: nat, j: int) returns (i: nat)
    requires threads > 0 && 1 <= j <= imax
    ensures i < threads && Start(imax, threads, i) <= j < End(imax, threads, i)
    ensures forall k :: 0 <= k < threads && k != i ==> !(Start(imax, threads, k) <= j < End(imax, threads, k))
  {
    i := 0;
    while i + 1 < threads && j >= End(imax, threads, i)
      invariant i < threads && Start(imax, threads, i) <= j
    {
      ChunkFits(imax, threads, i);
      i := i + 1;
    }
    forall k | 0 <= k < threads && k != i
      ensures !(Start(imax, threads, k) <= j < End(imax, threads, k))
    {
      if k < i {
        ChunksAscend(imax, threads, k, i);
      } else {
        ChunksAscend(imax, threads, i, k);
      }
    }
  }

  /** The chunks are balanced: the same size for all threads but the last, which has fewer than `threads` more. */
  lemma ChunksBalanced(imax: nat, threads: nat, i: nat)
    requires i < threads
    ensures var size, last := imax / threads, End(imax, threads, threads - 1) - Start(imax, threads, threads - 1);
            && (i < threads - 1 ==> End(imax, threads, i) - Start(imax, threads, i) == size)
            && size <= last < size + threads
  {
    var size := imax / threads;
    MulSucc(threads - 1, size);
    assert imax == threads * size + imax % threads;
  }

  lemma {:induction false} ChunksAscend(imax: nat, threads: nat, i: nat, k: nat)
    requires i < k < threads
    ensures End(imax, threads, i) <= Start(imax, threads, k)
    decreases k - i
  {
    ChunkFits(imax, threads, i);
    if i + 1 < k {
      ChunkFits(imax, threads, i + 1);
      ChunksAscend(imax, threads, i + 1, k);
    }
  }

  // ----- The threads

  /**
   Where a thread stands: at the loop head, about to run a giant step, about to store `found` after a
   hit, back from `search` with its result, about to write the shared result, about to store `found`
   again, or finished.
   */
  datatype Place =
    | Head
    | Probing
    | Storing(m: int)
    | Returned(result: Option<int>)
    | Writing(m: int)
    | Publishing
    | Finished

  datatype Thread = Thread(place: Place, j: int)

  datatype State = State(threads: seq<Thread>, found: bool, resultFound: bool, final: Option<int>)

  datatype Search = Search(imax: nat, threads: nat, probe: int -> Option<int>) {

    ghost predicate Valid() {
      threads > 0
    }
  }

  ghost predicate Init(r: Search, s: State)
    requires r.Valid()
  {
    && |s.threads| == r.threads
    && !s.found && !s.resultFound && s.final.None?
    && forall i :: 0 <= i < r.threads ==> s.threads[i] == Thread(Head, Start(r.imax, r.threads, i))
  }

  /** The next step of thread `i`; a finished thread stays as it is. */
  function Step(r: Search, s: State, i: nat): State
    requires r.threads > 0 && i < |s.threads|
  {
    var t := s.threads[i];
    match t.place
    case Head =>
      if t.j < End(r.imax, r.threads, i) && !s.found then Put(s, i, Thread(Probing, t.j))
      else Put(s, i, Thread(Returned(None), t.j))
    case Probing =>
      (match r.probe(t.j)
       case Some(m) => Put(s, i, Thread(Storing(m), t.j))
       case None => Put(s, i, Thread(Head, t.j + 1)))
    case Storing(m) =>
      Put(s, i, Thread(Returned(Some(m)), t.j)).(found := true)
    case Returned(None) =>
      Put(s, i, Thread(Finished, t.j))
    case Returned(Some(m)) =>
      if s.resultFound then Put(s, i, Thread(Finished, t.j))
      else Put(s, i, Thread(Writing(m), t.j)).(resultFound := true)
    case Writing(m) =>
      Put(s, i, Thread(Publishing, t.j)).(final := Some(m))
    case Publishing =>
      Put(s, i, Thread(Finished, t.j)).(found := true)
    case Finished =>
      s
  }

  function Put(s: State, i: nat, t: Thread): State
    requires i < |s.threads|
  {
    s.(threads := s.threads[i := t])
  }

  ghost predicate Next(r: Search, s: State, s': State)
    requires r.threads > 0
  {
    exists i :: 0 <= i < |s.threads| && !s.threads[i].place.Finished? && s' == Step(r, s, i)
  }

  ghost predicate IsRun(r: Search, run: seq<State>)
    requires r.threads > 0
  {
    && run != []
    && Init(r, run[0])
    && forall k :: 0 <= k < |run| - 1 ==> Next(r, run[k], run[k + 1])
  }

  ghost predicate AllFinished(s: State) {
    forall i :: 0 <= i < |s.threads| ==> s.threads[i].place.Finished?
  }

  // ----- The invariant

  /** Giant step `j` hits, and it is the first of chunk `i` that does. */
  ghost predicate FirstHit(r: Search, i: nat, j: int)
    requires r.threads > 0
  {
    && i < r.threads && Start(r.imax, r.threads, i) <= j < End(r.imax, r.threads, i)
    && r.probe(j).Some?
    && forall k :: Start(r.imax, r.threads, i) <= k < j ==> r.probe(k).None?
  }

  /** `m` is the outcome of the first hit of some chunk. */
  ghost predicate IsHit(r: Search, m: int)
    requires r.threads > 0
  {
    exists i, j :: FirstHit(r, i, j) && r.probe(j) == Some(m)
  }

  ghost predicate ThreadOk(r: Search, s: State, i: nat)
    requires r.threads > 0 && i < |s.threads| == r.threads
  {
    var t := s.threads[i];
    && Start(r.imax, r.threads, i) <= t.j <= End(r.imax, r.threads, i)
    && (forall j :: Start(r.imax, r.threads, i) <= j < t.j ==> r.probe(j).None?)
    && match t.place
       case Head => true
       case Probing => t.j < End(r.imax, r.threads, i)
       case Storing(m) => IsHit(r, m)
       case Returned(None) => s.found || t.j == End(r.imax, r.threads, i)
       case Returned(Some(m)) => s.found && IsHit(r, m)
       case Writing(m) => s.found && s.resultFound && IsHit(r, m)
       case Publishing => s.found && s.resultFound
       case Finished => s.found || t.j == End(r.imax, r.threads, i)
  }

  /** Thread `i` has a success that it has yet to hand over. */
  ghost predicate Carries(s: State, i: nat)
    requires i < |s.threads|
  {
    s.threads[i].place.Returned? && s.threads[i].place.result.Some?
  }

  ghost predicate Inv(r: Search, s: State)
    requires r.threads > 0
  {
    && |s.threads| == r.threads
    && (forall i :: 0 <= i < r.threads ==> ThreadOk(r, s, i))
    && (s.found && !s.resultFound ==> exists i :: 0 <= i < r.threads && Carries(s, i))
    && (s.resultFound && s.final.None? ==> exists i :: 0 <= i < r.threads && s.threads[i].place.Writing?)
    && (s.final.Some? ==> s.resultFound && IsHit(r, s.final.value))
  }

  lemma InitInv(r: Search, s: State)
    requires r.Valid() && Init(r, s)
    ensures Inv(r, s)
  {
    forall i | 0 <= i < r.threads ensures ThreadOk(r, s, i) {
      ChunkFits(r.imax, r.threads, i);
    }
  }

  lemma StepThreads(r: Search, s: State, i: nat, k: nat)
    requires r.Valid() && Inv(r, s) && i < r.threads && k < r.threads
    ensures ThreadOk(r, Step(r, s, i), k)
  {
    assert ThreadOk(r, s, k);
    ChunkFits(r.imax, r.threads, i);
    var j := s.threads[k].j;
    if k == i && s.threads[k].place.Probing? && r.probe(j).Some? {
      assert FirstHit(r, k, j);
    }
  }

  /** Whenever `found` is set and no result claimed, some thread still carries a success. */
  lemma StepCarries(r: Search, s: State, i: nat)
    requires r.Valid() && Inv(r, s) && i < r.threads
    ensures var s' := Step(r, s, i);
            s'.found && !s'.resultFound ==> exists k :: 0 <= k < r.threads && Carries(s', k)
  {
    var s' := Step(r, s, i);
    assert ThreadOk(r, s, i);
    if s'.found && !s'.resultFound {
      if s.threads[i].place.Storing? {
        assert Carries(s', i);
      } else {
        var k :| 0 <= k < r.threads && Carries(s, k);
        assert Carries(s', k);
      }
    }
  }

  /** Whenever a result is claimed and not yet written, some thread is about to write it. */
  lemma StepWrites(r: Search, s: State, i: nat)
    requires r.Valid() && Inv(r, s) && i < r.threads
    ensures var s' := Step(r, s, i);
            && (s'.resultFound && s'.final.None? ==> exists k :: 0 <= k < r.threads && s'.threads[k].place.Writing?)
            && (s'.final.Some? ==> s'.resultFound && IsHit(r, s'.final.value))
  {
    var s' := Step(r, s, i);
    assert ThreadOk(r, s, i);
    if s'.resultFound && s'.final.None? {
      if s.resultFound {
        var k :| 0 <= k < r.threads && s.threads[k].place.Writing?;
        assert s'.threads[k].place.Writing?;
      } else {
        assert s'.threads[i].place.Writing?;
      }
    }
  }

  lemma StepInv(r: Search, s: State, i: nat)
    requires r.Valid() && Inv(r, s) && i < r.threads
    ensures Inv(r, Step(r, s, i))
  {
    forall k | 0 <= k < r.threads ensures ThreadOk(r, Step(r, s, i), k) {
      StepThreads(r, s, i, k);
    }
    StepCarries(r, s, i);
    StepWrites(r, s, i);
  }

  lemma {:induction false} RunInv(r: Search, run: seq<State>, k: nat)
    requires r.Valid() && IsRun(r, run) && k < |run|
    ensures Inv(r, run[k])
  {
    if k == 0 {
      InitInv(r, run[0]);
    } else {
      RunInv(r, run, k - 1);
      assert Next(r, run[k - 1], run[k - 1 + 1]);
      var i :| 0 <= i < |run[k - 1].threads| && run[k] == Step(r, run[k - 1], i);
      StepInv(r, run[k - 1], i);
    }
  }

  /**
   Whatever the interleaving: once all threads have finished, a result was found exactly when some giant
   step hits, and the result written is the outcome of the first hit of some chunk.
   */
  lemma SearchOutcome(r: Search, run: seq<State>)
    requires r.Valid() && IsRun(r, run) && AllFinished(run[|run| - 1])
    ensures var s := run[|run| - 1];
            if s.resultFound then s.final.Some? && IsHit(r, s.final.value)
            else forall j :: 1 <= j <= r.imax ==> r.probe(j).None?
  {
    var s := run[|run| - 1];
    RunInv(r, run, |run| - 1);
    if !s.resultFound {
      assert !s.found;
      forall j | 1 <= j <= r.imax ensures r.probe(j).None? {
        var i := ChunksPartition(r.imax, r.threads, j);
        assert ThreadOk(r, s, i);
      }
    }
  }

  // ----- Every run ends

  ghost function PlaceRank(p: Place): nat {
    match p
    case Head => 6
    case Probing => 5
    case Storing(_) => 4
    case Returned(_) => 3
    case Writing(_) => 2
    case Publishing => 1
    case Finished => 0
  }

  ghost function ThreadRank(r: Search, t: Thread, i: nat): nat
    requires r.threads > 0
  {
    PlaceRank(t.place) + if t.j <= End(r.imax, r.threads, i) then 2 * (End(r.imax, r.threads, i) - t.j) else 0
  }

  /** The total rank of the first `n` threads. */
  ghost function Rank(r: Search, ts: seq<Thread>, n: nat): nat
    requires r.threads > 0 && n <= |ts|
  {
    if n == 0 then 0 else Rank(r, ts, n - 1) + ThreadRank(r, ts[n - 1], n - 1)
  }

  lemma {:induction false} RankUpdate(r: Search, ts: seq<Thread>, i: nat, t: Thread, n: nat)
    requires r.threads > 0 && i < |ts| && n <= |ts|
    ensures Rank(r, ts[i := t], n) ==
            Rank(r, ts, n) + if i < n then ThreadRank(r, t, i) - ThreadRank(r, ts[i], i) else 0
  {
    if n > 0 {
      RankUpdate(r, ts, i, t, n - 1);
    }
  }

  /** Every step of an unfinished thread lowers the rank, so no run goes on for ever. */
  lemma StepEnds(r: Search, s: State, i: nat)
    requires r.Valid() && Inv(r, s) && i < r.threads && !s.threads[i].place.Finished?
    ensures Rank(r, Step(r, s, i).threads, r.threads) < Rank(r, s.threads, r.threads)
  {
    assert ThreadOk(r, s, i);
    RankUpdate(r, s.threads, i, Step(r, s, i).threads[i], r.threads);
  }

  lemma {:induction false} RunIsBounded(r: Search, run: seq<State>, k: nat)
    requires r.Valid() && IsRun(r, run) && k < |run|
    ensures |run[0].threads| == |run[k].threads| == r.threads
    ensures k + Rank(r, run[k].threads, r.threads) <= Rank(r, run[0].threads, r.threads)
  {
    RunInv(r, run, k);
    if k > 0 {
      RunIsBounded(r, run, k - 1);
      RunInv(r, run, k - 1);
      assert Next(r, run[k - 1], run[k - 1 + 1]);
      var i :| 0 <= i < |run[k - 1].threads| && !run[k - 1].threads[i].place.Finished?
        && run[k] == Step(r, run[k - 1], i);
      StepEnds(r, run[k - 1], i);
    }
  }

  // ----- Every first hit can be the result

  /** `run` is a run that ends in state `s`. */
  ghost predicate Leads(r: Search, run: seq<State>, s: State)
    requires r.threads > 0
  {
    IsRun(r, run) && run[|run| - 1] == s
  }

  /** A run goes on with a step of any thread that has not finished. */
  lemma Continue(r: Search, run: seq<State>, s: State, i: nat) returns (run': seq<State>)
    requires r.threads > 0 && Leads(r, run, s) && i < |s.threads| && !s.threads[i].place.Finished?
    ensures Leads(r, run', Step(r, s, i))
  {
    run' := run + [Step(r, s, i)];
    assert Next(r, s, Step(r, s, i));
    forall k | 0 <= k < |run'| - 1 ensures Next(r, run'[k], run'[k + 1]) {
      assert k < |run| - 1 ==> run'[k] == run[k] && run'[k + 1] == run[k + 1] && Next(r, run[k], run[k + 1]);
    }
  }

  /** All threads wait at their first step, except thread `i`, which waits at step `j`. */
  ghost predicate Alone(r: Search, s: State, i: nat, j: int)
    requires r.threads > 0
  {
    && |s.threads| == r.threads && i < r.threads
    && !s.found && !s.resultFound && s.final.None?
    && s.threads[i] == Thread(Head, j)
    && forall k :: 0 <= k < r.threads && k != i ==> s.threads[k].place == Head
  }

  /** Thread `i` running alone gets to its first hit. */
  lemma {:induction false} RunAlone(r: Search, i: nat, j: int, k: int) returns (run: seq<State>, s: State)
    requires r.Valid() && FirstHit(r, i, j) && Start(r.imax, r.threads, i) <= k <= j
    ensures Leads(r, run, s) && Alone(r, s, i, k)
    decreases k - Start(r.imax, r.threads, i)
  {
    if k == Start(r.imax, r.threads, i) {
      s := State(seq(r.threads, t requires 0 <= t => Thread(Head, Start(r.imax, r.threads, t))), false, false, None);
      run := [s];
    } else {
      run, s := RunAlone(r, i, j, k - 1);
      run := Continue(r, run, s, i);
      s := Step(r, s, i);
      run := Continue(r, run, s, i);
      s := Step(r, s, i);
    }
  }

  /** The result `m` is written, and no thread is about to write another. */
  ghost predicate Decided(r: Search, s: State, m: int) {
    && |s.threads| == r.threads && s.resultFound && s.final == Some(m)
    && forall k :: 0 <= k < r.threads ==> !s.threads[k].place.Writing?
  }

  lemma DecideAlone(r: Search, i: nat, j: int) returns (run: seq<State>, s: State)
    requires r.Valid() && FirstHit(r, i, j)
    ensures Leads(r, run, s) && Decided(r, s, r.probe(j).value)
  {
    run, s := RunAlone(r, i, j, j);
    run := Continue(r, run, s, i);
    s := Step(r, s, i);
    run := Continue(r, run, s, i);
    s := Step(r, s, i);
    run := Continue(r, run, s, i);
    s := Step(r, s, i);
    run := Continue(r, run, s, i);
    s := Step(r, s, i);
    run := Continue(r, run, s, i);
    s := Step(r, s, i);
  }

  /** A decided run can be brought to its end without changing the result. */
  lemma {:induction false} Finish(r: Search, run: seq<State>, s: State, m: int) returns (run': seq<State>, s': State)
    requires r.Valid() && Leads(r, run, s) && Decided(r, s, m)
    ensures Leads(r, run', s') && Decided(r, s', m) && AllFinished(s')
    decreases Rank(r, s.threads, r.threads)
  {
    if AllFinished(s) {
      run', s' := run, s;
    } else {
      var i :| 0 <= i < |s.threads| && !s.threads[i].place.Finished?;
      RunInv(r, run, |run| - 1);
      StepEnds(r, s, i);
      run' := Continue(r, run, s, i);
      run', s' := Finish(r, run', Step(r, s, i), m);
    }
  }

  /** The first hit of any chunk is the result of some interleaving. */
  lemma HitCanWin(r: Search, i: nat, j: int) returns (run: seq<State>)
    requires r.Valid() && FirstHit(r, i, j)
    ensures IsRun(r, run) && AllFinished(run[|run| - 1])
    ensures run[|run| - 1].resultFound && run[|run| - 1].final == r.probe(j)
  {
    var s: State;
    run, s := DecideAlone(r, i, j);
    run, s := Finish(r, run, s, r.probe(j).value);
  }

  /** The first giant step that a thread has not begun. */
  function Unbegun(t: Thread): int {
    if t.place.Probing? then t.j + 1 else t.j
  }

  lemma FoundStep(r: Search, s: State, i: nat, k: nat)
    requires r.Valid() && i < |s.threads| && k < |s.threads| && s.found
    ensures var s' := Step(r, s, i);
            s'.found && |s'.threads| == |s.threads| && Unbegun(s'.threads[k]) <= Unbegun(s.threads[k])
  {
  }

  /** Once `found` is set, no thread begins another giant step. */
  lemma {:induction false} FoundStops(r: Search, run: seq<State>, m: nat, n: nat, k: nat)
    requires r.Valid() && IsRun(r, run) && m <= n < |run| && run[m].found && k < |run[m].threads|
    ensures run[n].found && k < |run[n].threads| && Unbegun(run[n].threads[k]) <= Unbegun(run[m].threads[k])
    decreases n
  {
    if m < n {
      FoundStops(r, run, m, n - 1, k);
      assert Next(r, run[n - 1], run[n - 1 + 1]);
      var i :| 0 <= i < |run[n - 1].threads| && run[n] == Step(r, run[n - 1], i);
      FoundStep(r, run[n - 1], i, k);
    }
  }

  // ----- The parallel search decrypts

  /** The search over the giant steps for point `a`. */
  function GiantSearch(c: Curve, cfg: Config, t1: int -> Option<int>, t2: seq<AffinePoint>, inv: seq<int>,
                       a: int, threads: nat): Search
    requires c.order > 0 && c.field > 0 && |inv| + 1 == |t2|
  {
    Search(|inv|, threads, j =>
      if 1 <= j <= |inv| then Probe(c, cfg, t1, t2[j], inv[j - 1], a, j) else None)
  }

  /** What `ParDecrypt` returns at the end of a run. */
  function Outcome(s: State): (int, bool) {
    if s.resultFound && s.final.Some? then (s.final.value, true) else (0, false)
  }

  /** In each thread's chunk the first giant step that answers, if there is one, answers truly. */
  ghost predicate ChunksTrue(c: Curve, cfg: Config, t1: int -> Option<int>, a: int, threads: nat)
    requires c.order > 0 && threads > 0
  {
    forall i, j :: FirstOfChunk(c, cfg, t1, a, threads, i, j) ==> StepTrue(c, cfg, t1, a, j)
  }

  /** Giant step `j` answers, and it is the first of chunk `i` that does. */
  ghost predicate FirstOfChunk(c: Curve, cfg: Config, t1: int -> Option<int>, a: int, threads: nat, i: nat, j: int)
    requires c.order > 0 && threads > 0
  {
    && i < threads && Start(cfg.Imax(), threads, i) <= j < End(cfg.Imax(), threads, i)
    && IsFirst(c, cfg, t1, a, Start(cfg.Imax(), threads, i), j)
  }

  ghost predicate SearchSetting(c: Curve, cfg: Config, t1: int -> Option<int>, t2: seq<AffinePoint>, inv: seq<int>,
                                a: int, threads: nat)
  {
    Setting(c, cfg, t1) && IsT2(c, cfg, t2) && SearchReady(c, cfg, a, inv) && threads > 0
  }

  /** What a giant step of the search yields. */
  lemma GiantProbe(c: Curve, cfg: Config, t1: int -> Option<int>, t2: seq<AffinePoint>, inv: seq<int>, a: int,
                   threads: nat, j: int)
    requires SearchSetting(c, cfg, t1, t2, inv, a, threads) && 1 <= j <= cfg.Imax()
    ensures match GiantSearch(c, cfg, t1, t2, inv, a, threads).probe(j)
            case Some(m) =>
              && Answers(c, cfg, t1, a, j)
              && (IsMessage(c.order, cfg, a, m, true) <==> StepTrue(c, cfg, t1, a, j))
            case None => !Answers(c, cfg, t1, a, j) && Missed(c, cfg, a, j)
  {
    assert StepOpen(c, cfg, a, j, inv[j - 1]);
    ProbeCorrect(c, cfg, t1, a, j, inv[j - 1]);
  }

  /** The first hit of a chunk is its first step that answers. */
  lemma FirstHitIsFirst(c: Curve, cfg: Config, t1: int -> Option<int>, t2: seq<AffinePoint>, inv: seq<int>, a: int,
                        threads: nat, i: nat, j: int)
    requires SearchSetting(c, cfg, t1, t2, inv, a, threads)
    ensures FirstHit(GiantSearch(c, cfg, t1, t2, inv, a, threads), i, j) <==>
            FirstOfChunk(c, cfg, t1, a, threads, i, j)
    ensures FirstOfChunk(c, cfg, t1, a, threads, i, j) ==> 1 <= j <= cfg.Imax()
  {
    var r := GiantSearch(c, cfg, t1, t2, inv, a, threads);
    if i < threads {
      ChunkFits(cfg.Imax(), threads, i);
    }
    forall k | 1 <= k <= cfg.Imax() ensures r.probe(k).Some? <==> Answers(c, cfg, t1, a, k) {
      GiantProbe(c, cfg, t1, t2, inv, a, threads, k);
    }
  }

  /** An interleaving meets the promise of decryption when every chunk's first answer is true. */
  lemma ParallelDecrypts(c: Curve, cfg: Config, t1: int -> Option<int>, t2: seq<AffinePoint>, inv: seq<int>,
                         a: int, threads: nat, run: seq<State>)
    requires SearchSetting(c, cfg, t1, t2, inv, a, threads) && ChunksTrue(c, cfg, t1, a, threads)
    requires IsRun(GiantSearch(c, cfg, t1, t2, inv, a, threads), run)
    requires AllFinished(run[|run| - 1])
    ensures IsMessage(c.order, cfg, a, Outcome(run[|run| - 1]).0, Outcome(run[|run| - 1]).1)
  {
    var r, s := GiantSearch(c, cfg, t1, t2, inv, a, threads), run[|run| - 1];
    SearchOutcome(r, run);
    if s.resultFound {
      var i, j :| FirstHit(r, i, j) && r.probe(j) == s.final;
      FirstHitIsFirst(c, cfg, t1, t2, inv, a, threads, i, j);
      GiantProbe(c, cfg, t1, t2, inv, a, threads, j);
    } else {
      forall j | 1 <= j <= cfg.Imax() ensures Missed(c, cfg, a, j) {
        GiantProbe(c, cfg, t1, t2, inv, a, threads, j);
      }
      AllMissed(c, cfg, a, inv);
    }
  }

  /** A false first answer of some chunk makes some interleaving return a wrong message. */
  lemma FalseChunkCanWin(c: Curve, cfg: Config, t1: int -> Option<int>, t2: seq<AffinePoint>, inv: seq<int>,
                         a: int, threads: nat) returns (run: seq<State>)
    requires SearchSetting(c, cfg, t1, t2, inv, a, threads) && !ChunksTrue(c, cfg, t1, a, threads)
    ensures IsRun(GiantSearch(c, cfg, t1, t2, inv, a, threads), run) && AllFinished(run[|run| - 1])
    ensures !IsMessage(c.order, cfg, a, Outcome(run[|run| - 1]).0, Outcome(run[|run| - 1]).1)
  {
    var i, j :| FirstOfChunk(c, cfg, t1, a, threads, i, j) && !StepTrue(c, cfg, t1, a, j);
    FirstHitIsFirst(c, cfg, t1, t2, inv, a, threads, i, j);
    GiantProbe(c, cfg, t1, t2, inv, a, threads, j);
    run := HitCanWin(GiantSearch(c, cfg, t1, t2, inv, a, threads), i, j);
  }

  /** All interleavings meet the promise of decryption exactly when every chunk's first answer is true. */
  lemma ParallelDecryptsIff(c: Curve, cfg: Config, t1: int -> Option<int>, t2: seq<AffinePoint>, inv: seq<int>,
                            a: int, threads: nat)
    requires SearchSetting(c, cfg, t1, t2, inv, a, threads)
    ensures (forall run :: IsRun(GiantSearch(c, cfg, t1, t2, inv, a, threads), run) && AllFinished(run[|run| - 1]) ==>
               IsMessage(c.order, cfg, a, Outcome(run[|run| - 1]).0, Outcome(run[|run| - 1]).1)) <==>
            ChunksTrue(c, cfg, t1, a, threads)
  {
    if ChunksTrue(c, cfg, t1, a, threads) {
      forall run | IsRun(GiantSearch(c, cfg, t1, t2, inv, a, threads), run) && AllFinished(run[|run| - 1])
        ensures IsMessage(c.order, cfg, a, Outcome(run[|run| - 1]).0, Outcome(run[|run| - 1]).1)
      {
        ParallelDecrypts(c, cfg, t1, t2, inv, a, threads, run);
      }
    } else {
      var run := FalseChunkCanWin(c, cfg, t1, t2, inv, a, threads);
    }
  }

  /** The first step of all that answers is the first of its chunk. */
  lemma ChunksCoverSearch(c: Curve, cfg: Config, t1: int -> Option<int>, a: int, threads: nat)
    requires c.order > 0 && threads > 0 && ChunksTrue(c, cfg, t1, a, threads)
    ensures SearchTrue(c, cfg, t1, a)
  {
    forall j | 1 <= j <= cfg.Imax() && IsFirst(c, cfg, t1, a, 1, j) ensures StepTrue(c, cfg, t1, a, j) {
      var i := ChunksPartition(cfg.Imax(), threads, j);
      ChunkFits(cfg.Imax(), threads, i);
      assert FirstOfChunk(c, cfg, t1, a, threads, i, j);
    }
  }

  /**
   The parallel search refines `SearchAll`: under the same condition the sequential loop is right too, and every
   interleaving returns what it returns.
   */
  lemma ParallelRefinesDecrypt(c: Curve, cfg: Config, t1: int -> Option<int>, t2: seq<AffinePoint>, inv: seq<int>,
                               a: int, threads: nat, run: seq<State>, m: int, ok: bool)
    requires SearchSetting(c, cfg, t1, t2, inv, a, threads) && ChunksTrue(c, cfg, t1, a, threads)
    requires IsRun(GiantSearch(c, cfg, t1, t2, inv, a, threads), run) && AllFinished(run[|run| - 1])
    requires IsMessage(c.order, cfg, a, m, ok) <==> SearchTrue(c, cfg, t1, a)
    ensures Outcome(run[|run| - 1]) == (m, ok)
  {
    ParallelDecrypts(c, cfg, t1, t2, inv, a, threads, run);
    ChunksCoverSearch(c, cfg, t1, a, threads);
    var (m', ok') := Outcome(run[|run| - 1]);
    if ok {
      MessageIsUnique(c.order, cfg, a, m', ok', m);
    }
  }

  // ----- The whole of parallel decryption

  /** A run in which all threads have come to their end. */
  ghost predicate Complete(r: Search, run: seq<State>) {
    r.Valid() && IsRun(r, run) && AllFinished(run[|run| - 1])
  }

  /** All interleavings of the search for the point of a message in range find it, on the same condition. */
  lemma SearchRoundTrip(c: Curve, cfg: Config, t1: int -> Option<int>, t2: seq<AffinePoint>, inv: seq<int>,
                        m: int, threads: nat)
    requires c.order > 0 && SearchSetting(c, cfg, t1, t2, inv, m % c.order, threads) && cfg.Fits(m)
    ensures (forall run :: Complete(GiantSearch(c, cfg, t1, t2, inv, m % c.order, threads), run) ==>
               Outcome(run[|run| - 1]) == (m, true)) <==>
            ChunksTrue(c, cfg, t1, m % c.order, threads)
  {
    var a := m % c.order;
    var r := GiantSearch(c, cfg, t1, t2, inv, a, threads);
    ParallelDecryptsIff(c, cfg, t1, t2, inv, a, threads);
    if ChunksTrue(c, cfg, t1, a, threads) {
      forall run | Complete(r, run) ensures Outcome(run[|run| - 1]) == (m, true) {
        var (d, ok) := Outcome(run[|run| - 1]);
        MessageIsUnique(c.order, cfg, a, d, ok, m);
      }
    } else {
      var run := FalseChunkCanWin(c, cfg, t1, t2, inv, a, threads);
      assert Complete(r, run) && Outcome(run[|run| - 1]) != (m, true);
    }
  }

  /** What parallel decryption of the point `a`, prepared as `r`, may return: some interleaving does. */
  ghost predicate MayReturn(c: Curve, cfg: Config, t1: int -> Option<int>, t2: seq<AffinePoint>, a: int, threads: nat,
                            r: Prepared, d: int, ok: bool)
    requires Setting(c, cfg, t1) && IsT2(c, cfg, t2) && threads > 0 && PreparedFor(c, cfg, t1, a, r)
  {
    match r
    case Done(m) => d == m && ok
    case Pending(inv) =>
      exists run :: Complete(GiantSearch(c, cfg, t1, t2, inv, a, threads), run) && Outcome(run[|run| - 1]) == (d, ok)
  }

  /** Of the look-ups that may decide, in some interleaving, what is found for the point `a`, all are true ones. */
  ghost predicate DeciderTrue(c: Curve, cfg: Config, t1: int -> Option<int>, a: int, threads: nat)
    requires c.order > 0 && threads > 0
  {
    || a == 0
    || (TrueAt(c, t1, c.x(a))
        && (t1(c.x(a)).Some? || IsGiant(c, cfg, a) || ChunksTrue(c, cfg, t1, a, threads)))
  }

  /**
   Parallel decryption undoes encryption: for the point of a message `m` in range, whatever the interleaving, the
   result is `m` with success, exactly when all look-ups that may decide are true ones.
   */
  lemma ParallelRoundTrip(c: Curve, cfg: Config, t1: int -> Option<int>, t2: seq<AffinePoint>, threads: nat,
                          r: Prepared, m: int)
    requires Setting(c, cfg, t1) && IsT2(c, cfg, t2) && threads > 0
    requires cfg.Fits(m) && PreparedFor(c, cfg, t1, m % c.order, r)
    ensures (forall d, ok :: MayReturn(c, cfg, t1, t2, m % c.order, threads, r, d, ok) ==> ok && d == m) <==>
            DeciderTrue(c, cfg, t1, m % c.order, threads)
  {
    var a := m % c.order;
    match r {
      case Done(d) =>
        assert MayReturn(c, cfg, t1, t2, a, threads, r, d, true);
        if IsMessage(c.order, cfg, a, d, true) {
          MessageIsUnique(c.order, cfg, a, d, true, m);
        }
      case Pending(inv) =>
        NoGiant(c, cfg, a, inv);
        SearchRoundTrip(c, cfg, t1, t2, inv, m, threads);
        if !ChunksTrue(c, cfg, t1, a, threads) {
          var run := FalseChunkCanWin(c, cfg, t1, t2, inv, a, threads);
          var (d, ok) := Outcome(run[|run| - 1]);
          assert Complete(GiantSearch(c, cfg, t1, t2, inv, a, threads), run);
          assert MayReturn(c, cfg, t1, t2, a, threads, r, d, ok);
          assert !IsMessage(c.order, cfg, a, d, ok);
        }
    }
  }
}

/** The plaintext executor of Bristol-fashion circuits. */
module Circuit {
  import opened Bits
  import M = MachineWords
  import A = ModArith

  datatype Op = XOR | AND | INV | EQ | EQW | MAND

  datatype Gate = Gate(op: Op, iw: seq<nat>, ow: seq<nat>)

  /** `nw` wires in all; `niw` and `now` give the number of wires of each input and output value. */
  datatype BFCircuit = BFCircuit(nw: nat, niw: seq<nat>, gates: seq<Gate>, now: seq<nat>)

  // ----- Gates

  /** The wires a gate reads; the input of `EQ` is a constant. */
  function Reads(g: Gate): set<nat> {
    match g.op
    case XOR | AND => if |g.iw| >= 2 then {g.iw[0], g.iw[1]} else {}
    case INV | EQW => if |g.iw| >= 1 then {g.iw[0]} else {}
    case EQ | MAND => {}
  }

  /** The gate has an implementation and the wires its operation needs, all of them below `nw`. */
  predicate Runnable(g: Gate, nw: nat) {
    && |g.ow| >= 1 && g.ow[0] < nw
    && match g.op
       case XOR | AND => |g.iw| >= 2 && g.iw[0] < nw && g.iw[1] < nw
       case INV | EQW => |g.iw| >= 1 && g.iw[0] < nw
       case EQ => |g.iw| >= 1
       case MAND => false
  }

  function Output(g: Gate, wires: seq<bool>): bool
    requires Runnable(g, |wires|)
  {
    match g.op
    case XOR => wires[g.iw[0]] != wires[g.iw[1]]
    case AND => wires[g.iw[0]] && wires[g.iw[1]]
    case INV => !wires[g.iw[0]]
    case EQ => g.iw[0] != 0
    case EQW => wires[g.iw[0]]
  }

  /** The wire a gate drives carries what the gate computes from its inputs. */
  ghost predicate Holds(g: Gate, wires: seq<bool>) {
    Runnable(g, |wires|) && wires[g.ow[0]] == Output(g, wires)
  }

  function Num(b: bool): nat {
    if b then 1 else 0
  }

  /** The equation of a gate, with bits as numbers. */
  ghost predicate Equation(g: Gate, wires: seq<bool>) {
    && Runnable(g, |wires|)
    && var out := Num(wires[g.ow[0]]);
    match g.op
    case XOR => out == (Num(wires[g.iw[0]]) + Num(wires[g.iw[1]])) % 2
    case AND => out == Num(wires[g.iw[0]]) * Num(wires[g.iw[1]])
    case INV => out == 1 - Num(wires[g.iw[0]])
    case EQ => out == 1 <==> g.iw[0] != 0
    case EQW => out == Num(wires[g.iw[0]])
  }

  /** All gates have their equations solved. */
  ghost predicate Solved(gates: seq<Gate>, wires: seq<bool>) {
    forall k :: 0 <= k < |gates| ==> Equation(gates[k], wires)
  }

  lemma HoldsIsEquation(g: Gate, wires: seq<bool>)
    ensures Holds(g, wires) <==> Equation(g, wires)
  {
  }

  // ----- Orders of execution

  /** The wires set once the first `n` gates have run on top of `known`. */
  ghost function Set(known: set<nat>, gates: seq<Gate>, n: nat): set<nat>
    requires n <= |gates|
  {
    if n == 0 then known
    else Set(known, gates, n - 1) + if |gates[n - 1].ow| >= 1 then {gates[n - 1].ow[0]} else {}
  }

  /** Every gate reads only wires set before and drives one that is not. */
  ghost predicate Ordered(known: set<nat>, gates: seq<Gate>, nw: nat) {
    forall k :: 0 <= k < |gates| ==> OrderedAt(known, gates, nw, k)
  }

  ghost predicate OrderedAt(known: set<nat>, gates: seq<Gate>, nw: nat, k: nat)
    requires k < |gates|
  {
    && Runnable(gates[k], nw)
    && Reads(gates[k]) <= Set(known, gates, k)
    && gates[k].ow[0] !in Set(known, gates, k)
  }

  ghost predicate Agree(a: seq<bool>, b: seq<bool>, s: set<nat>) {
    |a| == |b| && forall w :: w in s && w < |a| ==> a[w] == b[w]
  }

  lemma OutputAgrees(g: Gate, a: seq<bool>, b: seq<bool>)
    requires Runnable(g, |a|) && Agree(a, b, Reads(g))
    ensures Output(g, a) == Output(g, b)
  {
  }

  lemma {:induction false} SetGrows(known: set<nat>, gates: seq<Gate>, m: nat, n: nat)
    requires m <= n <= |gates|
    ensures Set(known, gates, m) <= Set(known, gates, n)
  {
    if m < n {
      SetGrows(known, gates, m, n - 1);
    }
  }

  /** The equations of an ordered circuit have at most one solution for given inputs. */
  lemma {:induction false} UniqueSolution(known: set<nat>, gates: seq<Gate>, a: seq<bool>, b: seq<bool>, n: nat)
    requires n <= |gates| && Ordered(known, gates, |a|) && Agree(a, b, known)
    requires forall k :: 0 <= k < n ==> Holds(gates[k], a) && Holds(gates[k], b)
    ensures Agree(a, b, Set(known, gates, n))
  {
    if n > 0 {
      UniqueSolution(known, gates, a, b, n - 1);
      assert OrderedAt(known, gates, |a|, n - 1);
      assert Holds(gates[n - 1], a) && Holds(gates[n - 1], b);
      OutputAgrees(gates[n - 1], a, b);
    }
  }

  class PlainExecutor {
    var wires: seq<bool>
    const circ: BFCircuit

    constructor (c: BFCircuit)
      ensures circ == c && wires == []
    {
      circ := c;
      wires := [];
    }

    /** Runs all gates in order; fails at a gate that is not implemented. */
    method Exec() returns (ok: bool)
      requires forall k :: 0 <= k < |circ.gates| ==> circ.gates[k].op == MAND || Runnable(circ.gates[k], |wires|)
      modifies this
      ensures |wires| == |old(wires)|
      ensures ok <==> forall k :: 0 <= k < |circ.gates| ==> circ.gates[k].op != MAND
      ensures ok ==> wires == Run(old(wires), circ.gates, |circ.gates|)
      ensures ok ==> forall known :: Ordered(known, circ.gates, |wires|) ==> Solved(circ.gates, wires)
    {
      forall known | Ordered(known, circ.gates, |wires|)
        ensures Solved(circ.gates, Run(wires, circ.gates, |circ.gates|))
      {
        RunIsSolved(wires, known, circ.gates);
      }
      for k := 0 to |circ.gates|
        invariant |wires| == |old(wires)|
        invariant forall i :: 0 <= i < k ==> circ.gates[i].op != MAND
        invariant wires == Run(old(wires), circ.gates, k)
      {
        var gate := circ.gates[k];
        if gate.op == MAND {
          return false;
        }
        wires := wires[gate.ow[0] := Output(gate, wires)];
      }
      ok := true;
    }

    /** Puts the bits of the input values, low bits first, behind the wires there are: the first of a new executor. */
    method SetupInputs(inputs: seq<Block>) returns (ok: bool)
      modifies this
      ensures ok <==> |inputs| == |circ.niw|
      ensures ok ==> |wires| == circ.nw
      ensures ok ==> forall i :: 0 <= i < circ.nw ==>
                var all := old(wires) + Flatten(inputs);
                wires[i] == (i < |all| && all[i])
      ensures ok && old(wires) == [] ==> IsSetup(wires, inputs, circ.nw)
    {
      if |inputs| != |circ.niw| {
        return false;
      }
      var all := wires + Flatten(inputs);
      wires := if |all| >= circ.nw then all[..circ.nw] else all + seq(circ.nw - |all|, _ => false);
      ok := true;
    }

    /** Collects the output values from the end of the wires; fails when they do not fit into words of `w` bits. */
    method Finalize(w: nat, outputs: array<nat>) returns (ok: bool)
      requires Sum(circ.now, |circ.now|) <= |wires|
      modifies outputs
      ensures ok <==> |circ.now| <= outputs.Length && forall i :: 0 <= i < |circ.now| ==> circ.now[i] <= w
      ensures ok ==> forall i :: 0 <= i < |circ.now| ==>
                outputs[|circ.now| - 1 - i] == Value(Segment(wires, circ.now, i))
    {
      var nov := |circ.now|;
      if outputs.Length < nov || exists i :: 0 <= i < nov && circ.now[i] > w {
        return false;
      }
      var index := |wires|;
      for i := 0 to nov
        invariant index == |wires| - Sum(circ.now, i)
        invariant forall k :: 0 <= k < i ==> outputs[nov - 1 - k] == Value(Segment(wires, circ.now, k))
      {
        SumGrows(circ.now, i + 1, nov);
        var result := [];
        for j := 0 to circ.now[i]
          invariant result == wires[index - circ.now[i]..index - circ.now[i] + j]
        {
          result := result + [wires[index - circ.now[i] + j]];
        }
        outputs[nov - i - 1] := Value(result);
        index := index - circ.now[i];
      }
      ok := true;
    }

    /** The output bits as bytes, the last byte of the wires first. */
    method FinalizeBytes() returns (out: seq<nat>)
      requires (Sum(circ.now, |circ.now|) + 7) / 8 * 8 <= |wires|
      ensures |out| == (Sum(circ.now, |circ.now|) + 7) / 8
      ensures forall i :: 0 <= i < |out| ==> out[i] == Value(wires[|wires| - 8 * (i + 1)..|wires| - 8 * i])
    {
      var total := 0;
      for i := 0 to |circ.now|
        invariant total == Sum(circ.now, i)
      {
        total := total + circ.now[i];
      }
      var size := (total + 7) / 8;
      var rev: seq<nat> := [];
      var index := |wires|;
      for i := 0 to size
        invariant index == |wires| - 8 * i
        invariant |rev| == i
        invariant forall k :: 0 <= k < i ==> rev[i - 1 - k] == Value(wires[|wires| - 8 * (k + 1)..|wires| - 8 * k])
      {
        rev := [Value(wires[index - 8..index])] + rev;
        index := index - 8;
      }
      out := seq(size, i requires 0 <= i < size => rev[size - 1 - i]);
    }
  }

  function Flatten(inputs: seq<Block>): seq<bool> {
    if inputs == [] then [] else inputs[0] + Flatten(inputs[1..])
  }

  /** The sum of the first `n` numbers. */
  function Sum(s: seq<nat>, n: nat): nat
    requires n <= |s|
  {
    if n == 0 then 0 else Sum(s, n - 1) + s[n - 1]
  }

  lemma {:induction false} SumGrows(s: seq<nat>, m: nat, n: nat)
    requires m <= n <= |s|
    ensures Sum(s, m) <= Sum(s, n)
  {
    if m < n {
      SumGrows(s, m, n - 1);
    }
  }

  /** The `i`-th group of wires, counted from the end, of size `now[i]`. */
  function Segment(wires: seq<bool>, now: seq<nat>, i: nat): (b: Block)
    requires i < |now| && Sum(now, |now|) <= |wires|
    ensures |b| == now[i]
  {
    SumGrows(now, i + 1, |now|);
    wires[|wires| - Sum(now, i + 1)..|wires| - Sum(now, i)]
  }

  /** The wires after the first `n` gates. */
  ghost function Run(wires: seq<bool>, gates: seq<Gate>, n: nat): (r: seq<bool>)
    requires n <= |gates|
    ensures |r| == |wires|
  {
    if n == 0 then wires
    else
      var r, g := Run(wires, gates, n - 1), gates[n - 1];
      if Runnable(g, |wires|) then r[g.ow[0] := Output(g, r)] else r
  }

  lemma RunStep(wires: seq<bool>, gates: seq<Gate>, n: nat, s: set<nat>)
    requires 0 < n <= |gates| && Runnable(gates[n - 1], |wires|) && gates[n - 1].ow[0] !in s
    ensures Agree(Run(wires, gates, n - 1), Run(wires, gates, n), s)
    ensures Run(wires, gates, n)[gates[n - 1].ow[0]] == Output(gates[n - 1], Run(wires, gates, n - 1))
  {
  }

  /** A gate drives a wire that no earlier gate has touched, so what was computed before stays. */
  lemma {:induction false} RunKeeps(wires: seq<bool>, known: set<nat>, gates: seq<Gate>, m: nat, n: nat)
    requires m <= n <= |gates| && Ordered(known, gates, |wires|)
    ensures Agree(Run(wires, gates, m), Run(wires, gates, n), Set(known, gates, m))
  {
    if m < n {
      RunKeeps(wires, known, gates, m, n - 1);
      SetGrows(known, gates, m, n - 1);
      assert OrderedAt(known, gates, |wires|, n - 1);
      RunStep(wires, gates, n, Set(known, gates, m));
    }
  }

  lemma HoldsBy(g: Gate, a: seq<bool>, b: seq<bool>, c: seq<bool>, s: set<nat>)
    requires Runnable(g, |a|) && Reads(g) <= s && Agree(a, c, s) && Agree(b, c, {g.ow[0]})
    requires |a| == |b| && b[g.ow[0]] == Output(g, a)
    ensures Holds(g, c)
  {
    OutputAgrees(g, a, c);
  }

  /** Running an ordered circuit solves its equations and leaves the inputs alone. */
  lemma RunSolves(wires: seq<bool>, known: set<nat>, gates: seq<Gate>, k: nat)
    requires Ordered(known, gates, |wires|) && k < |gates|
    ensures Holds(gates[k], Run(wires, gates, |gates|))
  {
    var n, g := |gates|, gates[k];
    assert OrderedAt(known, gates, |wires|, k);
    RunKeeps(wires, known, gates, k, n);
    RunStep(wires, gates, k + 1, {});
    DrivenKept(wires, known, gates, k);
    HoldsBy(g, Run(wires, gates, k), Run(wires, gates, k + 1), Run(wires, gates, n), Set(known, gates, k));
  }

  /** In numbers: after a run of an ordered circuit every gate's equation is solved. */
  lemma RunIsSolved(wires: seq<bool>, known: set<nat>, gates: seq<Gate>)
    requires Ordered(known, gates, |wires|)
    ensures Solved(gates, Run(wires, gates, |gates|))
  {
    forall k | 0 <= k < |gates| ensures Equation(gates[k], Run(wires, gates, |gates|)) {
      RunSolves(wires, known, gates, k);
      HoldsIsEquation(gates[k], Run(wires, gates, |gates|));
    }
  }

  lemma DrivenKept(wires: seq<bool>, known: set<nat>, gates: seq<Gate>, k: nat)
    requires Ordered(known, gates, |wires|) && k < |gates| && Runnable(gates[k], |wires|)
    ensures Agree(Run(wires, gates, k + 1), Run(wires, gates, |gates|), {gates[k].ow[0]})
  {
    RunKeeps(wires, known, gates, k + 1, |gates|);
  }

  lemma OrderAgrees(wires: seq<bool>, known: set<nat>, gates: seq<Gate>, other: seq<Gate>)
    requires Ordered(known, gates, |wires|) && Ordered(known, other, |wires|)
    requires forall g :: g in gates <==> g in other
    ensures Agree(Run(wires, gates, |gates|), Run(wires, other, |other|), Set(known, gates, |gates|))
  {
    var a, b := Run(wires, gates, |gates|), Run(wires, other, |other|);
    RunKeeps(wires, known, gates, 0, |gates|);
    RunKeeps(wires, known, other, 0, |other|);
    forall k | 0 <= k < |gates| ensures Holds(gates[k], a) && Holds(gates[k], b) {
      RunSolves(wires, known, gates, k);
      assert gates[k] in gates;
      var j :| 0 <= j < |other| && other[j] == gates[k];
      RunSolves(wires, known, other, j);
    }
    UniqueSolution(known, gates, a, b, |gates|);
  }

  /** A list of gates sets the wires that the same gates in another list set. */
  lemma SameSet(known: set<nat>, gates: seq<Gate>, other: seq<Gate>, w: nat)
    requires forall g :: g in other ==> g in gates
    requires w in Set(known, other, |other|)
    ensures w in Set(known, gates, |gates|)
  {
    SetGrows(known, gates, 0, |gates|);
    var j := DrivenBy(known, other, |other|, w);
    if w !in known {
      assert other[j] in other;
      var k :| 0 <= k < |gates| && gates[k] == other[j];
      SetGrows(known, gates, k + 1, |gates|);
    }
  }

  /** Any other valid order of the same gates computes the same wires, all of them. */
  lemma OrderIrrelevant(wires: seq<bool>, known: set<nat>, gates: seq<Gate>, other: seq<Gate>)
    requires Ordered(known, gates, |wires|) && Ordered(known, other, |wires|)
    requires forall g :: g in gates <==> g in other
    ensures Run(wires, gates, |gates|) == Run(wires, other, |other|)
  {
    forall w | 0 <= w < |wires| ensures SameAt(Run(wires, gates, |gates|), Run(wires, other, |other|), w) {
      WireSame(wires, known, gates, other, w);
    }
    SameEverywhere(Run(wires, gates, |gates|), Run(wires, other, |other|));
  }

  ghost predicate SameAt(a: seq<bool>, b: seq<bool>, w: nat) {
    w < |a| == |b| && a[w] == b[w]
  }

  lemma SameEverywhere(a: seq<bool>, b: seq<bool>)
    requires |a| == |b| && forall w :: 0 <= w < |a| ==> SameAt(a, b, w)
    ensures a == b
  {
    forall w | 0 <= w < |a| ensures a[w] == b[w] {
      assert SameAt(a, b, w);
    }
  }

  lemma WireSame(wires: seq<bool>, known: set<nat>, gates: seq<Gate>, other: seq<Gate>, w: nat)
    requires Ordered(known, gates, |wires|) && Ordered(known, other, |wires|)
    requires forall g :: g in gates <==> g in other
    requires w < |wires|
    ensures SameAt(Run(wires, gates, |gates|), Run(wires, other, |other|), w)
  {
    if w in Set(known, gates, |gates|) {
      OrderAgrees(wires, known, gates, other);
    } else {
      UnsetSame(wires, known, gates, other, w);
    }
  }

  lemma UnsetSame(wires: seq<bool>, known: set<nat>, gates: seq<Gate>, other: seq<Gate>, w: nat)
    requires forall g :: g in other ==> g in gates
    requires w < |wires| && w !in Set(known, gates, |gates|)
    ensures Run(wires, gates, |gates|)[w] == Run(wires, other, |other|)[w]
  {
    if w in Set(known, other, |other|) {
      SameSet(known, gates, other, w);
    }
    Untouched(wires, known, gates, |gates|, w);
    Untouched(wires, known, other, |other|, w);
  }

  /** A wire that is set and was not known is driven by some gate. */
  lemma {:induction false} DrivenBy(known: set<nat>, gates: seq<Gate>, n: nat, w: nat) returns (k: nat)
    requires n <= |gates| && w in Set(known, gates, n)
    ensures w in known || (k < n && |gates[k].ow| >= 1 && gates[k].ow[0] == w)
  {
    k := 0;
    if n > 0 {
      if w in Set(known, gates, n - 1) {
        k := DrivenBy(known, gates, n - 1, w);
      } else {
        k := n - 1;
      }
    }
  }

  /** A wire that is never set keeps its value. */
  lemma {:induction false} Untouched(wires: seq<bool>, known: set<nat>, gates: seq<Gate>, n: nat, w: nat)
    requires n <= |gates| && w < |wires| && w !in Set(known, gates, n)
    ensures Run(wires, gates, n)[w] == wires[w]
  {
    if n > 0 {
      Untouched(wires, known, gates, n - 1, w);
    }
  }

  // ----- What the outputs are

  /** The groups of wires, from group `n - 1` down to group 0, one after the other. */
  ghost function Groups(wires: seq<bool>, now: seq<nat>, n: nat): seq<bool>
    requires n <= |now| && Sum(now, |now|) <= |wires|
  {
    if n == 0 then [] else Segment(wires, now, n - 1) + Groups(wires, now, n - 1)
  }

  /** The bits of the output values, in the order of the values, are the last wires. */
  lemma {:induction false} OutputsAreLastWires(wires: seq<bool>, now: seq<nat>, n: nat)
    requires n <= |now| && Sum(now, |now|) <= |wires|
    ensures Sum(now, n) <= |wires|
    ensures Groups(wires, now, n) == wires[|wires| - Sum(now, n)..]
  {
    SumGrows(now, n, |now|);
    if n > 0 {
      OutputsAreLastWires(wires, now, n - 1);
    }
  }

  /** Where the circuit format puts output `k`: `now[k]` wires, after the wires of the outputs before it. */
  ghost function Declared(wires: seq<bool>, now: seq<nat>, k: nat): (b: Block)
    requires k < |now| && Sum(now, |now|) <= |wires|
    ensures |b| == now[k]
  {
    SumGrows(now, k + 1, |now|);
    var start := |wires| - Sum(now, |now|);
    wires[start + Sum(now, k)..start + Sum(now, k + 1)]
  }

  ghost predicate Palindrome(now: seq<nat>) {
    forall i :: 0 <= i < |now| ==> now[i] == now[|now| - 1 - i]
  }

  lemma {:induction false} PalindromeSum(now: seq<nat>, k: nat)
    requires Palindrome(now) && k <= |now|
    ensures Sum(now, k) + Sum(now, |now| - k) == Sum(now, |now|)
  {
    if k > 0 {
      PalindromeSum(now, k - 1);
      assert now[k - 1] == now[|now| - 1 - (k - 1)];
    }
  }

  lemma {:induction false} ValueOfOnes(n: nat)
    ensures Value(Ones(n)) == M.Pow2(n) - 1
  {
    if n > 0 {
      assert Ones(n)[1..] == Ones(n - 1);
      ValueOfOnes(n - 1);
    }
  }

  lemma OnesDiffer(m: nat, n: nat)
    requires m != n
    ensures Value(Ones(m)) != Value(Ones(n))
  {
    ValueOfOnes(m);
    ValueOfOnes(n);
    if m < n {
      M.Pow2Mono(m + 1, n);
    } else {
      M.Pow2Mono(n + 1, m);
    }
  }

  lemma SlicesOfOnes(n: nat, now: seq<nat>, k: nat)
    requires k < |now| && Sum(now, |now|) <= n
    ensures Segment(Ones(n), now, k) == Ones(now[k]) && Declared(Ones(n), now, k) == Ones(now[k])
  {
    SumGrows(now, k + 1, |now|);
    var a, b := Segment(Ones(n), now, k), Declared(Ones(n), now, k);
    assert forall i :: 0 <= i < |a| ==> a[i];
    assert forall i :: 0 <= i < |b| ==> b[i];
  }

  /**
   `Finalize` takes group `i` for output `nov - 1 - i` and gives it the size of output `i`. That is what the circuit
   declares, for all values of the wires, exactly when the output sizes read the same from both ends.
   */
  lemma FinalizeAsDeclaredIff(now: seq<nat>, n: nat)
    requires Sum(now, |now|) <= n
    ensures (forall wires: seq<bool>, k :: |wires| == n && 0 <= k < |now| ==>
               Value(Segment(wires, now, |now| - 1 - k)) == Value(Declared(wires, now, k))) <==>
            Palindrome(now)
  {
    if Palindrome(now) {
      forall wires: seq<bool>, k | |wires| == n && 0 <= k < |now|
        ensures Value(Segment(wires, now, |now| - 1 - k)) == Value(Declared(wires, now, k))
      {
        PalindromeIsDeclared(wires, now, k, |now| - 1 - k);
      }
    } else {
      var k :| 0 <= k < |now| && now[k] != now[|now| - 1 - k];
      OnesNotDeclared(n, now, k);
    }
  }

  lemma PalindromeBounds(now: seq<nat>, k: nat, i: nat)
    requires Palindrome(now) && i + k + 1 == |now|
    ensures Sum(now, i + 1) == Sum(now, |now|) - Sum(now, k)
    ensures Sum(now, i) == Sum(now, |now|) - Sum(now, k + 1)
  {
    PalindromeSum(now, k);
    PalindromeSum(now, k + 1);
  }

  lemma SameSlice(wires: seq<bool>, x: nat, y: nat, x': nat, y': nat)
    requires x == x' <= y == y' <= |wires|
    ensures wires[x..y] == wires[x'..y']
  {
  }

  lemma PalindromeIsDeclared(wires: seq<bool>, now: seq<nat>, k: nat, i: nat)
    requires Palindrome(now) && i + k + 1 == |now| && Sum(now, |now|) <= |wires|
    ensures Segment(wires, now, i) == Declared(wires, now, k)
  {
    PalindromeBounds(now, k, i);
    SumGrows(now, k + 1, |now|);
    var n, start := |wires|, |wires| - Sum(now, |now|);
    SameSlice(wires, n - Sum(now, i + 1), n - Sum(now, i), start + Sum(now, k), start + Sum(now, k + 1));
  }

  /** With all wires set, a wrong width shows. */
  lemma OnesNotDeclared(n: nat, now: seq<nat>, k: nat)
    requires k < |now| && Sum(now, |now|) <= n && now[k] != now[|now| - 1 - k]
    ensures Value(Segment(Ones(n), now, |now| - 1 - k)) != Value(Declared(Ones(n), now, k))
  {
    SlicesOfOnes(n, now, |now| - 1 - k);
    SlicesOfOnes(n, now, k);
    OnesDiffer(now[|now| - 1 - k], now[k]);
  }

  /** Two outputs of one and two wires: `Finalize` reads one wire for the second output, not two. */
  lemma FinalizeSwapsSizes()
    ensures Sum([1, 2], 2) == 3
    ensures Segment([true, true, true], [1, 2], 0) == [true]
    ensures Declared([true, true, true], [1, 2], 1) == [true, true]
  {
    assert Sum([1, 2], 0) == 0 && Sum([1, 2], 1) == 1;
  }

  // ----- Where the inputs lie

  /** The wires of a new executor when the inputs have been put on them. */
  ghost predicate IsSetup(wires: seq<bool>, inputs: seq<Block>, nw: nat) {
    |wires| == nw && forall i :: 0 <= i < nw ==> wires[i] == (i < |Flatten(inputs)| && Flatten(inputs)[i])
  }

  /** `n` words of `w` bits. */
  ghost predicate AreWords(inputs: seq<Block>, n: nat, w: nat) {
    |inputs| == n && forall k :: 0 <= k < n ==> |inputs[k]| == w
  }

  /** The wires declared for input `k` carry its low bits. */
  ghost predicate OnDeclaredWires(wires: seq<bool>, niw: seq<nat>, inputs: seq<Block>, k: nat)
    requires k < |niw| == |inputs|
  {
    && niw[k] <= |inputs[k]| && Sum(niw, k + 1) <= |wires|
    && wires[Sum(niw, k)..Sum(niw, k + 1)] == inputs[k][..niw[k]]
  }

  ghost predicate AllOnDeclaredWires(wires: seq<bool>, niw: seq<nat>, inputs: seq<Block>)
    requires |niw| == |inputs|
  {
    forall k :: 0 <= k < |niw| ==> OnDeclaredWires(wires, niw, inputs, k)
  }

  /** Every input that has wires fits into a word and is declared to start where its word does. */
  predicate Aligned(niw: seq<nat>, w: nat) {
    forall k :: 0 <= k < |niw| && niw[k] > 0 ==> niw[k] <= w && Sum(niw, k) == k * w
  }

  lemma {:induction false} FlattenAt(inputs: seq<Block>, w: nat, k: nat, j: nat, p: nat)
    requires AreWords(inputs, |inputs|, w) && k < |inputs| && j < w && p == k * w + j
    ensures p < |Flatten(inputs)| && Flatten(inputs)[p] == inputs[k][j]
  {
    if k > 0 {
      A.MulSucc(k - 1, w);
      FlattenAt(inputs[1..], w, k - 1, j, p - w);
    }
  }

  lemma {:induction false} FlattenSize(inputs: seq<Block>, w: nat)
    requires AreWords(inputs, |inputs|, w)
    ensures |Flatten(inputs)| == |inputs| * w
  {
    if inputs != [] {
      FlattenSize(inputs[1..], w);
      A.MulSucc(|inputs| - 1, w);
    }
  }

  lemma SliceIs(wires: seq<bool>, start: nat, b: Block)
    requires start + |b| <= |wires| && forall j :: 0 <= j < |b| ==> wires[start + j] == b[j]
    ensures wires[start..start + |b|] == b
  {
  }

  lemma BitOnWire(wires: seq<bool>, inputs: seq<Block>, w: nat, k: nat, j: nat, p: nat)
    requires AreWords(inputs, |inputs|, w) && IsSetup(wires, inputs, |wires|)
    requires k < |inputs| && j < w && p < |wires| && p == k * w + j
    ensures wires[p] == inputs[k][j]
  {
    FlattenAt(inputs, w, k, j, p);
  }

  lemma WordOnWires(wires: seq<bool>, inputs: seq<Block>, w: nat, k: nat, start: nat, n: nat)
    requires AreWords(inputs, |inputs|, w) && IsSetup(wires, inputs, |wires|)
    requires k < |inputs| && n <= w && start + n <= |wires| && start == k * w
    ensures wires[start..start + n] == inputs[k][..n]
  {
    forall j | 0 <= j < n ensures wires[start + j] == inputs[k][j] {
      BitOnWire(wires, inputs, w, k, j, start + j);
    }
    SliceIs(wires, start, inputs[k][..n]);
  }

  lemma AlignedIsDeclared(wires: seq<bool>, niw: seq<nat>, inputs: seq<Block>, w: nat, k: nat)
    requires AreWords(inputs, |niw|, w) && IsSetup(wires, inputs, |wires|) && Sum(niw, |niw|) <= |wires|
    requires k < |niw| && Aligned(niw, w)
    ensures OnDeclaredWires(wires, niw, inputs, k)
  {
    SumGrows(niw, k + 1, |niw|);
    if niw[k] > 0 {
      WordOnWires(wires, inputs, w, k, Sum(niw, k), niw[k]);
    }
  }

  /** One bit set: the lowest of input `k`. */
  ghost function OneBit(n: nat, w: nat, k: nat): (inputs: seq<Block>)
    ensures AreWords(inputs, n, w)
  {
    seq(n, i => seq(w, j => i == k && j == 0))
  }

  ghost function Setup(inputs: seq<Block>, nw: nat): (wires: seq<bool>)
    ensures IsSetup(wires, inputs, nw)
  {
    seq(nw, i requires 0 <= i => i < |Flatten(inputs)| && Flatten(inputs)[i])
  }

  /** That bit is on the wire where the word starts, and on no other. */
  lemma OneBitAt(n: nat, w: nat, k: nat, p: nat)
    requires k < n && w > 0 && p < |Flatten(OneBit(n, w, k))| && Flatten(OneBit(n, w, k))[p]
    ensures p == k * w
  {
    var inputs := OneBit(n, w, k);
    FlattenSize(inputs, w);
    var i, j := WordOf(n, w, p);
    FlattenAt(inputs, w, i, j, p);
    assert inputs[i][j] == (i == k && j == 0);
  }

  /** The bit of `n` words of `w` bits that lies at place `p`. */
  lemma WordOf(n: nat, w: nat, p: nat) returns (i: nat, j: nat)
    requires p < n * w && w > 0
    ensures i < n && j < w && p == i * w + j
  {
    i, j := p / w, p % w;
    if i >= n {
      A.MulMono(n, i, w);
      assert false;
    }
  }

  lemma MisalignedIsNot(niw: seq<nat>, w: nat, nw: nat, k: nat)
    requires Sum(niw, |niw|) <= nw && k < |niw| && niw[k] > 0 && !(niw[k] <= w && Sum(niw, k) == k * w)
    ensures var inputs := OneBit(|niw|, w, k);
            !OnDeclaredWires(Setup(inputs, nw), niw, inputs, k)
  {
    var inputs := OneBit(|niw|, w, k);
    var wires, p := Setup(inputs, nw), Sum(niw, k);
    SumGrows(niw, k + 1, |niw|);
    if OnDeclaredWires(wires, niw, inputs, k) {
      assert wires[p] == wires[p..Sum(niw, k + 1)][0] == inputs[k][..niw[k]][0];
      OneBitAt(|niw|, w, k, p);
    }
  }

  /**
   `SetupInputs` starts each input where a word starts. For words of `w` bits, that puts every input on the wires the
   circuit declares for it, whatever the values, exactly when these are aligned to words.
   */
  lemma InputsAsDeclaredIff(niw: seq<nat>, w: nat, nw: nat)
    requires Sum(niw, |niw|) <= nw
    ensures (forall inputs, wires :: AreWords(inputs, |niw|, w) && IsSetup(wires, inputs, nw) ==>
               AllOnDeclaredWires(wires, niw, inputs)) <==>
            Aligned(niw, w)
  {
    if Aligned(niw, w) {
      forall inputs, wires | AreWords(inputs, |niw|, w) && IsSetup(wires, inputs, nw)
        ensures AllOnDeclaredWires(wires, niw, inputs)
      {
        forall k | 0 <= k < |niw| ensures OnDeclaredWires(wires, niw, inputs, k) {
          AlignedIsDeclared(wires, niw, inputs, w, k);
        }
      }
    } else {
      var k :| 0 <= k < |niw| && niw[k] > 0 && !(niw[k] <= w && Sum(niw, k) == k * w);
      MisalignedIsNot(niw, w, nw, k);
      var inputs := OneBit(|niw|, w, k);
      assert AreWords(inputs, |niw|, w) && IsSetup(Setup(inputs, nw), inputs, nw);
    }
  }

  /** Two inputs of one wire each, given as bytes: the second is not on the second wire. */
  lemma InputMisplaced()
    ensures var inputs := OneBit(2, 8, 1);
            !OnDeclaredWires(Setup(inputs, 16), [1, 1], inputs, 1)
  {
    assert Sum([1, 1], 1) == 1;
    MisalignedIsNot([1, 1], 8, 16, 1);
  }
}

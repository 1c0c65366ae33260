/**
 A ripple-carry circuit for sums and differences, made of all kinds of gates, and what the plaintext executor computes
 with it.
 */
module Adder {
  import opened Bits
  import opened BitsetOrder
  import opened Circuit
  import A = ModArith
  import M = MachineWords

  // ----- The circuit

  /** The wire of carry `i`; the inputs come before. */
  function Carry(n: nat, i: nat): nat {
    2 * n + 5 * i
  }

  /** The wire of result bit `i`: the last `n` wires. */
  function Result(n: nat, i: nat): nat {
    7 * n + 1 + i
  }

  function Wires(n: nat): nat {
    8 * n + 1
  }

  /**
   The gates of bit `i`: the second operand, inverted for a difference; the sum of both operands; the two ways to
   carry; the next carry; the result bit.
   */
  function BitGates(n: nat, i: nat, minus: bool): (g: seq<Gate>)
    ensures |g| == 6
  {
    var c := Carry(n, i);
    [Gate(if minus then INV else EQW, [n + i], [c + 1]),
     Gate(XOR, [i, c + 1], [c + 2]),
     Gate(AND, [c + 2, c], [c + 3]),
     Gate(AND, [i, c + 1], [c + 4]),
     Gate(XOR, [c + 3, c + 4], [c + 5]),
     Gate(XOR, [c + 2, c], [Result(n, i)])]
  }

  /** The first carry and the gates of the first `i` bits. */
  function Ripple(n: nat, i: nat, minus: bool): seq<Gate> {
    if i == 0 then [Gate(EQ, [if minus then 1 else 0], [Carry(n, 0)])]
    else Ripple(n, i - 1, minus) + BitGates(n, i - 1, minus)
  }

  function AddCircuit(n: nat, minus: bool): BFCircuit {
    BFCircuit(Wires(n), [n, n], Ripple(n, n, minus), [n])
  }

  // ----- It is ordered

  lemma {:induction false} SetOfBoth(known: set<nat>, g: seq<Gate>, h: seq<Gate>, k: nat)
    requires k <= |h|
    ensures Set(known, g + h, |g| + k) == Set(Set(known, g, |g|), h, k)
    decreases k
  {
    if k == 0 {
      SetOfPrefix(known, g, h, |g|);
    } else {
      SetOfBoth(known, g, h, k - 1);
      assert (g + h)[|g| + k - 1] == h[k - 1];
    }
  }

  lemma {:induction false} SetOfPrefix(known: set<nat>, g: seq<Gate>, h: seq<Gate>, k: nat)
    requires k <= |g|
    ensures Set(known, g + h, k) == Set(known, g, k)
  {
    if k > 0 {
      SetOfPrefix(known, g, h, k - 1);
      assert (g + h)[k - 1] == g[k - 1];
    }
  }

  lemma OrderedBoth(known: set<nat>, g: seq<Gate>, h: seq<Gate>, nw: nat)
    requires Ordered(known, g, nw) && Ordered(Set(known, g, |g|), h, nw)
    ensures Ordered(known, g + h, nw)
  {
    forall k | 0 <= k < |g + h| ensures OrderedAt(known, g + h, nw, k) {
      if k < |g| {
        SetOfPrefix(known, g, h, k);
        assert OrderedAt(known, g, nw, k);
      } else {
        SetOfBoth(known, g, h, k - |g|);
        assert OrderedAt(Set(known, g, |g|), h, nw, k - |g|);
      }
    }
  }

  predicate Under(w: nat, m: nat) {
    w < m
  }

  ghost function Below(m: nat): (s: set<nat>)
    ensures forall w: nat :: w in s <==> w < m
  {
    set w: nat | w < m && Under(w, m)
  }

  /** The input wires. */
  ghost function Inputs(n: nat): set<nat> {
    Below(2 * n)
  }

  /** The wires that are set before bit `i`. */
  ghost function SetBefore(n: nat, i: nat): (s: set<nat>)
    ensures forall w: nat :: w in s <==> w <= Carry(n, i) || Result(n, 0) <= w < Result(n, i)
  {
    Below(Carry(n, i) + 1) + (Below(Result(n, i)) - Below(Result(n, 0)))
  }

  /** The wires that are set before gate `k` of bit `i`. */
  ghost predicate SetWithin(n: nat, i: nat, k: nat, w: nat) {
    || w <= Carry(n, i) + (if k < 5 then k else 5)
    || Result(n, 0) <= w < Result(n, i) || (k == 6 && w == Result(n, i))
  }

  lemma {:induction false} SetOfBit(n: nat, i: nat, minus: bool, k: nat)
    requires i < n && k <= 6
    ensures forall w: nat :: w in Set(SetBefore(n, i), BitGates(n, i, minus), k) <==> SetWithin(n, i, k, w)
  {
    if k > 0 {
      SetOfBit(n, i, minus, k - 1);
      assert BitGates(n, i, minus)[k - 1].ow == [if k == 6 then Result(n, i) else Carry(n, i) + k];
    }
  }

  lemma GateOrdered(n: nat, i: nat, minus: bool, k: nat)
    requires i < n && k < 6
    ensures OrderedAt(SetBefore(n, i), BitGates(n, i, minus), Wires(n), k)
  {
    SetOfBit(n, i, minus, k);
    var g := BitGates(n, i, minus)[k];
    assert forall w: nat :: w in Reads(g) ==> SetWithin(n, i, k, w);
  }

  lemma BitOrdered(n: nat, i: nat, minus: bool)
    requires i < n
    ensures Ordered(SetBefore(n, i), BitGates(n, i, minus), Wires(n))
    ensures Set(SetBefore(n, i), BitGates(n, i, minus), 6) == SetBefore(n, i + 1)
  {
    forall k | 0 <= k < 6 ensures OrderedAt(SetBefore(n, i), BitGates(n, i, minus), Wires(n), k) {
      GateOrdered(n, i, minus, k);
    }
    SetOfBit(n, i, minus, 6);
  }

  lemma FirstOrdered(n: nat, g: seq<Gate>)
    requires |g| == 1 && g[0].op == EQ && |g[0].iw| == 1 && g[0].ow == [Carry(n, 0)]
    ensures Ordered(Inputs(n), g, Wires(n)) && Set(Inputs(n), g, 1) == SetBefore(n, 0)
  {
    assert Set(Inputs(n), g, 0) == Inputs(n);
    assert OrderedAt(Inputs(n), g, Wires(n), 0);
    assert Set(Inputs(n), g, 1) == Inputs(n) + {Carry(n, 0)};
  }

  lemma OrderedOn(known: set<nat>, g: seq<Gate>, h: seq<Gate>, nw: nat, s: set<nat>, s': set<nat>)
    requires Ordered(known, g, nw) && Set(known, g, |g|) == s
    requires Ordered(s, h, nw) && Set(s, h, |h|) == s'
    ensures Ordered(known, g + h, nw) && Set(known, g + h, |g + h|) == s'
  {
    OrderedBoth(known, g, h, nw);
    SetOfBoth(known, g, h, |h|);
  }

  ghost predicate IsOrdered(n: nat, i: nat, g: seq<Gate>) {
    Ordered(Inputs(n), g, Wires(n)) && Set(Inputs(n), g, |g|) == SetBefore(n, i)
  }

  lemma OrderedNext(n: nat, i: nat, minus: bool, g: seq<Gate>)
    requires i < n && IsOrdered(n, i, g)
    ensures IsOrdered(n, i + 1, g + BitGates(n, i, minus))
  {
    BitOrdered(n, i, minus);
    OrderedOn(Inputs(n), g, BitGates(n, i, minus), Wires(n), SetBefore(n, i), SetBefore(n, i + 1));
  }

  lemma {:induction false} RippleOrdered(n: nat, i: nat, minus: bool)
    requires i <= n
    ensures IsOrdered(n, i, Ripple(n, i, minus))
  {
    if i == 0 {
      FirstOrdered(n, Ripple(n, 0, minus));
    } else {
      RippleOrdered(n, i - 1, minus);
      OrderedNext(n, i - 1, minus, Ripple(n, i - 1, minus));
    }
  }

  // ----- Its equations

  lemma {:induction false} BitInRipple(n: nat, i: nat, minus: bool, m: nat, wires: seq<bool>)
    requires i < m && Solved(Ripple(n, m, minus), wires)
    ensures Solved(BitGates(n, i, minus), wires)
  {
    var g, h := Ripple(n, m - 1, minus), BitGates(n, m - 1, minus);
    assert Ripple(n, m, minus) == g + h;
    if i == m - 1 {
      forall k | 0 <= k < 6 ensures Equation(h[k], wires) {
        assert (g + h)[|g| + k] == h[k];
      }
    } else {
      forall k | 0 <= k < |g| ensures Equation(g[k], wires) {
        assert (g + h)[k] == g[k];
      }
      BitInRipple(n, i, minus, m - 1, wires);
    }
  }

  lemma {:induction false} FirstCarry(n: nat, minus: bool, m: nat, wires: seq<bool>)
    requires Solved(Ripple(n, m, minus), wires)
    ensures |wires| > 2 * n && wires[Carry(n, 0)] == minus
  {
    var g := Ripple(n, m, minus);
    if m == 0 {
      assert Equation(g[0], wires);
    } else {
      var h := Ripple(n, m - 1, minus);
      forall k | 0 <= k < |h| ensures Equation(h[k], wires) {
        assert g[k] == h[k];
      }
      FirstCarry(n, minus, m - 1, wires);
    }
  }

  /** The gates of one bit are a full adder. */
  lemma FullAdder(n: nat, i: nat, minus: bool, wires: seq<bool>)
    requires |wires| == Wires(n) && i < n && Solved(BitGates(n, i, minus), wires)
    ensures var c, y := Carry(n, i), if minus then 1 - Num(wires[n + i]) else Num(wires[n + i]);
            Num(wires[Result(n, i)]) + 2 * Num(wires[c + 5]) == Num(wires[i]) + y + Num(wires[c])
  {
    var g := BitGates(n, i, minus);
    assert Equation(g[0], wires) && Equation(g[1], wires) && Equation(g[2], wires);
    assert Equation(g[3], wires) && Equation(g[4], wires) && Equation(g[5], wires);
  }

  // ----- Sums

  lemma ValueStep(b: Block, i: nat)
    requires i < |b|
    ensures Value(b[..i + 1]) == Value(b[..i]) + M.Pow2(i) * Num(b[i])
  {
    assert b[..i + 1] == b[..i] + [b[i]];
    ValueConcat(b[..i], [b[i]]);
    assert Value([b[i]]) == Num(b[i]);
  }

  /** The second operand: the number itself, or its complement. */
  ghost function Operand(b: Block, i: nat, minus: bool): int
    requires i <= |b|
  {
    if minus then M.Pow2(i) - 1 - Value(b[..i]) else Value(b[..i])
  }

  /** What the first `i` bits and the carry out of them amount to. */
  lemma {:induction false} Rippled(n: nat, minus: bool, wires: seq<bool>, i: nat)
    requires |wires| == Wires(n) && i <= n && Solved(Ripple(n, n, minus), wires)
    ensures var x, y, r := wires[..n], wires[n..2 * n], wires[Result(n, 0)..];
            Value(r[..i]) + M.Pow2(i) * Num(wires[Carry(n, i)]) == Value(x[..i]) + Operand(y, i, minus) + Num(minus)
  {
    var x, y, r := wires[..n], wires[n..2 * n], wires[Result(n, 0)..];
    if i == 0 {
      FirstCarry(n, minus, n, wires);
    } else {
      var j := i - 1;
      Rippled(n, minus, wires, j);
      BitInRipple(n, j, minus, n, wires);
      FullAdder(n, j, minus, wires);
      ValueStep(x, j);
      ValueStep(y, j);
      ValueStep(r, j);
      RippleStep(M.Pow2(j), Num(r[j]), Num(wires[Carry(n, i)]), Num(x[j]), Num(y[j]), Num(wires[Carry(n, j)]), minus);
    }
  }

  lemma RippleStep(p: int, r: int, c': int, x: int, y: int, c: int, minus: bool)
    requires r + 2 * c' == x + (if minus then 1 - y else y) + c
    ensures p * r + 2 * p * c' == p * x + (if minus then p - p * y else p * y) + p * c
  {
    assert p * (r + 2 * c') == p * r + 2 * p * c';
    if minus {
      assert p * (x + (1 - y) + c) == p * x + (p - p * y) + p * c;
    } else {
      assert p * (x + y + c) == p * x + p * y + p * c;
    }
  }

  /** The sum or difference of the numbers on the input wires, modulo 2^n. */
  lemma RippleValue(n: nat, minus: bool, wires: seq<bool>)
    requires |wires| == Wires(n) && Solved(Ripple(n, n, minus), wires)
    ensures var x, y := Value(wires[..n]), Value(wires[n..2 * n]);
            Value(wires[Result(n, 0)..]) == (if minus then x - y else x + y) % M.Pow2(n)
  {
    var x, y, r := wires[..n], wires[n..2 * n], wires[Result(n, 0)..];
    Rippled(n, minus, wires, n);
    assert x[..n] == x && y[..n] == y && r[..n] == r;
    ValueBound(r);
    var p: int, c: int := M.Pow2(n), Num(wires[Carry(n, n)]);
    var d := if minus then Value(x) - Value(y) else Value(x) + Value(y);
    assert p * c == c * p && (c - 1) * p == c * p - p;
    A.QuotientUnique(d, if minus then c - 1 else c, Value(r), p);
  }

  lemma InputsSet(wires: seq<bool>, n: nat, x: Block, y: Block)
    requires |x| == |y| == n && IsSetup(wires, [x, y], Wires(n))
    ensures wires[..n] == x && wires[n..2 * n] == y
  {
    assert [x, y][1..] == [y] && [y][1..] == [];
    assert Flatten([y]) == y + Flatten([]) == y;
    assert Flatten([x, y]) == x + y;
  }

  lemma RunsAll(n: nat, minus: bool)
    requires Ordered(Inputs(n), Ripple(n, n, minus), Wires(n))
    ensures forall k :: 0 <= k < |Ripple(n, n, minus)| ==>
              Runnable(Ripple(n, n, minus)[k], Wires(n)) && Ripple(n, n, minus)[k].op != MAND
  {
    forall k | 0 <= k < |Ripple(n, n, minus)|
      ensures Runnable(Ripple(n, n, minus)[k], Wires(n)) && Ripple(n, n, minus)[k].op != MAND
    {
      assert OrderedAt(Inputs(n), Ripple(n, n, minus), Wires(n), k);
    }
  }

  lemma InputsKept(wires: seq<bool>, n: nat, minus: bool, r: seq<bool>)
    requires |wires| == Wires(n) && Ordered(Inputs(n), Ripple(n, n, minus), Wires(n))
    requires r == Run(wires, Ripple(n, n, minus), |Ripple(n, n, minus)|)
    ensures r[..n] == wires[..n] && r[n..2 * n] == wires[n..2 * n]
  {
    RunKeeps(wires, Inputs(n), Ripple(n, n, minus), 0, |Ripple(n, n, minus)|);
    AgreeBelow(wires, r, n);
  }

  lemma AgreeBelow(a: seq<bool>, b: seq<bool>, n: nat)
    requires Agree(a, b, Inputs(n)) && 2 * n <= |a|
    ensures a[..n] == b[..n] && a[n..2 * n] == b[n..2 * n]
  {
    forall w: nat | w < 2 * n ensures a[w] == b[w] {
      assert w in Inputs(n);
    }
  }

  /** The wires of a finished run hold the result. */
  lemma Finished(n: nat, minus: bool, before: seq<bool>, wires: seq<bool>, x: Block, y: Block)
    requires |x| == |y| == n && IsSetup(before, [x, y], Wires(n)) && IsOrdered(n, n, Ripple(n, n, minus))
    requires wires == Run(before, Ripple(n, n, minus), |Ripple(n, n, minus)|)
    ensures Value(Segment(wires, [n], 0)) ==
            (if minus then Value(x) - Value(y) else Value(x) + Value(y)) % M.Pow2(n)
  {
    InputsSet(before, n, x, y);
    InputsKept(before, n, minus, wires);
    RunIsSolved(before, Inputs(n), Ripple(n, n, minus));
    RippleValue(n, minus, wires);
    SegmentIsResult(wires, n);
  }

  lemma SegmentIsResult(wires: seq<bool>, n: nat)
    requires |wires| == Wires(n)
    ensures Sum([n], 1) == n && Segment(wires, [n], 0) == wires[Result(n, 0)..]
  {
    assert Sum([n], 0) == 0 && Sum([n], 1) == n;
  }

  /** The executor, from the input words to the output word, adds and subtracts modulo 2^n. */
  method Compute(n: nat, minus: bool, x: Block, y: Block) returns (r: nat)
    requires |x| == |y| == n
    ensures r == (if minus then Value(x) - Value(y) else Value(x) + Value(y)) % M.Pow2(n)
  {
    var e := new PlainExecutor(AddCircuit(n, minus));
    var ok := e.SetupInputs([x, y]);
    RippleOrdered(n, n, minus);
    RunsAll(n, minus);
    ghost var before := e.wires;
    ok := e.Exec();
    Finished(n, minus, before, e.wires, x, y);
    SegmentIsResult(e.wires, n);
    var outputs := new nat[1];
    ok := e.Finalize(n, outputs);
    r := outputs[0];
  }
}

/**
 The two-party private set union protocol: one run of sender and receiver, message by message.
 The sender holds `A`, the receiver holds `B` and learns the union. Hashes, the oblivious
 pseudo-random function, the parties' random draws and the oblivious-transfer keys are parameters.
 */
module Psu {
  import opened Wrappers
  import opened Gf64
  import opened Poly
  import opened MachineWords
  import opened ModArith

  /** A set element: the numeric value of its 128-bit hash. */
  type Elem = nat

  const BOT: Elem := 0

  /**
   What a run is given from outside. `hash` maps an element to a 64-bit word and `index` reads
   such a word as an integer; `oprf(q, x)` is the value both parties obtain for input `x` of instance
   `q`; `seed(q)` and `pad(q, i)` are the receiver's random words; `key0(q)` is the first
   of the two keys of oblivious transfer `q`, which the receiver holds when its choice bit is clear.
   `numBins` sizes the hash table for a given set size and `binSize` is the number of slots of a bin
   (the code's `kBinSize`, 64).
   */
  datatype Setup<!F> = Setup(
    g: Field<F>, hash: Elem -> F, index: F -> nat, oprf: (nat, F) -> F, seed: nat -> F,
    pad: (nat, nat) -> F, key0: nat -> Elem, numBins: nat -> nat, binSize: nat)

  ghost predicate Valid<F(!new)>(s: Setup<F>) {
    && IsField(s.g)
    && s.binSize > 0
    && forall c :: c > 0 ==> s.numBins(c) > 0
  }

  /** The position of slot `i` of bin `k` among all slots. */
  function Position<F>(s: Setup<F>, k: nat, i: nat): nat {
    k * s.binSize + i
  }

  /** The slots of `n` bins have the positions below `n binSize`, each its own. */
  lemma PositionsDiffer<F>(s: Setup<F>, n: nat, k: nat, i: nat, k': nat, i': nat)
    requires k < n && k' < n && i < s.binSize && i' < s.binSize
    ensures Position(s, k, i) < n * s.binSize
    ensures Position(s, k, i) == Position(s, k', i') <==> k == k' && i == i'
  {
    MulMono(k + 1, n, s.binSize);
    MulSucc(k, s.binSize);
    QuotientUnique(Position(s, k, i), k, i, s.binSize);
    QuotientUnique(Position(s, k', i'), k', i', s.binSize);
  }

  // ----- Hashing into bins

  function BinOf<F>(s: Setup<F>, n: nat, e: Elem): (k: nat)
    requires n > 0
    ensures k < n
  {
    s.index(s.hash(e)) % n
  }

  /** The elements of `es` that fall into bin `k` of `n`, in order. */
  function Bin<F>(s: Setup<F>, n: nat, es: seq<Elem>, k: nat): (r: seq<Elem>)
    requires n > 0
    ensures forall e :: e in r <==> e in es && BinOf(s, n, e) == k
  {
    if es == [] then []
    else
      var init, last := es[..|es| - 1], es[|es| - 1];
      assert es == init + [last];
      Bin(s, n, init, k) + if BinOf(s, n, last) == k then [last] else []
  }

  /** The places of `es` whose elements hash to `k`. */
  ghost function PlacesOf<F>(s: Setup<F>, n: nat, es: seq<Elem>, k: nat): set<int>
    requires n > 0
  {
    set i | 0 <= i < |es| && s.index(s.hash(es[i])) % n == k
  }

  /** How many elements of `es` hash to `k`. */
  ghost function Load<F>(s: Setup<F>, n: nat, es: seq<Elem>, k: nat): nat
    requires n > 0
  {
    |PlacesOf(s, n, es, k)|
  }

  /** `bin` holds the elements at the places `ps` of `es`, which are those that hash to `k`, in order. */
  ghost predicate Picks<F>(s: Setup<F>, n: nat, es: seq<Elem>, k: nat, bin: seq<Elem>, ps: seq<int>)
    requires n > 0
  {
    && |bin| == |ps|
    && (forall t :: 0 <= t < |ps| ==> ps[t] in PlacesOf(s, n, es, k) && bin[t] == es[ps[t]])
    && (forall t, u :: 0 <= t < u < |ps| ==> ps[t] < ps[u])
    && (forall i :: i in PlacesOf(s, n, es, k) ==> i in ps)
  }

  ghost predicate IsBin<F>(s: Setup<F>, n: nat, es: seq<Elem>, k: nat, bin: seq<Elem>)
    requires n > 0
  {
    exists ps :: Picks(s, n, es, k, bin, ps)
  }

  lemma PlacesStep<F>(s: Setup<F>, n: nat, es: seq<Elem>, k: nat)
    requires n > 0 && es != []
    ensures var m := |es| - 1;
            PlacesOf(s, n, es, k) == PlacesOf(s, n, es[..m], k) +
            if s.index(s.hash(es[m])) % n == k then {m} else {}
  {
  }

  /** A bin keeps every occurrence of its elements, once, and their order. */
  lemma {:induction false} BinPicks<F>(s: Setup<F>, n: nat, es: seq<Elem>, k: nat) returns (ps: seq<int>)
    requires n > 0
    ensures Picks(s, n, es, k, Bin(s, n, es, k), ps)
  {
    ps := [];
    if es != [] {
      var m := |es| - 1;
      ps := BinPicks(s, n, es[..m], k);
      PlacesStep(s, n, es, k);
      if BinOf(s, n, es[m]) == k {
        ps := ps + [m];
      }
    }
  }

  lemma {:induction false} BinSize<F>(s: Setup<F>, n: nat, es: seq<Elem>, k: nat)
    requires n > 0
    ensures |Bin(s, n, es, k)| == Load(s, n, es, k)
  {
    if es == [] {
      assert PlacesOf(s, n, es, k) == {};
    } else {
      BinSize(s, n, es[..|es| - 1], k);
      PlacesStep(s, n, es, k);
    }
  }

  lemma {:induction false} BinCounts<F>(s: Setup<F>, n: nat, es: seq<Elem>, k: nat, e: Elem)
    requires n > 0
    ensures multiset(Bin(s, n, es, k))[e] == if s.index(s.hash(e)) % n == k then multiset(es)[e] else 0
  {
    if es != [] {
      var init, last := es[..|es| - 1], es[|es| - 1];
      assert es == init + [last];
      BinCounts(s, n, init, k, e);
    }
  }

  lemma BinStep<F>(s: Setup<F>, n: nat, init: seq<Elem>, last: Elem, k: nat)
    requires n > 0
    ensures Bin(s, n, init + [last], k) == Bin(s, n, init, k) + if BinOf(s, n, last) == k then [last] else []
  {
    assert (init + [last])[..|init|] == init;
  }

  /** The sizes of the bins together. */
  function Total(bins: seq<seq<Elem>>): nat {
    if bins == [] then 0 else Total(bins[..|bins| - 1]) + |bins[|bins| - 1]|
  }

  lemma {:induction false} TotalGrows(bins: seq<seq<Elem>>, h: nat, e: Elem)
    requires h < |bins|
    ensures Total(bins[h := bins[h] + [e]]) == Total(bins) + 1
  {
    var m, bins' := |bins| - 1, bins[h := bins[h] + [e]];
    if h < m {
      TotalGrows(bins[..m], h, e);
      assert bins'[..m] == bins[..m][h := bins[..m][h] + [e]];
    } else {
      assert bins'[..m] == bins[..m];
    }
  }

  lemma {:induction false} NoTotal(bins: seq<seq<Elem>>)
    requires forall k :: 0 <= k < |bins| ==> bins[k] == []
    ensures Total(bins) == 0
  {
    if bins != [] {
      NoTotal(bins[..|bins| - 1]);
    }
  }

  /** The bins of all elements of `es`. */
  ghost predicate AreBins<F>(s: Setup<F>, n: nat, es: seq<Elem>, bins: seq<seq<Elem>>)
    requires n > 0
  {
    && |bins| == n && Total(bins) == |es|
    && forall k :: 0 <= k < n ==> bins[k] == Bin(s, n, es, k)
  }

  lemma NextElement<F>(s: Setup<F>, n: nat, es: seq<Elem>, e: Elem, bins: seq<seq<Elem>>, h: nat)
    requires n > 0 && AreBins(s, n, es, bins) && h == BinOf(s, n, e)
    ensures AreBins(s, n, es + [e], bins[h := bins[h] + [e]])
  {
    TotalGrows(bins, h, e);
    var bins' := bins[h := bins[h] + [e]];
    forall k | 0 <= k < n ensures bins'[k] == Bin(s, n, es + [e], k) {
      BinStep(s, n, es, e, k);
    }
  }

  method HashInputs<F>(s: Setup<F>, n: nat, es: seq<Elem>) returns (bins: seq<seq<Elem>>)
    requires n > 0
    ensures AreBins(s, n, es, bins) && forall k :: 0 <= k < n ==> IsBin(s, n, es, k, bins[k])
  {
    bins := seq(n, _ => []);
    NoTotal(bins);
    for i := 0 to |es|
      invariant AreBins(s, n, es[..i], bins)
    {
      assert es[..i + 1] == es[..i] + [es[i]];
      var h := BinOf(s, n, es[i]);
      NextElement(s, n, es[..i], es[i], bins, h);
      bins := bins[h := bins[h] + [es[i]]];
    }
    assert es[..|es|] == es;
    forall k | 0 <= k < n ensures IsBin(s, n, es, k, bins[k]) {
      var ps := BinPicks(s, n, es, k);
    }
  }

  /** A bin resized to `m` slots: cut off, or filled up with the empty element. */
  function Resize(bin: seq<Elem>, m: nat): (r: seq<Elem>)
    ensures |r| == m
  {
    if |bin| >= m then bin[..m] else bin + seq(m - |bin|, _ => BOT)
  }

  function Insert(e: Elem, s: seq<Elem>): (r: seq<Elem>)
    ensures multiset(r) == multiset(s) + multiset{e}
  {
    if s == [] || e <= s[0] then [e] + s
    else
      assert s == [s[0]] + s[1..];
      [s[0]] + Insert(e, s[1..])
  }

  function Sort(s: seq<Elem>): (r: seq<Elem>)
    ensures multiset(r) == multiset(s)
    ensures |r| == |s|
  {
    if s == [] then []
    else
      assert s == [s[0]] + s[1..];
      var r := Insert(s[0], Sort(s[1..]));
      SameSize(r, s);
      r
  }

  predicate Ascending(s: seq<Elem>) {
    |s| < 2 || (s[0] <= s[1] && Ascending(s[1..]))
  }

  lemma {:induction false} InsertAscends(e: Elem, s: seq<Elem>)
    requires Ascending(s)
    ensures var r := Insert(e, s);
            Ascending(r) && r != [] && (r[0] == e || (s != [] && s[0] < e && r[0] == s[0]))
  {
    if s == [] || e <= s[0] {
      assert ([e] + s)[1..] == s;
    } else {
      InsertAscends(e, s[1..]);
      assert Insert(e, s)[1..] == Insert(e, s[1..]);
    }
  }

  /** Sorting a bin leaves its elements in ascending order; by `Sort`'s contract they are the same elements. */
  lemma {:induction false} SortAscends(s: seq<Elem>)
    ensures Ascending(Sort(s))
  {
    if s != [] {
      SortAscends(s[1..]);
      InsertAscends(s[0], Sort(s[1..]));
    }
  }

  lemma SameSize<T>(a: seq<T>, b: seq<T>)
    requires multiset(a) == multiset(b)
    ensures |a| == |b|
    ensures forall x :: x in a <==> x in b
  {
    assert |multiset(a)| == |a| && |multiset(b)| == |b|;
    assert forall x :: x in a <==> x in multiset(a);
    assert forall x :: x in b <==> x in multiset(b);
  }

  /** The elements the sender uses in the slots of bin `k`. */
  function Slots<F>(s: Setup<F>, n: nat, a: seq<Elem>, k: nat): (r: seq<Elem>)
    requires n > 0
    ensures |r| == s.binSize
  {
    Sort(Resize(Bin(s, n, a, k), s.binSize))
  }

  // ----- One slot: the receiver's polynomial and the sender's reply

  function Node<F>(s: Setup<F>, bin: seq<Elem>, q: nat, i: nat): F {
    if i < |bin| then s.hash(bin[i]) else if i > |bin| then s.pad(q, i) else s.g.zero
  }

  /** The receiver's interpolation nodes for position `q`, whose bin holds `bin`. */
  function Nodes<F>(s: Setup<F>, bin: seq<Elem>, q: nat): (xs: seq<F>)
    ensures |xs| == s.binSize
  {
    seq(s.binSize, i => if i < 0 then s.g.zero else Node(s, bin, q, i))
  }

  function Values<F>(s: Setup<F>, xs: seq<F>, q: nat): (ys: seq<F>)
    ensures |ys| == |xs|
  {
    seq(|xs|, i requires 0 <= i < |xs| => s.g.add(s.oprf(q, xs[i]), s.seed(q)))
  }

  ghost function Offered<F>(s: Setup<F>, bin: seq<Elem>, q: nat): (c: seq<F>)
    ensures |c| == s.binSize
  {
    var xs := Nodes(s, bin, q);
    Lagrange(s.g, xs, Values(s, xs, q), |xs|)
  }

  method Offer<F(!new)>(s: Setup<F>, bin: seq<Elem>, q: nat) returns (coeffs: seq<F>)
    requires Valid(s)
    ensures coeffs == Offered(s, bin, q)
  {
    var xs, ys := [], [];
    for i := 0 to s.binSize
      invariant xs == Nodes(s, bin, q)[..i]
      invariant ys == Values(s, xs, q)
    {
      var x := if i < |bin| then s.hash(bin[i]) else if i > |bin| then s.pad(q, i) else s.g.zero;
      var y := s.g.add(s.oprf(q, x), s.seed(q));
      assert Values(s, xs + [x], q) == Values(s, xs, q) + [y];
      xs, ys := xs + [x], ys + [y];
    }
    assert xs == Nodes(s, bin, q);
    var r := Interpolate(s.g, xs, ys);
    coeffs := r.value;
  }

  method Reply<F(!new)>(s: Setup<F>, coeffs: seq<F>, e: Elem, q: nat) returns (y: F)
    requires Valid(s)
    requires coeffs != []
    ensures y == s.g.add(Eval(s.g, coeffs, s.hash(e)), s.oprf(q, s.hash(e)))
  {
    var v := Evaluate(s.g, coeffs, s.hash(e));
    y := s.g.add(v, s.oprf(q, s.hash(e)));
  }

  /** The receiver takes element `e` at position `q` for one of its own. */
  ghost predicate Matches<F>(s: Setup<F>, bin: seq<Elem>, e: Elem, q: nat) {
    s.g.add(Eval(s.g, Offered(s, bin, q), s.hash(e)), s.oprf(q, s.hash(e))) == s.seed(q)
  }

  method Round<F(!new, ==)>(s: Setup<F>, bin: seq<Elem>, e: Elem, q: nat) returns (choice: bool)
    requires Valid(s)
    ensures choice == Matches(s, bin, e, q)
  {
    var coeffs := Offer(s, bin, q);
    var y := Reply(s, coeffs, e, q);
    choice := y == s.seed(q);
  }

  /** With distinct nodes, every element whose hash is one of them matches. */
  lemma NodeMatches<F(!new)>(s: Setup<F>, bin: seq<Elem>, e: Elem, i: nat, q: nat)
    requires IsField(s.g)
    requires i < s.binSize && Nodes(s, bin, q)[i] == s.hash(e)
    requires Distinct(Nodes(s, bin, q))
    ensures Matches(s, bin, e, q)
  {
    var xs := Nodes(s, bin, q);
    LagrangeAtNode(s.g, xs, Values(s, xs, q), |xs|, i);
    var f := s.oprf(q, xs[i]);
    assert AddLaws(s.g, f, s.seed(q));
    AddCancels(s.g, s.seed(q), f);
  }

  /** `p` takes the value that the receiver offers at `x`. */
  ghost predicate Through<F>(s: Setup<F>, p: seq<F>, q: nat, x: F) {
    Eval(s.g, p, x) == s.g.add(s.oprf(q, x), s.seed(q))
  }

  /** `p` has `binSize` coefficients and takes the offered values at all nodes. */
  ghost predicate ThroughNodes<F>(s: Setup<F>, bin: seq<Elem>, q: nat, p: seq<F>) {
    |p| == s.binSize && forall i :: 0 <= i < s.binSize ==> Through(s, p, q, Nodes(s, bin, q)[i])
  }

  lemma OfferedThroughNodes<F(!new)>(s: Setup<F>, bin: seq<Elem>, q: nat)
    requires IsField(s.g) && Distinct(Nodes(s, bin, q))
    ensures ThroughNodes(s, bin, q, Offered(s, bin, q))
  {
    var xs := Nodes(s, bin, q);
    forall i | 0 <= i < s.binSize ensures Through(s, Offered(s, bin, q), q, xs[i]) {
      LagrangeAtNode(s.g, xs, Values(s, xs, q), |xs|, i);
    }
  }

  lemma OnlyOffered<F(!new)>(s: Setup<F>, bin: seq<Elem>, q: nat, p: seq<F>)
    requires IsField(s.g) && Distinct(Nodes(s, bin, q)) && ThroughNodes(s, bin, q, p)
    ensures p == Offered(s, bin, q)
  {
    var xs := Nodes(s, bin, q);
    OfferedThroughNodes(s, bin, q);
    forall i | 0 <= i < |xs| ensures Eval(s.g, p, xs[i]) == Eval(s.g, Offered(s, bin, q), xs[i]) {
      assert Through(s, p, q, xs[i]) && Through(s, Offered(s, bin, q), q, xs[i]);
    }
    Determined(s.g, p, Offered(s, bin, q), xs);
  }

  lemma MatchIsThrough<F(!new)>(s: Setup<F>, bin: seq<Elem>, e: Elem, q: nat)
    requires IsField(s.g)
    ensures Matches(s, bin, e, q) <==> Through(s, Offered(s, bin, q), q, s.hash(e))
  {
    var v, f := Eval(s.g, Offered(s, bin, q), s.hash(e)), s.oprf(q, s.hash(e));
    AddCancels(s.g, v, f);
    AddCancels(s.g, s.seed(q), f);
    assert AddLaws(s.g, f, s.seed(q));
  }

  /**
   With distinct nodes an element matches exactly when the offered values at the nodes and at the hash of the
   element lie on one polynomial of `binSize` coefficients.
   */
  lemma MatchesIff<F(!new)>(s: Setup<F>, bin: seq<Elem>, e: Elem, q: nat)
    requires IsField(s.g) && Distinct(Nodes(s, bin, q))
    ensures Matches(s, bin, e, q) <==> exists p :: ThroughNodes(s, bin, q, p) && Through(s, p, q, s.hash(e))
  {
    OfferedThroughNodes(s, bin, q);
    MatchIsThrough(s, bin, e, q);
    if p :| ThroughNodes(s, bin, q, p) && Through(s, p, q, s.hash(e)) {
      OnlyOffered(s, bin, q, p);
    }
  }

  /** So an element of the receiver's bin always does. */
  lemma OwnElementMatches<F(!new)>(s: Setup<F>, bin: seq<Elem>, i: nat, q: nat)
    requires IsField(s.g)
    requires i < |bin| && i < s.binSize
    requires Distinct(Nodes(s, bin, q))
    ensures Matches(s, bin, bin[i], q)
  {
    NodeMatches(s, bin, bin[i], i, q);
  }

  // ----- The run

  /** Slot `i` of bin `k` matches. */
  ghost predicate SlotMatches<F>(s: Setup<F>, n: nat, a: seq<Elem>, b: seq<Elem>, k: nat, i: nat)
    requires k < n && i < s.binSize
  {
    Matches(s, Bin(s, n, b, k), Slots(s, n, a, k)[i], Position(s, k, i))
  }

  /** What the run leaves at one position: the sender's element and the receiver's choice bit. */
  datatype Slot = Slot(elem: Elem, choice: bool)

  ghost function SlotAt<F>(s: Setup<F>, n: nat, a: seq<Elem>, b: seq<Elem>, k: nat, i: nat): Slot
    requires k < n && i < s.binSize
  {
    Slot(Slots(s, n, a, k)[i], SlotMatches(s, n, a, b, k, i))
  }

  /** What the run leaves for bin `k`. */
  ghost function Row<F>(s: Setup<F>, n: nat, a: seq<Elem>, b: seq<Elem>, k: nat): (row: seq<Slot>)
    requires k < n
    ensures |row| == s.binSize
  {
    seq(s.binSize, i requires 0 <= i < s.binSize => SlotAt(s, n, a, b, k, i))
  }

  /** Step 3 for one bin: the sender's slots `mine` against the receiver's bin `theirs`. */
  method ExchangeBin<F(!new, ==)>(s: Setup<F>, k: nat, mine: seq<Elem>, theirs: seq<Elem>)
    returns (row: seq<Slot>)
    requires Valid(s)
    ensures |row| == |mine|
    ensures forall i :: 0 <= i < |mine| ==> row[i] == Slot(mine[i], Matches(s, theirs, mine[i], Position(s, k, i)))
  {
    row := [];
    for i := 0 to |mine|
      invariant |row| == i
      invariant forall j :: 0 <= j < i ==> row[j] == Slot(mine[j], Matches(s, theirs, mine[j], Position(s, k, j)))
    {
      var c := Round(s, theirs, mine[i], Position(s, k, i));
      row := row + [Slot(mine[i], c)];
    }
  }

  /** Steps 2 and 3 for bin `k`: the sender pads and sorts its bin, then both go through the slots. */
  method ExchangeRow<F(!new, ==)>(s: Setup<F>, n: nat, ghost a: seq<Elem>, ghost b: seq<Elem>, k: nat,
                                  binA: seq<Elem>, binB: seq<Elem>)
    returns (row: seq<Slot>)
    requires Valid(s) && k < n && binA == Bin(s, n, a, k) && binB == Bin(s, n, b, k)
    ensures row == Row(s, n, a, b, k)
  {
    var mine := Sort(Resize(binA, s.binSize));
    row := ExchangeBin(s, k, mine, binB);
  }

  /** The rows are those of the first bins of a run with `n` bins. */
  ghost predicate IsPart<F>(s: Setup<F>, n: nat, a: seq<Elem>, b: seq<Elem>, rows: seq<seq<Slot>>) {
    |rows| <= n && forall k :: 0 <= k < |rows| ==> rows[k] == Row(s, n, a, b, k)
  }

  lemma AddRow<F>(s: Setup<F>, n: nat, a: seq<Elem>, b: seq<Elem>, rows: seq<seq<Slot>>, row: seq<Slot>)
    requires IsPart(s, n, a, b, rows) && |rows| < n && row == Row(s, n, a, b, |rows|)
    ensures IsPart(s, n, a, b, rows + [row])
  {
  }

  /** Steps 1 to 3: both parties hash their inputs and go through all bins. */
  method Exchange<F(!new, ==)>(s: Setup<F>, n: nat, a: seq<Elem>, b: seq<Elem>) returns (rows: seq<seq<Slot>>)
    requires Valid(s) && n > 0
    ensures |rows| == n && IsPart(s, n, a, b, rows)
  {
    var binsA := HashInputs(s, n, a);
    var binsB := HashInputs(s, n, b);
    rows := [];
    for k := 0 to n
      invariant |rows| == k && IsPart(s, n, a, b, rows)
    {
      var row := ExchangeRow(s, n, a, b, k, binsA[k], binsB[k]);
      AddRow(s, n, a, b, rows, row);
      rows := rows + [row];
    }
  }

  /** Step 4, sender: every element of a bin masked with the first key of its transfer. */
  method Encrypt<F>(s: Setup<F>, k: nat, row: seq<Slot>) returns (ciphers: seq<Elem>)
    ensures |ciphers| == |row|
    ensures forall i :: 0 <= i < |row| ==> ciphers[i] == Xor(row[i].elem, s.key0(Position(s, k, i)))
  {
    ciphers := [];
    for i := 0 to |row|
      invariant |ciphers| == i
      invariant forall j :: 0 <= j < i ==> ciphers[j] == Xor(row[j].elem, s.key0(Position(s, k, j)))
    {
      ciphers := ciphers + [Xor(row[i].elem, s.key0(Position(s, k, i)))];
    }
  }

  /** Step 4, receiver, for one bin: unmask the transfers whose choice bit is clear. */
  method Collect<F>(s: Setup<F>, k: nat, ciphers: seq<Elem>, row: seq<Slot>) returns (found: set<Elem>)
    requires |ciphers| == |row|
    requires forall i :: 0 <= i < |row| ==> ciphers[i] == Xor(row[i].elem, s.key0(Position(s, k, i)))
    ensures forall e :: e in found <==> e != BOT && Slot(e, false) in row
  {
    found := {};
    for i := 0 to |row|
      invariant forall e :: e in found <==> e != BOT && Slot(e, false) in row[..i]
    {
      var e := Xor(ciphers[i], s.key0(Position(s, k, i)));
      XorCancels(row[i].elem, s.key0(Position(s, k, i)));
      assert row[..i + 1] == row[..i] + [row[i]];
      if !row[i].choice && e != BOT {
        found := found + {e};
      }
    }
    assert row[..|row|] == row;
  }

  /** Element `e` of the sender arrives through one of the first `m` bins. */
  ghost predicate ArrivesWithin(rows: seq<seq<Slot>>, e: Elem, m: nat)
    requires m <= |rows|
  {
    e != BOT && exists k :: 0 <= k < m && Slot(e, false) in rows[k]
  }

  ghost predicate Arrives(rows: seq<seq<Slot>>, e: Elem) {
    ArrivesWithin(rows, e, |rows|)
  }

  /** Step 4: the transfers of all bins, on top of the receiver's own elements. */
  method Transfer<F>(s: Setup<F>, b: seq<Elem>, rows: seq<seq<Slot>>) returns (union: set<Elem>)
    ensures forall e :: e in union <==> e in b || Arrives(rows, e)
  {
    union := set e | e in b;
    for k := 0 to |rows|
      invariant forall e :: e in union <==> e in b || ArrivesWithin(rows, e, k)
    {
      var ciphers := Encrypt(s, k, rows[k]);
      var found := Collect(s, k, ciphers, rows[k]);
      union := union + found;
    }
  }

  function Max(x: nat, y: nat): (m: nat)
    ensures m >= x && m >= y && (m == x || m == y)
  {
    if x < y then y else x
  }

  /** What a run with `n` bins yields: the receiver's set and what the transfers deliver. */
  ghost predicate IsResult<F>(s: Setup<F>, n: nat, a: seq<Elem>, b: seq<Elem>, rows: seq<seq<Slot>>, union: set<Elem>) {
    && |rows| == n
    && IsPart(s, n, a, b, rows)
    && forall e :: e in union <==> e in b || Arrives(rows, e)
  }

  /** The whole run; with two empty sets nothing is exchanged. */
  method Run<F(!new, ==)>(s: Setup<F>, a: seq<Elem>, b: seq<Elem>)
    returns (union: set<Elem>, ghost rows: seq<seq<Slot>>)
    requires Valid(s)
    ensures a == b == [] ==> union == {}
    ensures a + b != [] ==> s.numBins(Max(|a|, |b|)) > 0 && IsResult(s, s.numBins(Max(|a|, |b|)), a, b, rows, union)
  {
    var count := Max(|a|, |b|);
    if count == 0 {
      return {}, [];
    }
    var table := Exchange(s, s.numBins(count), a, b);
    union := Transfer(s, b, table);
    rows := table;
  }

  // ----- What the result contains

  /** A slot holds the empty element or an element of the sender's bin. */
  lemma SlotOrigin<F>(s: Setup<F>, n: nat, a: seq<Elem>, k: nat, e: Elem)
    requires k < n && e in Slots(s, n, a, k) && e != BOT
    ensures e in a && BinOf(s, n, e) == k
  {
    var bin := Bin(s, n, a, k);
    SameSize(Slots(s, n, a, k), Resize(bin, s.binSize));
    assert e in Resize(bin, s.binSize);
    assert forall e :: e in Resize(bin, s.binSize) ==> e in bin || e == BOT;
  }

  ghost function Elements(es: seq<Elem>): (r: set<Elem>)
    ensures forall e :: e in r <==> e in es
  {
    set e | e in es
  }

  lemma ArrivalOrigin<F>(s: Setup<F>, n: nat, a: seq<Elem>, b: seq<Elem>, rows: seq<seq<Slot>>, k: nat, e: Elem)
    requires k < |rows| && IsPart(s, n, a, b, rows) && Slot(e, false) in rows[k] && e != BOT
    ensures e in a && BinOf(s, n, e) == k
  {
    var i :| 0 <= i < |rows[k]| && rows[k][i] == Slot(e, false);
    assert rows[k][i] == SlotAt(s, n, a, b, k, i);
    SlotOrigin(s, n, a, k, e);
  }

  /** The result never misses an element of the receiver and never invents one. */
  lemma ResultBetween<F>(s: Setup<F>, n: nat, a: seq<Elem>, b: seq<Elem>, rows: seq<seq<Slot>>, union: set<Elem>)
    requires IsResult(s, n, a, b, rows, union)
    ensures Elements(b) <= union <= Elements(a) + Elements(b)
  {
    forall e | e in union && e !in b ensures e in a {
      var k :| 0 <= k < n && Slot(e, false) in rows[k];
      ArrivalOrigin(s, n, a, b, rows, k, e);
    }
  }

  /** Element `e` has a slot in bin `k` whose reply differs from the seed. */
  ghost predicate Unmatched<F>(s: Setup<F>, n: nat, a: seq<Elem>, b: seq<Elem>, k: nat, e: Elem)
    requires k < n
  {
    exists i :: 0 <= i < s.binSize && SlotAt(s, n, a, b, k, i) == Slot(e, false)
  }

  ghost predicate Delivered<F>(s: Setup<F>, n: nat, a: seq<Elem>, b: seq<Elem>, e: Elem)
    requires n > 0
  {
    e != BOT && Unmatched(s, n, a, b, BinOf(s, n, e), e)
  }

  lemma UnmatchedIff<F>(s: Setup<F>, n: nat, a: seq<Elem>, b: seq<Elem>, k: nat, e: Elem)
    requires k < n
    ensures Slot(e, false) in Row(s, n, a, b, k) <==> Unmatched(s, n, a, b, k, e)
  {
    var row := Row(s, n, a, b, k);
    if i :| 0 <= i < |row| && row[i] == Slot(e, false) {
      assert SlotAt(s, n, a, b, k, i) == Slot(e, false);
    }
    if i :| 0 <= i < s.binSize && SlotAt(s, n, a, b, k, i) == Slot(e, false) {
      assert row[i] == Slot(e, false);
    }
  }

  lemma ArrivesIff<F>(s: Setup<F>, n: nat, a: seq<Elem>, b: seq<Elem>, rows: seq<seq<Slot>>, e: Elem)
    requires |rows| == n > 0 && IsPart(s, n, a, b, rows)
    ensures Arrives(rows, e) <==> Delivered(s, n, a, b, e)
  {
    if Arrives(rows, e) {
      var k :| 0 <= k < n && Slot(e, false) in rows[k];
      ArrivalOrigin(s, n, a, b, rows, k, e);
    }
    var k := BinOf(s, n, e);
    UnmatchedIff(s, n, a, b, k, e);
  }

  /**
   The result is the union exactly when each element that only the sender has is not the empty
   element and is held by some slot whose reply does not happen to equal the seed.
   */
  lemma ResultIsUnionIff<F>(s: Setup<F>, n: nat, a: seq<Elem>, b: seq<Elem>, rows: seq<seq<Slot>>, union: set<Elem>)
    requires n > 0 && IsResult(s, n, a, b, rows, union)
    ensures union == Elements(a) + Elements(b) <==> forall e :: e in a && e !in b ==> Delivered(s, n, a, b, e)
  {
    ResultBetween(s, n, a, b, rows, union);
    if e :| e in a && e !in b && !Delivered(s, n, a, b, e) {
      ArrivesIff(s, n, a, b, rows, e);
      assert e in Elements(a) && e !in union;
    } else {
      forall e | e in Elements(a) + Elements(b) ensures e in union {
        if e !in b {
          ArrivesIff(s, n, a, b, rows, e);
        }
      }
    }
  }

  /** An element only the sender has has no slot at which the receiver would take it for its own. */
  ghost predicate NoAccident<F>(s: Setup<F>, n: nat, a: seq<Elem>, b: seq<Elem>, e: Elem)
    requires n > 0
  {
    var k := BinOf(s, n, e);
    forall i :: 0 <= i < s.binSize && Slots(s, n, a, k)[i] == e ==> !SlotMatches(s, n, a, b, k, i)
  }

  /** Input `i` of the sender is `e` and fewer than `m` inputs before it share its bin. */
  ghost predicate EarlyEnough<F>(s: Setup<F>, n: nat, a: seq<Elem>, e: Elem, m: nat, i: int)
    requires n > 0
  {
    0 <= i < |a| && a[i] == e && Load(s, n, a[..i], s.index(s.hash(e)) % n) < m
  }

  /** The first `m` elements of a bin are those that come early enough. */
  lemma {:induction false} FirstOfBin<F>(s: Setup<F>, n: nat, a: seq<Elem>, e: Elem, m: nat)
    requires n > 0
    ensures var bin := Bin(s, n, a, BinOf(s, n, e));
            (exists t :: 0 <= t < |bin| && t < m && bin[t] == e) <==> exists i :: EarlyEnough(s, n, a, e, m, i)
  {
    if a != [] {
      var init, last, k := a[..|a| - 1], a[|a| - 1], BinOf(s, n, e);
      assert a == init + [last];
      BinStep(s, n, init, last, k);
      FirstOfBin(s, n, init, e, m);
      BinSize(s, n, init, k);
      forall i | 0 <= i < |init| ensures EarlyEnough(s, n, init, e, m, i) <==> EarlyEnough(s, n, a, e, m, i) {
        assert init[..i] == a[..i];
      }
      var bin, bin' := Bin(s, n, init, k), Bin(s, n, a, k);
      assert forall t :: 0 <= t < |bin| ==> bin'[t] == bin[t];
      if last == e {
        assert bin'[|bin|] == e;
        assert EarlyEnough(s, n, a, e, m, |init|) <==> |bin| < m;
      }
    }
  }

  /** An element has a slot exactly when fewer than `binSize` inputs before one of its occurrences share its bin. */
  lemma HasSlotIff<F>(s: Setup<F>, n: nat, a: seq<Elem>, e: Elem)
    requires n > 0 && e != BOT
    ensures e in Slots(s, n, a, BinOf(s, n, e)) <==> exists i :: EarlyEnough(s, n, a, e, s.binSize, i)
  {
    var bin := Bin(s, n, a, BinOf(s, n, e));
    var r := Resize(bin, s.binSize);
    FirstOfBin(s, n, a, e, s.binSize);
    SameSize(Slots(s, n, a, BinOf(s, n, e)), r);
    assert forall t :: 0 <= t < |bin| && t < s.binSize ==> r[t] == bin[t];
    assert forall t :: |bin| <= t < |r| ==> r[t] == BOT;
  }

  /** So an element that comes too late to an overfull bin is lost unless the receiver has it. */
  lemma OverflowIsLost<F>(s: Setup<F>, n: nat, a: seq<Elem>, b: seq<Elem>, rows: seq<seq<Slot>>, union: set<Elem>,
                          e: Elem)
    requires n > 0 && IsResult(s, n, a, b, rows, union) && e !in b
    requires forall i :: 0 <= i < |a| && a[i] == e ==> Load(s, n, a[..i], s.index(s.hash(e)) % n) >= s.binSize
    ensures e !in union
  {
    if e != BOT {
      HasSlotIff(s, n, a, e);
      if i :| 0 <= i < s.binSize && SlotAt(s, n, a, b, BinOf(s, n, e), i) == Slot(e, false) {
        assert Slots(s, n, a, BinOf(s, n, e))[i] == e;
      }
    }
    ArrivesIff(s, n, a, b, rows, e);
  }

  /** Every element of a bin that fits has a slot. */
  lemma FittingHasSlot<F>(s: Setup<F>, n: nat, a: seq<Elem>, k: nat, e: Elem)
    requires n > 0 && Load(s, n, a, k) <= s.binSize && e in Bin(s, n, a, k)
    ensures e in Slots(s, n, a, k)
  {
    var bin := Bin(s, n, a, k);
    BinSize(s, n, a, k);
    assert Resize(bin, s.binSize)[..|bin|] == bin;
    SameSize(Slots(s, n, a, k), Resize(bin, s.binSize));
  }

  lemma FittingIsDelivered<F>(s: Setup<F>, n: nat, a: seq<Elem>, b: seq<Elem>, e: Elem)
    requires n > 0 && e in a && e != BOT
    requires Load(s, n, a, BinOf(s, n, e)) <= s.binSize && NoAccident(s, n, a, b, e)
    ensures Delivered(s, n, a, b, e)
  {
    var k := BinOf(s, n, e);
    FittingHasSlot(s, n, a, k, e);
    var i :| 0 <= i < |Slots(s, n, a, k)| && Slots(s, n, a, k)[i] == e;
    assert SlotAt(s, n, a, b, k, i) == Slot(e, false);
  }

  /** No bin overflows, no empty element and no accident: the result is the union. */
  lemma ResultIsUnion<F>(s: Setup<F>, n: nat, a: seq<Elem>, b: seq<Elem>, rows: seq<seq<Slot>>, union: set<Elem>)
    requires n > 0 && IsResult(s, n, a, b, rows, union)
    requires BOT !in a
    requires forall k :: 0 <= k < n ==> Load(s, n, a, k) <= s.binSize
    requires forall e :: e in a && e !in b ==> NoAccident(s, n, a, b, e)
    ensures union == Elements(a) + Elements(b)
  {
    forall e | e in a && e !in b ensures Delivered(s, n, a, b, e) {
      FittingIsDelivered(s, n, a, b, e);
    }
    ResultIsUnionIff(s, n, a, b, rows, union);
  }

  /** A common element sets its choice bit when its bin's nodes are distinct. */
  lemma CommonElementMatches<F(!new)>(s: Setup<F>, n: nat, a: seq<Elem>, b: seq<Elem>, rows: seq<seq<Slot>>,
                                      k: nat, i: nat)
    requires IsField(s.g)
    requires |rows| == n && IsPart(s, n, a, b, rows)
    requires k < n && i < s.binSize
    requires rows[k][i].elem in b && rows[k][i].elem != BOT
    requires |Bin(s, n, b, k)| <= s.binSize
    requires Distinct(Nodes(s, Bin(s, n, b, k), Position(s, k, i)))
    ensures rows[k][i].choice
  {
    var e, bin := rows[k][i].elem, Bin(s, n, b, k);
    assert rows[k][i] == SlotAt(s, n, a, b, k, i);
    SlotOrigin(s, n, a, k, e);
    assert e in bin;
    var j :| 0 <= j < |bin| && bin[j] == e;
    OwnElementMatches(s, bin, j, Position(s, k, i));
  }

  /**
   The hash of `e` is a node of its bin in every slot: that of an element of the receiver that fits into the bin, or
   zero when the bin is not full.
   */
  ghost predicate HashedAway<F>(s: Setup<F>, n: nat, b: seq<Elem>, e: Elem)
    requires n > 0
  {
    var bin := Bin(s, n, b, BinOf(s, n, e));
    || (exists i :: 0 <= i < |bin| && i < s.binSize && s.hash(bin[i]) == s.hash(e))
    || (|bin| < s.binSize && s.hash(e) == s.g.zero)
  }

  lemma HashedAwayMatches<F(!new)>(s: Setup<F>, n: nat, a: seq<Elem>, b: seq<Elem>, e: Elem, i: nat)
    requires IsField(s.g) && n > 0 && i < s.binSize && HashedAway(s, n, b, e)
    requires Slots(s, n, a, BinOf(s, n, e))[i] == e
    requires Distinct(Nodes(s, Bin(s, n, b, BinOf(s, n, e)), Position(s, BinOf(s, n, e), i)))
    ensures SlotMatches(s, n, a, b, BinOf(s, n, e), i)
  {
    var k := BinOf(s, n, e);
    var bin, q := Bin(s, n, b, k), Position(s, k, i);
    if |bin| < s.binSize && s.hash(e) == s.g.zero {
      NodeMatches(s, bin, e, |bin|, q);
    } else {
      var j :| 0 <= j < |bin| && j < s.binSize && s.hash(bin[j]) == s.hash(e);
      NodeMatches(s, bin, e, j, q);
    }
  }

  /** Such an element is taken for one of the receiver's own and is missing from the result unless it is one. */
  lemma LostElement<F(!new)>(s: Setup<F>, n: nat, a: seq<Elem>, b: seq<Elem>, rows: seq<seq<Slot>>, union: set<Elem>,
                             e: Elem)
    requires IsField(s.g) && n > 0 && IsResult(s, n, a, b, rows, union)
    requires e !in b && HashedAway(s, n, b, e)
    requires forall i :: 0 <= i < s.binSize ==>
               Distinct(Nodes(s, Bin(s, n, b, BinOf(s, n, e)), Position(s, BinOf(s, n, e), i)))
    ensures e !in union
  {
    var k := BinOf(s, n, e);
    if i :| 0 <= i < s.binSize && SlotAt(s, n, a, b, k, i) == Slot(e, false) {
      HashedAwayMatches(s, n, a, b, e, i);
    }
    ArrivesIff(s, n, a, b, rows, e);
  }

  /**
   The smallest loss: one bin of one slot, an empty set at the receiver, and a single element at the sender whose
   hash is zero. The result is empty.
   */
  lemma LostUnion<F(!new)>(s: Setup<F>, e: Elem, rows: seq<seq<Slot>>, union: set<Elem>)
    requires IsField(s.g) && s.binSize == 1 && s.hash(e) == s.g.zero
    requires IsResult(s, 1, [e], [], rows, union)
    ensures union == {} && Elements([e]) + Elements([]) == {e}
  {
    assert Bin(s, 1, [], 0) == [];
    LostElement(s, 1, [e], [], rows, union, e);
    ResultBetween(s, 1, [e], [], rows, union);
  }
}

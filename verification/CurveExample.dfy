/**
 A curve with seven points over the field of five elements, `y^2 = x^3 + 2 x + 1`: it meets
 everything the decryption theorems assume of a curve, for the smallest tables.
 */
module CurveExample {
  import opened Wrappers
  import opened ModArith
  import opened Curve
  import opened ElGamal
  import opened MachineWords
  import D = Decrypt
  import T = CuckooT1
  import E = T1Exact

  function X(k: int): int {
    if k == 1 || k == 6 then 0 else if k == 2 || k == 5 then 1 else 3
  }

  function Y(k: int): int {
    if k == 1 then 1 else if k <= 3 then 3 else if k <= 5 then 2 else 4
  }

  const SMALL: Curve := Curve(7, 5, X, Y)

  /** The inverse of `d` modulo 5. */
  function Inverse(d: int): int {
    if d == 2 then 3 else if d == 3 then 2 else d
  }

  function Times(x: int, r: int): int {
    if r == 1 then x else if r == 2 then x + x else if r == 3 then x + x + x else x + x + x + x
  }

  /** A square modulo 5. */
  function Square(u: int): int {
    if u % 5 == 0 then 0 else if u % 5 == 1 || u % 5 == 4 then 1 else 4
  }

  /** The chord formula for the points `a` and `b`. */
  predicate ChordOk(a: nat, b: nat) {
    var r := Inverse((X(b) - X(a)) % 5);
    X(a) == X(b) || X((a + b) % 7) == (Square(Times(Y(b) - Y(a), r)) - (X(a) + X(b))) % 5
  }

  lemma ChordsFrom1(b: nat)
    requires 1 <= b <= 6
    ensures ChordOk(1, b)
  {
    if b == 1 {
    } else if b == 2 {
    } else if b == 3 {
    } else if b == 4 {
    } else if b == 5 {
    } else {
    }
  }

  lemma ChordsFrom2(b: nat)
    requires 1 <= b <= 6
    ensures ChordOk(2, b)
  {
    if b == 1 {
    } else if b == 2 {
    } else if b == 3 {
    } else if b == 4 {
    } else if b == 5 {
    } else {
    }
  }

  lemma ChordsFrom3(b: nat)
    requires 1 <= b <= 6
    ensures ChordOk(3, b)
  {
    if b == 1 {
    } else if b == 2 {
    } else if b == 3 {
    } else if b == 4 {
    } else if b == 5 {
    } else {
    }
  }

  lemma ChordsFrom4(b: nat)
    requires 1 <= b <= 6
    ensures ChordOk(4, b)
  {
    if b == 1 {
    } else if b == 2 {
    } else if b == 3 {
    } else if b == 4 {
    } else if b == 5 {
    } else {
    }
  }

  lemma ChordsFrom5(b: nat)
    requires 1 <= b <= 6
    ensures ChordOk(5, b)
  {
    if b == 1 {
    } else if b == 2 {
    } else if b == 3 {
    } else if b == 4 {
    } else if b == 5 {
    } else {
    }
  }

  lemma ChordsFrom6(b: nat)
    requires 1 <= b <= 6
    ensures ChordOk(6, b)
  {
    if b == 1 {
    } else if b == 2 {
    } else if b == 3 {
    } else if b == 4 {
    } else if b == 5 {
    } else {
    }
  }

  lemma ChordAt(a: nat, b: nat)
    requires 1 <= a <= 6 && 1 <= b <= 6
    ensures ChordOk(a, b)
  {
    if a == 1 {
      ChordsFrom1(b);
    } else if a == 2 {
      ChordsFrom2(b);
    } else if a == 3 {
      ChordsFrom3(b);
    } else if a == 4 {
      ChordsFrom4(b);
    } else if a == 5 {
      ChordsFrom5(b);
    } else {
      ChordsFrom6(b);
    }
  }

  lemma InverseUnique(dx: int, r: int)
    requires 0 <= r < 5 && (r * dx) % 5 == 1
    ensures r == Inverse(dx % 5)
  {
    ModIdem(dx, 5);
    CongMul(r, r, dx % 5, dx, 5);
    var d := dx % 5;
    assert (r * d) % 5 == 1;
  }

  lemma SquareMod(u: int)
    ensures Cong(u * u, Square(u), 5)
  {
    var r := u % 5;
    ModIdem(u, 5);
    CongMul(u, r, u, r, 5);
    assert r == 0 || r == 1 || r == 2 || r == 3 || r == 4;
  }

  lemma ChordReduces(dx: int, dy: int, s: int, x: int, inv: int)
    requires 0 <= x < 5 && (inv % 5 * dx) % 5 == 1
    requires inv % 5 == Inverse(dx % 5) && x == (Square(Times(dy, Inverse(dx % 5))) - s) % 5
    ensures Cong(x, dy * inv * (dy * inv) - s, 5)
  {
    var r := inv % 5;
    ModIdem(inv, 5);
    assert r != 0;
    assert Times(dy, r) == dy * r;
    CongScale(dy, r, inv, 5);
    CongMul(dy * r, dy * inv, dy * r, dy * inv, 5);
    SquareMod(dy * r);
    CongSub(dy * inv * (dy * inv), Square(dy * r), s, s, 5);
    ModIdem(Square(dy * r) - s, 5);
  }

  lemma SmallChord(a: int, b: int, inv: int)
    ensures Chord(SMALL, a, b, inv)
  {
    if IsPoint(SMALL, a) && IsPoint(SMALL, b) && Cong(inv * (X(b) - X(a)), 1, 5) {
      ChordAt(a, b);
      ModIdem(inv, 5);
      CongMul(inv % 5, inv, X(b) - X(a), X(b) - X(a), 5);
      InverseUnique(X(b) - X(a), inv % 5);
      ChordReduces(X(b) - X(a), Y(b) - Y(a), X(a) + X(b), X((a + b) % 7), inv);
    }
  }

  lemma SmallIsCurve()
    ensures IsCurve(SMALL)
  {
    forall a, b, inv ensures Chord(SMALL, a, b, inv) {
      SmallChord(a, b, inv);
    }
  }

  /** The baby-step table of the smallest sizes, exact at every coordinate. */
  const SMALL_TABLE: int -> Option<int> := x => if x == 0 then Some(1) else None

  /** The assumptions of decryption can be met, with true answers for every point. */
  lemma SmallSetting(a: int)
    requires 0 <= a < 7
    ensures D.Setting(SMALL, Config(0, 0), SMALL_TABLE)
    ensures D.FirstTrue(SMALL, Config(0, 0), SMALL_TABLE, a)
  {
    SmallIsCurve();
  }

  // ----- A false hit

  /** Bytes in which the coordinates 0 and 1 have the same keys, but are not the same. */
  function Bytes(x: int): (b: seq<T.Byte>)
    ensures T.LongEnough(b)
  {
    var key := if x == 0 || x == 1 then 1 else 2;
    seq(24, i => if i % 8 == 7 then key else if i == 8 && 0 <= x < 256 then x else 0)
  }

  lemma KeyOfBytes(x: int, id: nat)
    requires 1 <= id <= 3
    ensures T.Key(Bytes(x), id) == (if x == 0 || x == 1 then 1 else 2) && T.Slot(1, Bytes(x), id) == 0
  {
    T.SubBytesFour(Bytes(x), (id - 1) * 8 + 4);
  }

  lemma DifferentBytes()
    ensures Bytes(0) != Bytes(1)
  {
    assert Bytes(0)[8] != Bytes(1)[8];
  }

  /** A table of one slot, filled with a single baby step. */
  lemma OneSlot(b: seq<T.Byte>, maxiter: nat)
    requires T.LongEnough(b) && T.Key(b, 1) == 1 && T.Slot(1, b, 1) == 0 && maxiter > 0
    ensures T.FilledIs([b], 1, maxiter, 1, [1], [1], [1])
  {
    var start := T.Walk([0], [0], [0], 1, 1);
    assert seq(1, _ => 0) == [0];
    assert T.FilledIs([b], 1, maxiter, 0, [0], [0], [0]);
    T.FilledStep([b], 1, maxiter, 0, [0], [0], [0]);
    T.KickedStep([b], start, 0, start);
    assert T.Kick([b], start) == T.Walk([1], [1], [1], 0, 1);
    T.KickedStays([b], start, 1, maxiter);
  }

  lemma OneSlotBuilt(bytes: int -> seq<T.Byte>)
    requires T.LongEnough(bytes(0)) && T.Key(bytes(0), 1) == 1 && T.Slot(1, bytes(0), 1) == 0
    ensures E.IsBuilt(SMALL, Config(0, 0), bytes, [bytes(0)], [1], [1], [1])
  {
    assert T.SlotOk([bytes(0)], [1], [1], [1], 0);
    assert T.Holds([1], 1, 0);
  }

  /** What that table answers. */
  const COLLIDING_TABLE: int -> Option<int> := x => if x == 0 || x == 1 then Some(1) else None

  lemma CollidingSearch()
    ensures E.IsSearch([1], [1], Bytes, COLLIDING_TABLE)
  {
    forall x ensures E.SearchAt([1], [1], Bytes, COLLIDING_TABLE, x) {
      KeyOfBytes(x, 1);
      KeyOfBytes(x, 2);
      KeyOfBytes(x, 3);
    }
  }

  /** It is a table as it is built, of coordinates that have different bytes. */
  lemma CollidingTable()
    ensures T.FilledIs([Bytes(0)], 1, 1, 1, [1], [1], [1])
    ensures E.IsBuilt(SMALL, Config(0, 0), Bytes, [Bytes(0)], [1], [1], [1])
    ensures E.IsSearch([1], [1], Bytes, COLLIDING_TABLE) && Bytes(0) != Bytes(1)
  {
    KeyOfBytes(0, 1);
    OneSlot(Bytes(0), 1);
    OneSlotBuilt(Bytes);
    CollidingSearch();
    DifferentBytes();
  }

  /**
   A false hit on that table. Message 2 is in range and its point has coordinate 1; the table takes that for the
   coordinate of `G`, and what decryption returns, with success, is -1.
   */
  lemma FalseHit()
    ensures D.Setting(SMALL, Config(0, 0), COLLIDING_TABLE)
    ensures Config(0, 0).Fits(2) && MulBase(SMALL, 2) == 2
    ensures !D.FirstTrue(SMALL, Config(0, 0), COLLIDING_TABLE, 2)
    ensures D.Resolve(SMALL, COLLIDING_TABLE, 2, 0, SMALL.x(2)) == Some(-1)
    ensures !D.IsMessage(7, Config(0, 0), 2, -1, true)
  {
    SmallIsCurve();
  }
}

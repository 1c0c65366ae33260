/** What the cuckoo table built from the baby steps promises to decryption. */
module T1Exact {
  import opened Wrappers
  import opened Curve
  import opened ElGamal
  import D = Decrypt
  import P = ParSearch
  import T = CuckooT1

  /**
   `t1(x)` is the outcome of searching the table for coordinate `x` through its bytes. Where these are too few the
   search reads on in foreign memory, and may answer with the content of any slot or not at all.
   */
  ghost predicate SearchAt(vs: seq<nat>, ks: seq<nat>, bytes: int -> seq<T.Byte>, t1: int -> Option<int>, x: int)
    requires |vs| == |ks| > 0
  {
    match T.Lookup(vs, ks, bytes(x))
    case Hit(v) => t1(x) == Some(v)
    case Miss => t1(x) == None
    case Beyond => t1(x).Some? ==> exists h :: 0 <= h < |vs| && vs[h] == t1(x).value
  }

  ghost predicate IsSearch(vs: seq<nat>, ks: seq<nat>, bytes: int -> seq<T.Byte>, t1: int -> Option<int>)
    requires |vs| == |ks| > 0
  {
    forall x :: SearchAt(vs, ks, bytes, t1, x)
  }

  /** The table is what `CuckooT1.Insert` makes of the first coordinates of the baby steps. */
  ghost predicate IsBuilt(c: Curve, cfg: Config, bytes: int -> seq<T.Byte>, data: seq<seq<T.Byte>>,
                          vs: seq<nat>, ks: seq<nat>, ids: seq<nat>)
  {
    && |data| == cfg.Jmax()
    && (forall i :: 0 <= i < |data| ==> T.LongEnough(data[i]) && data[i] == bytes(c.x(i + 1)))
    && T.TableOk(data, vs, ks, ids) && T.Holds(vs, cfg.Jmax(), 0)
  }

  /** A built table is what decryption asks for, whatever collisions there are. */
  lemma TableGuarantees(c: Curve, cfg: Config, bytes: int -> seq<T.Byte>, data: seq<seq<T.Byte>>,
                        vs: seq<nat>, ks: seq<nat>, ids: seq<nat>, t1: int -> Option<int>)
    requires IsBuilt(c, cfg, bytes, data, vs, ks, ids) && IsSearch(vs, ks, bytes, t1)
    ensures D.IsTable(c, cfg, t1)
  {
    forall h | 0 <= h < |vs| ensures vs[h] <= cfg.Jmax() {
      assert vs[h] in multiset(vs);
    }
    forall x | t1(x).Some? ensures 0 <= t1(x).value <= cfg.Jmax() {
      assert SearchAt(vs, ks, bytes, t1, x);
    }
    T.AllStored(data, vs, ks, ids, cfg.Jmax());
    forall v | 1 <= v <= cfg.Jmax() ensures t1(c.x(v)).Some? {
      assert data[v - 1] == bytes(c.x(v - 1 + 1));
      T.SearchStored(data, vs, ks, v);
      assert SearchAt(vs, ks, bytes, t1, c.x(v));
    }
  }

  /** Slot `h` is free, or holds the multiplier of another coordinate than `x`. */
  ghost predicate Foreign(c: Curve, vs: seq<nat>, ids: seq<nat>, h: nat, x: int)
    requires h < |vs| == |ids|
  {
    ids[h] == 0 || c.x(vs[h]) != x
  }

  /** The answer for a coordinate is false exactly when the first slot whose key matches is a foreign one. */
  lemma FalseAnswerIff(c: Curve, cfg: Config, bytes: int -> seq<T.Byte>, data: seq<seq<T.Byte>>,
                       vs: seq<nat>, ks: seq<nat>, ids: seq<nat>, t1: int -> Option<int>, x: int)
    requires IsBuilt(c, cfg, bytes, data, vs, ks, ids) && IsSearch(vs, ks, bytes, t1)
    requires T.LongEnough(bytes(x))
    ensures !D.TrueAt(c, t1, x) <==>
            exists id :: T.FirstMatch(ks, bytes(x), 1, id) && Foreign(c, vs, ids, T.Slot(|vs|, bytes(x), id), x)
  {
    assert SearchAt(vs, ks, bytes, t1, x);
    forall id, id' | T.FirstMatch(ks, bytes(x), 1, id) && T.FirstMatch(ks, bytes(x), 1, id') ensures id == id' {
    }
    match T.Lookup(vs, ks, bytes(x)) {
      case Hit(v) =>
        var id :| T.FirstMatch(ks, bytes(x), 1, id) && v == vs[T.Slot(|vs|, bytes(x), id)];
        assert T.SlotOk(data, vs, ks, ids, T.Slot(|vs|, bytes(x), id));
      case Miss =>
      case Beyond =>
    }
  }

  /** Hash function `id` sends `x` to a slot and a key to which hash function `id'` sends baby step `v` as well. */
  ghost predicate Collides(c: Curve, bytes: int -> seq<T.Byte>, len: nat, x: int, id: nat, v: nat, id': nat)
    requires len > 0 && T.LongEnough(bytes(x)) && 1 <= id <= 3
  {
    && 1 <= id' <= 3 && T.Readable(bytes(c.x(v)), id') && c.x(v) != x
    && T.Slot(len, bytes(x), id) == T.Slot(len, bytes(c.x(v)), id')
    && T.Key(bytes(x), id) == T.Key(bytes(c.x(v)), id')
  }

  /** No key of `x` is zero, and no baby step with another coordinate shares both slot and key with `x`. */
  ghost predicate NoCollision(c: Curve, cfg: Config, bytes: int -> seq<T.Byte>, len: nat, x: int)
    requires len > 0
  {
    && T.LongEnough(bytes(x))
    && forall id :: 1 <= id <= 3 ==>
         && T.Key(bytes(x), id) != 0
         && forall v, id' :: 1 <= v <= cfg.Jmax() ==> !Collides(c, bytes, len, x, id, v, id')
  }

  /** Without a collision at a coordinate, which its bytes and those of the baby steps decide, its answer is true. */
  lemma TableIsExact(c: Curve, cfg: Config, bytes: int -> seq<T.Byte>, data: seq<seq<T.Byte>>,
                     vs: seq<nat>, ks: seq<nat>, ids: seq<nat>, t1: int -> Option<int>, x: int)
    requires IsBuilt(c, cfg, bytes, data, vs, ks, ids) && IsSearch(vs, ks, bytes, t1)
    requires NoCollision(c, cfg, bytes, |vs|, x)
    ensures D.TrueAt(c, t1, x)
  {
    FalseAnswerIff(c, cfg, bytes, data, vs, ks, ids, t1, x);
    if !D.TrueAt(c, t1, x) {
      var id :| T.FirstMatch(ks, bytes(x), 1, id) && Foreign(c, vs, ids, T.Slot(|vs|, bytes(x), id), x);
      var h := T.Slot(|vs|, bytes(x), id);
      assert T.SlotOk(data, vs, ks, ids, h);
      assert ids[h] != 0;
      assert data[vs[h] - 1] == bytes(c.x(vs[h] - 1 + 1));
      assert Collides(c, bytes, |vs|, x, id, vs[h], ids[h]);
    }
  }

  /** No collision at any of the coordinates that decryption may look up for the point `a`. */
  ghost predicate Clear(c: Curve, cfg: Config, bytes: int -> seq<T.Byte>, len: nat, a: int)
    requires len > 0 && c.order > 0
  {
    || a == 0
    || (NoCollision(c, cfg, bytes, len, c.x(a)) && (D.IsGiant(c, cfg, a) || StepsClear(c, cfg, bytes, len, a)))
  }

  ghost predicate StepsClear(c: Curve, cfg: Config, bytes: int -> seq<T.Byte>, len: nat, a: int)
    requires len > 0 && c.order > 0
  {
    forall j :: 1 <= j <= cfg.Imax() ==>
      && NoCollision(c, cfg, bytes, len, c.x(D.Down(c, cfg, a, j)))
      && NoCollision(c, cfg, bytes, len, c.x(D.Up(c, cfg, a, j)))
  }

  /** Then decryption is right, sequentially and for any number of threads. */
  lemma ClearIsTrue(c: Curve, cfg: Config, bytes: int -> seq<T.Byte>, data: seq<seq<T.Byte>>,
                    vs: seq<nat>, ks: seq<nat>, ids: seq<nat>, t1: int -> Option<int>, a: int, threads: nat)
    requires IsBuilt(c, cfg, bytes, data, vs, ks, ids) && IsSearch(vs, ks, bytes, t1)
    requires c.order > 0 && threads > 0 && Clear(c, cfg, bytes, |vs|, a)
    ensures D.FirstTrue(c, cfg, t1, a) && P.DeciderTrue(c, cfg, t1, a, threads)
  {
    if a != 0 {
      TableIsExact(c, cfg, bytes, data, vs, ks, ids, t1, c.x(a));
      if !D.IsGiant(c, cfg, a) {
        StepsAreTrue(c, cfg, bytes, data, vs, ks, ids, t1, a, threads);
      }
    }
  }

  lemma StepsAreTrue(c: Curve, cfg: Config, bytes: int -> seq<T.Byte>, data: seq<seq<T.Byte>>,
                     vs: seq<nat>, ks: seq<nat>, ids: seq<nat>, t1: int -> Option<int>, a: int, threads: nat)
    requires IsBuilt(c, cfg, bytes, data, vs, ks, ids) && IsSearch(vs, ks, bytes, t1)
    requires c.order > 0 && threads > 0 && StepsClear(c, cfg, bytes, |vs|, a)
    ensures D.SearchTrue(c, cfg, t1, a) && P.ChunksTrue(c, cfg, t1, a, threads)
  {
    forall j | 1 <= j <= cfg.Imax() ensures D.StepTrue(c, cfg, t1, a, j) {
      TableIsExact(c, cfg, bytes, data, vs, ks, ids, t1, c.x(D.Down(c, cfg, a, j)));
      TableIsExact(c, cfg, bytes, data, vs, ks, ids, t1, c.x(D.Up(c, cfg, a, j)));
    }
    forall i, j | P.FirstOfChunk(c, cfg, t1, a, threads, i, j) ensures 1 <= j <= cfg.Imax() {
      P.ChunkFits(cfg.Imax(), threads, i);
    }
  }
}

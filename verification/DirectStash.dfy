/**
  The direct write of a path into the stash, which never looks back: it keeps every block
  of the path exactly when the path fits into the free slots, plus eight when the stash
  ends in a block.  Otherwise it loses blocks although the stash could grow.
 */
module DirectStash {
  import opened Rearrangements
  import opened Blocks
  import opened StashModel

  /** The stash and the slot the next search starts from. */
  datatype Cursor<P> = Cursor(stash: Stash<P>, pos: nat) {
    ghost predicate Within() {
      stash.Fits() && pos <= stash.length
    }
  }

  /** One block goes to the next free slot; the stash grows by eight only when the search stands on its last slot. */
  function PutNext<P>(c: Cursor<P>, b: Block<P>): (r: Cursor<P>)
    requires c.Within()
    ensures r.Within()
    decreases MAX_STASH_NUM - c.stash.length, c, b
  {
    var s := c.stash;
    if !Real(b) then c
    else
      var k := FirstFree(s.slots, c.pos, s.length);
      if k < s.length then Cursor(s.(slots := s.slots[k := b]), k + 1)
      else if c.pos == s.length then c
      else if s.length + 8 > MAX_STASH_NUM then Cursor(s, s.length - 1)
      else PutNext(Cursor(Stash(s.slots, s.length + 8), s.length), b)
  }

  /** One slot at a time: a taken one is passed, the stash growing first if it was the last; a free one is filled. */
  lemma PutNextStep<P>(c: Cursor<P>, b: Block<P>)
    requires c.Within() && Real(b) && c.pos < c.stash.length
    ensures var s := c.stash;
            PutNext(c, b) ==
            if !Real(s.slots[c.pos]) then Cursor(s.(slots := s.slots[c.pos := b]), c.pos + 1)
            else if c.pos < s.length - 1 then PutNext(Cursor(s, c.pos + 1), b)
            else if s.length + 8 > MAX_STASH_NUM then c
            else PutNext(Cursor(s.(length := s.length + 8), s.length), b)
  {}

  function PutRow<P>(c: Cursor<P>, bs: seq<Block<P>>): (r: Cursor<P>)
    requires c.Within()
    ensures r.Within()
    decreases |bs|, c
  {
    if bs == [] then c else PutNext(PutRow(c, bs[..|bs| - 1]), bs[|bs| - 1])
  }

  function PutRows<P>(c: Cursor<P>, t: seq<seq<Block<P>>>): (r: Cursor<P>)
    requires c.Within()
    ensures r.Within()
    decreases |t|, c
  {
    if t == [] then c else PutRow(PutRows(c, t[..|t| - 1]), t[|t| - 1])
  }

  /** Everything before the cursor is taken. */
  ghost predicate Packed<P>(c: Cursor<P>) {
    c.Within() && c.stash.TailFree() && AllReal(c.stash.slots[..c.pos])
  }

  /** How many more blocks will be kept. */
  ghost function Capacity<P>(c: Cursor<P>): int
    requires c.Within()
  {
    var s := c.stash;
    s.length - c.pos - Sum(s.slots[c.pos..s.length], Occupied()) + if c.pos < s.length &&
        Real(s.slots[s.length - 1]) then 8 else 0
  }

  lemma PackedLoad<P(!new)>(c: Cursor<P>)
    requires Packed(c)
    ensures Load(c.stash) == c.pos + Sum(c.stash.slots[c.pos..c.stash.length], Occupied())
    ensures 0 <= Capacity(c)
  {
    var s := c.stash;
    assert s.slots == s.slots[..c.pos] + s.slots[c.pos..s.length] + s.slots[s.length..];
    SumConcat(s.slots[..c.pos] + s.slots[c.pos..s.length], s.slots[s.length..], Occupied());
    SumConcat(s.slots[..c.pos], s.slots[c.pos..s.length], Occupied());
    OccupiedBound(s.slots[..c.pos]);
    OccupiedBound(s.slots[c.pos..s.length]);
    SumFree(s.slots[s.length..], Occupied());
  }

  /** The blocks from the cursor on, when k is the next free slot. */
  lemma SumFromFree<P(!new)>(slots: seq<Block<P>>, pos: nat, k: nat, len: nat)
    requires pos <= k < len <= |slots| && AllReal(slots[pos..k]) && !Real(slots[k])
    ensures Sum(slots[pos..len], Occupied()) == k - pos + Sum(slots[k + 1..len], Occupied())
  {
    var a, one, z := slots[pos..k], [slots[k]], slots[k + 1..len];
    assert slots[pos..len] == a + one + z;
    SumConcat(a + one, z, Occupied());
    SumConcat(a, one, Occupied());
    OccupiedBound(a);
    SumFree(one, Occupied());
  }

  /** A free slot at or after the cursor is taken. */
  lemma PutInFree<P(!new)>(c: Cursor<P>, b: Block<P>, k: nat, f: Block<P> -> nat)
    requires Packed(c) && Real(b) && k == FirstFree(c.stash.slots, c.pos, c.stash.length) < c.stash.length && Weight(f)
    ensures var r := Cursor(c.stash.(slots := c.stash.slots[k := b]), k + 1);
            && Packed(r) && Capacity(r) == Capacity(c) - 1 >= 0
            && Sum(r.stash.slots, f) == Sum(c.stash.slots, f) + f(b)
  {
    var s := c.stash;
    var r := Cursor(s.(slots := s.slots[k := b]), k + 1);
    SumUpdate(s.slots, k, b, f);
    PackedFurther(c, b, k);
    hide Sum, Packed, FirstFree;
    CapacityUsed(c, b, k);
    CapacityNotNegative(r);
  }

  lemma PackedFurther<P>(c: Cursor<P>, b: Block<P>, k: nat)
    requires Packed(c) && Real(b) && k == FirstFree(c.stash.slots, c.pos, c.stash.length) < c.stash.length
    ensures Packed(Cursor(c.stash.(slots := c.stash.slots[k := b]), k + 1))
  {
    var s, slots' := c.stash, c.stash.slots[k := b];
    forall i | 0 <= i < k + 1
      ensures Real(slots'[i])
    {
      if i < c.pos {
        assert s.slots[..c.pos][i] == s.slots[i];
      }
    }
  }

  lemma CapacityUsed<P(!new)>(c: Cursor<P>, b: Block<P>, k: nat)
    requires c.Within() && Real(b) && k == FirstFree(c.stash.slots, c.pos, c.stash.length) < c.stash.length
    ensures Capacity(Cursor(c.stash.(slots := c.stash.slots[k := b]), k + 1)) == Capacity(c) - 1
  {
    hide Sum;
    var s, slots' := c.stash, c.stash.slots[k := b];
    SumFromFree(s.slots, c.pos, k, s.length);
    assert slots'[k + 1..s.length] == s.slots[k + 1..s.length];
  }

  /** A block is kept exactly when there is capacity, and uses one of it. */
  lemma PutNextKeeps<P(!new)>(c: Cursor<P>, b: Block<P>, f: Block<P> -> nat)
    requires Packed(c) && Load(c.stash) + Occupied()(b) <= MAX_STASH_NUM - 8 && Weight(f)
    ensures var r, kept := PutNext(c, b), Real(b) && Capacity(c) > 0;
            && Packed(r)
            && Capacity(r) == Capacity(c) - (if kept then 1 else 0)
            && Sum(r.stash.slots, f) == Sum(c.stash.slots, f) + if kept then f(b) else 0
  {
    var s := c.stash;
    if Real(b) {
      var k := FirstFree(s.slots, c.pos, s.length);
      PackedLoad(c);
      OccupiedBound(s.slots[c.pos..s.length]);
      if k < s.length {
        PutInFree(c, b, k, f);
      } else if c.pos < s.length {
        GrowAndPut(c, b, f);
      }
    }
  }

  /** A full stash grows by eight, and the block takes the first new slot. */
  lemma GrowAndPut<P(!new)>(c: Cursor<P>, b: Block<P>, f: Block<P> -> nat)
    requires Packed(c) && Real(b) && c.pos < c.stash.length
    requires FirstFree(c.stash.slots, c.pos, c.stash.length) == c.stash.length
    requires Load(c.stash) + 1 <= MAX_STASH_NUM - 8 && Weight(f)
    ensures var r := PutNext(c, b);
            Packed(r) && Capacity(c) == 8 && Capacity(r) == 7 && Sum(r.stash.slots, f) == Sum(c.stash.slots, f) + f(b)
  {
    var s := c.stash;
    var n := s.length;
    assert AllReal(s.slots[c.pos..n]) && AllReal(s.slots[..n]);
    OccupiedBound(s.slots[c.pos..n]);
    PackedLoad(c);
    var d := Cursor(Stash(s.slots, n + 8), n);
    SumFree(s.slots[n..n + 8], Occupied());
    assert Capacity(d) == 8;
    PutInFree(d, b, FirstFree(s.slots, n, n + 8), f);
  }

  ghost function Min(a: int, b: int): int {
    if a < b then a else b
  }

  lemma {:induction false} PutRowKeeps<P(!new)>(c: Cursor<P>, bs: seq<Block<P>>, f: Block<P> -> nat)
    requires Packed(c) && Load(c.stash) + Sum(bs, Occupied()) <= MAX_STASH_NUM - 8 && Weight(f)
    ensures var r, n := PutRow(c, bs), Sum(bs, Occupied());
            && Packed(r)
            && Capacity(r) == Capacity(c) - Min(n, Capacity(c))
            && Load(r.stash) == Load(c.stash) + Min(n, Capacity(c))
            && (n <= Capacity(c) ==> Sum(r.stash.slots, f) == Sum(c.stash.slots, f) + Sum(bs, f))
    decreases |bs|
  {
    assert c.Within();
    hide Capacity, Packed, PutNext;
    CapacityNotNegative(c);
    if bs == [] {
    } else {
      var m := |bs| - 1;
      PutRowKeeps(c, bs[..m], f);
      PutNextKeeps(PutRow(c, bs[..m]), bs[m], f);
      PutNextKeeps(PutRow(c, bs[..m]), bs[m], Occupied());
      FreeWeighsNothing(bs[m], f);
    }
  }

  lemma FreeWeighsNothing<P(!new)>(b: Block<P>, f: Block<P> -> nat)
    requires Weight(f)
    ensures !Real(b) ==> f(b) == 0
    ensures Occupied()(b) == if Real(b) then 1 else 0
  {}

  lemma CapacityNotNegative<P(!new)>(c: Cursor<P>)
    requires Packed(c)
    ensures Capacity(c) >= 0
  {
    PackedLoad(c);
  }

  lemma {:induction false} PutRowsKeeps<P(!new)>(c: Cursor<P>, t: seq<seq<Block<P>>>, f: Block<P> -> nat)
    requires Packed(c) && Load(c.stash) + SumOf(t, Occupied()) <= MAX_STASH_NUM - 8 && Weight(f)
    ensures var r, n := PutRows(c, t), SumOf(t, Occupied());
            && Packed(r)
            && Capacity(r) == Capacity(c) - Min(n, Capacity(c))
            && Load(r.stash) == Load(c.stash) + Min(n, Capacity(c))
            && (n <= Capacity(c) ==> Sum(r.stash.slots, f) == Sum(c.stash.slots, f) + SumOf(t, f))
    decreases |t|
  {
    assert c.Within();
    hide Capacity, Packed, PutRow;
    CapacityNotNegative(c);
    if t == [] {
    } else {
      var m := |t| - 1;
      PutRowsKeeps(c, t[..m], f);
      PutRowKeeps(PutRows(c, t[..m]), t[m], f);
    }
  }

  // ----- the blocks lost

  /** A block that finds no capacity is lost. */
  ghost function LostNext<P>(c: Cursor<P>, b: Block<P>): seq<Block<P>>
    requires c.Within()
  {
    if Real(b) && Capacity(c) <= 0 then [b] else []
  }

  ghost function LostRow<P>(c: Cursor<P>, bs: seq<Block<P>>): seq<Block<P>>
    requires c.Within()
    decreases |bs|, c
  {
    if bs == [] then []
    else
      var n := |bs| - 1;
      LostRow(c, bs[..n]) + LostNext(PutRow(c, bs[..n]), bs[n])
  }

  /** The blocks of the path the direct write loses. */
  ghost function LostRows<P>(c: Cursor<P>, t: seq<seq<Block<P>>>): seq<Block<P>>
    requires c.Within()
    decreases |t|, c
  {
    if t == [] then []
    else
      var n := |t| - 1;
      LostRows(c, t[..n]) + LostRow(PutRows(c, t[..n]), t[n])
  }

  lemma LostNextWeighs<P(!new)>(c: Cursor<P>, b: Block<P>, f: Block<P> -> nat)
    requires Packed(c) && Load(c.stash) + Occupied()(b) <= MAX_STASH_NUM - 8 && Weight(f)
    ensures Sum(PutNext(c, b).stash.slots, f) + Sum(LostNext(c, b), f) == Sum(c.stash.slots, f) + f(b)
    ensures AllReal(LostNext(c, b))
  {
    PutNextKeeps(c, b, f);
    hide PutNext, Packed, Capacity;
    if LostNext(c, b) == [b] {
      assert [b][..0] == [];
    }
  }

  /** What is not in the stash afterwards is lost: no weight disappears otherwise. */
  lemma {:induction false} LostRowWeighs<P(!new)>(c: Cursor<P>, bs: seq<Block<P>>, f: Block<P> -> nat)
    requires Packed(c) && Load(c.stash) + Sum(bs, Occupied()) <= MAX_STASH_NUM - 8 && Weight(f)
    ensures Sum(PutRow(c, bs).stash.slots, f) + Sum(LostRow(c, bs), f) == Sum(c.stash.slots, f) + Sum(bs, f)
    ensures AllReal(LostRow(c, bs))
    decreases |bs|
  {
    assert c.Within();
    hide Capacity, Packed, PutNext, LostNext;
    if bs == [] {
    } else {
      var n := |bs| - 1;
      LostRowWeighs(c, bs[..n], f);
      PutRowKeeps(c, bs[..n], f);
      CapacityNotNegative(c);
      LostNextWeighs(PutRow(c, bs[..n]), bs[n], f);
      SumConcat(LostRow(c, bs[..n]), LostNext(PutRow(c, bs[..n]), bs[n]), f);
    }
  }

  lemma {:induction false} LostRowsWeighs<P(!new)>(c: Cursor<P>, t: seq<seq<Block<P>>>, f: Block<P> -> nat)
    requires Packed(c) && Load(c.stash) + SumOf(t, Occupied()) <= MAX_STASH_NUM - 8 && Weight(f)
    ensures Sum(PutRows(c, t).stash.slots, f) + Sum(LostRows(c, t), f) == Sum(c.stash.slots, f) + SumOf(t, f)
    ensures AllReal(LostRows(c, t))
    decreases |t|
  {
    assert c.Within();
    hide Capacity, Packed, PutRow, LostRow;
    if t == [] {
    } else {
      var n := |t| - 1;
      LostRowsWeighs(c, t[..n], f);
      PutRowsKeeps(c, t[..n], f);
      CapacityNotNegative(c);
      LostRowWeighs(PutRows(c, t[..n]), t[n], f);
      SumConcat(LostRows(c, t[..n]), LostRow(PutRows(c, t[..n]), t[n]), f);
    }
  }

  /** The condition a caller can check beforehand. */
  ghost predicate PathKept<P>(s: Stash<P>, path: seq<seq<Block<P>>>)
    requires s.TailFree()
  {
    var free, blocks := s.length - Load(s), SumOf(path, Occupied());
    blocks <= free || (Real(s.slots[s.length - 1]) && blocks <= free + 8)
  }

  /** The direct write keeps every block of the path if and only if the condition holds. */
  lemma DirectWriteExact<P(!new)>(s: Stash<P>, path: seq<seq<Block<P>>>)
    requires s.TailFree() && Load(s) + SumOf(path, Occupied()) <= MAX_STASH_NUM - 8
    ensures var r := PutRows(Cursor(s, 0), path).stash;
            && r.TailFree()
            && (PathKept(s, path) <==> Load(r) == Load(s) + SumOf(path, Occupied()))
            && (PathKept(s, path) ==>
                  forall f: Block<P> -> nat :: Weight(f) ==> Sum(r.slots, f) == Sum(s.slots, f) + SumOf(path, f))
  {
    var c := Cursor(s, 0);
    assert Packed(c);
    PackedLoad(c);
    assert Weight<P>(Occupied());
    PutRowsKeeps(c, path, Occupied());
    forall f: Block<P> -> nat | Weight(f) && PathKept(s, path)
      ensures Sum(PutRows(c, path).stash.slots, f) == Sum(s.slots, f) + SumOf(path, f)
    {
      PutRowsKeeps(c, path, f);
    }
  }

  /** How many blocks of the path do not fit. */
  ghost function LostCount<P(!new)>(s: Stash<P>, path: seq<seq<Block<P>>>): (n: nat)
    requires s.TailFree()
    ensures n == 0 <==> PathKept(s, path)
  {
    FullStash(s);
    var room := s.length - Load(s) + if Real(s.slots[s.length - 1]) then 8 else 0;
    var blocks := SumOf(path, Occupied());
    if blocks <= room then 0 else blocks - room
  }

  /** Every weight is in the stash or among the blocks lost, and so many are lost as do not fit. */
  lemma DirectWriteLost<P(!new)>(s: Stash<P>, path: seq<seq<Block<P>>>)
    requires s.TailFree() && Load(s) + SumOf(path, Occupied()) <= MAX_STASH_NUM - 8
    ensures var r, lost := PutRows(Cursor(s, 0), path).stash, LostRows(Cursor(s, 0), path);
            && r.TailFree() && s.length <= r.length && Load(r) <= MAX_STASH_NUM - 8
            && AllReal(lost) && |lost| == LostCount(s, path)
            && forall f: Block<P> -> nat :: Weight(f) ==>
                 Sum(r.slots, f) + Sum(lost, f) == Sum(s.slots, f) + SumOf(path, f)
  {
    var c := Cursor(s, 0);
    assert Packed(c);
    PackedLoad(c);
    assert Weight<P>(Occupied());
    PutRowsKeeps(c, path, Occupied());
    PutRowsLength(c, path);
    LostRowsWeighs(c, path, Occupied());
    OccupiedBound(LostRows(c, path));
    forall f: Block<P> -> nat | Weight(f)
      ensures Sum(PutRows(c, path).stash.slots, f) + Sum(LostRows(c, path), f) == Sum(s.slots, f) + SumOf(path, f)
    {
      LostRowsWeighs(c, path, f);
    }
  }

  lemma {:induction false} PutRowLength<P>(c: Cursor<P>, bs: seq<Block<P>>)
    requires c.Within()
    ensures c.stash.length <= PutRow(c, bs).stash.length
    decreases |bs|
  {
    if bs == [] {
    } else {
      PutRowLength(c, bs[..|bs| - 1]);
      PutNextLength(PutRow(c, bs[..|bs| - 1]), bs[|bs| - 1]);
    }
  }

  lemma {:induction false} PutNextLength<P>(c: Cursor<P>, b: Block<P>)
    requires c.Within()
    ensures c.stash.length <= PutNext(c, b).stash.length
    decreases MAX_STASH_NUM - c.stash.length
  {
    var s := c.stash;
    var k := FirstFree(s.slots, c.pos, s.length);
    if Real(b) && k == s.length && c.pos < s.length && s.length + 8 <= MAX_STASH_NUM {
      PutNextLength(Cursor(Stash(s.slots, s.length + 8), s.length), b);
    } else {
    }
  }

  /** The direct write never shrinks the stash. */
  lemma {:induction false} PutRowsLength<P>(c: Cursor<P>, t: seq<seq<Block<P>>>)
    requires c.Within()
    ensures c.stash.length <= PutRows(c, t).stash.length
    decreases |t|
  {
    if t == [] {
    } else {
      PutRowsLength(c, t[..|t| - 1]);
      PutRowLength(PutRows(c, t[..|t| - 1]), t[|t| - 1]);
    }
  }

  /** An empty stash of the default length loses one block of a path that holds six, though it could grow. */
  lemma DirectWriteLoses<P(!new)>(slots: seq<Block<P>>, path: seq<seq<Block<P>>>)
    requires |slots| == MAX_STASH_NUM && AllFree(slots) && SumOf(path, Occupied()) == 6
    ensures var s := Stash(slots, DEFAULT_STASH_LENGTH);
            && s.TailFree() && Load(PutRows(Cursor(s, 0), path).stash) == 5
            && Load(WriteRows(s, path)) == 6
  {
    var s := Stash(slots, DEFAULT_STASH_LENGTH);
    SumFree(slots, Occupied());
    var c := Cursor(s, 0);
    PackedLoad(c);
    assert Weight<P>(Occupied());
    PutRowsKeeps(c, path, Occupied());
    WriteRowsAdds(s, path, Occupied());
  }
}

/**
  What the stash operations compute, as functions on rows of slots: writing a path into the
  stash, and evicting from the stash into a path, greedily from the leaf up.
 */
module StashModel {
  import opened BinaryArith
  import opened Rearrangements
  import opened Blocks

  /** All MAX_STASH_NUM slots, and how many of them are in use as the stash. */
  datatype Stash<P> = Stash(slots: seq<Block<P>>, length: nat) {
    ghost predicate Fits() {
      |slots| == MAX_STASH_NUM && length <= MAX_STASH_NUM
    }

    /** The stash is in use, and slots beyond its length are free. */
    ghost predicate TailFree() {
      Fits() && length > 0 && forall k :: length <= k < MAX_STASH_NUM ==> !Real(slots[k])
    }
  }

  // ----- writing a path

  /** The first free slot at or after k, or len. */
  function FirstFree<P>(st: seq<Block<P>>, k: nat, len: nat): (r: nat)
    requires k <= len <= |st|
    ensures k <= r <= len && (r < len ==> !Real(st[r])) && forall i :: k <= i < r ==> Real(st[i])
    decreases len - k, st
  {
    if k == len || !Real(st[k]) then k else FirstFree(st, k + 1, len)
  }

  /**
    One path block goes to the first free slot.  When the stash is full it first grows by
    PACE_STASH; beyond the maximum it instead ends up three slots shorter, without the block.
   */
  function WriteBlock<P>(s: Stash<P>, b: Block<P>): (r: Stash<P>)
    requires s.Fits()
    ensures r.Fits()
  {
    if !Real(b) then s
    else
      var k := FirstFree(s.slots, 0, s.length);
      if k < s.length then s.(slots := s.slots[k := b])
      else if s.length + PACE_STASH > MAX_STASH_NUM then s.(length := s.length + PACE_STASH - 8)
      else Stash(s.slots[s.length := b], s.length + PACE_STASH)
  }

  function WriteRow<P>(s: Stash<P>, bs: seq<Block<P>>): (r: Stash<P>)
    requires s.Fits()
    ensures r.Fits()
    decreases |bs|, s
  {
    if bs == [] then s else WriteBlock(WriteRow(s, bs[..|bs| - 1]), bs[|bs| - 1])
  }

  function WriteRows<P>(s: Stash<P>, t: seq<seq<Block<P>>>): (r: Stash<P>)
    requires s.Fits()
    ensures r.Fits()
    decreases |t|, s
  {
    if t == [] then s else WriteRow(WriteRows(s, t[..|t| - 1]), t[|t| - 1])
  }

  /** How many blocks the stash holds. */
  ghost function Load<P>(s: Stash<P>): nat {
    Sum(s.slots, Occupied())
  }

  lemma FullStash<P(!new)>(s: Stash<P>)
    requires s.TailFree()
    ensures Load(s) <= s.length && (Load(s) == s.length <==> AllReal(s.slots[..s.length]))
  {
    assert s.slots == s.slots[..s.length] + s.slots[s.length..];
    SumConcat(s.slots[..s.length], s.slots[s.length..], Occupied());
    OccupiedBound(s.slots[..s.length]);
    SumFree(s.slots[s.length..], Occupied());
  }

  /** Below the capacity bound a block is written, whatever one weighs, and the tail stays free. */
  lemma WriteBlockAdds<P(!new)>(s: Stash<P>, b: Block<P>, f: Block<P> -> nat)
    requires s.TailFree() && Load(s) + Occupied()(b) <= MAX_STASH_NUM - 8 && Weight(f)
    ensures var r := WriteBlock(s, b);
            && r.TailFree() && s.length <= r.length
            && Sum(r.slots, f) == Sum(s.slots, f) + f(b)
            && (r.length > s.length ==> Load(s) == s.length)
  {
    FullStash(s);
    if Real(b) {
      var k := FirstFree(s.slots, 0, s.length);
      SumUpdate(s.slots, k, b, f);
    }
  }

  /** Writing a path adds exactly the path's blocks, as long as the stash has room. */
  lemma {:induction false} WriteRowAdds<P(!new)>(s: Stash<P>, bs: seq<Block<P>>, f: Block<P> -> nat)
    requires s.TailFree() && Load(s) + Sum(bs, Occupied()) <= MAX_STASH_NUM - 8 && Weight(f)
    ensures var r := WriteRow(s, bs);
            r.TailFree() && s.length <= r.length && Sum(r.slots, f) == Sum(s.slots, f) + Sum(bs, f)
    decreases |bs|
  {
    if bs == [] {
    } else {
      var n := |bs| - 1;
      WriteRowAdds(s, bs[..n], Occupied());
      WriteRowAdds(s, bs[..n], f);
      WriteBlockAdds(WriteRow(s, bs[..n]), bs[n], f);
    }
  }

  lemma {:induction false} WriteRowsAdds<P(!new)>(s: Stash<P>, t: seq<seq<Block<P>>>, f: Block<P> -> nat)
    requires s.TailFree() && Load(s) + SumOf(t, Occupied()) <= MAX_STASH_NUM - 8 && Weight(f)
    ensures var r := WriteRows(s, t);
            r.TailFree() && s.length <= r.length && Sum(r.slots, f) == Sum(s.slots, f) + SumOf(t, f)
    decreases |t|
  {
    if t == [] {
    } else {
      var n := |t| - 1;
      WriteRowsAdds(s, t[..n], Occupied());
      WriteRowsAdds(s, t[..n], f);
      WriteRowAdds(WriteRows(s, t[..n]), t[n], f);
    }
  }

  /** Each block of a row makes the stash grow at most once. */
  lemma {:induction false} WriteRowGrowth<P>(s: Stash<P>, bs: seq<Block<P>>)
    requires s.Fits()
    ensures WriteRow(s, bs).length <= s.length + PACE_STASH * Sum(bs, Occupied())
    decreases |bs|
  {
    if bs == [] {
    } else {
      WriteRowGrowth(s, bs[..|bs| - 1]);
    }
  }

  /** Writing a whole path grows the stash at most once for each of its blocks. */
  lemma {:induction false} WriteRowsGrowth<P>(s: Stash<P>, t: seq<seq<Block<P>>>)
    requires s.Fits()
    ensures WriteRows(s, t).length <= s.length + PACE_STASH * SumOf(t, Occupied())
    decreases |t|
  {
    if t == [] {
    } else {
      var n := |t| - 1;
      WriteRowsGrowth(s, t[..n]);
      WriteRowGrowth(WriteRows(s, t[..n]), t[n]);
    }
  }

  /** A stash of this length has grown by PACE_STASH as often as it takes to hold n blocks. */
  function Grown(length: nat, n: nat): nat {
    if n <= length then length else length + (n - length + PACE_STASH - 1) / PACE_STASH * PACE_STASH
  }

  lemma GrownOn(length: nat, n: nat, m: nat)
    requires n <= m
    ensures n <= Grown(length, n) && Grown(Grown(length, n), m) == Grown(length, m)
  {}

  lemma GrownNone(length: nat, n: nat)
    requires n <= length
    ensures Grown(length, n) == length
  {}

  lemma WriteBlockLength<P(!new)>(s: Stash<P>, b: Block<P>)
    requires s.TailFree() && Load(s) + Occupied()(b) <= MAX_STASH_NUM - 8
    ensures WriteBlock(s, b).length == Grown(s.length, Load(s) + Occupied()(b))
  {
    FullStash(s);
    if Real(b) {
      var k := FirstFree(s.slots, 0, s.length);
      assert k < s.length ==> !Real(s.slots[..s.length][k]);
    }
  }

  lemma {:induction false} WriteRowLength<P(!new)>(s: Stash<P>, bs: seq<Block<P>>)
    requires s.TailFree() && Load(s) + Sum(bs, Occupied()) <= MAX_STASH_NUM - 8 && Weight<P>(Occupied())
    ensures WriteRow(s, bs).length == Grown(s.length, Load(s) + Sum(bs, Occupied()))
    decreases |bs|
  {
    hide WriteBlock, Grown;
    if bs == [] {
      FullStash(s);
      GrownNone(s.length, Load(s));
    } else {
      var n := |bs| - 1;
      WriteRowLength(s, bs[..n]);
      WriteRowAdds(s, bs[..n], Occupied());
      var r := WriteRow(s, bs[..n]);
      assert Load(r) == Load(s) + Sum(bs[..n], Occupied());
      WriteBlockLength(r, bs[n]);
      GrownOn(s.length, Load(s) + Sum(bs[..n], Occupied()), Load(s) + Sum(bs, Occupied()));
    }
  }

  /** Writing a path grows the stash just as often as it takes to hold all blocks. */
  lemma {:induction false} WriteRowsLength<P(!new)>(s: Stash<P>, t: seq<seq<Block<P>>>)
    requires s.TailFree() && Load(s) + SumOf(t, Occupied()) <= MAX_STASH_NUM - 8 && Weight<P>(Occupied())
    ensures WriteRows(s, t).length == Grown(s.length, Load(s) + SumOf(t, Occupied()))
    decreases |t|
  {
    hide WriteRow, Grown;
    if t == [] {
      FullStash(s);
      GrownNone(s.length, Load(s));
    } else {
      var n := |t| - 1;
      WriteRowsLength(s, t[..n]);
      WriteRowsAdds(s, t[..n], Occupied());
      WriteRowLength(WriteRows(s, t[..n]), t[n]);
      GrownOn(s.length, Load(s) + SumOf(t[..n], Occupied()), Load(s) + SumOf(t, Occupied()));
    }
  }

  // ----- evicting into a path

  /** The block may live in the bucket sh levels above the leaf. */
  predicate Eligible<P>(b: Block<P>, pos: seq<nat>, leaf: nat, sh: nat) {
    Real(b) && b.id < |pos| && Shr(pos[b.id], sh) == Shr(leaf, sh)
  }

  function FirstEligible<P>(st: seq<Block<P>>, k: nat, len: nat, pos: seq<nat>, leaf: nat, sh: nat): (r: nat)
    requires k <= len <= |st|
    ensures k <= r <= len && (r < len ==> Eligible(st[r], pos, leaf, sh))
    ensures forall i :: k <= i < r ==> !Eligible(st[i], pos, leaf, sh)
    decreases len - k, st, pos, leaf, sh
  {
    if k == len || Eligible(st[k], pos, leaf, sh) then k else FirstEligible(st, k + 1, len, pos, leaf, sh)
  }

  /** Fill bucket slots j.. with the first eligible blocks of st[..len]. */
  function FillBucket<P>(st: seq<Block<P>>, bk: seq<Block<P>>, j: nat, len: nat, pos: seq<nat>, leaf: nat, sh: nat)
    : (r: (seq<Block<P>>, seq<Block<P>>))
    requires len <= |st| && j <= |bk|
    ensures |r.0| == |st| && |r.1| == |bk|
    decreases |bk| - j, st, len, pos, leaf, sh
  {
    if j == |bk| then (st, bk)
    else
      var k := FirstEligible(st, 0, len, pos, leaf, sh);
      if k < len then FillBucket(st[k := Freed(st[k])], bk[j := st[k]], j + 1, len, pos, leaf, sh)
      else FillBucket(st, bk, j + 1, len, pos, leaf, sh)
  }

  /** Fill the buckets n-1 down to 0 of a path, the last bucket being the leaf's. */
  function EvictFrom<P>(st: seq<Block<P>>, path: seq<seq<Block<P>>>, n: nat, len: nat, pos: seq<nat>, leaf: nat)
    : (r: (seq<Block<P>>, seq<seq<Block<P>>>))
    requires len <= |st| && n <= |path|
    ensures |r.0| == |st| && |r.1| == |path|
    decreases n, st, path, len, pos, leaf
  {
    if n == 0 then (st, path)
    else
      var (st', bk) := FillBucket(st, path[n - 1], 0, len, pos, leaf, |path| - n);
      EvictFrom(st', path[n - 1 := bk], n - 1, len, pos, leaf)
  }

  function FreedRow<P>(bs: seq<Block<P>>): (r: seq<Block<P>>)
    ensures |r| == |bs| && AllFree(r)
  {
    seq(|bs|, k requires 0 <= k < |bs| => Freed(bs[k]))
  }

  /** The path with every slot marked free. */
  function FreedRows<P>(t: seq<seq<Block<P>>>): (r: seq<seq<Block<P>>>)
    ensures |r| == |t| && forall i :: 0 <= i < |t| ==> r[i] == FreedRow(t[i])
  {
    seq(|t|, i requires 0 <= i < |t| => FreedRow(t[i]))
  }

  /** What is left in the stash, and the path to be written back. */
  function Evict<P>(st: seq<Block<P>>, path: seq<seq<Block<P>>>, len: nat, pos: seq<nat>, leaf: nat)
    : (r: (seq<Block<P>>, seq<seq<Block<P>>>))
    requires len <= |st|
  {
    EvictFrom(st, FreedRows(path), |path|, len, pos, leaf)
  }

  // ----- eviction loses nothing

  lemma {:induction false} FillConserves<P(!new)>(st: seq<Block<P>>, bk: seq<Block<P>>, j: nat, len: nat, pos: seq<nat>,
          leaf: nat, sh: nat, f: Block<P> -> nat)
    requires len <= |st| && j <= |bk| && Weight(f) && forall x :: j <= x < |bk| ==> !Real(bk[x])
    ensures var (st', bk') := FillBucket(st, bk, j, len, pos, leaf, sh);
            Sum(st', f) + Sum(bk', f) == Sum(st, f) + Sum(bk, f)
    decreases |bk| - j
  {
    if j == |bk| {
    } else {
      var k := FirstEligible(st, 0, len, pos, leaf, sh);
      if k < len {
        SumUpdate(st, k, Freed(st[k]), f);
        SumUpdate(bk, j, st[k], f);
        FillConserves(st[k := Freed(st[k])], bk[j := st[k]], j + 1, len, pos, leaf, sh, f);
      } else {
        FillConserves(st, bk, j + 1, len, pos, leaf, sh, f);
      }
    }
  }

  lemma {:induction false} EvictFromConserves<P(!new)>(st: seq<Block<P>>, path: seq<seq<Block<P>>>, n: nat, len: nat,
          pos: seq<nat>, leaf: nat, f: Block<P> -> nat)
    requires len <= |st| && n <= |path| && Weight(f) && forall i :: 0 <= i < n ==> AllFree(path[i])
    ensures var (st', path') := EvictFrom(st, path, n, len, pos, leaf);
            Sum(st', f) + SumOf(path', f) == Sum(st, f) + SumOf(path, f)
    decreases n
  {
    if n == 0 {
    } else {
      var (st', bk) := FillBucket(st, path[n - 1], 0, len, pos, leaf, |path| - n);
      FillConserves(st, path[n - 1], 0, len, pos, leaf, |path| - n, f);
      SumOfUpdate(path, n - 1, bk, f);
      SumFree(path[n - 1], f);
      EvictFromConserves(st', path[n - 1 := bk], n - 1, len, pos, leaf, f);
    }
  }

  /** Eviction neither loses nor duplicates a block: every weight is kept. */
  lemma EvictConserves<P(!new)>(st: seq<Block<P>>, path: seq<seq<Block<P>>>, len: nat, pos: seq<nat>, leaf: nat,
          f: Block<P> -> nat)
    requires len <= |st| && Weight(f)
    ensures var (st', path') := Evict(st, path, len, pos, leaf);
            Sum(st', f) + SumOf(path', f) == Sum(st, f)
  {
    EvictFromConserves(st, FreedRows(path), |path|, len, pos, leaf, f);
    SumOfFree(FreedRows(path), f);
  }

  // ----- eviction moves only eligible blocks, and as many as fit

  /** st' is st with some slots freed, all of them below len. */
  ghost predicate Emptied<P>(st: seq<Block<P>>, st': seq<Block<P>>, len: nat) {
    && |st'| == |st|
    && forall k :: 0 <= k < |st| ==> st'[k] == st[k] || (k < len && !Real(st'[k]))
  }

  ghost predicate BucketEligible<P>(bk: seq<Block<P>>, pos: seq<nat>, leaf: nat, sh: nat) {
    forall b :: b in bk && Real(b) ==> Eligible(b, pos, leaf, sh)
  }

  /** No block left below len could have gone into the bucket. */
  ghost predicate NoneLeft<P>(st: seq<Block<P>>, len: nat, pos: seq<nat>, leaf: nat, sh: nat)
    requires len <= |st|
  {
    forall k :: 0 <= k < len ==> !Eligible(st[k], pos, leaf, sh)
  }

  lemma {:induction false} FillProperties<P>(st: seq<Block<P>>, bk: seq<Block<P>>, j: nat, len: nat, pos: seq<nat>,
          leaf: nat, sh: nat)
    requires len <= |st| && j <= |bk| && BucketEligible(bk, pos, leaf, sh) && forall x :: 0 <= x < j ==> Real(bk[x])
    ensures var r := FillBucket(st, bk, j, len, pos, leaf, sh);
            && Emptied(st, r.0, len)
            && BucketEligible(r.1, pos, leaf, sh)
            && (AllReal(r.1) || NoneLeft(r.0, len, pos, leaf, sh))
    decreases |bk| - j
  {
    if j == |bk| {
    } else {
      var k := FirstEligible(st, 0, len, pos, leaf, sh);
      if k < len {
        var st1, bk1 := st[k := Freed(st[k])], bk[j := st[k]];
        FillProperties(st1, bk1, j + 1, len, pos, leaf, sh);
      } else {
        FillRest(st, bk, j, len, pos, leaf, sh);
      }
    }
  }

  /** Once nothing is eligible the rest of the bucket stays as it is. */
  lemma {:induction false} FillRest<P>(st: seq<Block<P>>, bk: seq<Block<P>>, j: nat, len: nat, pos: seq<nat>, leaf: nat,
          sh: nat)
    requires len <= |st| && j <= |bk| && NoneLeft(st, len, pos, leaf, sh)
    ensures FillBucket(st, bk, j, len, pos, leaf, sh) == (st, bk)
    decreases |bk| - j
  {
    if j == |bk| {
    } else {
      FillRest(st, bk, j + 1, len, pos, leaf, sh);
    }
  }

  /** Every block on the path may live where it is; a block left over met only full buckets. */
  ghost predicate GreedyRow<P>(st: seq<Block<P>>, bk: seq<Block<P>>, len: nat, pos: seq<nat>, leaf: nat, sh: nat)
    requires len <= |st|
  {
    BucketEligible(bk, pos, leaf, sh) && (AllReal(bk) || NoneLeft(st, len, pos, leaf, sh))
  }

  /** Only the first n buckets are filled, and they keep their sizes. */
  lemma {:induction false} EvictFromShape<P>(st: seq<Block<P>>, path: seq<seq<Block<P>>>, n: nat, len: nat,
          pos: seq<nat>, leaf: nat)
    requires len <= |st| && n <= |path|
    ensures var r := EvictFrom(st, path, n, len, pos, leaf);
            && (forall i :: n <= i < |path| ==> r.1[i] == path[i])
            && (forall i :: 0 <= i < |path| ==> |r.1[i]| == |path[i]|)
    decreases n
  {
    if n == 0 {
    } else {
      var (st', bk) := FillBucket(st, path[n - 1], 0, len, pos, leaf, |path| - n);
      EvictFromShape(st', path[n - 1 := bk], n - 1, len, pos, leaf);
    }
  }

  lemma {:induction false} EvictFromProperties<P>(st: seq<Block<P>>, path: seq<seq<Block<P>>>, n: nat, len: nat,
          pos: seq<nat>, leaf: nat)
    requires len <= |st| && n <= |path| && forall i :: 0 <= i < n ==> AllFree(path[i])
    ensures var r := EvictFrom(st, path, n, len, pos, leaf);
            && Emptied(st, r.0, len)
            && (forall i :: n <= i < |path| ==> r.1[i] == path[i])
            && (forall i :: 0 <= i < |path| ==> |r.1[i]| == |path[i]|)
            && (forall i :: 0 <= i < n ==> GreedyRow(r.0, r.1[i], len, pos, leaf, |path| - 1 - i))
    decreases n
  {
    hide FillBucket, NoneLeft;
    if n == 0 {
    } else {
      EvictFromShape(st, path, n, len, pos, leaf);
      var sh := |path| - n;
      var (st', bk) := FillBucket(st, path[n - 1], 0, len, pos, leaf, sh);
      FillProperties(st, path[n - 1], 0, len, pos, leaf, sh);
      EvictFromProperties(st', path[n - 1 := bk], n - 1, len, pos, leaf);
      var r := EvictFrom(st', path[n - 1 := bk], n - 1, len, pos, leaf);
      NoneLeftAfter(st', r.0, len, pos, leaf, sh);
    }
  }

  lemma NoneLeftAfter<P>(st: seq<Block<P>>, st': seq<Block<P>>, len: nat, pos: seq<nat>, leaf: nat, sh: nat)
    requires Emptied(st, st', len) && len <= |st|
    ensures NoneLeft(st, len, pos, leaf, sh) ==> NoneLeft(st', len, pos, leaf, sh)
  {}

  /**
    Greedy eviction: a block in the bucket of level i agrees with the leaf on its first i
    turns, and if any block left in the stash does, that bucket is full.
   */
  lemma EvictGreedy<P>(st: seq<Block<P>>, path: seq<seq<Block<P>>>, len: nat, pos: seq<nat>, leaf: nat, i: nat)
    requires len <= |st| && i < |path|
    ensures var (st', path') := Evict(st, path, len, pos, leaf);
            && |path'[i]| == |path[i]|
            && Emptied(st, st', len)
            && (forall b :: b in path'[i] && Real(b) ==> Eligible(b, pos, leaf, |path| - 1 - i))
            && (forall k :: 0 <= k < len && Eligible(st'[k], pos, leaf, |path| - 1 - i) ==> AllReal(path'[i]))
  {
    EvictFromProperties(st, FreedRows(path), |path|, len, pos, leaf);
    var r := Evict(st, path, len, pos, leaf);
    assert GreedyRow(r.0, r.1[i], len, pos, leaf, |path| - 1 - i);
  }

  // ----- eviction goes as deep as it can

  /** Every block of the row is one of st below len. */
  ghost predicate TakenFrom<P>(bs: seq<Block<P>>, st: seq<Block<P>>, len: nat)
    requires len <= |st|
  {
    forall x :: 0 <= x < |bs| && Real(bs[x]) ==> bs[x] in st[..len]
  }

  lemma {:induction false} FillTakes<P>(st0: seq<Block<P>>, st: seq<Block<P>>, bk: seq<Block<P>>, j: nat, len: nat,
          pos: seq<nat>, leaf: nat, sh: nat)
    requires len <= |st0| && Emptied(st0, st, len) && j <= |bk| && TakenFrom(bk, st0, len)
    ensures TakenFrom(FillBucket(st, bk, j, len, pos, leaf, sh).1, st0, len)
    decreases |bk| - j
  {
    if j == |bk| {
    } else {
      var k := FirstEligible(st, 0, len, pos, leaf, sh);
      if k < len {
        assert st[k] == st0[k] && st0[k] in st0[..len];
        FillTakes(st0, st[k := Freed(st[k])], bk[j := st[k]], j + 1, len, pos, leaf, sh);
      } else {
        FillTakes(st0, st, bk, j + 1, len, pos, leaf, sh);
      }
    }
  }

  lemma EmptiedFurther<P>(st0: seq<Block<P>>, st: seq<Block<P>>, st': seq<Block<P>>, len: nat)
    requires Emptied(st0, st, len) && Emptied(st, st', len)
    ensures Emptied(st0, st', len)
  {}

  /** Evicted blocks come from the stash. */
  lemma {:induction false} EvictFromTakes<P>(st0: seq<Block<P>>, st: seq<Block<P>>, path: seq<seq<Block<P>>>, n: nat,
          len: nat, pos: seq<nat>, leaf: nat, i: nat)
    requires len <= |st0| && Emptied(st0, st, len) && i < n <= |path|
    requires forall x :: 0 <= x < n ==> AllFree(path[x])
    ensures TakenFrom(EvictFrom(st, path, n, len, pos, leaf).1[i], st0, len)
    decreases n
  {
    var sh := |path| - n;
    var (st', bk) := FillBucket(st, path[n - 1], 0, len, pos, leaf, sh);
    FillProperties(st, path[n - 1], 0, len, pos, leaf, sh);
    if i == n - 1 {
      FillTakes(st0, st, path[n - 1], 0, len, pos, leaf, sh);
      EvictFromProperties(st', path[n - 1 := bk], n - 1, len, pos, leaf);
    } else {
      EmptiedFurther(st0, st, st', len);
      EvictFromTakes(st0, st', path[n - 1 := bk], n - 1, len, pos, leaf, i);
    }
  }

  /** No block of the row could have gone into the bucket bk, sh levels above the leaf, unless that is full. */
  ghost predicate NoneFor<P>(bs: seq<Block<P>>, bk: seq<Block<P>>, pos: seq<nat>, leaf: nat, sh: nat) {
    AllReal(bk) || forall x :: 0 <= x < |bs| ==> !Eligible(bs[x], pos, leaf, sh)
  }

  lemma NoneForTaken<P>(bs: seq<Block<P>>, bk: seq<Block<P>>, st: seq<Block<P>>, len: nat, pos: seq<nat>, leaf: nat,
          sh: nat)
    requires len <= |st| && TakenFrom(bs, st, len) && (AllReal(bk) || NoneLeft(st, len, pos, leaf, sh))
    ensures NoneFor(bs, bk, pos, leaf, sh)
  {
    if NoneLeft(st, len, pos, leaf, sh) {
      forall x | 0 <= x < |bs|
        ensures !Eligible(bs[x], pos, leaf, sh)
      {
        if Real(bs[x]) {
          var m :| 0 <= m < len && st[..len][m] == bs[x];
          assert st[m] == bs[x];
        }
      }
    }
  }

  lemma {:induction false} EvictFromDeepest<P>(st: seq<Block<P>>, path: seq<seq<Block<P>>>, n: nat, len: nat,
          pos: seq<nat>, leaf: nat, i: nat, j: nat)
    requires len <= |st| && i < j < n <= |path| && forall x :: 0 <= x < n ==> AllFree(path[x])
    ensures var r := EvictFrom(st, path, n, len, pos, leaf);
            NoneFor(r.1[i], r.1[j], pos, leaf, |path| - 1 - j)
    decreases n
  {
    var sh := |path| - n;
    var (st', bk) := FillBucket(st, path[n - 1], 0, len, pos, leaf, sh);
    var path' := path[n - 1 := bk];
    if j < n - 1 {
      EvictFromDeepest(st', path', n - 1, len, pos, leaf, i, j);
    } else {
      FillProperties(st, path[n - 1], 0, len, pos, leaf, sh);
      EvictFromProperties(st', path', n - 1, len, pos, leaf);
      EvictFromTakes(st', st', path', n - 1, len, pos, leaf, i);
      var r := EvictFrom(st', path', n - 1, len, pos, leaf);
      NoneForTaken(r.1[i], bk, st', len, pos, leaf, sh);
    }
  }

  /**
    Each block went as deep as it could: one in the bucket of level i meets a full bucket at
    every deeper level of the path that it could live in.
   */
  ghost predicate Deepest<P>(path: seq<seq<Block<P>>>, pos: seq<nat>, leaf: nat) {
    forall i, j :: 0 <= i < j < |path| ==> NoneFor(path[i], path[j], pos, leaf, |path| - 1 - j)
  }

  /** And one left in the stash meets a full bucket at every level that it could live in. */
  ghost predicate Greedy<P>(st: seq<Block<P>>, path: seq<seq<Block<P>>>, pos: seq<nat>, leaf: nat) {
    forall j :: 0 <= j < |path| ==> NoneFor(st, path[j], pos, leaf, |path| - 1 - j)
  }

  ghost predicate WellEvicted<P>(st: seq<Block<P>>, path: seq<seq<Block<P>>>, pos: seq<nat>, leaf: nat) {
    Deepest(path, pos, leaf) && Greedy(st, path, pos, leaf)
  }

  /** Eviction goes from the leaf up, so every block ends as deep as it can. */
  lemma EvictDeepest<P>(st: seq<Block<P>>, path: seq<seq<Block<P>>>, len: nat, pos: seq<nat>, leaf: nat)
    requires len <= |st|
    ensures var (st', path') := Evict(st, path, len, pos, leaf);
            |path'| == |path| && |st'| == |st| && Deepest(path', pos, leaf) && Greedy(st'[..len], path', pos, leaf)
  {
    EvictFromProperties(st, FreedRows(path), |path|, len, pos, leaf);
    var r := Evict(st, path, len, pos, leaf);
    forall i, j | 0 <= i < j < |path|
      ensures NoneFor(r.1[i], r.1[j], pos, leaf, |path| - 1 - j)
    {
      EvictFromDeepest(st, FreedRows(path), |path|, len, pos, leaf, i, j);
    }
    forall j | 0 <= j < |path|
      ensures NoneFor(r.0[..len], r.1[j], pos, leaf, |path| - 1 - j)
    {
      assert GreedyRow(r.0, r.1[j], len, pos, leaf, |path| - 1 - j);
    }
  }

  /** Neither the order of the stash nor free slots matter. */
  lemma GreedyPermuted<P>(st: seq<Block<P>>, st': seq<Block<P>>, len: nat, path: seq<seq<Block<P>>>, pos: seq<nat>,
          leaf: nat)
    requires len <= |st| && multiset(st') == multiset(st) && Greedy(st[..len], path, pos, leaf)
    requires forall k :: len <= k < |st| ==> !Real(st[k])
    ensures Greedy(st', path, pos, leaf)
  {
    forall j, x | 0 <= j < |path| && 0 <= x < |st'| && !AllReal(path[j])
      ensures !Eligible(st'[x], pos, leaf, |path| - 1 - j)
    {
      assert st'[x] in multiset(st);
      var k :| 0 <= k < |st| && st[k] == st'[x];
      assert NoneFor(st[..len], path[j], pos, leaf, |path| - 1 - j);
      if k < len {
        assert st[..len][k] == st[k];
      }
    }
  }

  // ----- compressing

  /** Blocks by id: free slots, whose id is the largest, come last. */
  predicate LaterId<P>(a: Block<P>, b: Block<P>) {
    a.id > b.id
  }

  ghost predicate IdsOrdered<P>(bs: seq<Block<P>>) {
    && (forall k :: 0 <= k < |bs| ==> bs[k].id <= DUMMY_FLAG)
    && (forall i, j :: 0 <= i < j < |bs| ==> bs[i].id <= bs[j].id)
  }

  lemma {:induction false} FrontSplit<P>(bs: seq<Block<P>>) returns (d: nat)
    requires IdsOrdered(bs)
    ensures d <= |bs| && AllReal(bs[..d]) && AllFree(bs[d..])
    decreases |bs|
  {
    var n := |bs| - 1;
    if bs == [] || Real(bs[n]) {
      d := |bs|;
    } else {
      d := FrontSplit(bs[..n]);
      assert bs[..n][..d] == bs[..d] && bs[d..] == bs[..n][d..] + [bs[n]];
    }
  }

  /** In id order a row has its blocks at the front. */
  lemma CompressedFront<P(!new)>(bs: seq<Block<P>>)
    requires IdsOrdered(bs)
    ensures var c := Sum(bs, Occupied()); c <= |bs| && AllReal(bs[..c]) && AllFree(bs[c..])
  {
    var d := FrontSplit(bs);
    assert bs == bs[..d] + bs[d..];
    SumConcat(bs[..d], bs[d..], Occupied());
    OccupiedBound(bs[..d]);
    SumFree(bs[d..], Occupied());
  }
}

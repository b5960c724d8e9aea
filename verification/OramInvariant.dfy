/**
  The invariant of the Path-ORAM on values: the census of blocks over stash and tree, and
  what the steps of one access do to it.
 */
module OramInvariant {
  import opened BinaryArith
  import opened Rearrangements
  import opened Blocks
  import opened StashModel
  import opened TreeGeometry

  /** The blocks of stash and tree are exactly those of mem, at their mapped positions and places. */
  ghost predicate Consistent<P(!new)>(s: Stash<P>, t: seq<seq<Block<P>>>, mem: map<nat, P>, pos: seq<nat>, level: nat) {
    && s.TailFree()
    && Placed(t, level)
    && (forall id :: 0 <= id < |pos| ==> pos[id] < Pow2(level))
    && Census(s.slots, t, mem, pos)
    && Load(s) + SumOf(t, Occupied()) == |mem|
  }

  /** During an access the path's blocks are in the stash, and its buckets are stale copies. */
  ghost predicate MidAccess<P(!new)>(s: Stash<P>, t: seq<seq<Block<P>>>, path: seq<seq<Block<P>>>, mem: map<nat, P>,
          pos: seq<nat>)
  {
    && s.TailFree()
    && (forall id :: id in mem ==> id < |pos| && id != DUMMY_FLAG)
    && (forall b: Block<P> :: Real(b) ==> Loose(s.slots, t, path, b) == Expected(b, mem, pos))
    && Load(s) + SumOf(t, Occupied()) == |mem| + SumOf(path, Occupied())
  }

  /** How often the block occurs in the stash and off the path. */
  ghost function Loose<P>(st: seq<Block<P>>, t: seq<seq<Block<P>>>, path: seq<seq<Block<P>>>, b: Block<P>): int {
    Sum(st, Same(b)) + SumOf(t, Same(b)) - SumOf(path, Same(b))
  }

  /** Room for the path and one more block, with the two growth steps allowed for. */
  ghost predicate Roomy<P>(s: Stash<P>, path: seq<seq<Block<P>>>) {
    Load(s) + SumOf(path, Occupied()) <= MAX_STASH_NUM - 8
  }

  lemma WeightsOk<P(!new)>(x: Block<P>)
    ensures Weight(Same(x)) && Weight<P>(Occupied())
  {}

  lemma ConsistentTail<P(!new)>(s: Stash<P>, t: seq<seq<Block<P>>>, mem: map<nat, P>, pos: seq<nat>, level: nat)
    requires Consistent(s, t, mem, pos, level)
    ensures s.TailFree()
  {}

  /** A path weighs no more than the tree. */
  lemma PathWithinTree<P(!new)>(t: seq<seq<Block<P>>>, leaf: nat, level: nat, f: Block<P> -> nat)
    requires IsTree(t, level) && leaf < Pow2(level) && Weight(f)
    ensures SumOf(PathOf(t, leaf, level), f) <= SumOf(t, f)
  {
    var path := PathOf(t, leaf, level);
    var free := FreedRows(path);
    PushedSum(t, free, leaf, level, level + 1, f);
    SumOfFree(free, f);
    assert path[..level + 1] == path && free[..level + 1] == free;
  }

  // ----- what the invariant says of ids and places

  /** Counts the blocks with an id, whatever else they hold. */
  ghost function WithId<P>(id: nat): (f: Block<P> -> nat) {
    (b: Block<P>) => if Real(b) && b.id == id then 1 else 0
  }

  /** A block found in the tree is the recorded one, and stands on the path to the leaf its id is mapped to. */
  lemma BlockInTree<P(!new)>(s: Stash<P>, t: seq<seq<Block<P>>>, mem: map<nat, P>, pos: seq<nat>, level: nat, h: nat,
          k: nat)
    returns (i: nat)
    requires Consistent(s, t, mem, pos, level) && h < |t| && k < |t[h]| && Real(t[h][k])
    ensures var b := t[h][k];
            && b.id in mem && b.id < |pos| && b == Block(b.id, pos[b.id], mem[b.id])
            && i <= level && AtDepth(h + 1, i) && h + 1 == Shr(pos[b.id] + Pow2(level), level - i)
  {
    var b := t[h][k];
    SumHas(t[h], k, Same(b));
    SumOfHas(t, h, Same(b));
    assert Sum(s.slots, Same(b)) + SumOf(t, Same(b)) == Expected(b, mem, pos);
    i := DepthOf(h + 1);
    DepthBound(h + 1, i, level);
    assert PlacedAt(t[h], h + 1, i, level);
  }

  /** No id occurs twice in stash and tree together, and exactly the existing ones occur. */
  lemma IdOccursOnce<P(!new)>(s: Stash<P>, t: seq<seq<Block<P>>>, mem: map<nat, P>, pos: seq<nat>, level: nat, id: nat)
    requires Consistent(s, t, mem, pos, level)
    ensures Sum(s.slots, WithId<P>(id)) + SumOf(t, WithId<P>(id)) == if id in mem then 1 else 0
  {
    var only: Block<P> -> nat := if id in mem then Same(Block(id, pos[id], mem[id])) else (b: Block<P>) => 0;
    forall k | 0 <= k < |s.slots|
      ensures WithId<P>(id)(s.slots[k]) == only(s.slots[k])
    {
      if Real(s.slots[k]) {
        SumHas(s.slots, k, Same(s.slots[k]));
        assert Sum(s.slots, Same(s.slots[k])) + SumOf(t, Same(s.slots[k])) == Expected(s.slots[k], mem, pos);
      }
    }
    SumAgrees(s.slots, WithId<P>(id), only);
    forall h, k | 0 <= h < |t| && 0 <= k < |t[h]|
      ensures WithId<P>(id)(t[h][k]) == only(t[h][k])
    {
      if Real(t[h][k]) {
        var i := BlockInTree(s, t, mem, pos, level, h, k);
      }
    }
    SumOfAgrees(t, WithId<P>(id), only);
    if id in mem {
      var x := Block(id, pos[id], mem[id]);
      assert Sum(s.slots, Same(x)) + SumOf(t, Same(x)) == Expected(x, mem, pos);
    } else {
      SumConstant(s.slots, only, 0);
      SumOfNothing(t, only);
    }
  }

  lemma {:induction false} SumOfAgrees<P>(t: seq<seq<Block<P>>>, f: Block<P> -> nat, g: Block<P> -> nat)
    requires forall h, k :: 0 <= h < |t| && 0 <= k < |t[h]| ==> f(t[h][k]) == g(t[h][k])
    ensures SumOf(t, f) == SumOf(t, g)
    decreases |t|
  {
    if t == [] {
    } else {
      SumOfAgrees(t[..|t| - 1], f, g);
      SumAgrees(t[|t| - 1], f, g);
    }
  }

  lemma {:induction false} SumOfNothing<P>(t: seq<seq<Block<P>>>, f: Block<P> -> nat)
    requires forall b :: b in t ==> forall k :: 0 <= k < |b| ==> f(b[k]) == 0
    ensures SumOf(t, f) == 0
    decreases |t|
  {
    if t == [] {
    } else {
      SumOfNothing(t[..|t| - 1], f);
      assert t[|t| - 1] in t;
      SumConstant(t[|t| - 1], f, 0);
    }
  }

  // ----- step 1: the path goes into the stash

  lemma PathWritten<P(!new)>(s: Stash<P>, t: seq<seq<Block<P>>>, leaf: nat, mem: map<nat, P>, pos: seq<nat>, level: nat)
    requires Consistent(s, t, mem, pos, level) && leaf < Pow2(level) && Roomy(s, PathOf(t, leaf, level))
    ensures MidAccess(WriteRows(s, PathOf(t, leaf, level)), t, PathOf(t, leaf, level), mem, pos)
    ensures s.length <= WriteRows(s, PathOf(t, leaf, level)).length && WriteRows(s, PathOf(t, leaf, level)).TailFree()
    ensures Load(WriteRows(s, PathOf(t, leaf, level))) <= MAX_STASH_NUM - 8
  {
    var path := PathOf(t, leaf, level);
    var s1 := WriteRows(s, path);
    forall b: Block<P> | Real(b)
      ensures Loose(s1.slots, t, path, b) == Expected(b, mem, pos)
    {
      WriteRowsAdds(s, path, Same(b));
    }
    WriteRowsAdds(s, path, Occupied());
  }

  // ----- step 2: the block is looked up

  /** A block of the stash is the one recorded for its id. */
  lemma StashBlockKnown<P(!new)>(s: Stash<P>, t: seq<seq<Block<P>>>, leaf: nat, level: nat, mem: map<nat, P>,
          pos: seq<nat>, k: nat)
    requires IsTree(t, level) && leaf < Pow2(level) && MidAccess(s, t, PathOf(t, leaf, level), mem, pos)
    requires k < |s.slots| && Real(s.slots[k])
    ensures var b := s.slots[k];
            b.id in mem && b.id < |pos| && b == Block(b.id, pos[b.id], mem[b.id]) && Sum(s.slots, Same(b)) == 1
  {
    var b := s.slots[k];
    WeightsOk(b);
    SumHas(s.slots, k, Same(b));
    PathWithinTree(t, leaf, level, Same(b));
    assert Loose(s.slots, t, PathOf(t, leaf, level), b) == Expected(b, mem, pos);
  }

  /**
    The block mapped to the path just read is in the stash, if it exists at all.  The tree
    is still as before the access, when the blocks mem0 existed.
   */
  lemma BlockFound<P(!new)>(s0: Stash<P>, t: seq<seq<Block<P>>>, mem0: map<nat, P>, s: Stash<P>, mem: map<nat, P>,
          pos: seq<nat>, level: nat, bid: nat)
    returns (k: nat)
    requires Consistent(s0, t, mem0, pos, level) && bid in mem && bid < |pos|
    requires MidAccess(s, t, PathOf(t, pos[bid], level), mem, pos)
    ensures k < s.length && s.slots[k] == Block(bid, pos[bid], mem[bid])
  {
    var x, path := Block(bid, pos[bid], mem[bid]), PathOf(t, pos[bid], level);
    assert Loose(s.slots, t, path, x) == Expected(x, mem, pos) == 1;
    assert Sum(s0.slots, Same(x)) + SumOf(t, Same(x)) == Expected(x, mem0, pos) <= 1;
    if SumOf(t, Same(x)) > 0 {
      PlacedOnPath(t, level, x);
    }
    k := SumFind(s.slots, x);
  }

  lemma MemUpdateCount<P>(mem: map<nat, P>, id: nat, p: P)
    ensures |mem[id := p]| == |mem| + if id in mem then 0 else 1
  {
    assert mem[id := p].Keys == mem.Keys + {id};
    assert |mem[id := p]| == |mem[id := p].Keys| && |mem| == |mem.Keys|;
  }

  /** The block found moves to a fresh leaf. */
  lemma Remapped<P(!new)>(s: Stash<P>, t: seq<seq<Block<P>>>, path: seq<seq<Block<P>>>, mem: map<nat, P>, pos: seq<nat>,
          k: nat, np: nat)
    requires MidAccess(s, t, path, mem, pos) && k < s.length && Real(s.slots[k])
    requires var b := s.slots[k]; b.id in mem && b.id < |pos| && b == Block(b.id, pos[b.id], mem[b.id])
    ensures MidAccess(s.(slots := s.slots[k := s.slots[k].(pos := np)]), t, path, mem, pos[s.slots[k].id := np])
    ensures Load(s.(slots := s.slots[k := s.slots[k].(pos := np)])) == Load(s)
  {
    var b := s.slots[k];
    var b' := b.(pos := np);
    var slots', pos' := s.slots[k := b'], pos[b.id := np];
    SumUpdate(s.slots, k, b', Occupied());
    forall x: Block<P> | Real(x)
      ensures Loose(slots', t, path, x) == Expected(x, mem, pos')
    {
      SumUpdate(s.slots, k, b', Same(x));
      assert Loose(s.slots, t, path, x) == Expected(x, mem, pos);
    }
  }

  /** A block that does not exist appears in a free slot, with the stash long enough to hold it. */
  lemma Inserted<P(!new)>(s: Stash<P>, t: seq<seq<Block<P>>>, path: seq<seq<Block<P>>>, mem: map<nat, P>, pos: seq<nat>,
          e: nat, len: nat, b: Block<P>)
    requires MidAccess(s, t, path, mem, pos) && b.id !in mem && b.id < |pos| && Real(b)
    requires s.length <= len <= MAX_STASH_NUM && e < len && !Real(s.slots[e])
    ensures MidAccess(Stash(s.slots[e := b], len), t, path, mem[b.id := b.payload], pos[b.id := b.pos])
    ensures Load(Stash(s.slots[e := b], len)) == Load(s) + 1
  {
    var slots', mem', pos' := s.slots[e := b], mem[b.id := b.payload], pos[b.id := b.pos];
    SumUpdate(s.slots, e, b, Occupied());
    MemUpdateCount(mem, b.id, b.payload);
    forall x: Block<P> | Real(x)
      ensures Loose(slots', t, path, x) == Expected(x, mem', pos')
    {
      InsertedWeighs(s, t, path, mem, pos, e, b, x);
    }
  }

  lemma InsertedWeighs<P(!new)>(s: Stash<P>, t: seq<seq<Block<P>>>, path: seq<seq<Block<P>>>, mem: map<nat, P>,
          pos: seq<nat>, e: nat, b: Block<P>, x: Block<P>)
    requires MidAccess(s, t, path, mem, pos) && b.id !in mem && b.id < |pos| && Real(b) && Real(x)
    requires e < |s.slots| && !Real(s.slots[e])
    ensures Loose(s.slots[e := b], t, path, x) == Expected(x, mem[b.id := b.payload], pos[b.id := b.pos])
  {
    hide Sum, SumOf;
    SumUpdate(s.slots, e, b, Same(x));
    assert Loose(s.slots, t, path, x) == Expected(x, mem, pos);
  }

  // ----- step 3: eviction, and the path written back

  lemma EvictedPlaced<P(!new)>(s: Stash<P>, t: seq<seq<Block<P>>>, leaf: nat, level: nat, mem: map<nat, P>,
          pos: seq<nat>, i: nat)
    requires IsTree(t, level) && leaf < Pow2(level) && MidAccess(s, t, PathOf(t, leaf, level), mem, pos) && i <= level
    requires forall id :: 0 <= id < |pos| ==> pos[id] < Pow2(level)
    ensures var r := Evict(s.slots, PathOf(t, leaf, level), s.length, pos, leaf);
            PlacedAt(r.1[i], Node(leaf, level, i), i, level)
  {
    var path := PathOf(t, leaf, level);
    var r := Evict(s.slots, path, s.length, pos, leaf);
    EvictGreedy(s.slots, path, s.length, pos, leaf, i);
    forall k | 0 <= k < |r.1[i]| && Real(r.1[i][k])
      ensures r.1[i][k].pos < Pow2(level) && Node(leaf, level, i) == Node(r.1[i][k].pos, level, i)
    {
      var b := r.1[i][k];
      EvictedFromStash(s, path, pos, leaf, i, k);
      var m := SumFind(s.slots, b);
      StashBlockKnown(s, t, leaf, level, mem, pos, m);
      NodeShared(b.pos, leaf, level, i);
    }
  }

  /** A block on the evicted path was in the stash. */
  lemma EvictedFromStash<P(!new)>(s: Stash<P>, path: seq<seq<Block<P>>>, pos: seq<nat>, leaf: nat, i: nat, k: nat)
    requires s.Fits() && i < |path|
    requires var r := Evict(s.slots, path, s.length, pos, leaf); k < |r.1[i]| && Real(r.1[i][k])
    ensures var r := Evict(s.slots, path, s.length, pos, leaf); Sum(s.slots, Same(r.1[i][k])) > 0
  {
    var r := Evict(s.slots, path, s.length, pos, leaf);
    var b := r.1[i][k];
    WeightsOk(b);
    EvictConserves(s.slots, path, s.length, pos, leaf, Same(b));
    SumHas(r.1[i], k, Same(b));
    SumOfHas(r.1, i, Same(b));
  }

  /** After eviction and write-back the ORAM is consistent again. */
  lemma WrittenBack<P(!new)>(s: Stash<P>, t: seq<seq<Block<P>>>, leaf: nat, level: nat, mem: map<nat, P>, pos: seq<nat>)
    requires Placed(t, level) && leaf < Pow2(level) && MidAccess(s, t, PathOf(t, leaf, level), mem, pos)
    requires forall id :: 0 <= id < |pos| ==> pos[id] < Pow2(level)
    ensures var r := Evict(s.slots, PathOf(t, leaf, level), s.length, pos, leaf);
            Consistent(Stash(r.0, s.length), Pushed(t, r.1, leaf, level, level + 1), mem, pos, level)
  {
    var path := PathOf(t, leaf, level);
    var r := Evict(s.slots, path, s.length, pos, leaf);
    var t' := Pushed(t, r.1, leaf, level, level + 1);
    forall i | 0 <= i <= level
      ensures PlacedAt(r.1[i], Node(leaf, level, i), i, level)
    {
      EvictedPlaced(s, t, leaf, level, mem, pos, i);
    }
    PushedPlaced(t, r.1, leaf, level);
    forall b: Block<P> | Real(b)
      ensures Sum(r.0, Same(b)) + SumOf(t', Same(b)) == Expected(b, mem, pos)
    {
      WeightsOk(b);
      WriteBackKeeps(s, t, leaf, level, pos, Same(b));
      assert Loose(s.slots, t, path, b) == Expected(b, mem, pos);
    }
    WriteBackKeeps(s, t, leaf, level, pos, Occupied());
    EvictGreedy(s.slots, path, s.length, pos, leaf, 0);
  }

  lemma WriteBackKeeps<P(!new)>(s: Stash<P>, t: seq<seq<Block<P>>>, leaf: nat, level: nat, pos: seq<nat>,
          f: Block<P> -> nat)
    requires s.Fits() && IsTree(t, level) && leaf < Pow2(level) && Weight(f)
    ensures var path := PathOf(t, leaf, level);
            var r := Evict(s.slots, path, s.length, pos, leaf);
            Sum(r.0, f) + SumOf(Pushed(t, r.1, leaf, level, level + 1), f) ==
              Sum(s.slots, f) + SumOf(t, f) - SumOf(path, f)
  {
    var path := PathOf(t, leaf, level);
    var r := Evict(s.slots, path, s.length, pos, leaf);
    EvictConserves(s.slots, path, s.length, pos, leaf, f);
    PushedSum(t, r.1, leaf, level, level + 1, f);
    assert path[..level + 1] == path && r.1[..level + 1] == r.1;
  }

  // ----- step 4: compression

  /** Rearranging the stash keeps the ORAM consistent, as long as the tail is free. */
  lemma Recompressed<P(!new)>(s: Stash<P>, s': Stash<P>, t: seq<seq<Block<P>>>, mem: map<nat, P>, pos: seq<nat>,
          level: nat)
    requires Consistent(s, t, mem, pos, level) && s'.TailFree() && multiset(s'.slots) == multiset(s.slots)
    ensures Consistent(s', t, mem, pos, level)
  {
    forall b: Block<P> | Real(b)
      ensures Sum(s'.slots, Same(b)) + SumOf(t, Same(b)) == Expected(b, mem, pos)
    {
      SumPermuted(s'.slots, s.slots, Same(b));
    }
    SumPermuted(s'.slots, s.slots, Occupied());
  }
}

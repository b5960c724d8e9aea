/**
  The Path-ORAM of the enclave: a tree of buckets, a position map and a stash, updated in
  place by every access.  The random leaf of an access is an argument.
 */
module PathOram {
  import opened BinaryArith
  import opened Rearrangements
  import opened Blocks
  import opened StashModel
  import opened DirectStash
  import opened TreeGeometry
  import opened OramInvariant
  import opened InitPlacement
  import opened OramRuns
  import opened DirectRuns
  import opened SortingNetworks
  import opened BitonicSorting

  /** Counters of the sketch, or the table of heavy flows. */
  datatype SketchType = Counters | Table

  /** Going down one level doubles the node and adds the next bit of the leaf. */
  lemma Descend(leaf: nat, level: nat, i: nat)
    requires 0 < i <= level && leaf < Pow2(level)
    ensures Node(leaf, level, i) == 2 * Node(leaf, level, i - 1) + if MaskBit(Pow2(level - i), leaf) then 1 else 0
    ensures Pow2(level - i) / 2 == if i < level then Pow2(level - i - 1) else 0
  {
    NodeStep(leaf, level, i - 1);
    ShrIsQuotient(leaf, level - i);
  }

  ghost predicate IdsBelow<P>(bs: seq<Block<P>>, n: nat) {
    forall k :: 0 <= k < |bs| ==> bs[k].id < n || !Real(bs[k])
  }

  ghost predicate RowsOk<P>(t: seq<seq<Block<P>>>, size: nat, n: nat) {
    forall h :: 0 <= h < |t| ==> |t[h]| == size && IdsBelow(t[h], n)
  }

  /** Where the descent to a leaf stands before depth i: the node above, and the bit of the turn. */
  ghost predicate AtNode(delta: nat, mask: nat, leaf: nat, level: nat, i: nat) {
    0 < i <= level + 1 && delta == Node(leaf, level, i - 1) && (i <= level ==> mask == Pow2(level - i))
  }

  /** One turn down. */
  method NextNode(delta: nat, mask: nat, leaf: nat, level: nat, ghost i: nat) returns (delta': nat, mask': nat)
    requires i <= level && leaf < Pow2(level) && AtNode(delta, mask, leaf, level, i)
    ensures delta' == Node(leaf, level, i) && AtNode(delta', mask', leaf, level, i + 1)
  {
    hide Node, Pow2, MaskBit;
    Descend(leaf, level, i);
    delta' := delta * 2;
    if MaskBit(mask, leaf) {
      delta' := delta' + 1;
    }
    mask' := mask / 2;
  }

  lemma TreeNodes<P>(t: seq<seq<Block<P>>>, leaf: nat, level: nat)
    requires IsTree(t, level) && leaf < Pow2(level)
    ensures Node(leaf, level, 0) == 1 && forall i: nat :: i <= level ==> 1 <= Node(leaf, level, i) <= |t|
  {
    NodesInTree(leaf, level);
    NodeValue(leaf, level, 0);
    ShrBound(leaf, level, level);
  }

  lemma PathRead<P>(t: seq<seq<Block<P>>>, path: seq<seq<Block<P>>>, leaf: nat, level: nat, size: nat, n: nat)
    requires IsTree(t, level) && leaf < Pow2(level) && RowsOk(t, size, n) && |path| == level + 1
    requires forall i: nat :: i <= level ==> 1 <= Node(leaf, level, i) <= |t|
    requires forall i: nat :: i <= level ==> path[i] == t[Node(leaf, level, i) - 1]
    ensures path == PathOf(t, leaf, level) && RowsOk(path, size, n)
  {
    hide Node, Pow2, IdsBelow, IsTree;
  }

  /** One more bucket of the path is written back. */
  lemma PushedNext<P>(t: seq<seq<Block<P>>>, path: seq<seq<Block<P>>>, leaf: nat, level: nat, i: nat)
    requires IsTree(t, level) && leaf < Pow2(level) && i <= level && |path| == level + 1
    ensures 1 <= Node(leaf, level, i) <= |t| && |Pushed(t, path, leaf, level, i)| == |t|
    ensures Pushed(t, path, leaf, level, i + 1)
         == Pushed(t, path, leaf, level, i)[Node(leaf, level, i) - 1 := path[i]]
    ensures i == 0 ==> Pushed(t, path, leaf, level, i) == t
  {
    NodesInTree(leaf, level);
  }

  lemma {:induction false} PushedRows<P>(t: seq<seq<Block<P>>>, path: seq<seq<Block<P>>>, leaf: nat, level: nat, i: nat,
          size: nat, n: nat)
    requires IsTree(t, level) && leaf < Pow2(level) && i <= |path| == level + 1
    requires RowsOk(t, size, n) && RowsOk(path, size, n)
    ensures IsTree(Pushed(t, path, leaf, level, i), level) && RowsOk(Pushed(t, path, leaf, level, i), size, n)
    decreases i
  {
    hide Node, Pow2, IdsBelow;
    if i == 0 {
    } else {
      PushedRows(t, path, leaf, level, i - 1, size, n);
    }
  }

  /** The first slot of st[k..len] that holds the block bid, or len. */
  function FirstWithId<P>(st: seq<Block<P>>, k: nat, len: nat, bid: nat): (r: nat)
    requires k <= len <= |st|
    ensures k <= r <= len && (r < len ==> st[r].id == bid) && forall i :: k <= i < r ==> st[i].id != bid
    decreases len - k, st, bid
  {
    if k == len || st[k].id == bid then k else FirstWithId(st, k + 1, len, bid)
  }

  /** The slot a lookup settles on: the block's, or the first free one (one past a full stash). */
  function LookupSlot<P>(s: Stash<P>, bid: nat): (k: nat)
    requires s.Fits()
    ensures k <= s.length
  {
    var h := FirstWithId(s.slots, 0, s.length, bid);
    if h < s.length then h else FirstFree(s.slots, 0, s.length)
  }

  /**
    The stash after a lookup, and the block handed out: the block bid moved to position np,
    or, when there is none, a cleared one in the first free slot, after growing if necessary.
   */
  function Lookup<P>(s: Stash<P>, bid: nat, np: nat, clear: P -> P): (r: (Stash<P>, Block<P>))
    requires s.Fits() && LookupSlot(s, bid) < MAX_STASH_NUM
  {
    var k := LookupSlot(s, bid);
    var b := if k < s.length && s.slots[k].id == bid then s.slots[k].(pos := np)
             else Block(bid, np, clear(s.slots[k].payload));
    (Stash(s.slots[k := b], if k < s.length then s.length else s.length + 8), b)
  }

  /** Below the capacity bound a full stash has room to grow by 8. */
  lemma RoomToGrow<P(!new)>(s: Stash<P>)
    requires s.TailFree() && Load(s) <= MAX_STASH_NUM - 8
    ensures FirstFree(s.slots, 0, s.length) < s.length || s.length + 8 <= MAX_STASH_NUM
    ensures FirstFree(s.slots, 0, s.length) < MAX_STASH_NUM
  {
    FullStash(s);
  }

  /**
    In the middle of an access, looking up an existing block moves it; a missing one is
    added with a cleared payload.
   */
  lemma LookupFrom<P(!new)>(s0: Stash<P>, t: seq<seq<Block<P>>>, mem0: map<nat, P>, s1: Stash<P>, mem: map<nat, P>,
          pos: seq<nat>, level: nat, bid: nat, np: nat, clear: P -> P)
    returns (mem': map<nat, P>)
    requires Consistent(s0, t, mem0, pos, level) && bid < |pos| <= DUMMY_FLAG
    requires MidAccess(s1, t, PathOf(t, pos[bid], level), mem, pos) && Load(s1) <= MAX_STASH_NUM - 8
    ensures LookupSlot(s1, bid) < MAX_STASH_NUM
    ensures var (s2, b) := Lookup(s1, bid, np, clear);
            && s1.length <= s2.length
            && MidAccess(s2, t, PathOf(t, pos[bid], level), mem', pos[bid := np])
            && (bid in mem <==> FirstWithId(s1.slots, 0, s1.length, bid) < s1.length)
            && HandsOut(mem, mem', bid, np, clear, b, if bid in mem then 0 else 1)
  {
    var leaf := pos[bid];
    var path := PathOf(t, leaf, level);
    RoomToGrow(s1);
    var h := FirstWithId(s1.slots, 0, s1.length, bid);
    if bid in mem {
      var k := BlockFound(s0, t, mem0, s1, mem, pos, level, bid);
      StashBlockKnown(s1, t, leaf, level, mem, pos, h);
      Remapped(s1, t, path, mem, pos, h, np);
      mem' := mem;
    } else {
      if h < s1.length {
        StashBlockKnown(s1, t, leaf, level, mem, pos, h);
      }
      var e := FirstFree(s1.slots, 0, s1.length);
      var b := Block(bid, np, clear(s1.slots[e].payload));
      Inserted(s1, t, path, mem, pos, e, if e < s1.length then s1.length else s1.length + 8, b);
      mem' := mem[bid := b.payload];
    }
  }

  /** The lookup after the path was written to the stash. */
  lemma LookupKeeps<P(!new)>(s: Stash<P>, t: seq<seq<Block<P>>>, mem: map<nat, P>, pos: seq<nat>, level: nat, bid: nat,
          np: nat, clear: P -> P)
    returns (mem': map<nat, P>)
    requires Consistent(s, t, mem, pos, level) && bid < |pos| <= DUMMY_FLAG
    requires Roomy(s, PathOf(t, pos[bid], level))
    ensures var s1 := WriteRows(s, PathOf(t, pos[bid], level));
            && s1.TailFree() && Load(s1) <= MAX_STASH_NUM - 8 && s.length <= s1.length
            && LookupSlot(s1, bid) < MAX_STASH_NUM
            && var (s2, b) := Lookup(s1, bid, np, clear);
            && s1.length <= s2.length
            && MidAccess(s2, t, PathOf(t, pos[bid], level), mem', pos[bid := np])
            && (bid in mem <==> FirstWithId(s1.slots, 0, s1.length, bid) < s1.length)
            && HandsOut(mem, mem', bid, np, clear, b, if bid in mem then 0 else 1)
  {
    PathWritten(s, t, pos[bid], mem, pos, level);
    mem' := LookupFrom(s, t, mem, WriteRows(s, PathOf(t, pos[bid], level)), mem, pos, level, bid, np, clear);
  }

  lemma LookupTail<P(!new)>(s: Stash<P>, bid: nat, np: nat, clear: P -> P)
    requires s.TailFree() && Load(s) <= MAX_STASH_NUM - 8
    ensures LookupSlot(s, bid) < MAX_STASH_NUM && Lookup(s, bid, np, clear).0.TailFree()
  {
    RoomToGrow(s);
  }

  /**
    What an access to block bid did: stash s' and path path' make the tree consistent with
    mem', the block b was handed out, and `added` blocks were new.
   */
  ghost predicate Accessed<P(!new)>(t: seq<seq<Block<P>>>, mem: map<nat, P>, pos: seq<nat>, level: nat, bid: nat,
          np: nat, clear: P -> P, s': Stash<P>, path': seq<seq<Block<P>>>, mem': map<nat, P>, b: Block<P>, added: int)
    requires IsTree(t, level) && bid < |pos| && pos[bid] < Pow2(level) && |path'| == level + 1
  {
    && Consistent(s', Pushed(t, path', pos[bid], level, level + 1), mem', pos[bid := np], level)
    && HandsOut(mem, mem', bid, np, clear, b, added)
    && WellEvicted(s'.slots, path', pos[bid := np], pos[bid])
  }

  /** One access from write to write-back keeps the ORAM consistent. */
  lemma AccessKeeps<P(!new)>(s: Stash<P>, t: seq<seq<Block<P>>>, mem: map<nat, P>, pos: seq<nat>, level: nat, bid: nat,
          np: nat, clear: P -> P, s1: Stash<P>, s2: Stash<P>, s3: Stash<P>, path': seq<seq<Block<P>>>, b: Block<P>,
          added: int)
    returns (mem': map<nat, P>)
    requires Consistent(s, t, mem, pos, level) && bid < |pos| <= DUMMY_FLAG && np < Pow2(level)
    requires var path := PathOf(t, pos[bid], level);
             && Roomy(s, path)
             && s1 == WriteRows(s, path)
             && LookupSlot(s1, bid) < MAX_STASH_NUM && (s2, b) == Lookup(s1, bid, np, clear)
             && added == (if FirstWithId(s1.slots, 0, s1.length, bid) < s1.length then 0 else 1)
             && s2.length <= MAX_STASH_NUM
             && var r := Evict(s2.slots, path, s2.length, pos[bid := np], pos[bid]);
                multiset(s3.slots) == multiset(r.0) && s3.TailFree() && path' == r.1
    ensures Accessed(t, mem, pos, level, bid, np, clear, s3, path', mem', b, added)
  {
    var leaf, pos' := pos[bid], pos[bid := np];
    hide Consistent, MidAccess, WellEvicted, Evict, Lookup, LookupSlot, FirstWithId, WriteRows;
    var path := PathOf(t, leaf, level);
    mem' := LookupKeeps(s, t, mem, pos, level, bid, np, clear);
    MidTail(s2, t, path, mem', pos');
    EvictShape(s2, path, pos', leaf);
    EvictedWell(s2, s3, path, pos', leaf);
    ConsistentParts(s, t, mem, pos, level);
    AccessFinishes(s2, t, mem', pos', level, leaf, s3, path');
  }

  lemma ConsistentParts<P(!new)>(s: Stash<P>, t: seq<seq<Block<P>>>, mem: map<nat, P>, pos: seq<nat>, level: nat)
    requires Consistent(s, t, mem, pos, level)
    ensures Placed(t, level) && forall id :: 0 <= id < |pos| ==> pos[id] < Pow2(level)
  {}

  lemma AccessFinishes<P(!new)>(s2: Stash<P>, t: seq<seq<Block<P>>>, mem': map<nat, P>, pos': seq<nat>, level: nat,
          leaf: nat, s3: Stash<P>, path': seq<seq<Block<P>>>)
    requires Placed(t, level) && leaf < Pow2(level) && MidAccess(s2, t, PathOf(t, leaf, level), mem', pos')
    requires forall id :: 0 <= id < |pos'| ==> pos'[id] < Pow2(level)
    requires var r := Evict(s2.slots, PathOf(t, leaf, level), s2.length, pos', leaf);
             multiset(s3.slots) == multiset(r.0) && s3.TailFree() && path' == r.1
    ensures Consistent(s3, Pushed(t, path', leaf, level, level + 1), mem', pos', level)
  {
    var r := Evict(s2.slots, PathOf(t, leaf, level), s2.length, pos', leaf);
    assert |r.1| == level + 1;
    hide Consistent, Census, Evict, Pushed, Load, Sum, SumOf, PlacedAt, PathOf;
    WrittenBack(s2, t, leaf, level, mem', pos');
    Recompressed(Stash(r.0, s2.length), s3, Pushed(t, r.1, leaf, level, level + 1), mem', pos', level);
  }

  // ----- the direct access

  lemma {:induction false} PutNextIds<P>(c: Cursor<P>, b: Block<P>, n: nat)
    requires c.Within() && IdsBelow(c.stash.slots, n) && (b.id < n || !Real(b))
    ensures IdsBelow(PutNext(c, b).stash.slots, n)
    decreases MAX_STASH_NUM - c.stash.length
  {
    var s := c.stash;
    var k := FirstFree(s.slots, c.pos, s.length);
    if Real(b) && k == s.length && c.pos < s.length && s.length + 8 <= MAX_STASH_NUM {
      PutNextIds(Cursor(Stash(s.slots, s.length + 8), s.length), b, n);
    } else {
    }
  }

  lemma {:induction false} PutRowIds<P>(c: Cursor<P>, bs: seq<Block<P>>, n: nat)
    requires c.Within() && IdsBelow(c.stash.slots, n) && IdsBelow(bs, n)
    ensures IdsBelow(PutRow(c, bs).stash.slots, n)
    decreases |bs|
  {
    if bs == [] {
    } else {
      var m := |bs| - 1;
      PutRowIds(c, bs[..m], n);
      PutNextIds(PutRow(c, bs[..m]), bs[m], n);
    }
  }

  /** The direct write keeps ids in range. */
  lemma {:induction false} PutRowsIds<P>(c: Cursor<P>, t: seq<seq<Block<P>>>, n: nat)
    requires c.Within() && IdsBelow(c.stash.slots, n) && forall i :: 0 <= i < |t| ==> IdsBelow(t[i], n)
    ensures IdsBelow(PutRows(c, t).stash.slots, n)
    decreases |t|
  {
    if t == [] {
    } else {
      var m := |t| - 1;
      PutRowsIds(c, t[..m], n);
      PutRowIds(PutRows(c, t[..m]), t[m], n);
    }
  }

  /** The path written directly leaves the middle of an access without the blocks lost. */
  lemma DirectWritten<P(!new)>(s: Stash<P>, t: seq<seq<Block<P>>>, leaf: nat, mem: map<nat, P>, pos: seq<nat>,
          level: nat)
    returns (lost: set<nat>)
    requires Consistent(s, t, mem, pos, level) && leaf < Pow2(level) && Roomy(s, PathOf(t, leaf, level))
    ensures var path := PathOf(t, leaf, level);
            var s1 := PutRows(Cursor(s, 0), path).stash;
            && lost <= mem.Keys && |lost| == LostCount(s, path)
            && s1.TailFree() && Load(s1) <= MAX_STASH_NUM - 8 && s.length <= s1.length
            && MidAccess(s1, t, path, mem - lost, pos)
  {
    hide Census, Load, LostCount, MidAccess;
    var path := PathOf(t, leaf, level);
    var blocks := LostRows(Cursor(s, 0), path);
    DirectWriteLost(s, path);
    PathWrittenExcept(s, t, leaf, mem, pos, level, PutRows(Cursor(s, 0), path).stash, blocks);
    lost := IdsOf(blocks);
  }

  /** The stash was long enough for the blocks in it just before the eviction. */
  ghost predicate Stretched<P>(t: seq<seq<Block<P>>>, path: seq<seq<Block<P>>>, mem': map<nat, P>, length: nat) {
    |mem'| + SumOf(path, Occupied()) <= SumOf(t, Occupied()) + length
  }

  lemma MidStretched<P(!new)>(s: Stash<P>, t: seq<seq<Block<P>>>, path: seq<seq<Block<P>>>, mem: map<nat, P>,
          pos: seq<nat>)
    requires MidAccess(s, t, path, mem, pos)
    ensures Stretched(t, path, mem, s.length)
  {
    FullStash(s);
  }

  lemma EvictShape<P>(s: Stash<P>, path: seq<seq<Block<P>>>, pos: seq<nat>, leaf: nat)
    requires s.Fits()
    ensures var r := Evict(s.slots, path, s.length, pos, leaf); |r.0| == |s.slots| && |r.1| == |path|
  {}

  /** The eviction, whether or not the stash is rearranged afterwards. */
  lemma EvictedWell<P(!new)>(s: Stash<P>, s': Stash<P>, path: seq<seq<Block<P>>>, pos: seq<nat>, leaf: nat)
    requires s.TailFree()
    requires var r := Evict(s.slots, path, s.length, pos, leaf);
             |r.0| == |s.slots| && multiset(s'.slots) == multiset(r.0)
    ensures WellEvicted(s'.slots, Evict(s.slots, path, s.length, pos, leaf).1, pos, leaf)
  {
    hide EvictFrom, Deepest, Greedy;
    var r := Evict(s.slots, path, s.length, pos, leaf);
    EvictDeepest(s.slots, path, s.length, pos, leaf);
    EvictFromProperties(s.slots, FreedRows(path), |path|, s.length, pos, leaf);
    GreedyPermuted(r.0, s'.slots, s.length, r.1, pos, leaf);
  }

  /** One direct access from write to write-back: apart from the blocks lost it keeps the ORAM consistent. */
  lemma DirectKeeps<P(!new)>(s: Stash<P>, t: seq<seq<Block<P>>>, mem: map<nat, P>, pos: seq<nat>, level: nat, bid: nat,
          np: nat, clear: P -> P, s1: Stash<P>, s2: Stash<P>, s3: Stash<P>, path': seq<seq<Block<P>>>, b: Block<P>,
          added: int)
    returns (mem': map<nat, P>, lost: set<nat>)
    requires Consistent(s, t, mem, pos, level) && bid < |pos| <= DUMMY_FLAG && np < Pow2(level)
    requires var path := PathOf(t, pos[bid], level);
             && Roomy(s, path)
             && s1 == PutRows(Cursor(s, 0), path).stash
             && LookupSlot(s1, bid) < MAX_STASH_NUM && (s2, b) == Lookup(s1, bid, np, clear)
             && added == (if FirstWithId(s1.slots, 0, s1.length, bid) < s1.length then 0 else 1)
             && s2.length <= MAX_STASH_NUM
             && (s3.slots, path') == Evict(s2.slots, path, s2.length, pos[bid := np], pos[bid])
             && s3.length == s2.length
    ensures var path := PathOf(t, pos[bid], level);
            && lost <= mem.Keys && |lost| == LostCount(s, path) && |path'| == |path|
            && Accessed(t, mem - lost, pos, level, bid, np, clear, s3, path', mem', b, added)
            && Stretched(t, path, mem', s3.length) && s.length <= s3.length
  {
    hide Census, Load, LostCount, MidAccess, PutRows, Lookup, LookupSlot, FirstWithId, Evict, Stretched, WellEvicted;
    var leaf, pos' := pos[bid], pos[bid := np];
    var path := PathOf(t, leaf, level);
    lost := DirectWritten(s, t, leaf, mem, pos, level);
    mem' := LookupFrom(s, t, mem, s1, mem - lost, pos, level, bid, np, clear);
    MidTail(s2, t, path, mem', pos');
    MidStretched(s2, t, path, mem', pos');
    EvictShape(s2, path, pos', leaf);
    EvictedWell(s2, s3, path, pos', leaf);
    WrittenBack(s2, t, leaf, level, mem', pos');
  }

  lemma MadeStep<P(!new)>(o: Oram<P>, o': Oram<P>, bid: nat, np: nat, clear: P -> P, b: Block<P>)
    requires Consistent(o'.stash, o'.tree, o'.mem, o'.pos, o'.level) && o'.level == o.level
    requires bid < |o.pos| && o'.pos == o.pos[bid := np]
    requires HandsOut(o.mem, o'.mem, bid, np, clear, b, o'.added - o.added) && EvictedTo(o', o.pos[bid])
    ensures Step(o, o', bid, np, clear, b)
  {
    hide Consistent, HandsOut, EvictedTo;
  }

  lemma MadeDirectStep<P(!new)>(o: Oram<P>, o': Oram<P>, bid: nat, np: nat, clear: P -> P, b: Block<P>, lost: set<nat>)
    requires Consistent(o'.stash, o'.tree, o'.mem, o'.pos, o'.level) && o'.level == o.level
    requires bid < |o.pos| && o'.pos == o.pos[bid := np] && lost <= o.mem.Keys
    requires HandsOut(o.mem - lost, o'.mem, bid, np, clear, b, o'.added - o.added) && EvictedTo(o', o.pos[bid])
    ensures DirectStep(o, o', bid, np, clear, b, lost)
  {
    hide Consistent, HandsOut, EvictedTo;
  }

  lemma MidTail<P(!new)>(s: Stash<P>, t: seq<seq<Block<P>>>, path: seq<seq<Block<P>>>, mem: map<nat, P>, pos: seq<nat>)
    requires MidAccess(s, t, path, mem, pos)
    ensures s.TailFree()
  {}

  lemma LaterIdOrder<P(!new)>()
    ensures StrictWeakOrder<Block<P>>(LaterId)
  {}

  /** Sorting a prefix by id rearranges the whole row. */
  lemma PrefixSorted<P(!new)>(s: seq<Block<P>>, r: seq<Block<P>>, len: nat)
    requires SortedFrom(s, r, 0, len, LaterId, true)
    ensures multiset(r) == multiset(s) && r[len..] == s[len..]
    ensures forall i, j :: 0 <= i < j < len ==> r[i].id <= r[j].id
  {
    assert s == s[0..len] + s[len..] && r == r[0..len] + r[len..];
    forall i, j | 0 <= i < j < len
      ensures r[i].id <= r[j].id
    {
      assert !LaterId(r[i], r[j]);
    }
  }

  class FOSketch<P(!new)> {
    const sketchType: SketchType
    /** What zeroing the first nRecord bytes behind id and position makes of a payload. */
    const clear: P -> P
    const nRecord: nat
    const sizeBucket: nat
    const needComStash: bool
    var level: nat
    var nLeaf: nat
    var nBucket: nat
    var nBlock: nat
    /** The buckets, as a heap: the root first, the children of node h at 2h and 2h + 1. */
    var OblivSK: array<seq<Block<P>>>
    /** The leaf each block is mapped to. */
    var pos_map: array<nat>
    /** All slots the stash may use; the first length_st are in use. */
    var stash: array<Block<P>>
    var length_st: nat
    /** How many blocks accesses have added. */
    var global_added: nat

    /** The blocks that exist, by id, and what they hold. */
    ghost var mem: map<nat, P>

    constructor (stype: SketchType, nRec: nat, sizeBk: nat, compStash: bool, clr: P -> P)
      ensures sketchType == stype && nRecord == nRec && sizeBucket == sizeBk && needComStash == compStash &&
              clear == clr
      ensures fresh(OblivSK) && fresh(pos_map) && fresh(stash) && global_added == 0
    {
      sketchType, nRecord, sizeBucket, needComStash, clear := stype, nRec, sizeBk, compStash, clr;
      level, nLeaf, nBucket, nBlock, length_st, global_added := 0, 0, 0, 0, 0, 0;
      OblivSK, pos_map, stash := new seq<Block<P>>[0], new nat[0], new Block<P>[0];
      mem := map[];
    }

    // ----- the state

    /** What every access relies on for memory safety, even after a stash overflow. */
    ghost predicate Shape()
      reads this, OblivSK, pos_map, stash
    {
      && nRecord > 0
      && nBlock <= DUMMY_FLAG
      && nLeaf == Pow2(level) && nBucket == OblivSK.Length && IsTree(OblivSK[..], level)
      && pos_map.Length == nBlock && stash.Length == MAX_STASH_NUM && length_st <= MAX_STASH_NUM
      && (forall id :: 0 <= id < nBlock ==> pos_map[id] < nLeaf)
      && RowsOk(OblivSK[..], sizeBucket, nBlock)
      && IdsBelow(stash[..], nBlock)
    }

    ghost function State(): Stash<P>
      reads this, stash
    {
      Stash(stash[..], length_st)
    }

    ghost function Abstract(): Oram<P>
      reads this, OblivSK, pos_map, stash
    {
      Oram(State(), OblivSK[..], pos_map[..], level, mem, global_added)
    }

    ghost predicate Valid()
      reads this, OblivSK, pos_map, stash
    {
      && Shape()
      && length_st >= DEFAULT_STASH_LENGTH
      && Sound(Abstract())
    }

    // ----- paths

    method ReadPath(Path: array<seq<Block<P>>>, leaf: nat)
      requires Shape() && leaf < nLeaf && Path.Length == level + 1 && Path != OblivSK
      modifies Path
      ensures Path[..] == PathOf(OblivSK[..], leaf, level) && RowsOk(Path[..], sizeBucket, nBlock)
    {
      hide Node, Pow2, RowsOk, MaskBit, IsTree, IdsBelow;
      ghost var t := OblivSK[..];
      TreeNodes(t, leaf, level);
      var delta := 1;
      var mask: nat := if level == 0 then 0 else Pow2(level - 1);
      Path[0] := OblivSK[0];
      var i := 1;
      while i <= level
        invariant 1 <= i <= level + 1
        invariant AtNode(delta, mask, leaf, level, i)
        invariant forall x: nat :: x < i ==> Path[x] == t[Node(leaf, level, x) - 1]
      {
        delta, mask := NextNode(delta, mask, leaf, level, i);
        Path[i] := OblivSK[delta - 1];
        i := i + 1;
      }
      PathRead(t, Path[..], leaf, level, sizeBucket, nBlock);
    }

    method PushPath(Path: array<seq<Block<P>>>, leaf: nat)
      requires Shape() && leaf < nLeaf && Path.Length == level + 1 && Path != OblivSK
      requires RowsOk(Path[..], sizeBucket, nBlock)
      modifies OblivSK
      ensures Shape() && OblivSK[..] == Pushed(old(OblivSK[..]), Path[..], leaf, level, level + 1)
    {
      hide Node, Pow2, RowsOk, MaskBit, IsTree, IdsBelow, Pushed;
      ghost var t := OblivSK[..];
      TreeNodes(t, leaf, level);
      var delta := 1;
      var mask: nat := if level == 0 then 0 else Pow2(level - 1);
      OblivSK[0] := Path[0];
      PushedNext(t, Path[..], leaf, level, 0);
      var i := 1;
      while i <= level
        invariant 1 <= i <= level + 1
        invariant AtNode(delta, mask, leaf, level, i)
        invariant OblivSK[..] == Pushed(t, Path[..], leaf, level, i)
      {
        delta, mask := NextNode(delta, mask, leaf, level, i);
        OblivSK[delta - 1] := Path[i];
        PushedNext(t, Path[..], leaf, level, i);
        i := i + 1;
      }
      PushedRows(t, Path[..], leaf, level, level + 1, sizeBucket, nBlock);
    }

    // ----- writing to the stash

    /** The inner loop: one block of the path is offered to every slot of the stash. */
    method OWriteBlock(b: Block<P>)
      requires stash.Length == MAX_STASH_NUM && length_st <= MAX_STASH_NUM
      modifies stash, `length_st
      ensures length_st <= MAX_STASH_NUM
      ensures forall k :: 0 <= k < MAX_STASH_NUM ==> stash[k] == old(stash[k]) || stash[k] == b
      ensures old(State()).TailFree() ==> State() == WriteBlock(old(State()), b)
    {
      ghost var len := length_st;
      ghost var tail := State().TailFree();
      var found := false;
      var j := 0;
      while j < length_st
        invariant 0 <= j <= length_st <= MAX_STASH_NUM
        invariant forall k :: 0 <= k < MAX_STASH_NUM ==> stash[k] == old(stash[k]) || stash[k] == b
        invariant !found ==> stash[..] == old(stash[..])
        invariant !Real(b) ==> !found && length_st == len
        invariant tail && Real(b) && !found ==> j < length_st && forall k :: 0 <= k < j ==> Real(stash[k])
        invariant tail && !found ==> length_st == len || (j == len && length_st == len + PACE_STASH)
        invariant tail && found ==> State() == WriteBlock(Stash(old(stash[..]), len), b)
        decreases MAX_STASH_NUM - j
      {
        var flagS := stash[j].id;
        var cond := flagS == DUMMY_FLAG && b.id != DUMMY_FLAG;
        if cond && !found {
          stash[j] := b;
        }
        if j == length_st - 1 && !found && flagS != DUMMY_FLAG && b.id != DUMMY_FLAG {
          length_st := length_st + PACE_STASH;
          if length_st > MAX_STASH_NUM {
            length_st := length_st - 8;
            break;
          }
        }
        if !found && cond {
          found := true;
        }
        j := j + 1;
      }
    }

    method OWriteToStash(Path: array<seq<Block<P>>>)
      requires stash.Length == MAX_STASH_NUM && length_st <= MAX_STASH_NUM
      requires IdsBelow(stash[..], nBlock) && RowsOk(Path[..], sizeBucket, nBlock)
      modifies stash, `length_st
      ensures length_st <= MAX_STASH_NUM && IdsBelow(stash[..], nBlock)
      ensures old(State()).TailFree() && Roomy(old(State()), Path[..]) ==> State() == WriteRows(old(State()), Path[..])
    {
      var i := 0;
      while i < Path.Length
        invariant 0 <= i <= Path.Length
        invariant length_st <= MAX_STASH_NUM && IdsBelow(stash[..], nBlock)
        invariant old(State()).TailFree() && Roomy(old(State()), Path[..]) ==>
                    State() == WriteRows(old(State()), Path[..i])
      {
        ghost var before := State();
        var j := 0;
        while j < sizeBucket
          invariant 0 <= j <= sizeBucket
          invariant length_st <= MAX_STASH_NUM && IdsBelow(stash[..], nBlock)
          invariant old(State()).TailFree() && Roomy(old(State()), Path[..]) ==>
                      State() == WriteRow(before, Path[i][..j])
        {
          if old(State()).TailFree() && Roomy(old(State()), Path[..]) {
            TailStaysFree(old(State()), Path[..], i, j);
            assert Path[i][..j + 1][..j] == Path[i][..j];
          }
          OWriteBlock(Path[i][j]);
          j := j + 1;
        }
        assert Path[i][..sizeBucket] == Path[i] && Path[..i + 1][..i] == Path[..i];
        i := i + 1;
      }
      assert Path[..Path.Length] == Path[..];
    }

    /** The inner loop of the direct write: the search goes on from slot pos_st. */
    method WriteNext(b: Block<P>, pos_st: nat) returns (pos: nat)
      requires Cursor(State(), pos_st).Within()
      modifies stash, `length_st
      ensures Cursor(State(), pos).Within() && Cursor(State(), pos) == PutNext(Cursor(old(State()), pos_st), b)
    {
      ghost var c := Cursor(State(), pos_st);
      pos := pos_st;
      if b.id == DUMMY_FLAG {
        return;
      }
      while pos < length_st
        invariant Cursor(State(), pos).Within() && PutNext(Cursor(State(), pos), b) == PutNext(c, b)
        decreases MAX_STASH_NUM - pos
      {
        hide PutNext;
        PutNextStep(Cursor(State(), pos), b);
        if stash[pos].id != DUMMY_FLAG {
          if pos == length_st - 1 {
            length_st := length_st + 8;
            if length_st > MAX_STASH_NUM {
              length_st := length_st - 8;
              break;
            }
          }
          pos := pos + 1;
          continue;
        } else {
          stash[pos] := b;
        }
        pos := pos + 1;
        break;
      }
    }

    /** The direct write of a path, which never goes back to an earlier slot. */
    method WriteToStash(Path: array<seq<Block<P>>>)
      requires State().Fits() && Path.Length == level + 1 && forall i :: 0 <= i <= level ==> |Path[i]| == sizeBucket
      modifies stash, `length_st
      ensures State().Fits() && State() == PutRows(Cursor(old(State()), 0), Path[..]).stash
    {
      hide PutNext;
      ghost var c := Cursor(State(), 0);
      var pos_st := 0;
      var i := 0;
      while i < Path.Length
        invariant 0 <= i <= Path.Length && Cursor(State(), pos_st) == PutRows(c, Path[..i])
      {
        ghost var before := Cursor(State(), pos_st);
        var j := 0;
        while j < sizeBucket
          invariant 0 <= j <= sizeBucket && Cursor(State(), pos_st) == PutRow(before, Path[i][..j])
        {
          assert Path[i][..j + 1][..j] == Path[i][..j];
          pos_st := WriteNext(Path[i][j], pos_st);
          j := j + 1;
        }
        assert Path[i][..sizeBucket] == Path[i] && Path[..i + 1][..i] == Path[..i];
        i := i + 1;
      }
      assert Path[..Path.Length] == Path[..];
    }

    // ----- looking a block up

    /**
      The block bid moves to the leaf pos and is copied out; if it is nowhere it appears,
      cleared, in the first free slot, and a full stash first grows by 8.
     */
    method OReadFromStash(bid: nat, pos: nat, buf: Block<P>) returns (found: bool, blk: Block<P>)
      requires State().Fits() && bid < nBlock == pos_map.Length <= DUMMY_FLAG
      requires IdsBelow(stash[..], nBlock)
      modifies stash, pos_map, `length_st, `global_added
      ensures State().Fits() && IdsBelow(stash[..], nBlock) && length_st >= old(length_st)
      ensures pos_map[..] == old(pos_map[..])[bid := pos]
      ensures var s := old(State());
              s.TailFree() && Load(s) <= MAX_STASH_NUM - 8 ==>
                && LookupSlot(s, bid) < MAX_STASH_NUM
                && found && (State(), blk) == Lookup(s, bid, pos, clear)
                && global_added == old(global_added) +
                     if FirstWithId(s.slots, 0, s.length, bid) < s.length then 0 else 1
    {
      hide FirstFree, FirstWithId, Load, Sum, IdsBelow;
      ghost var s := State();
      pos_map[bid] := pos;
      if s.TailFree() && Load(s) <= MAX_STASH_NUM - 8 {
        RoomToGrow(s);
      }
      found, blk := OFindBlock(bid, pos, buf);
      if !found {
        found, blk := OInsertBlock(bid, pos, blk);
      }
    }

    /** The first loop of the lookup: the block is found and moved. */
    method OFindBlock(bid: nat, pos: nat, buf: Block<P>) returns (found: bool, blk: Block<P>)
      requires State().Fits() && bid < nBlock && IdsBelow(stash[..], nBlock)
      modifies stash
      ensures IdsBelow(stash[..], nBlock)
      ensures var h := FirstWithId(old(stash[..]), 0, length_st, bid);
              if h < length_st
              then found && blk == old(stash[h]).(pos := pos) && stash[..] == old(stash[..])[h := blk]
              else !found && blk == buf && stash[..] == old(stash[..])
    {
      ghost var st := stash[..];
      blk := buf;
      found := false;
      var i := 0;
      while i < length_st
        invariant 0 <= i <= length_st
        invariant IdsBelow(stash[..], nBlock)
        invariant !found ==> stash[..] == st && blk == buf && forall k :: 0 <= k < i ==> st[k].id != bid
        invariant found ==> var h := FirstWithId(st, 0, length_st, bid);
                            h < i && blk == st[h].(pos := pos) && stash[..] == st[h := blk]
      {
        var cond := stash[i].id == bid;
        var tmp := stash[i].pos;
        stash[i] := stash[i].(pos := OMove(pos, tmp, cond && !found));
        blk := OMove(stash[i], blk, cond && !found);
        if !found && cond {
          found := true;
        }
        i := i + 1;
      }
    }

    /** The second loop of the lookup: the block appears in the first free slot. */
    method OInsertBlock(bid: nat, pos: nat, buf: Block<P>) returns (found: bool, blk: Block<P>)
      requires stash.Length == MAX_STASH_NUM && length_st <= MAX_STASH_NUM && bid < nBlock <= DUMMY_FLAG
      requires IdsBelow(stash[..], nBlock)
      modifies stash, `length_st, `global_added
      ensures old(length_st) <= length_st <= MAX_STASH_NUM && IdsBelow(stash[..], nBlock)
      ensures var st, len := old(stash[..]), old(length_st);
              var e := FirstFree(st, 0, len);
              old(State()).TailFree() && (e < len || len + 8 <= MAX_STASH_NUM) ==>
                && e < MAX_STASH_NUM
                && found && blk == Block(bid, pos, clear(st[e].payload))
                && stash[..] == st[e := blk] && length_st == (if e < len then len else len + 8)
                && global_added == old(global_added) + 1
    {
      ghost var st, len := stash[..], length_st;
      ghost var room := State().TailFree() && (FirstFree(st, 0, len) < len || len + 8 <= MAX_STASH_NUM);
      found, blk := false, buf;
      var i := 0;
      while i < length_st
        invariant 0 <= i <= length_st <= MAX_STASH_NUM && len <= length_st && !found
        invariant stash[..] == st && global_added == old(global_added)
        invariant forall k :: 0 <= k < i ==> Real(st[k])
        invariant room ==> i < length_st && (length_st == len || (i == len && length_st == len + 8))
        decreases MAX_STASH_NUM - i
      {
        if stash[i].id == DUMMY_FLAG {
          stash[i] := Block(bid, pos, clear(stash[i].payload));
          blk := stash[i];
          found := true;
          global_added := global_added + 1;
          break;
        }
        if i == length_st - 1 {
          length_st := length_st + 8;
          if length_st > MAX_STASH_NUM {
            length_st := length_st - 8;
            break;
          }
        }
        i := i + 1;
      }
    }

    /** The direct lookup stops at the block it looks for; otherwise it inserts it in the same way. */
    method ReadFromStash(bid: nat, pos: nat, buf: Block<P>) returns (found: bool, blk: Block<P>)
      requires State().Fits() && bid < nBlock == pos_map.Length <= DUMMY_FLAG
      requires IdsBelow(stash[..], nBlock)
      modifies stash, pos_map, `length_st, `global_added
      ensures State().Fits() && IdsBelow(stash[..], nBlock) && length_st >= old(length_st)
      ensures pos_map[..] == old(pos_map[..])[bid := pos]
      ensures var s := old(State());
              s.TailFree() && Load(s) <= MAX_STASH_NUM - 8 ==>
                && LookupSlot(s, bid) < MAX_STASH_NUM
                && found && (State(), blk) == Lookup(s, bid, pos, clear)
                && global_added == old(global_added) +
                     if FirstWithId(s.slots, 0, s.length, bid) < s.length then 0 else 1
    {
      hide FirstFree, FirstWithId, Load, Sum, IdsBelow;
      ghost var s := State();
      pos_map[bid] := pos;
      if s.TailFree() && Load(s) <= MAX_STASH_NUM - 8 {
        RoomToGrow(s);
      }
      found, blk := FindBlock(bid, pos, buf);
      if !found {
        found, blk := OInsertBlock(bid, pos, blk);
      }
    }

    /** The first loop of the direct lookup, which ends at the block. */
    method FindBlock(bid: nat, pos: nat, buf: Block<P>) returns (found: bool, blk: Block<P>)
      requires State().Fits() && bid < nBlock && IdsBelow(stash[..], nBlock)
      modifies stash
      ensures IdsBelow(stash[..], nBlock)
      ensures var h := FirstWithId(old(stash[..]), 0, length_st, bid);
              if h < length_st
              then found && blk == old(stash[h]).(pos := pos) && stash[..] == old(stash[..])[h := blk]
              else !found && blk == buf && stash[..] == old(stash[..])
    {
      ghost var st := stash[..];
      found, blk := false, buf;
      var i := 0;
      while i < length_st
        invariant 0 <= i <= length_st && !found && blk == buf && stash[..] == st
        invariant forall k :: 0 <= k < i ==> st[k].id != bid
      {
        found := stash[i].id == bid;
        if found {
          stash[i] := stash[i].(pos := pos);
          blk := stash[i];
          return;
        }
        i := i + 1;
      }
    }

    // ----- eviction

    /** One scan of the stash for path slot j of level i. */
    method OEvictSlot(Path: array<seq<Block<P>>>, leaf: nat, i: nat, j: nat, size_st: nat)
      requires size_st <= stash.Length && i <= level && Path.Length == level + 1 && j < |Path[i]|
      requires IdsBelow(stash[..], nBlock) && nBlock == pos_map.Length <= DUMMY_FLAG && !Real(Path[i][j])
      requires Path != OblivSK
      modifies Path, stash
      ensures IdsBelow(stash[..], nBlock)
      ensures var k := FirstEligible(old(stash[..]), 0, size_st, pos_map[..], leaf, level - i);
              if k < size_st then
                && stash[..] == old(stash[..])[k := Freed(old(stash[k]))]
                && Path[..] == old(Path[..])[i := old(Path[i])[j := old(stash[k])]]
              else stash[..] == old(stash[..]) && Path[..] == old(Path[..])
    {
      ghost var st, path := stash[..], Path[..];
      var found, cond := false, false;
      var k := 0;
      while k < size_st
        invariant 0 <= k <= size_st && IdsBelow(stash[..], nBlock)
        invariant !found ==> !cond && stash[..] == st && Path[..] == path
        invariant !found ==> forall x :: 0 <= x < k ==> !Eligible(st[x], pos_map[..], leaf, level - i)
        invariant found ==> var e := FirstEligible(st, 0, size_st, pos_map[..], leaf, level - i);
                            && e < k && stash[..] == st[e := Freed(st[e])]
                            && Path[..] == path[i := path[i][j := st[e]]]
      {
        var flagS := stash[k].id;
        if flagS != DUMMY_FLAG {
          cond := Shr(pos_map[flagS], level - i) == Shr(leaf, level - i);
        }
        ghost var bk, take := Path[i], cond && !found;
        assert bk[j := bk[j]] == bk;
        Path[i] := Path[i][j := OMove(stash[k], Path[i][j], cond && !found)];
        stash[k] := stash[k].(id := OMove(DUMMY_FLAG, stash[k].id, cond && !found));
        assert take ==> k == FirstEligible(st, 0, size_st, pos_map[..], leaf, level - i);
        found := OMove(true, found, cond && !found);
        cond := OMove(false, cond, cond && !found);
        k := k + 1;
      }
    }

    /** Marks every slot of the path free. */
    method FreePath(Path: array<seq<Block<P>>>)
      requires Path != OblivSK
      modifies Path
      ensures Path[..] == FreedRows(old(Path[..]))
    {
      ghost var path := Path[..];
      var i := 0;
      while i < Path.Length
        invariant 0 <= i <= Path.Length
        invariant forall x :: 0 <= x < Path.Length ==> Path[x] == if x < i then FreedRow(path[x]) else path[x]
      {
        var j := 0;
        while j < |Path[i]|
          invariant 0 <= j <= |Path[i]| == |path[i]|
          invariant forall x :: 0 <= x < |path[i]| ==> Path[i][x] == if x < j then Freed(path[i][x]) else path[i][x]
          invariant forall x :: 0 <= x < Path.Length && x != i ==>
                      Path[x] == if x < i then FreedRow(path[x]) else path[x]
        {
          Path[i] := Path[i][j := Path[i][j].(id := DUMMY_FLAG)];
          j := j + 1;
        }
        assert Path[i] == FreedRow(path[i]);
        i := i + 1;
      }
    }

    /** What the eviction methods need of the path they fill. */
    ghost predicate PathShape(Path: array<seq<Block<P>>>)
      reads this, Path, stash, pos_map
    {
      && Path.Length == level + 1 && Path != OblivSK
      && (forall i :: 0 <= i <= level ==> |Path[i]| == sizeBucket)
      && length_st <= stash.Length && IdsBelow(stash[..], nBlock) && nBlock == pos_map.Length <= DUMMY_FLAG
    }

    /** One level of the oblivious eviction. */
    method OEvictBucket(Path: array<seq<Block<P>>>, leaf: nat, i: nat, size_st: nat)
      requires PathShape(Path) && i <= level && size_st == length_st && AllFree(Path[i])
      modifies Path, stash
      ensures PathShape(Path) && Path[..] == old(Path[..])[i := Path[i]]
      ensures (stash[..], Path[i]) == FillBucket(old(stash[..]), old(Path[i]), 0, size_st, pos_map[..], leaf, level - i)
    {
      ghost var st, path := stash[..], Path[..];
      var j := 0;
      while j < sizeBucket
        invariant 0 <= j <= sizeBucket && PathShape(Path)
        invariant Path[..] == path[i := Path[i]]
        invariant forall x :: j <= x < sizeBucket ==> !Real(Path[i][x])
        invariant FillBucket(st, path[i], 0, size_st, pos_map[..], leaf, level - i)
               == FillBucket(stash[..], Path[i], j, size_st, pos_map[..], leaf, level - i)
      {
        OEvictSlot(Path, leaf, i, j, size_st);
        j := j + 1;
      }
    }

    /** The oblivious eviction: for every path slot the whole stash is scanned again. */
    method OEvict(Path: array<seq<Block<P>>>, leaf: nat)
      requires PathShape(Path)
      modifies Path, stash
      ensures PathShape(Path)
      ensures (stash[..], Path[..]) == Evict(old(stash[..]), old(Path[..]), length_st, pos_map[..], leaf)
      ensures Deepest(Path[..], pos_map[..], leaf) && Greedy(stash[..length_st], Path[..], pos_map[..], leaf)
    {
      var size_st := length_st;
      FreePath(Path);
      ghost var st0, path0 := stash[..], Path[..];
      var i: int := level;
      while i >= 0
        invariant -1 <= i <= level && PathShape(Path)
        invariant forall x :: 0 <= x <= i ==> AllFree(Path[x])
        invariant EvictFrom(st0, path0, level + 1, size_st, pos_map[..], leaf)
               == EvictFrom(stash[..], Path[..], i + 1, size_st, pos_map[..], leaf)
      {
        OEvictBucket(Path, leaf, i, size_st);
        i := i - 1;
      }
      EvictDeepest(old(stash[..]), old(Path[..]), length_st, pos_map[..], leaf);
      assert stash[..][..length_st] == stash[..length_st];
    }

    /** One level of the direct eviction. */
    method EvictBucket(Path: array<seq<Block<P>>>, leaf: nat, i: nat, size_st: nat)
      requires PathShape(Path) && i <= level && size_st == length_st
      modifies Path, stash
      ensures PathShape(Path) && Path[..] == old(Path[..])[i := Path[i]]
      ensures (stash[..], Path[i]) == FillBucket(old(stash[..]), old(Path[i]), 0, size_st, pos_map[..], leaf, level - i)
    {
      ghost var st, path := stash[..], Path[..];
      var k := 0;
      var j := 0;
      while j < sizeBucket
        invariant 0 <= j <= sizeBucket && k <= size_st && PathShape(Path)
        invariant Path[..] == path[i := Path[i]]
        invariant forall x :: 0 <= x < k ==> !Eligible(stash[x], pos_map[..], leaf, level - i)
        invariant FillBucket(st, path[i], 0, size_st, pos_map[..], leaf, level - i)
               == FillBucket(stash[..], Path[i], j, size_st, pos_map[..], leaf, level - i)
      {
        k := EvictNext(Path, leaf, i, j, k, size_st);
        j := j + 1;
      }
    }

    /** The direct eviction: at each level one pass over the stash fills the bucket. */
    method RebuildStash(Path: array<seq<Block<P>>>, leaf: nat)
      requires PathShape(Path)
      modifies Path, stash
      ensures PathShape(Path)
      ensures (stash[..], Path[..]) == Evict(old(stash[..]), old(Path[..]), length_st, pos_map[..], leaf)
      ensures Deepest(Path[..], pos_map[..], leaf) && Greedy(stash[..length_st], Path[..], pos_map[..], leaf)
    {
      var size_st := length_st;
      FreePath(Path);
      ghost var st0, path0 := stash[..], Path[..];
      var i: int := level;
      while i >= 0
        invariant -1 <= i <= level && PathShape(Path)
        invariant EvictFrom(st0, path0, level + 1, size_st, pos_map[..], leaf)
               == EvictFrom(stash[..], Path[..], i + 1, size_st, pos_map[..], leaf)
      {
        EvictBucket(Path, leaf, i, size_st);
        i := i - 1;
      }
      EvictDeepest(old(stash[..]), old(Path[..]), length_st, pos_map[..], leaf);
      assert stash[..][..length_st] == stash[..length_st];
    }

    /** The inner loop of the direct eviction: go on from slot k to the next eligible block. */
    method EvictNext(Path: array<seq<Block<P>>>, leaf: nat, i: nat, j: nat, from: nat, size_st: nat) returns (k: nat)
      requires PathShape(Path) && i <= level && j < sizeBucket && from <= size_st == length_st
      requires forall x :: 0 <= x < from ==> !Eligible(stash[x], pos_map[..], leaf, level - i)
      modifies Path, stash
      ensures PathShape(Path) && from <= k <= size_st
      ensures forall x :: 0 <= x < k ==> !Eligible(stash[x], pos_map[..], leaf, level - i)
      ensures var e := FirstEligible(old(stash[..]), 0, size_st, pos_map[..], leaf, level - i);
              if e < size_st then
                && stash[..] == old(stash[..])[e := Freed(old(stash[e]))]
                && Path[..] == old(Path[..])[i := old(Path[i])[j := old(stash[e])]]
              else stash[..] == old(stash[..]) && Path[..] == old(Path[..])
    {
      ghost var st := stash[..];
      k := from;
      while k < size_st
        invariant from <= k <= size_st && stash[..] == st && Path[..] == old(Path[..])
        invariant forall x :: 0 <= x < k ==> !Eligible(st[x], pos_map[..], leaf, level - i)
      {
        var flagS := stash[k].id;
        if flagS != DUMMY_FLAG {
          if Shr(pos_map[flagS], level - i) == Shr(leaf, level - i) {
            assert k == FirstEligible(st, 0, size_st, pos_map[..], leaf, level - i);
            Path[i] := Path[i][j := stash[k]];
            stash[k] := stash[k].(id := DUMMY_FLAG);
            k := k + 1;
            break;
          }
        }
        k := k + 1;
      }
    }

    /** Sorts the stash in use by id. */
    method SortStash()
      requires stash.Length == MAX_STASH_NUM && length_st <= MAX_STASH_NUM && IdsBelow(stash[..], nBlock)
      modifies stash
      ensures IdsBelow(stash[..], nBlock)
      ensures multiset(stash[..]) == multiset(old(stash[..])) && stash[length_st..] == old(stash[length_st..])
      ensures forall i, j :: 0 <= i < j < length_st ==> stash[i].id <= stash[j].id
    {
      LaterIdOrder<P>();
      var bs := new BitonicSorter<Block<P>>(LaterId);
      bs.Sort(stash, 0, length_st);
      PrefixSorted(old(stash[..]), stash[..], length_st);
      forall k | 0 <= k < MAX_STASH_NUM
        ensures stash[k] in old(stash[..])
      {
        assert stash[..][k] in multiset(stash[..]);
      }
    }

    method CountBlocks() returns (insPos: nat)
      requires length_st <= stash.Length
      ensures insPos == Sum(stash[..length_st], Occupied())
    {
      ghost var row := stash[..length_st];
      insPos := 0;
      var curPos := 0;
      while curPos < length_st
        invariant 0 <= curPos <= length_st == |row|
        invariant insPos == Sum(row[..curPos], Occupied())
      {
        SumTake(row, curPos, Occupied());
        var flagS := stash[curPos].id;
        insPos := OMove(insPos + 1, insPos, flagS != DUMMY_FLAG);
        curPos := curPos + 1;
      }
      assert row[..length_st] == row;
    }

    /** Sorting by id brings the blocks to the front; the stash shrinks to them, or to its default length. */
    method OCompressStash()
      requires State().Fits() && IdsBelow(stash[..], nBlock) && nBlock <= DUMMY_FLAG
      modifies stash, `length_st
      ensures multiset(stash[..]) == multiset(old(stash[..])) && IdsBelow(stash[..], nBlock)
      ensures State().Fits() && length_st >= DEFAULT_STASH_LENGTH
      ensures old(State()).TailFree() ==>
                && State().TailFree()
                && var c := Load(old(State()));
                   length_st == if c < DEFAULT_STASH_LENGTH then DEFAULT_STASH_LENGTH else c
    {
      SortStash();
      var insPos := CountBlocks();
      length_st := OMove(DEFAULT_STASH_LENGTH, insPos, insPos < DEFAULT_STASH_LENGTH);
      OccupiedBound(stash[..old(length_st)]);
      if old(State()).TailFree() {
        CompressedLoad(old(stash[..]), stash[..], old(length_st), length_st);
      }
    }

    /** The oblivious eviction followed, when asked for, by compression. */
    method ORebuildStash(Path: array<seq<Block<P>>>, leaf: nat)
      requires PathShape(Path) && State().Fits()
      modifies Path, stash, `length_st
      ensures IdsBelow(stash[..], nBlock) && State().Fits() && Path.Length == level + 1
      ensures RowsOk(Path[..], sizeBucket, nBlock)
      ensures needComStash ==> length_st >= DEFAULT_STASH_LENGTH
      ensures !needComStash ==> length_st == old(length_st)
      ensures Deepest(Path[..], pos_map[..], leaf)
      ensures old(State()).TailFree() ==>
                && Greedy(stash[..], Path[..], pos_map[..], leaf)
                && Lengthened(old(State()), State(), needComStash)
      ensures var (st, path) := Evict(old(stash[..]), old(Path[..]), old(length_st), pos_map[..], leaf);
              && Path[..] == path
              && multiset(stash[..]) == multiset(st)
              && (!needComStash ==> stash[..] == st)
              && (old(State()).TailFree() ==>
                    && State().TailFree()
                    && (needComStash ==>
                          var c := Sum(st, Occupied());
                          length_st == if c < DEFAULT_STASH_LENGTH then DEFAULT_STASH_LENGTH else c))
    {
      ghost var s := State();
      OEvict(Path, leaf);
      ghost var st := stash[..];
      EvictedIds(s.slots, old(Path[..]), length_st, pos_map[..], leaf, nBlock);
      if needComStash {
        OCompressStash();
        SumPermuted(stash[..], st, Occupied());
      }
      if s.TailFree() {
        GreedyPermuted(st, stash[..], s.length, Path[..], pos_map[..], leaf);
      }
    }

    // ----- one access

    /** The block an index of the sketch or the table lives in. */
    function BlockOf(index: nat): nat
      requires nRecord > 0
    {
      (if sketchType.Table? then index else index / nRecord) % 0x1_0000
    }

    /** The leaf is picked out of the position map by scanning it a cache line at a time. */
    method ScanPosMap(bid: nat) returns (leaf: nat)
      requires bid < nBlock == pos_map.Length
      ensures leaf == pos_map[bid]
    {
      var pace := 32;
      leaf := 0;
      var i := 0;
      while i < nBlock
        invariant 0 <= i && i % pace == 0
        invariant i > bid - bid % pace ==> leaf == pos_map[bid]
      {
        if i == bid - bid % pace {
          leaf := pos_map[bid];
        }
        i := i + pace;
      }
    }

    ghost predicate SameGeometry(level0: nat, nLeaf0: nat, nBlock0: nat)
      reads this
    {
      level == level0 && nLeaf == nLeaf0 && nBlock == nBlock0
    }

    /**
      One access.  With room in the stash it hands out the block, moved to the fresh leaf:
      with the payload it holds if it exists, else newly added and cleared; and everything
      else is held as before.
     */
    method OAccess(index: nat, buf: Block<P>, newPos: nat) returns (isFound: bool, blk: Block<P>)
      requires Shape() && BlockOf(index) < nBlock && newPos < nLeaf
      modifies this, OblivSK, pos_map, stash
      ensures OblivSK == old(OblivSK) && pos_map == old(pos_map) && stash == old(stash)
      ensures Shape() && SameGeometry(old(level), old(nLeaf), old(nBlock))
      ensures old(Valid()) && Room(old(Abstract()), BlockOf(index)) ==>
                && Valid() && isFound
                && Step(old(Abstract()), Abstract(), BlockOf(index), newPos, clear, blk)
                && Lengthened(old(State()), State(), needComStash)
    {
      hide Consistent, Roomy, Pushed, PathOf, WellEvicted, Lengthened, IdsBelow, Pow2, HandsOut, Step;
      ghost var o, t := Abstract(), OblivSK[..];
      var bid := BlockOf(index);
      var leaf := ScanPosMap(bid);
      var Path := new seq<Block<P>>[level + 1](_ => []);
      ReadPath(Path, leaf);
      ghost var m;
      isFound, blk, m := OAccessStash(Path, bid, leaf, buf, newPos, t);
      PushPath(Path, leaf);
      PathPushed(t, Path[..], leaf, level);
      mem := m;
      if old(Valid()) && Room(o, bid) {
        MadeStep(o, Abstract(), bid, newPos, clear, blk);
      }
    }

    /** The part of an access that works on the stash: write the path, look up, evict. */
    method OAccessStash(Path: array<seq<Block<P>>>, bid: nat, leaf: nat, buf: Block<P>, newPos: nat,
            ghost t: seq<seq<Block<P>>>)
      returns (isFound: bool, blk: Block<P>, ghost m: map<nat, P>)
      requires PathShape(Path) && State().Fits() && RowsOk(Path[..], sizeBucket, nBlock)
      requires bid < nBlock && newPos < Pow2(level) && leaf == pos_map[bid] < Pow2(level)
      requires IsTree(t, level) && Path[..] == PathOf(t, leaf, level)
      modifies `length_st, `global_added, stash, pos_map, Path
      ensures State().Fits() && IdsBelow(stash[..], nBlock) && RowsOk(Path[..], sizeBucket, nBlock)
      ensures pos_map[..] == old(pos_map[..])[bid := newPos]
      ensures Consistent(old(State()), t, mem, old(pos_map[..]), level) && Roomy(old(State()), old(Path[..])) ==>
                && isFound
                && (old(length_st) >= DEFAULT_STASH_LENGTH ==> length_st >= DEFAULT_STASH_LENGTH)
                && Accessed(t, mem, old(pos_map[..]), level, bid, newPos, clear, State(), Path[..], m, blk,
                    global_added - old(global_added))
                && Lengthened(old(State()), State(), needComStash)
    {
      hide Accessed, Consistent, Roomy, WriteRows, Lookup, LookupSlot, Evict, Pushed, PathOf, FirstWithId, FirstFree,
          Load, Sum;
      hide MidAccess, IdsBelow, RowsOk, IsTree, Pow2, Real;
      ghost var s0, pos := State(), pos_map[..];
      ghost var ok := Consistent(s0, t, mem, pos, level) && Roomy(s0, Path[..]);
      m := mem;
      if ok {
        ConsistentTail(s0, t, mem, pos, level);
        PathWritten(s0, t, leaf, mem, pos, level);
      }
      OWriteToStash(Path);
      ghost var s1 := State();
      isFound, blk := OReadFromStash(bid, newPos, buf);
      ghost var s2 := State();
      if ok {
        LookupTail(s1, bid, newPos, clear);
      }
      ORebuildStash(Path, leaf);
      if ok {
        m := AccessKeeps(s0, t, mem, pos, level, bid, newPos, clear, s1, s2, State(), Path[..], blk,
            global_added - old(global_added));
      }
    }

    /**
      One direct access.  With room in the stash it loses as many blocks of the path as do
      not fit and is a step of the ORAM over the rest.  Afterwards a block left in the stash
      met only full buckets.
     */
    method Access(index: nat, buf: Block<P>, newPos: nat) returns (isFound: bool, blk: Block<P>, ghost lost: set<nat>)
      requires Shape() && index / nRecord < nBlock && newPos < nLeaf
      modifies this, OblivSK, pos_map, stash
      ensures OblivSK == old(OblivSK) && pos_map == old(pos_map) && stash == old(stash)
      ensures Shape() && SameGeometry(old(level), old(nLeaf), old(nBlock))
      ensures var bid, o := index / nRecord, old(Abstract());
              old(Valid()) && Room(o, bid) ==>
                && Valid() && isFound
                && DirectStep(o, Abstract(), bid, newPos, clear, blk, lost) && |lost| == Loses(o, bid)
                && Stretched(o.tree, PathOf(o.tree, o.pos[bid], o.level), mem, length_st)
    {
      hide Consistent, Roomy, Pushed, PathOf, Stretched, WellEvicted, LostCount, IdsBelow, Pow2, HandsOut, DirectStep;
      ghost var o := Abstract();
      var bid := index / nRecord;
      var leaf := pos_map[bid];
      var Path := new seq<Block<P>>[level + 1](_ => []);
      ReadPath(Path, leaf);
      ghost var m, t;
      t := OblivSK[..];
      isFound, blk, m, lost := AccessStash(Path, bid, leaf, buf, newPos, t);
      PushPath(Path, leaf);
      PathPushed(t, Path[..], leaf, level);
      mem := m;
      if old(Valid()) && Room(o, bid) {
        MadeDirectStep(o, Abstract(), bid, newPos, clear, blk, lost);
      }
    }

    /** The part of a direct access that works on the stash. */
    method AccessStash(Path: array<seq<Block<P>>>, bid: nat, leaf: nat, buf: Block<P>, newPos: nat,
            ghost t: seq<seq<Block<P>>>)
      returns (isFound: bool, blk: Block<P>, ghost m: map<nat, P>, ghost lost: set<nat>)
      requires PathShape(Path) && State().Fits() && RowsOk(Path[..], sizeBucket, nBlock)
      requires bid < nBlock && newPos < Pow2(level) && leaf == pos_map[bid] < Pow2(level)
      requires IsTree(t, level) && Path[..] == PathOf(t, leaf, level)
      modifies `length_st, `global_added, stash, pos_map, Path
      ensures State().Fits() && IdsBelow(stash[..], nBlock) && RowsOk(Path[..], sizeBucket, nBlock)
      ensures pos_map[..] == old(pos_map[..])[bid := newPos]
      ensures Consistent(old(State()), t, mem, old(pos_map[..]), level) && Roomy(old(State()), old(Path[..])) ==>
                && isFound && old(length_st) <= length_st
                && lost <= mem.Keys && |lost| == LostCount(old(State()), old(Path[..]))
                && Accessed(t, mem - lost, old(pos_map[..]), level, bid, newPos, clear, State(), Path[..], m, blk,
                    global_added - old(global_added))
                && Stretched(t, old(Path[..]), m, length_st)
    {
      hide Accessed, Consistent, Roomy, PutRows, Lookup, LookupSlot, Evict, Pushed, PathOf, FirstWithId, FirstFree,
          Load, Sum, LostCount, Stretched;
      hide MidAccess, IdsBelow, IsTree, Pow2, Real;
      ghost var s0, pos := State(), pos_map[..];
      ghost var path := Path[..];
      ghost var ok := Consistent(s0, t, mem, pos, level) && Roomy(s0, path);
      m, lost := mem, {};
      if ok {
        ConsistentTail(s0, t, mem, pos, level);
        lost := DirectWritten(s0, t, leaf, mem, pos, level);
      }
      PutRowsIds(Cursor(s0, 0), path, nBlock);
      WriteToStash(Path);
      ghost var s1 := State();
      isFound, blk := ReadFromStash(bid, newPos, buf);
      ghost var s2 := State();
      ghost var st2 := stash[..];
      RebuildStash(Path, leaf);
      EvictedRows(st2, path, length_st, pos_map[..], leaf, nBlock, sizeBucket);
      if ok {
        m, lost := DirectKeeps(s0, t, mem, pos, level, bid, newPos, clear, s1, s2, State(), Path[..], blk,
            global_added - old(global_added));
      }
    }

    // ----- runs of accesses

    /** The records of a block that share its index, or just the block. */
    function Scale(): nat {
      if sketchType.Table? then 1 else nRecord
    }

    /** The index drawn when there are n blocks. */
    function IndexDrawn(draw: nat, n: nat): (index: nat)
      requires 0 < n <= DUMMY_FLAG && nRecord > 0
      ensures BlockOf(index) < n
    {
      hide DrawnIndex;
      DrawnIndex(draw, n, Scale())
    }

    /** The blocks drawn and the leaves they move to. */
    ghost predicate Drawn(draws: seq<nat>, newLeaves: seq<nat>, n: nat, leaves: nat, bids: seq<nat>, nps: seq<nat>) {
      && 0 < n <= DUMMY_FLAG && nRecord > 0 && leaves > 0 && |bids| == |nps| <= |draws| == |newLeaves|
      && forall k :: 0 <= k < |bids| ==>
           bids[k] == BlockOf(IndexDrawn(draws[k], n)) && nps[k] == newLeaves[k] % leaves
    }

    /** What was recorded of the first accesses. */
    ghost predicate Recorded(draws: seq<nat>, newLeaves: seq<nat>, n: nat, leaves: nat, first: Oram<P>,
            os: seq<Oram<P>>, bids: seq<nat>, nps: seq<nat>, outs: seq<Block<P>>)
    {
      && AccessRun(os, bids, nps, clear, outs) && os[0] == first && LengthsKept(os, needComStash)
      && Drawn(draws, newLeaves, n, leaves, bids, nps)
    }

    /** The accesses recorded are all there were, or the next one found no room in the stash. */
    ghost predicate RecordedWhileRoom(draws: seq<nat>, n: nat, os: seq<Oram<P>>, bids: seq<nat>, made: nat)
      requires 0 < n <= DUMMY_FLAG && nRecord > 0 && made <= |draws|
    {
      |bids| == made || (|bids| < made && |bids| < |os| && !Room(os[|bids|], BlockOf(IndexDrawn(draws[|bids|], n))))
    }

    lemma RecordedNext(draws: seq<nat>, newLeaves: seq<nat>, n: nat, leaves: nat, first: Oram<P>, os: seq<Oram<P>>,
            bids: seq<nat>, nps: seq<nat>, outs: seq<Block<P>>, next: Oram<P>, b: Block<P>)
      requires Recorded(draws, newLeaves, n, leaves, first, os, bids, nps, outs) && |bids| < |draws|
      requires 0 < n <= DUMMY_FLAG && nRecord > 0 && leaves > 0
      requires Step(os[|bids|], next, BlockOf(IndexDrawn(draws[|bids|], n)), newLeaves[|bids|] % leaves, clear, b)
      requires Lengthened(os[|bids|].stash, next.stash, needComStash)
      ensures var i := |bids|;
              var bids', nps' := bids + [BlockOf(IndexDrawn(draws[i], n))], nps + [newLeaves[i] % leaves];
              && Recorded(draws, newLeaves, n, leaves, first, os + [next], bids', nps', outs + [b])
              && RecordedWhileRoom(draws, n, os + [next], bids', i + 1)
    {
      RunExtended(os, bids, nps, clear, outs, next, BlockOf(IndexDrawn(draws[|bids|], n)),
          newLeaves[|bids|] % leaves, b);
      LengthsExtended(os, next, needComStash);
    }

    lemma RecordedNoMore(draws: seq<nat>, n: nat, os: seq<Oram<P>>, bids: seq<nat>, i: nat)
      requires 0 < n <= DUMMY_FLAG && nRecord > 0 && i < |draws| && RecordedWhileRoom(draws, n, os, bids, i)
      requires |bids| == i ==> i < |os| && !Room(os[i], BlockOf(IndexDrawn(draws[i], n)))
      ensures RecordedWhileRoom(draws, n, os, bids, i + 1)
    {}

    lemma RecordedStart(draws: seq<nat>, newLeaves: seq<nat>, n: nat, leaves: nat, first: Oram<P>)
      requires 0 < n <= DUMMY_FLAG && nRecord > 0 && leaves > 0 && |draws| == |newLeaves| && Sound(first)
      ensures Recorded(draws, newLeaves, n, leaves, first, [first], [], [], [])
      ensures RecordedWhileRoom(draws, n, [first], [], 0)
    {}

    /**
      Accesses at arbitrary indices with arbitrary fresh leaves.  Up to the first access
      that finds no room in the stash, they are a run of the abstract ORAM.
     */
    method BurstAccess(draws: seq<nat>, newLeaves: seq<nat>, buf: Block<P>)
      returns (ghost os: seq<Oram<P>>, ghost bids: seq<nat>, ghost nps: seq<nat>, ghost outs: seq<Block<P>>)
      requires Valid() && nBlock > 0 && |draws| == |newLeaves|
      modifies this, OblivSK, pos_map, stash
      ensures Recorded(draws, newLeaves, old(nBlock), old(nLeaf), old(Abstract()), os, bids, nps, outs)
      ensures RecordedWhileRoom(draws, old(nBlock), os, bids, |draws|)
      ensures |bids| == |draws| ==> Valid() && os[|draws|] == Abstract()
    {
      hide Sound, Room, Step, Scale, BlockOf, IndexDrawn, Recorded, RecordedWhileRoom;
      os, bids, nps, outs := [Abstract()], [], [], [];
      ghost var n, leaves, first := nBlock, nLeaf, Abstract();
      RecordedStart(draws, newLeaves, n, leaves, first);
      var i := 0;
      while i < |draws|
        invariant |bids| <= i <= |draws| && Shape() && |os| == |bids| + 1 && nBlock == n && nLeaf == leaves
        invariant OblivSK == old(OblivSK) && pos_map == old(pos_map) && stash == old(stash)
        invariant Recorded(draws, newLeaves, n, leaves, first, os, bids, nps, outs)
        invariant RecordedWhileRoom(draws, n, os, bids, i)
        invariant |bids| == i ==> Valid() && os[i] == Abstract()
      {
        var index := IndexDrawn(draws[i], nBlock);
        var newPos := newLeaves[i] % nLeaf;
        ghost var before, going := Abstract(), |bids| == i;
        var isFound, blk := OAccess(index, buf, newPos);
        if going && Room(before, BlockOf(index)) {
          RecordedNext(draws, newLeaves, n, leaves, first, os, bids, nps, outs, Abstract(), blk);
          os, bids, nps, outs := os + [Abstract()], bids + [BlockOf(index)], nps + [newPos], outs + [blk];
        } else {
          RecordedNoMore(draws, n, os, bids, i);
        }
        i := i + 1;
      }
    }

    // ----- building the tree

    /** The blocks of one level are built from the source, each with a leaf of its own. */
    method BuildSegment(sk: array<Block<P>>, flag_start: nat, cur_length: nat, source: seq<P>, leaves: seq<nat>)
      requires flag_start + cur_length <= sk.Length == pos_map.Length == |source|
      requires Mapped(pos_map[..], leaves, nLeaf, flag_start)
      modifies sk, pos_map
      ensures SegmentBuilt(sk[flag_start..flag_start + cur_length], flag_start, pos_map[..], source)
      ensures Mapped(pos_map[..], leaves, nLeaf, flag_start + cur_length)
      ensures forall j :: flag_start <= j < flag_start + cur_length ==> pos_map[j] < nLeaf
      ensures forall j :: 0 <= j < flag_start ==> pos_map[j] == old(pos_map[j])
    {
      var flag_end := flag_start + cur_length;
      var j := flag_start;
      while j < flag_end
        invariant flag_start <= j <= flag_end
        invariant Mapped(pos_map[..], leaves, nLeaf, j)
        invariant forall x :: flag_start <= x < j ==> pos_map[x] < nLeaf && sk[x] == Block(x, pos_map[x], source[x])
        invariant forall x :: 0 <= x < flag_start ==> pos_map[x] == old(pos_map[x])
      {
        pos_map[j] := leaves[j] % nLeaf;
        sk[j] := Block(j, pos_map[j], source[j]);
        j := j + 1;
      }
    }

    /**
      The sorted blocks of level i go to their buckets.  A block whose bucket is full is
      dropped.
     */
    method PlaceSegment(sk: array<Block<P>>, i: nat, flag_start: nat, flag_end: nat, bucket_start: nat,
            ghost source: seq<P>)
      returns (nFailed: nat, ghost pre: int, ghost cnt: nat)
      requires i <= level && sizeBucket > 0 && flag_start <= flag_end <= sk.Length && bucket_start == Pow2(i) - 1
      requires SegmentSorted(sk[flag_start..flag_end], flag_start, pos_map[..], source, level)
      requires Filling(stash[..], OblivSK[..], mem, pos_map[..], level) && Buckets(OblivSK[..], sizeBucket)
      requires forall id :: id in mem ==> id < flag_start
      requires forall h :: 0 <= h < OblivSK.Length && AtDepth(h + 1, i) ==> AllFree(OblivSK[h])
      modifies OblivSK, `mem
      ensures Filling(stash[..], OblivSK[..], mem, pos_map[..], level) && Buckets(OblivSK[..], sizeBucket)
      ensures LevelFilled(OblivSK[..], mem, sk[flag_start..flag_end], flag_end - flag_start, i, level, pre, cnt,
              sizeBucket)
      ensures GrownAt(old(OblivSK[..]), OblivSK[..], old(mem), mem, source, i, flag_start, flag_end - flag_start)
      ensures |mem| + nFailed == |old(mem)| + flag_end - flag_start
    {
      hide Filling, Buckets, SegmentSorted, LevelFilled, GrownAt;
      ghost var a, t0, st, pos := sk[flag_start..flag_end], OblivSK[..], stash[..], pos_map[..];
      PlacingStart(st, t0, mem, pos, source, a, flag_start, i, level, sizeBucket);
      nFailed := 0;
      var count: nat := sizeBucket;
      var preIndex: int := -1;
      for j := flag_start to flag_end
        invariant Placing(st, t0, OblivSK[..], old(mem), mem, pos, source, a, flag_start, j - flag_start, i, level,
                  preIndex, count, sizeBucket)
        invariant |mem| + nFailed == |old(mem)| + j - flag_start
      {
        hide Placing;
        ghost var t, k, was := OblivSK[..], j - flag_start, count;
        assert sk[j] == a[k];
        var curIndex := Shr(sk[j].pos, level - i);
        if preIndex == curIndex {
          count := count + 1;
          if count >= sizeBucket {
            PlacingDrop(st, t0, t, old(mem), mem, pos, source, a, flag_start, k, i, level, preIndex, was, sizeBucket);
            nFailed := nFailed + 1;
            continue;
          }
        } else {
          count := 0;
        }
        PlacingPlant(st, t0, t, old(mem), mem, pos, source, a, flag_start, k, i, level, preIndex, was, sizeBucket,
            count);
        var index := bucket_start + curIndex;
        OblivSK[index] := OblivSK[index][count := sk[j]];
        assert OblivSK[..] == Plant(t, level, a[k], i, count);
        mem := mem[sk[j].id := sk[j].payload];
        preIndex := curIndex;
      }
      pre, cnt := preIndex, count;
    }

    /** The levels from depth down are filled with the first ids, nFailed of which were dropped. */
    ghost predicate FilledFrom(source: seq<P>, leaves: seq<nat>, depth: nat, ids: nat, nFailed: nat)
      reads this, stash, OblivSK, pos_map
    {
      && Filled(stash[..], OblivSK[..], mem, pos_map[..], source, level, depth, sizeBucket)
      && ids == Prefix(|source|, depth) && Mapped(pos_map[..], leaves, nLeaf, ids) && |mem| + nFailed == ids
    }

    /** One level of the tree, if the bit is set: its blocks are built, sorted by leaf, and placed. */
    method InitLevel(sk: array<Block<P>>, i: nat, flag_start: nat, bucket_start: nat, source: seq<P>, leaves: seq<nat>)
      returns (flag_end: nat, nFailed: nat)
      requires i <= level < 16 && nLeaf == Pow2(level) && |source| == |leaves| == sk.Length == pos_map.Length
      requires Filled(stash[..], OblivSK[..], mem, pos_map[..], source, level, i + 1, sizeBucket)
      requires flag_start == Prefix(|source|, i + 1) && bucket_start == Pow2(i) - 1
      requires Mapped(pos_map[..], leaves, nLeaf, flag_start)
      requires sk != stash
      modifies OblivSK, pos_map, sk, `mem
      ensures Filled(stash[..], OblivSK[..], mem, pos_map[..], source, level, i, sizeBucket)
      ensures flag_end == Prefix(|source|, i) && Mapped(pos_map[..], leaves, nLeaf, flag_end)
      ensures |mem| + nFailed == |old(mem)| + flag_end - flag_start
    {
      hide Filled, Placing, Filling, Buckets, SegmentSorted, SegmentComplete, SegmentBuilt, LevelFilled, GrownAt,
          Prefix, MaskBit, Pow2, Mapped, SortedFrom, Run, SortSchedule;
      PrefixStep(|source|, i);
      PrefixBelow(|source|, i);
      var cur_length := Pow2(i);
      if !MaskBit(cur_length, |source|) {
        FilledSkip(stash[..], OblivSK[..], mem, pos_map[..], source, level, i, sizeBucket);
        return flag_start, 0;
      }
      flag_end := flag_start + cur_length;
      LevelLength(i);
      ghost var t, m := OblivSK[..], mem;
      BuildSegment(sk, flag_start, cur_length, source, leaves);
      FilledRemapped(stash[..], t, m, old(pos_map[..]), pos_map[..], source, level, i + 1, sizeBucket);
      ghost var built := sk[..];
      LaterLeafOrder<P>();
      var bs := new BitonicSorter<Block<P>>(LaterLeaf);
      bs.Sort(sk, flag_start, cur_length);
      SegmentSortedOk(built, sk[..], flag_start, cur_length, pos_map[..], source, level);
      ghost var pre, cnt;
      nFailed, pre, cnt := PlaceSegment(sk, i, flag_start, flag_end, bucket_start, source);
      FilledLevel(stash[..], t, OblivSK[..], m, mem, sk[flag_start..flag_end], pos_map[..], source, level, i, pre,
          cnt, sizeBucket);
    }

    /** The levels from the leaves up, each taking its share of the ids. */
    method InitTree(sk: array<Block<P>>, source: seq<P>, leaves: seq<nat>) returns (nFailed: nat)
      requires level < 16 && nLeaf == Pow2(level) && nBucket == Pow2(level + 1) - 1
      requires nBlock == |source| == |leaves| == sk.Length == pos_map.Length < Pow2(level + 1)
      requires FilledFrom(source, leaves, level + 1, 0, 0) && sk != stash
      modifies OblivSK, pos_map, sk, `mem
      ensures FilledFrom(source, leaves, 0, nBlock, nFailed)
    {
      hide Prefix, MaskBit, Pow2, FilledFrom;
      var flag_start, bucket_start := 0, nBucket;
      nFailed := 0;
      var i: int := level;
      while i >= 0
        invariant -1 <= i <= level && bucket_start == Pow2(i + 1) - 1
        invariant FilledFrom(source, leaves, i + 1, flag_start, nFailed)
      {
        Pow2Double(i);
        bucket_start := bucket_start - Pow2(i);
        flag_start, nFailed := InitLevelCounted(sk, i, flag_start, bucket_start, source, leaves, nFailed);
        i := i - 1;
      }
      AllFilled(source, leaves, flag_start, nFailed);
    }

    lemma AllFilled(source: seq<P>, leaves: seq<nat>, ids: nat, nFailed: nat)
      requires FilledFrom(source, leaves, 0, ids, nFailed)
      ensures ids == |source|
    {}

    /** One level, and the blocks dropped so far. */
    method InitLevelCounted(sk: array<Block<P>>, i: nat, flag_start: nat, bucket_start: nat, source: seq<P>,
            leaves: seq<nat>, nFailed: nat)
      returns (flag_end: nat, nFailed': nat)
      requires i <= level < 16 && nLeaf == Pow2(level) && |source| == |leaves| == sk.Length == pos_map.Length
      requires FilledFrom(source, leaves, i + 1, flag_start, nFailed) && bucket_start == Pow2(i) - 1
      requires sk != stash
      modifies OblivSK, pos_map, sk, `mem
      ensures FilledFrom(source, leaves, i, flag_end, nFailed')
    {
      hide Filled, Prefix, Pow2, Mapped;
      var dropped;
      flag_end, dropped := InitLevel(sk, i, flag_start, bucket_start, source, leaves);
      nFailed' := nFailed + dropped;
    }

    lemma InitStart(source: seq<P>, leaves: seq<nat>)
      requires 0 < nBlock == |source| == |leaves| == pos_map.Length < Pow2(level + 1) && nLeaf == Pow2(level)
      requires sizeBucket > 0 && nBlock <= DUMMY_FLAG
      requires nBucket == OblivSK.Length == Pow2(level + 1) - 1 && FreeTree(OblivSK[..], sizeBucket)
      requires stash.Length == MAX_STASH_NUM && AllFree(stash[..]) && mem == map[]
      ensures FilledFrom(source, leaves, level + 1, 0, 0)
    {
      hide Filled, Prefix, Pow2, AllFree;
      FilledStart(stash[..], OblivSK[..], pos_map[..], source, level, sizeBucket);
      PrefixEnds(nBlock, level);
    }

    /** The tree with all levels filled is what was to be built. */
    lemma InitDone(source: seq<P>, leaves: seq<nat>, nFailed: nat)
      requires FilledFrom(source, leaves, 0, nBlock, nFailed) && nRecord > 0
      requires nBlock == |source| == pos_map.Length <= DUMMY_FLAG && nLeaf == Pow2(level)
      requires nBucket == OblivSK.Length && State().Fits() && length_st == DEFAULT_STASH_LENGTH
      ensures Valid() && Mapped(pos_map[..], leaves, nLeaf, nBlock) && |mem| + nFailed == nBlock
      ensures AllFree(stash[..]) && Settled(OblivSK[..], mem, pos_map[..], source, level, nBlock)
      ensures forall id :: id in mem ==> id < nBlock && mem[id] == source[id]
    {
      hide Filled, Pow2, Census, PlacedAt, Settled, AllFree, Mapped;
      FilledDone(State(), OblivSK[..], mem, pos_map[..], source, level, sizeBucket);
    }

    /** Fresh memory for the blocks, the position map, the stash and the tree, every slot free. */
    method Allocate(junk: P) returns (sk: array<Block<P>>)
      modifies `OblivSK, `pos_map, `stash, `length_st
      ensures fresh(sk) && fresh(OblivSK) && fresh(pos_map) && fresh(stash) && sk != stash
      ensures sk.Length == pos_map.Length == nBlock && stash.Length == MAX_STASH_NUM && OblivSK.Length == nBucket
      ensures length_st == DEFAULT_STASH_LENGTH && AllFree(stash[..]) && FreeTree(OblivSK[..], sizeBucket)
    {
      sk := new Block<P>[nBlock](_ => Block(0, 0, junk));
      stash := new Block<P>[MAX_STASH_NUM](_ => Block(DUMMY_FLAG, 0, junk));
      length_st := DEFAULT_STASH_LENGTH;
      pos_map := new nat[nBlock](_ => 0);
      var bucket := seq(sizeBucket, _ => Block(DUMMY_FLAG, 0, junk));
      OblivSK := new seq<Block<P>>[nBucket](_ => bucket);
    }

    /**
      Builds the ORAM over the blocks of the source.  Too many blocks for the width of an
      id are refused.  Otherwise every block is either in the bucket of its level on the
      path to its random leaf, or dropped because that bucket is full.
     */
    method Init_OCU(source: seq<P>, leaves: seq<nat>, junk: P) returns (ok: bool, nFailed: nat)
      requires 0 < |source| == |leaves| && nRecord > 0 && sizeBucket > 0
      modifies this
      ensures ok <==> |source| < 0x1_0000
      ensures global_added == old(global_added)
      ensures ok ==>
                && fresh(OblivSK) && fresh(pos_map) && fresh(stash)
                && Valid() && nBlock == |source| && level == FloorLog2(nBlock)
                && length_st == DEFAULT_STASH_LENGTH && AllFree(stash[..])
                && Mapped(pos_map[..], leaves, nLeaf, nBlock)
                && (forall id :: id in mem ==> id < nBlock && mem[id] == source[id])
                && |mem| + nFailed == nBlock
                && Settled(OblivSK[..], mem, pos_map[..], source, level, nBlock)
    {
      hide Filled, Pow2, Consistent, Settled, FloorLog2, AllFree, FreeTree, Prefix, Mapped, FilledFrom;
      nBlock := |source|;
      level := FloorLog2(nBlock);
      LevelFits(nBlock);
      if level >= 16 {
        return false, 0;
      }
      nLeaf := Pow2(level);
      nBucket := Pow2(level + 1) - 1;
      var sk := Allocate(junk);
      mem := map[];
      InitStart(source, leaves);
      nFailed := InitTree(sk, source, leaves);
      InitDone(source, leaves, nFailed);
      return true, nFailed;
    }
  }

  lemma LevelLength(i: nat)
    requires i < 16
    ensures Pow2(i) <= MAX_SORTABLE
  {
    Pow2Values();
    Pow2Monotone(i, 30);
  }

  /** Sixteen-bit ids allow levels below 16. */
  lemma LevelFits(n: nat)
    requires n >= 1
    ensures FloorLog2(n) < 16 <==> n < 0x1_0000
  {
    Pow2Values();
    assert Pow2(16) == 2 * Pow2(15);
    var e := FloorLog2(n);
    hide *;
    if e > 16 { Pow2Monotone(16, e); }
    if e + 1 < 16 { Pow2Monotone(e + 1, 16); }
  }

  lemma FilledDone<P(!new)>(s: Stash<P>, t: seq<seq<Block<P>>>, mem: map<nat, P>, pos: seq<nat>, source: seq<P>,
          level: nat, size: nat)
    requires Filled(s.slots, t, mem, pos, source, level, 0, size) && s.Fits() && s.length > 0
    ensures Consistent(s, t, mem, pos, level) && RowsOk(t, size, |pos|) && IdsBelow(s.slots, |pos|)
    ensures Settled(t, mem, pos, source, level, |source|) && AllFree(s.slots)
    ensures forall id :: id in mem ==> id < |source| && mem[id] == source[id]
  {
    assert Prefix(|source|, 0) == |source|;
    FilledConsistent(s, t, mem, pos, level);
    forall h | 0 <= h < |t|
      ensures |t[h]| == size && IdsBelow(t[h], |pos|)
    {
      forall k | 0 <= k < |t[h]| && Real(t[h][k])
        ensures t[h][k].id < |pos|
      {
        FillingIds(s.slots, t, mem, pos, level, h, k);
      }
    }
  }

  /** A sorted stash cut to its blocks, or to the default length, has a free tail. */
  lemma CompressedLoad<P(!new)>(st: seq<Block<P>>, r: seq<Block<P>>, len: nat, len': nat)
    requires Stash(st, len).TailFree() && |r| == |st| && multiset(r) == multiset(st) && r[len..] == st[len..]
    requires forall k :: 0 <= k < len ==> r[k].id <= DUMMY_FLAG
    requires forall i, j :: 0 <= i < j < len ==> r[i].id <= r[j].id
    requires var c := Sum(r[..len], Occupied()); len' == if c < DEFAULT_STASH_LENGTH then DEFAULT_STASH_LENGTH else c
    ensures Stash(r, len').TailFree() && Sum(r[..len], Occupied()) == Sum(st, Occupied())
  {
    var row := r[..len];
    forall k | len <= k < MAX_STASH_NUM
      ensures !Real(r[k])
    {
      assert r[len..][k - len] == st[len..][k - len];
    }
    CompressedSum(st, r, len);
    CompressedFront(row);
    CompressedTail(r, len, Sum(row, Occupied()), len');
  }

  /** Behind the length there is nothing to count. */
  lemma CompressedSum<P(!new)>(st: seq<Block<P>>, r: seq<Block<P>>, len: nat)
    requires len <= |r| && multiset(r) == multiset(st) && forall k :: len <= k < |r| ==> !Real(r[k])
    ensures Sum(r[..len], Occupied()) == Sum(st, Occupied())
  {
    assert r == r[..len] + r[len..];
    SumConcat(r[..len], r[len..], Occupied());
    SumFree(r[len..], Occupied());
    SumPermuted(r, st, Occupied());
  }

  lemma CompressedTail<P>(st: seq<Block<P>>, len: nat, c: nat, len': nat)
    requires len <= |st| == MAX_STASH_NUM && c <= len && AllFree(st[..len][c..])
    requires forall k :: len <= k < MAX_STASH_NUM ==> !Real(st[k])
    requires c <= len' && 0 < len' <= MAX_STASH_NUM
    ensures Stash(st, len').TailFree()
  {
    forall k | len' <= k < MAX_STASH_NUM
      ensures !Real(st[k])
    {
      if k < len {
        assert st[..len][c..][k - c] == st[k];
      }
    }
  }

  /** Blocks keep their ids in range when evicted, and the buckets and the tail their shape. */
  lemma EvictedIds<P(!new)>(st: seq<Block<P>>, path: seq<seq<Block<P>>>, len: nat, pos: seq<nat>, leaf: nat, n: nat)
    requires len <= |st| && forall k :: 0 <= k < |st| && Real(st[k]) ==> st[k].id < n
    ensures var (st', path') := Evict(st, path, len, pos, leaf);
            && Emptied(st, st', len)
            && (forall i, k :: 0 <= i < |path| && 0 <= k < |path'[i]| && Real(path'[i][k]) ==> path'[i][k].id < n)
  {
    EvictFromProperties(st, FreedRows(path), |path|, len, pos, leaf);
    var r := Evict(st, path, len, pos, leaf);
    forall i, k | 0 <= i < |path| && 0 <= k < |r.1[i]| && Real(r.1[i][k])
      ensures r.1[i][k].id < n
    {
      WeightsOk(r.1[i][k]);
      EvictConserves(st, path, len, pos, leaf, Same(r.1[i][k]));
      SumHas(r.1[i], k, Same(r.1[i][k]));
      SumOfHas(r.1, i, Same(r.1[i][k]));
      var m := SumFind(st, r.1[i][k]);
    }
  }

  lemma EvictedRows<P(!new)>(st: seq<Block<P>>, path: seq<seq<Block<P>>>, len: nat, pos: seq<nat>, leaf: nat, n: nat,
          size: nat)
    requires len <= |st| && IdsBelow(st, n) && RowsOk(path, size, n)
    ensures RowsOk(Evict(st, path, len, pos, leaf).1, size, n)
  {
    EvictedIds(st, path, len, pos, leaf, n);
    EvictFromProperties(st, FreedRows(path), |path|, len, pos, leaf);
  }

  /** While there is room, every partly written path leaves the tail free. */
  lemma TailStaysFree<P(!new)>(s: Stash<P>, path: seq<seq<Block<P>>>, i: nat, j: nat)
    requires s.TailFree() && Roomy(s, path) && i < |path| && j < |path[i]|
    ensures WriteRow(WriteRows(s, path[..i]), path[i][..j]).TailFree()
  {
    SumOfSplit(path, i, Occupied());
    SumSplit(path[i], j, Occupied());
    WriteRowsAdds(s, path[..i], Occupied());
    WriteRowAdds(WriteRows(s, path[..i]), path[i][..j], Occupied());
  }

  lemma {:induction false} SumSplit<P>(bs: seq<Block<P>>, j: nat, f: Block<P> -> nat)
    requires j <= |bs|
    ensures Sum(bs[..j], f) <= Sum(bs, f)
  {
    SumConcat(bs[..j], bs[j..], f);
    assert bs == bs[..j] + bs[j..];
  }

  lemma {:induction false} SumOfSplit<P>(t: seq<seq<Block<P>>>, i: nat, f: Block<P> -> nat)
    requires i < |t|
    ensures SumOf(t[..i], f) + Sum(t[i], f) <= SumOf(t, f)
    decreases |t|
  {
    if i == |t| - 1 {
    } else {
      SumOfSplit(t[..|t| - 1], i, f);
      assert t[..|t| - 1][..i] == t[..i];
    }
  }

  // ----- from building to a whole run

  lemma DrawnFromRecorded<P(!new)>(o: FOSketch<P>, draws: seq<nat>, newLeaves: seq<nat>, n: nat, leaves: nat,
          bids: seq<nat>, nps: seq<nat>)
    requires o.Drawn(draws, newLeaves, n, leaves, bids, nps) && o.sketchType.Counters?
    ensures BlocksDrawn(draws, n, o.nRecord, bids)
    ensures |bids| < |draws| ==> o.BlockOf(o.IndexDrawn(draws[|bids|], n)) == DrawnBlock(draws[|bids|], n, o.nRecord)
  {
    hide DrawnIndex;
    assert forall k :: 0 <= k < |draws| ==> o.BlockOf(o.IndexDrawn(draws[k], n)) == DrawnBlock(draws[k], n, o.nRecord);
  }

  /** The ORAM as built over the source, with nFailed blocks dropped. */
  ghost predicate Built<P(!new)>(o: Oram<P>, source: seq<P>, leaves: seq<nat>, nFailed: nat) {
    && Sound(o) && |o.pos| == |source| > 0 && o.level == FloorLog2(|source|) && o.added == 0
    && Mapped(o.pos, leaves, Pow2(o.level), |source|)
    && AllFree(o.stash.slots) && Settled(o.tree, o.mem, o.pos, source, o.level, |source|)
    && (forall id :: id in o.mem ==> id < |source| && o.mem[id] == source[id])
    && |o.mem| + nFailed == |source|
  }

  /**
    A sketch is built over the source and then accessed at any indices, with any leaves.
    Up to the first access that finds no room in the stash, every access hands out the flat
    array's entry, and the blocks kept and added are all accounted for.  With at most
    MAX_STASH_NUM - 8 blocks that is the whole run.
   */
  method RunSketch<P(!new)>(source: seq<P>, leaves: seq<nat>, nRecord: nat, sizeBucket: nat, compStash: bool,
          clear: P -> P, junk: P, ghost zero: P, draws: seq<nat>, newLeaves: seq<nat>)
    returns (ok: bool, nFailed: nat, ghost first: Oram<P>, ghost last: Oram<P>, ghost bids: seq<nat>,
          ghost outs: seq<Block<P>>)
    requires 0 < |source| == |leaves| && nRecord > 0 && sizeBucket > 0 && |draws| == |newLeaves|
    requires ClearsTo(clear, zero)
    ensures ok <==> |source| < 0x1_0000
    ensures ok ==>
              && Built(first, source, leaves, nFailed)
              && BlocksDrawn(draws, |source|, nRecord, bids) && Leads(first, last, bids, clear, outs, compStash)
              && Answers(outs, draws, nRecord, source, first.mem.Keys, zero)
              && Accounted(last, draws, |bids|, nRecord, |source|, first.mem.Keys)
              && (|bids| < |draws| ==> !Room(last, DrawnBlock(draws[|bids|], |source|, nRecord)))
              && (|source| <= MAX_STASH_NUM - 8 ==> |bids| == |draws|)
  {
    hide BlocksDrawn, Answers, Accounted, DrawnBlock, ClearsTo, FloorLog2, Settled, Sound, Step;
    var sketch := new FOSketch<P>(Counters, nRecord, sizeBucket, compStash, clear);
    ok, nFailed := sketch.Init_OCU(source, leaves, junk);
    first, last, bids, outs := sketch.Abstract(), sketch.Abstract(), [], [];
    if ok {
      ghost var nLeaf, os, nps := sketch.nLeaf, [], [];
      os, bids, nps, outs := sketch.BurstAccess(draws, newLeaves, Block(0, 0, junk));
      last := os[|bids|];
      SketchAnswers(sketch, source, nFailed, zero, draws, newLeaves, nLeaf, first, os, bids, nps, outs);
    }
  }

  lemma SketchAnswers<P(!new)>(sketch: FOSketch<P>, source: seq<P>, nFailed: nat, zero: P, draws: seq<nat>,
          newLeaves: seq<nat>, nLeaf: nat, first: Oram<P>, os: seq<Oram<P>>, bids: seq<nat>, nps: seq<nat>,
          outs: seq<Block<P>>)
    requires sketch.Recorded(draws, newLeaves, |source|, nLeaf, first, os, bids, nps, outs)
    requires sketch.sketchType.Counters? && 0 < |source| <= DUMMY_FLAG && sketch.nRecord > 0 &&
             ClearsTo(sketch.clear, zero)
    requires sketch.RecordedWhileRoom(draws, |source|, os, bids, |draws|)
    requires Sound(first) && |first.pos| == |source| && |first.mem| + nFailed == |source| && first.added == 0
    requires forall id :: id in first.mem ==> id < |source| && first.mem[id] == source[id]
    ensures var kept, last, n := first.mem.Keys, os[|bids|], |source|;
            && BlocksDrawn(draws, n, sketch.nRecord, bids)
            && Leads(first, last, bids, sketch.clear, outs, sketch.needComStash)
            && Answers(outs, draws, sketch.nRecord, source, kept, zero)
            && Accounted(last, draws, |bids|, sketch.nRecord, n, kept)
            && (|bids| < |draws| ==> !Room(last, DrawnBlock(draws[|bids|], n, sketch.nRecord)))
            && (n <= MAX_STASH_NUM - 8 ==> |bids| == |draws|)
  {
    hide Sound, Room, Step, Answers, Accounted, DrawnBlock, ClearsTo;
    var n, last := |source|, os[|bids|];
    DrawnFromRecorded(sketch, draws, newLeaves, n, nLeaf, bids, nps);
    RunAnswers(os, bids, nps, sketch.clear, outs, draws, sketch.nRecord, source, zero);
    RunAccounted(os, bids, nps, sketch.clear, outs, draws, sketch.nRecord, n, nFailed);
    if |bids| < |draws| && n <= MAX_STASH_NUM - 8 {
      RunSound(os, bids, nps, sketch.clear, outs);
      SmallRoom(last, DrawnBlock(draws[|bids|], n, sketch.nRecord));
    }
  }
}

/**
  Filling the tree: the binary digits of the number of blocks say which ids go to which
  level, and within a level every block goes to the bucket on the path to its leaf, or is
  dropped when that bucket is full.
 */
module InitPlacement {
  import opened BinaryArith
  import opened Rearrangements
  import opened Blocks
  import opened StashModel
  import opened TreeGeometry
  import opened OramInvariant
  import opened SortingNetworks

  // ----- which ids go to which level

  /** n with its k lowest bits cleared. */
  function Prefix(n: nat, k: nat): nat
    decreases k, n
  {
    if k == 0 then n else 2 * Prefix(n / 2, k - 1)
  }

  lemma {:induction false} PrefixStep(n: nat, k: nat)
    ensures Prefix(n, k) == Prefix(n, k + 1) + if MaskBit(Pow2(k), n) then Pow2(k) else 0
    decreases k
  {
    if k == 0 {
    } else {
      PrefixStep(n / 2, k - 1);
      HalveQuotient(n, Pow2(k - 1));
    }
  }

  lemma {:induction false} PrefixEnds(n: nat, level: nat)
    requires n < Pow2(level + 1)
    ensures Prefix(n, 0) == n && Prefix(n, level + 1) == 0
    decreases level
  {
    if level == 0 {
    } else {
      PrefixEnds(n / 2, level - 1);
    }
  }

  lemma {:induction false} PrefixFalls(n: nat, j: nat, k: nat)
    requires j <= k
    ensures Prefix(n, k) <= Prefix(n, j)
    decreases k - j
  {
    if j >= k {
    } else {
      PrefixStep(n, j);
      PrefixFalls(n, j + 1, k);
    }
  }

  /** The ids placed at level i when there are n blocks. */
  predicate InSegment(n: nat, id: nat, i: nat) {
    Prefix(n, i + 1) <= id < Prefix(n, i)
  }

  /** Level i takes 2^i ids when bit i of n is set, and none otherwise. */
  lemma SegmentSize(n: nat, i: nat)
    ensures Prefix(n, i) - Prefix(n, i + 1) == if MaskBit(Pow2(i), n) then Pow2(i) else 0
  {
    PrefixStep(n, i);
  }

  /** The set bits of n divide the ids below n among the levels. */
  lemma SegmentsPartition(n: nat, id: nat, level: nat) returns (i: nat)
    requires id < n < Pow2(level + 1)
    ensures i <= level && InSegment(n, id, i) && forall j: nat :: InSegment(n, id, j) ==> j == i
  {
    PrefixEnds(n, level);
    i := SegmentFind(n, id, level + 1);
    forall j: nat | InSegment(n, id, j)
      ensures j == i
    {
      if j < i { PrefixFalls(n, j + 1, i); }
      if i < j { PrefixFalls(n, i + 1, j); }
    }
  }

  lemma {:induction false} SegmentFind(n: nat, id: nat, k: nat) returns (i: nat)
    requires Prefix(n, k) <= id < Prefix(n, 0)
    ensures i < k && InSegment(n, id, i)
    decreases k
  {
    if id < Prefix(n, k - 1) {
      i := k - 1;
    } else {
      i := SegmentFind(n, id, k - 1);
    }
  }

  // ----- the state while filling

  /** The blocks of mem are in the tree and the stash is empty. */
  ghost predicate Filling<P(!new)>(st: seq<Block<P>>, t: seq<seq<Block<P>>>, mem: map<nat, P>, pos: seq<nat>,
          level: nat)
  {
    && AllFree(st)
    && Placed(t, level)
    && Census(st, t, mem, pos)
    && SumOf(t, Occupied()) == |mem|
  }

  lemma EmptyFilling<P(!new)>(st: seq<Block<P>>, t: seq<seq<Block<P>>>, pos: seq<nat>, level: nat)
    requires AllFree(st) && IsTree(t, level) && forall h :: 0 <= h < |t| ==> AllFree(t[h])
    ensures Filling(st, t, map[], pos, level)
  {
    assert Weight<P>(Occupied());
    SumOfFree(t, Occupied());
    forall b: Block<P> | Real(b)
      ensures Sum(st, Same(b)) + SumOf(t, Same(b)) == 0
    {
      WeightsOk(b);
      SumFree(st, Same(b));
      SumOfFree(t, Same(b));
    }
  }

  /** Positions of ids that are not in the tree yet may change. */
  lemma FillingRemapped<P(!new)>(st: seq<Block<P>>, t: seq<seq<Block<P>>>, mem: map<nat, P>, pos: seq<nat>,
          pos': seq<nat>, level: nat)
    requires Filling(st, t, mem, pos, level) && |pos'| == |pos|
    requires forall id :: id in mem && id < |pos| ==> pos'[id] == pos[id]
    ensures Filling(st, t, mem, pos', level)
  {
    forall b: Block<P> | Real(b)
      ensures Sum(st, Same(b)) + SumOf(t, Same(b)) == Expected(b, mem, pos')
    {
      assert Expected(b, mem, pos') == Expected(b, mem, pos);
    }
  }

  lemma FilledConsistent<P(!new)>(s: Stash<P>, t: seq<seq<Block<P>>>, mem: map<nat, P>, pos: seq<nat>, level: nat)
    requires Filling(s.slots, t, mem, pos, level) && s.Fits() && s.length > 0
    requires forall id :: 0 <= id < |pos| ==> pos[id] < Pow2(level)
    ensures Consistent(s, t, mem, pos, level)
  {
    SumFree(s.slots, Occupied());
  }

  /** A new block in a free slot of the bucket of depth i on the path to its leaf. */
  lemma Planted<P(!new)>(st: seq<Block<P>>, t: seq<seq<Block<P>>>, mem: map<nat, P>, pos: seq<nat>, level: nat,
          b: Block<P>, i: nat, c: nat)
    requires Filling(st, t, mem, pos, level) && i <= level
    requires Real(b) && b.id !in mem && b.id < |pos| && b.pos == pos[b.id] < Pow2(level)
    requires c < |BucketAt(t, level, b.pos, i)| && !Real(BucketAt(t, level, b.pos, i)[c])
    ensures Filling(st, Plant(t, level, b, i, c), mem[b.id := b.payload], pos, level)
    ensures |mem[b.id := b.payload]| == |mem| + 1
  {
    var h := NodeIndex(t, level, b.pos, i);
    var t', mem' := Plant(t, level, b, i, c), mem[b.id := b.payload];
    MemUpdateCount(mem, b.id, b.payload);
    PlantedWeight(t, level, b, i, c, Occupied());
    PlantedPlaced(t, level, b, i, c);
    forall x: Block<P> | Real(x)
      ensures Sum(st, Same(x)) + SumOf(t', Same(x)) == Expected(x, mem', pos)
    {
      WeightsOk(x);
      PlantedWeight(t, level, b, i, c, Same(x));
      assert Sum(st, Same(x)) + SumOf(t, Same(x)) == Expected(x, mem, pos);
    }
  }

  /** Where the bucket of depth i on the path to the leaf pos is stored. */
  function NodeIndex<P>(t: seq<seq<Block<P>>>, level: nat, pos: nat, i: nat): (h: nat)
    requires IsTree(t, level) && pos < Pow2(level) && i <= level
    ensures h < |t| && h + 1 == Node(pos, level, i) && AtDepth(h + 1, i) && h == Pow2(i) - 1 + Shr(pos, level - i)
  {
    NodeValue(pos, level, i);
    Node(pos, level, i) - 1
  }

  function BucketAt<P>(t: seq<seq<Block<P>>>, level: nat, pos: nat, i: nat): seq<Block<P>>
    requires IsTree(t, level) && pos < Pow2(level) && i <= level
  {
    t[NodeIndex(t, level, pos, i)]
  }

  function Plant<P>(t: seq<seq<Block<P>>>, level: nat, b: Block<P>, i: nat, c: nat): (r: seq<seq<Block<P>>>)
    requires IsTree(t, level) && b.pos < Pow2(level) && i <= level && c < |BucketAt(t, level, b.pos, i)|
    ensures IsTree(r, level)
  {
    var h := NodeIndex(t, level, b.pos, i);
    t[h := t[h][c := b]]
  }

  lemma PlantedWeight<P(!new)>(t: seq<seq<Block<P>>>, level: nat, b: Block<P>, i: nat, c: nat, f: Block<P> -> nat)
    requires IsTree(t, level) && b.pos < Pow2(level) && i <= level && Weight(f)
    requires c < |BucketAt(t, level, b.pos, i)| && !Real(BucketAt(t, level, b.pos, i)[c])
    ensures SumOf(Plant(t, level, b, i, c), f) == SumOf(t, f) + f(b)
  {
    var h := NodeIndex(t, level, b.pos, i);
    SumUpdate(t[h], c, b, f);
    SumOfUpdate(t, h, t[h][c := b], f);
  }

  lemma PlantedPlaced<P(!new)>(t: seq<seq<Block<P>>>, level: nat, b: Block<P>, i: nat, c: nat)
    requires Placed(t, level) && b.pos < Pow2(level) && i <= level && c < |BucketAt(t, level, b.pos, i)|
    ensures Placed(Plant(t, level, b, i, c), level)
  {
    var h := NodeIndex(t, level, b.pos, i);
    var t' := Plant(t, level, b, i, c);
    forall x: nat, d: nat | AtDepth(x, d) && d <= level && x <= |t'|
      ensures PlacedAt(t'[x - 1], x, d, level)
    {
      assert PlacedAt(t[x - 1], x, d, level);
      if x == h + 1 {
        DepthUnique(x, d, i);
      }
    }
  }

  // ----- one level

  /** The block is in its bucket, or it was dropped because the bucket is full. */
  ghost predicate InPlace<P>(t: seq<seq<Block<P>>>, mem: map<nat, P>, b: Block<P>, level: nat, i: nat) {
    && IsTree(t, level) && b.pos < Pow2(level) && i <= level
    && if b.id in mem then mem[b.id] == b.payload && b in BucketAt(t, level, b.pos, i)
       else AllReal(BucketAt(t, level, b.pos, i))
  }

  /** The blocks of one level, sorted by leaf. */
  ghost predicate SegmentSorted<P>(a: seq<Block<P>>, start: nat, pos: seq<nat>, source: seq<P>, level: nat) {
    && start + |a| <= |pos| == |source| <= DUMMY_FLAG
    && (forall x :: 0 <= x < |a| ==>
          && start <= a[x].id < start + |a| && a[x] == Block(a[x].id, pos[a[x].id], source[a[x].id])
          && a[x].pos < Pow2(level))
    && (forall x, y :: 0 <= x < y < |a| ==> a[x].id != a[y].id && a[x].pos <= a[y].pos)
  }

  ghost predicate FilledTo<P>(bk: seq<Block<P>>, n: nat) {
    && n <= |bk|
    && (forall k :: 0 <= k < n ==> Real(bk[k]))
    && (forall k :: n <= k < |bk| ==> !Real(bk[k]))
  }

  /**
    The first k blocks are in place, in buckets up to number pre of level i, and the last
    of these buckets was offered count + 1 blocks.
   */
  ghost predicate LevelFilled<P>(t: seq<seq<Block<P>>>, mem: map<nat, P>, a: seq<Block<P>>, k: nat, i: nat, level: nat,
          pre: int, count: nat, size: nat)
  {
    && IsTree(t, level) && i <= level && k <= |a| && Pow2(i + 1) <= |t| + 1
    && (forall x :: 0 <= x < k ==> InPlace(t, mem, a[x], level, i))
    && (forall x :: k <= x < |a| ==> a[x].id !in mem)
    && (if k == 0 then pre == -1 else pre == Shr(a[k - 1].pos, level - i))
    && (forall h :: Pow2(i) + pre <= h < Pow2(i + 1) - 1 ==> AllFree(t[h]))
    && (k > 0 ==> a[k - 1].pos < Pow2(level)
                  && FilledTo(BucketAt(t, level, a[k - 1].pos, i), if count < size then count + 1 else size))
  }

  ghost predicate Buckets<P>(t: seq<seq<Block<P>>>, size: nat) {
    forall h :: 0 <= h < |t| ==> |t[h]| == size
  }

  /** The number a block's bucket has within level i, and what became of it when the next block came. */
  lemma NextBucket<P(!new)>(t: seq<seq<Block<P>>>, mem: map<nat, P>, a: seq<Block<P>>, k: nat, i: nat, level: nat,
          pre: int, count: nat, size: nat, start: nat, pos: seq<nat>, source: seq<P>)
    requires LevelFilled(t, mem, a, k, i, level, pre, count, size) && SegmentSorted(a, start, pos, source, level)
    requires Buckets(t, size) && size > 0 && k < |a|
    ensures a[k].pos < Pow2(level)
    ensures var cur := Shr(a[k].pos, level - i);
            && pre <= cur
            && (pre == cur ==> FilledTo(BucketAt(t, level, a[k].pos, i), if count < size then count + 1 else size))
            && (pre < cur ==> FilledTo(BucketAt(t, level, a[k].pos, i), 0))
  {
    if k > 0 {
      ShrMonotone(a[k - 1].pos, a[k].pos, level - i);
    }
    var h := NodeIndex(t, level, a[k].pos, i);
    if k > 0 && pre == Shr(a[k].pos, level - i) {
      assert NodeIndex(t, level, a[k - 1].pos, i) == h;
    }
  }

  /** A block that finds its bucket full is dropped. */
  lemma DropStep<P(!new)>(t: seq<seq<Block<P>>>, mem: map<nat, P>, a: seq<Block<P>>, k: nat, i: nat, level: nat,
          pre: int, count: nat, size: nat, start: nat, pos: seq<nat>, source: seq<P>)
    requires LevelFilled(t, mem, a, k, i, level, pre, count, size) && SegmentSorted(a, start, pos, source, level)
    requires Buckets(t, size) && k < |a| && pre == Shr(a[k].pos, level - i) && count + 1 >= size > 0
    ensures LevelFilled(t, mem, a, k + 1, i, level, pre, count + 1, size)
  {
    NextBucket(t, mem, a, k, i, level, pre, count, size, start, pos, source);
    assert InPlace(t, mem, a[k], level, i);
  }

  /** A block with room in its bucket takes the next slot of it. */
  lemma PlantStep<P(!new)>(t: seq<seq<Block<P>>>, mem: map<nat, P>, a: seq<Block<P>>, k: nat, i: nat, level: nat,
          pre: int, count: nat, size: nat, start: nat, pos: seq<nat>, source: seq<P>, c: nat)
    requires LevelFilled(t, mem, a, k, i, level, pre, count, size) && SegmentSorted(a, start, pos, source, level)
    requires Buckets(t, size) && k < |a| && c < size
    requires a[k].pos < Pow2(level) && c == if pre == Shr(a[k].pos, level - i) then count + 1 else 0
    ensures c < |BucketAt(t, level, a[k].pos, i)| && !Real(BucketAt(t, level, a[k].pos, i)[c])
    ensures LevelFilled(Plant(t, level, a[k], i, c), mem[a[k].id := a[k].payload], a, k + 1, i, level,
                        Shr(a[k].pos, level - i), c, size)
    ensures Buckets(Plant(t, level, a[k], i, c), size)
  {
    NextBucket(t, mem, a, k, i, level, pre, count, size, start, pos, source);
    var b := a[k];
    var t', mem' := Plant(t, level, b, i, c), mem[b.id := b.payload];
    forall x | 0 <= x < k + 1
      ensures InPlace(t', mem', a[x], level, i)
    {
      if x < k {
        InPlaceKept(t, mem, a[x], level, i, b, c);
      } else {
        assert BucketAt(t', level, b.pos, i)[c] == b;
      }
    }
  }

  /** A bucket after a block is planted: only the slot it goes to changes. */
  lemma PlantedBucket<P(!new)>(t: seq<seq<Block<P>>>, level: nat, b: Block<P>, i: nat, c: nat, pos: nat)
    requires IsTree(t, level) && b.pos < Pow2(level) && pos < Pow2(level) && i <= level
    requires c < |BucketAt(t, level, b.pos, i)| && !Real(BucketAt(t, level, b.pos, i)[c])
    ensures var bk, bk' := BucketAt(t, level, pos, i), BucketAt(Plant(t, level, b, i, c), level, pos, i);
            bk' == bk || (c < |bk| && !Real(bk[c]) && bk' == bk[c := b])
  {}

  lemma InPlaceKept<P(!new)>(t: seq<seq<Block<P>>>, mem: map<nat, P>, x: Block<P>, level: nat, i: nat, b: Block<P>,
          c: nat)
    requires InPlace(t, mem, x, level, i) && x.id != b.id && b.pos < Pow2(level) && Real(x)
    requires c < |BucketAt(t, level, b.pos, i)| && !Real(BucketAt(t, level, b.pos, i)[c])
    ensures InPlace(Plant(t, level, b, i, c), mem[b.id := b.payload], x, level, i)
  {
    hide BucketAt, Plant, IsTree;
    var bk := BucketAt(t, level, x.pos, i);
    var bk' := BucketAt(Plant(t, level, b, i, c), level, x.pos, i);
    PlantedBucket(t, level, b, i, c, x.pos);
    if x.id in mem {
      var k :| 0 <= k < |bk| && bk[k] == x;
      assert bk'[k] == x;
    }
  }

  // ----- the blocks of one level before and after sorting

  /** The order the blocks of a level are sorted by. */
  predicate LaterLeaf<P>(x: Block<P>, y: Block<P>) {
    x.pos > y.pos
  }

  lemma LaterLeafOrder<P(!new)>()
    ensures StrictWeakOrder<Block<P>>(LaterLeaf)
  {}

  /** The blocks start .. start + len as built from the source. */
  ghost predicate SegmentBuilt<P>(a: seq<Block<P>>, start: nat, pos: seq<nat>, source: seq<P>) {
    && start + |a| <= |pos| == |source|
    && forall x :: 0 <= x < |a| ==> a[x] == Block(start + x, pos[start + x], source[start + x])
  }

  ghost predicate SegmentComplete<P>(a: seq<Block<P>>, start: nat, pos: seq<nat>, source: seq<P>) {
    && start + |a| <= |pos| == |source|
    && forall id :: start <= id < start + |a| ==> Block(id, pos[id], source[id]) in a
  }

  lemma SegmentSortedOk<P(!new)>(s: seq<Block<P>>, r: seq<Block<P>>, start: nat, len: nat, pos: seq<nat>,
          source: seq<P>, level: nat)
    requires start + len <= |s| == |pos| <= DUMMY_FLAG
    requires SegmentBuilt(s[start..start + len], start, pos, source)
    requires forall id :: start <= id < start + len ==> pos[id] < Pow2(level)
    requires SortedFrom(s, r, start, len, LaterLeaf, true)
    ensures SegmentSorted(r[start..start + len], start, pos, source, level)
    ensures SegmentComplete(r[start..start + len], start, pos, source)
  {
    var b, a := s[start..start + len], r[start..start + len];
    SegmentRearranged(a, b, start, pos, source);
    forall x, y | 0 <= x < y < len
      ensures a[x].pos <= a[y].pos
    {
      assert !LaterLeaf(r[start + x], r[start + y]);
    }
  }

  lemma SegmentRearranged<P(!new)>(a: seq<Block<P>>, b: seq<Block<P>>, start: nat, pos: seq<nat>, source: seq<P>)
    requires SegmentBuilt(b, start, pos, source) && multiset(a) == multiset(b)
    ensures |a| == |b| && SegmentComplete(a, start, pos, source)
    ensures forall x ::
              0 <= x < |a| ==> start <= a[x].id < start + |a| && a[x] == Block(a[x].id, pos[a[x].id], source[a[x].id])
    ensures forall x, y :: 0 <= x < y < |a| ==> a[x].id != a[y].id
  {
    SameLength(a, b);
    RearrangedDistinct(a, b);
    forall x | 0 <= x < |a|
      ensures a[x] in b
    {
      assert a[x] in multiset(a);
    }
    forall id | start <= id < start + |a|
      ensures Block(id, pos[id], source[id]) in a
    {
      assert b[id - start] in multiset(b);
    }
  }

  // ----- all levels so far

  /** Every id below n' is in place at its level. */
  ghost predicate Settled<P>(t: seq<seq<Block<P>>>, mem: map<nat, P>, pos: seq<nat>, source: seq<P>, level: nat,
          n': nat)
  {
    && n' <= |pos| == |source|
    && forall id: nat, d: nat :: id < n' && d <= level && InSegment(|source|, id, d) ==>
         InPlace(t, mem, Block(id, pos[id], source[id]), level, d)
  }

  /** Only buckets of depth i changed, and only ids start .. start + len were added, as in the source. */
  ghost predicate GrownAt<P>(t: seq<seq<Block<P>>>, t': seq<seq<Block<P>>>, mem: map<nat, P>, mem': map<nat, P>,
          source: seq<P>, i: nat, start: nat, len: nat)
  {
    && |t'| == |t|
    && (forall h :: 0 <= h < |t| && !AtDepth(h + 1, i) ==> t'[h] == t[h])
    && (forall id :: id in mem ==> id in mem' && mem'[id] == mem[id])
    && (forall id :: id in mem' && id !in mem ==> start <= id < start + len && id < |source| && mem'[id] == source[id])
  }

  /**
    The state while the k-th of the sorted blocks a of level i is about to be placed; t0 and
    mem0 are from before the level.
   */
  ghost predicate Placing<P(!new)>(st: seq<Block<P>>, t0: seq<seq<Block<P>>>, t: seq<seq<Block<P>>>, mem0: map<nat, P>,
          mem: map<nat, P>, pos: seq<nat>, source: seq<P>, a: seq<Block<P>>, start: nat, k: nat, i: nat, level: nat,
          pre: int, count: nat, size: nat)
  {
    && SegmentSorted(a, start, pos, source, level)
    && Filling(st, t, mem, pos, level) && Buckets(t, size) && size > 0
    && LevelFilled(t, mem, a, k, i, level, pre, count, size)
    && GrownAt(t0, t, mem0, mem, source, i, start, |a|)
  }

  lemma PlacingStart<P(!new)>(st: seq<Block<P>>, t: seq<seq<Block<P>>>, mem: map<nat, P>, pos: seq<nat>, source: seq<P>,
          a: seq<Block<P>>, start: nat, i: nat, level: nat, size: nat)
    requires SegmentSorted(a, start, pos, source, level) && i <= level
    requires Filling(st, t, mem, pos, level) && Buckets(t, size) && size > 0
    requires forall id :: id in mem ==> id < start
    requires forall h :: 0 <= h < |t| && AtDepth(h + 1, i) ==> AllFree(t[h])
    ensures Placing(st, t, t, mem, mem, pos, source, a, start, 0, i, level, -1, size, size)
  {
    if i < level { Pow2Monotone(i + 1, level + 1); }
    forall h | Pow2(i) - 1 <= h < Pow2(i + 1) - 1
      ensures AllFree(t[h])
    {
      assert AtDepth(h + 1, i);
    }
  }

  lemma PlacingDrop<P(!new)>(st: seq<Block<P>>, t0: seq<seq<Block<P>>>, t: seq<seq<Block<P>>>, mem0: map<nat, P>,
          mem: map<nat, P>, pos: seq<nat>, source: seq<P>, a: seq<Block<P>>, start: nat, k: nat, i: nat, level: nat,
          pre: int, count: nat, size: nat)
    requires Placing(st, t0, t, mem0, mem, pos, source, a, start, k, i, level, pre, count, size)
    requires i <= level && k < |a| && pre == Shr(a[k].pos, level - i) && count + 1 >= size
    ensures Placing(st, t0, t, mem0, mem, pos, source, a, start, k + 1, i, level, pre, count + 1, size)
  {
    DropStep(t, mem, a, k, i, level, pre, count, size, start, pos, source);
  }

  lemma PlacingPlant<P(!new)>(st: seq<Block<P>>, t0: seq<seq<Block<P>>>, t: seq<seq<Block<P>>>, mem0: map<nat, P>,
          mem: map<nat, P>, pos: seq<nat>, source: seq<P>, a: seq<Block<P>>, start: nat, k: nat, i: nat, level: nat,
          pre: int, count: nat, size: nat, c: nat)
    requires Placing(st, t0, t, mem0, mem, pos, source, a, start, k, i, level, pre, count, size)
    requires i <= level && k < |a| && c == (if pre == Shr(a[k].pos, level - i) then count + 1 else 0) && c < size
    ensures IsTree(t, level) && a[k].pos < Pow2(level) && c < |BucketAt(t, level, a[k].pos, i)|
    ensures Placing(st, t0, Plant(t, level, a[k], i, c), mem0, mem[a[k].id := a[k].payload], pos, source,
                    a, start, k + 1, i, level, Shr(a[k].pos, level - i), c, size)
    ensures |mem[a[k].id := a[k].payload]| == |mem| + 1
  {
    PlantStep(t, mem, a, k, i, level, pre, count, size, start, pos, source, c);
    Planted(st, t, mem, pos, level, a[k], i, c);
  }

  /** The first n ids are mapped to the leaves drawn for them. */
  ghost predicate Mapped(pos: seq<nat>, leaves: seq<nat>, nLeaf: nat, n: nat) {
    && nLeaf > 0 && |pos| == |leaves|
    && forall id :: 0 <= id < n && id < |pos| ==> pos[id] == leaves[id] % nLeaf
  }

  /** A finished level joins the levels below it. */
  lemma LevelSettled<P(!new)>(t: seq<seq<Block<P>>>, t': seq<seq<Block<P>>>, mem: map<nat, P>, mem': map<nat, P>,
          a: seq<Block<P>>, pos: seq<nat>, source: seq<P>, level: nat, i: nat, pre: int, count: nat, size: nat)
    requires |source| > 0 && i <= level && IsTree(t, level) && |a| == Pow2(i)
    requires var start := Prefix(|source|, i + 1);
             && Settled(t, mem, pos, source, level, start) && GrownAt(t, t', mem, mem', source, i, start, |a|)
             && SegmentComplete(a, start, pos, source) && Prefix(|source|, i) == start + |a|
    requires LevelFilled(t', mem', a, |a|, i, level, pre, count, size)
    ensures Settled(t', mem', pos, source, level, Prefix(|source|, i))
  {
    var n, start := |source|, Prefix(|source|, i + 1);
    forall id: nat, d: nat | id < Prefix(n, i) && d <= level && InSegment(n, id, d)
      ensures InPlace(t', mem', Block(id, pos[id], source[id]), level, d)
    {
      var b := Block(id, pos[id], source[id]);
      if id < start {
        if d <= i {
          PrefixFalls(n, d + 1, i + 1);
        }
        assert InPlace(t, mem, b, level, d);
        var h := NodeIndex(t, level, b.pos, d);
        if AtDepth(h + 1, i) {
          DepthUnique(h + 1, i, d);
        }
      } else {
        if d < i { PrefixFalls(n, d, i); PrefixFalls(n, d + 1, i); }
        if i < d { PrefixFalls(n, i + 1, d); }
        var x :| 0 <= x < |a| && a[x] == b;
        assert InPlace(t', mem', a[x], level, i);
      }
    }
  }

  /** Ids in the tree and the stash of a consistent ORAM are mapped. */
  lemma FillingIds<P(!new)>(st: seq<Block<P>>, t: seq<seq<Block<P>>>, mem: map<nat, P>, pos: seq<nat>, level: nat,
          h: nat, k: nat)
    requires Filling(st, t, mem, pos, level) && h < |t| && k < |t[h]| && Real(t[h][k])
    ensures t[h][k].id < |pos|
  {
    var b := t[h][k];
    SumHas(t[h], k, Same(b));
    SumOfHas(t, h, Same(b));
    assert Sum(st, Same(b)) + SumOf(t, Same(b)) == Expected(b, mem, pos);
  }

  /** The ids below n' are placed or dropped, and the buckets of the first 'depth' levels are still free. */
  ghost predicate Filled<P(!new)>(st: seq<Block<P>>, t: seq<seq<Block<P>>>, mem: map<nat, P>, pos: seq<nat>,
          source: seq<P>, level: nat, depth: nat, size: nat)
  {
    && |pos| == |source| && 0 < |source| <= DUMMY_FLAG && depth <= level + 1 && size > 0
    && Filling(st, t, mem, pos, level) && Buckets(t, size)
    && Settled(t, mem, pos, source, level, Prefix(|source|, depth))
    && (forall id :: id in mem ==> id < Prefix(|source|, depth) && mem[id] == source[id])
    && (forall id :: 0 <= id < Prefix(|source|, depth) ==> pos[id] < Pow2(level))
    && (forall h :: 0 <= h < |t| && h + 1 < Pow2(depth) ==> AllFree(t[h]))
  }

  lemma {:induction false} PrefixBelow(n: nat, k: nat)
    ensures Prefix(n, k) <= n
    decreases k
  {
    if k == 0 {
    } else {
      PrefixBelow(n / 2, k - 1);
    }
  }

  ghost predicate FreeTree<P>(t: seq<seq<Block<P>>>, size: nat) {
    forall h :: 0 <= h < |t| ==> AllFree(t[h]) && |t[h]| == size
  }

  lemma FilledStart<P(!new)>(st: seq<Block<P>>, t: seq<seq<Block<P>>>, pos: seq<nat>, source: seq<P>, level: nat,
          size: nat)
    requires AllFree(st) && IsTree(t, level) && FreeTree(t, size) && size > 0
    requires |pos| == |source| && 0 < |source| <= DUMMY_FLAG && |source| < Pow2(level + 1)
    ensures Filled(st, t, map[], pos, source, level, level + 1, size)
  {
    EmptyFilling(st, t, pos, level);
    PrefixEnds(|source|, level);
  }

  /** Positions of ids still to come may change. */
  lemma FilledRemapped<P(!new)>(st: seq<Block<P>>, t: seq<seq<Block<P>>>, mem: map<nat, P>, pos: seq<nat>,
          pos': seq<nat>, source: seq<P>, level: nat, depth: nat, size: nat)
    requires Filled(st, t, mem, pos, source, level, depth, size) && |pos'| == |pos|
    requires forall id :: 0 <= id < Prefix(|source|, depth) && id < |pos| ==> pos'[id] == pos[id]
    ensures Filled(st, t, mem, pos', source, level, depth, size)
  {
    var n := |source|;
    PrefixBelow(n, depth);
    FillingRemapped(st, t, mem, pos, pos', level);
    forall id: nat, d: nat | id < Prefix(n, depth) && d <= level && InSegment(n, id, d)
      ensures InPlace(t, mem, Block(id, pos'[id], source[id]), level, d)
    {
      assert InPlace(t, mem, Block(id, pos[id], source[id]), level, d);
    }
  }

  lemma FilledLevel<P(!new)>(st: seq<Block<P>>, t: seq<seq<Block<P>>>, t': seq<seq<Block<P>>>, mem: map<nat, P>,
          mem': map<nat, P>, a: seq<Block<P>>, pos: seq<nat>, source: seq<P>, level: nat, i: nat, pre: int, count: nat,
          size: nat)
    requires Filled(st, t, mem, pos, source, level, i + 1, size) && MaskBit(Pow2(i), |source|) && |a| == Pow2(i)
    requires var start := Prefix(|source|, i + 1);
             && SegmentComplete(a, start, pos, source)
             && Placing(st, t, t', mem, mem', pos, source, a, start, |a|, i, level, pre, count, size)
    requires forall id :: Prefix(|source|, i + 1) <= id < Prefix(|source|, i) && id < |pos| ==> pos[id] < Pow2(level)
    ensures Filled(st, t', mem', pos, source, level, i, size)
  {
    var n, start := |source|, Prefix(|source|, i + 1);
    PrefixStep(n, i);
    LevelSettled(t, t', mem, mem', a, pos, source, level, i, pre, count, size);
    forall h | 0 <= h < |t'| && h + 1 < Pow2(i)
      ensures AllFree(t'[h])
    {
      assert !AtDepth(h + 1, i);
    }
  }

  lemma FilledSkip<P(!new)>(st: seq<Block<P>>, t: seq<seq<Block<P>>>, mem: map<nat, P>, pos: seq<nat>, source: seq<P>,
          level: nat, i: nat, size: nat)
    requires Filled(st, t, mem, pos, source, level, i + 1, size) && !MaskBit(Pow2(i), |source|)
    ensures Filled(st, t, mem, pos, source, level, i, size)
  {
    PrefixStep(|source|, i);
  }
}

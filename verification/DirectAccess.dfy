/**
  The direct access from building the ORAM to whole runs: what is answered, how the counters
  are off, and a family of runs that add more blocks than were dropped.
 */
module DirectAccess {
  import opened BinaryArith
  import opened Rearrangements
  import opened Blocks
  import opened StashModel
  import opened TreeGeometry
  import opened OramInvariant
  import opened InitPlacement
  import opened OramRuns
  import opened DirectRuns
  import opened PathOram

  // ----- runs of direct accesses

  /** One direct access as it was made: what it lost, and how it left stash and path. */
  ghost predicate Made<P(!new)>(o: Oram<P>, o': Oram<P>, bid: nat, np: nat, clear: P -> P, b: Block<P>, lost: set<nat>)
  {
    && Sound(o) && Room(o, bid)
    && DirectStep(o, o', bid, np, clear, b, lost) && |lost| == Loses(o, bid)
    && Stretched(o.tree, PathOf(o.tree, o.pos[bid], o.level), o'.mem, o'.stash.length)
  }

  /** The accesses to bids, all of them made, in buckets of one size. */
  ghost predicate MadeRun<P(!new)>(os: seq<Oram<P>>, bids: seq<nat>, nps: seq<nat>, clear: P -> P, outs: seq<Block<P>>,
          losts: seq<set<nat>>, size: nat)
  {
    && |os| == |bids| + 1 && |nps| == |bids| == |outs| == |losts|
    && (forall k :: 0 <= k < |os| ==> Buckets(os[k].tree, size))
    && forall k :: 0 <= k < |bids| ==> Made(os[k], os[k + 1], bids[k], nps[k], clear, outs[k], losts[k])
  }

  lemma MadeRunExtended<P(!new)>(os: seq<Oram<P>>, bids: seq<nat>, nps: seq<nat>, clear: P -> P, outs: seq<Block<P>>,
          losts: seq<set<nat>>, size: nat, o': Oram<P>, bid: nat, np: nat, b: Block<P>, lost: set<nat>)
    requires MadeRun(os, bids, nps, clear, outs, losts, size) && Buckets(o'.tree, size)
    requires Made(os[|bids|], o', bid, np, clear, b, lost)
    ensures MadeRun(os + [o'], bids + [bid], nps + [np], clear, outs + [b], losts + [lost], size)
  {
    hide Made, Buckets;
  }

  lemma MadeRunIsDirect<P(!new)>(os: seq<Oram<P>>, bids: seq<nat>, nps: seq<nat>, clear: P -> P, outs: seq<Block<P>>,
          losts: seq<set<nat>>, size: nat)
    requires MadeRun(os, bids, nps, clear, outs, losts, size)
    ensures DirectRun(os, bids, nps, clear, outs, losts)
  {
    hide DirectStep, Sound, Room, Stretched, Buckets;
    assert forall k :: 0 <= k < |bids| ==> Made(os[k], os[k + 1], bids[k], nps[k], clear, outs[k], losts[k]);
  }

  /**
    The accesses made are a run of the ORAM, with all that was proved of such runs, if and
    only if the path of each fitted the stash when it was accessed.
   */
  lemma MadeRunExact<P(!new)>(os: seq<Oram<P>>, bids: seq<nat>, nps: seq<nat>, clear: P -> P, outs: seq<Block<P>>,
          losts: seq<set<nat>>, size: nat)
    requires MadeRun(os, bids, nps, clear, outs, losts, size)
    ensures forall k :: 0 <= k < |bids| ==> Sound(os[k]) && Room(os[k], bids[k])
    ensures AccessRun(os, bids, nps, clear, outs) <==> forall k :: 0 <= k < |bids| ==> Keeps(os[k], bids[k])
  {
    hide Sound, Room, Keeps, Step, Buckets, Made;
    forall k | 0 <= k < |bids|
      ensures Sound(os[k]) && Room(os[k], bids[k])
      ensures AccessRun(os, bids, nps, clear, outs) ==> Keeps(os[k], bids[k])
    {
      MadeExact(os[k], os[k + 1], bids[k], nps[k], clear, outs[k], losts[k]);
    }
    if forall k :: 0 <= k < |bids| ==> Keeps(os[k], bids[k]) {
      forall k | 0 <= k < |bids|
        ensures Step(os[k], os[k + 1], bids[k], nps[k], clear, outs[k])
      {
        MadeExact(os[k], os[k + 1], bids[k], nps[k], clear, outs[k], losts[k]);
      }
    }
  }

  lemma MadeExact<P(!new)>(o: Oram<P>, o': Oram<P>, bid: nat, np: nat, clear: P -> P, b: Block<P>, lost: set<nat>)
    requires Made(o, o', bid, np, clear, b, lost)
    ensures Sound(o) && Room(o, bid) && (Step(o, o', bid, np, clear, b) <==> Keeps(o, bid))
  {
    hide Sound, Room, Keeps, Step, DirectStep, Stretched, Loses;
    DirectStepExact(o, o', bid, np, clear, b, lost);
  }

  lemma RowsAreBuckets<P>(t: seq<seq<Block<P>>>, size: nat, n: nat)
    requires RowsOk(t, size, n)
    ensures Buckets(t, size)
  {}

  /** The leaves the first blocks moved to. */
  ghost predicate LeavesDrawn(newLeaves: seq<nat>, nLeaf: nat, nps: seq<nat>) {
    nLeaf > 0 && |nps| <= |newLeaves| && forall k :: 0 <= k < |nps| ==> nps[k] == newLeaves[k] % nLeaf
  }

  /** Direct accesses at any indices, with any leaves, recorded up to the first that finds no room. */
  method DirectBurst<P(!new)>(sketch: FOSketch<P>, draws: seq<nat>, newLeaves: seq<nat>, buf: Block<P>)
    returns (ghost os: seq<Oram<P>>, ghost bids: seq<nat>, ghost nps: seq<nat>, ghost outs: seq<Block<P>>,
          ghost losts: seq<set<nat>>)
    requires sketch.Valid() && sketch.nBlock > 0 && |draws| == |newLeaves|
    modifies sketch, sketch.OblivSK, sketch.pos_map, sketch.stash
    ensures MadeRun(os, bids, nps, sketch.clear, outs, losts, sketch.sizeBucket) && os[0] == old(sketch.Abstract())
    ensures BlocksDrawn(draws, old(sketch.nBlock), sketch.nRecord, bids)
    ensures LeavesDrawn(newLeaves, old(sketch.nLeaf), nps)
    ensures |bids| < |draws| ==> !Room(os[|bids|], DrawnBlock(draws[|bids|], old(sketch.nBlock), sketch.nRecord))
  {
    hide Sound, Room, Made, DrawnBlock, Buckets, DirectStep, Loses, Stretched, RowsOk;
    ghost var n, leaves := sketch.nBlock, sketch.nLeaf;
    os, bids, nps, outs, losts := [sketch.Abstract()], [], [], [], [];
    RowsAreBuckets(sketch.OblivSK[..], sketch.sizeBucket, n);
    var i := 0;
    while i < |draws|
      invariant 0 <= i <= |draws| && sketch.Shape() && sketch.SameGeometry(old(sketch.level), leaves, n)
      invariant sketch.OblivSK == old(sketch.OblivSK) && sketch.pos_map == old(sketch.pos_map) &&
                sketch.stash == old(sketch.stash)
      invariant MadeRun(os, bids, nps, sketch.clear, outs, losts, sketch.sizeBucket)
      invariant os[0] == old(sketch.Abstract()) && |bids| <= i
      invariant BlocksDrawn(draws, n, sketch.nRecord, bids) && LeavesDrawn(newLeaves, leaves, nps)
      invariant |bids| < i ==> !Room(os[|bids|], DrawnBlock(draws[|bids|], n, sketch.nRecord))
      invariant |bids| == i ==> sketch.Valid() && os[i] == sketch.Abstract()
    {
      ghost var before, going := sketch.Abstract(), |bids| == i;
      var index := DrawnIndex(draws[i], sketch.nBlock, sketch.nRecord);
      var newPos := newLeaves[i] % sketch.nLeaf;
      ghost var bid := DrawnBlock(draws[i], n, sketch.nRecord);
      BlockDrawn(draws[i], n, sketch.nRecord);
      ghost var lost;
      var isFound, blk;
      isFound, blk, lost := sketch.Access(index, buf, newPos);
      if going && Room(before, bid) {
        AccessMade(before, sketch.Abstract(), bid, newPos, sketch.clear, blk, lost);
        RowsAreBuckets(sketch.OblivSK[..], sketch.sizeBucket, n);
        MadeRunExtended(os, bids, nps, sketch.clear, outs, losts, sketch.sizeBucket, sketch.Abstract(), bid, newPos,
            blk, lost);
        os, bids, nps, outs, losts := os + [sketch.Abstract()], bids + [bid], nps + [newPos], outs + [blk],
            losts + [lost];
      }
      i := i + 1;
    }
  }

  lemma BlockDrawn(draw: nat, n: nat, nRecord: nat)
    requires n > 0 && nRecord > 0
    ensures DrawnBlock(draw, n, nRecord) == DrawnIndex(draw, n, nRecord) / nRecord
  {}

  lemma AccessMade<P(!new)>(o: Oram<P>, o': Oram<P>, bid: nat, np: nat, clear: P -> P, b: Block<P>, lost: set<nat>)
    requires Sound(o) && Room(o, bid)
    requires DirectStep(o, o', bid, np, clear, b, lost) && |lost| == Loses(o, bid)
    requires Stretched(o.tree, PathOf(o.tree, o.pos[bid], o.level), o'.mem, o'.stash.length)
    ensures Made(o, o', bid, np, clear, b, lost)
  {}

  // ----- from building to a whole run

  /** What was added against what was dropped, lost and is missing now. */
  ghost predicate DirectAccounted<P>(o: Oram<P>, n: nat, nFailed: nat, losts: seq<set<nat>>) {
    && |o.mem| <= n && Load(o.stash) + SumOf(o.tree, Occupied()) == |o.mem|
    && o.added == nFailed + Total(losts) - (n - |o.mem|)
    && (o.added > nFailed <==> Total(losts) > n - |o.mem|)
  }

  lemma MadeRunAccounts<P(!new)>(os: seq<Oram<P>>, bids: seq<nat>, nps: seq<nat>, clear: P -> P, outs: seq<Block<P>>,
          losts: seq<set<nat>>, size: nat, source: seq<P>, leaves: seq<nat>, nFailed: nat)
    requires MadeRun(os, bids, nps, clear, outs, losts, size) && Built(os[0], source, leaves, nFailed)
    ensures DirectAccounted(os[|bids|], |source|, nFailed, losts)
    ensures Sound(os[|bids|]) && |os[|bids|].pos| == |source|
  {
    hide Sound, Settled, Mapped, Survivors, Total, DirectStep;
    MadeRunIsDirect(os, bids, nps, clear, outs, losts, size);
    DirectGrows(os, bids, nps, clear, outs, losts);
    DirectAccounts(os, bids, nps, clear, outs, losts, |source|, nFailed);
  }

  /**
    A sketch is built over the source and then accessed directly at any indices, with any
    leaves.  Up to the first access without room each loses exactly the blocks that do not
    fit, and the blocks added are those dropped and lost, less those missing at the end.
   */
  method RunDirect<P(!new)>(source: seq<P>, leaves: seq<nat>, nRecord: nat, sizeBucket: nat, compStash: bool,
          clear: P -> P, junk: P, draws: seq<nat>, newLeaves: seq<nat>)
    returns (ok: bool, nFailed: nat, ghost os: seq<Oram<P>>, ghost bids: seq<nat>, ghost nps: seq<nat>,
          ghost outs: seq<Block<P>>, ghost losts: seq<set<nat>>)
    requires 0 < |source| == |leaves| && nRecord > 0 && sizeBucket > 0 && |draws| == |newLeaves|
    ensures ok <==> |source| < 0x1_0000
    ensures ok ==>
              && MadeRun(os, bids, nps, clear, outs, losts, sizeBucket) && Built(os[0], source, leaves, nFailed)
              && os[0].stash.length == DEFAULT_STASH_LENGTH
              && BlocksDrawn(draws, |source|, nRecord, bids) && LeavesDrawn(newLeaves, Pow2(os[0].level), nps)
              && DirectAccounted(os[|bids|], |source|, nFailed, losts)
              && (|bids| < |draws| ==> !Room(os[|bids|], DrawnBlock(draws[|bids|], |source|, nRecord)))
              && (|source| <= MAX_STASH_NUM - 8 ==> |bids| == |draws|)
  {
    hide Sound, Room, Made, DrawnBlock, Buckets, Settled, Mapped, FloorLog2, AllFree, DirectAccounted;
    var sketch := new FOSketch<P>(Counters, nRecord, sizeBucket, compStash, clear);
    ok, nFailed := sketch.Init_OCU(source, leaves, junk);
    os, bids, nps, outs, losts := [], [], [], [], [];
    if ok {
      os, bids, nps, outs, losts := DirectBurst(sketch, draws, newLeaves, Block(0, 0, junk));
      MadeRunAccounts(os, bids, nps, clear, outs, losts, sizeBucket, source, leaves, nFailed);
      if |bids| < |draws| && |source| <= MAX_STASH_NUM - 8 {
        SmallRoom(os[|bids|], DrawnBlock(draws[|bids|], |source|, nRecord));
      }
    }
  }

  // ----- runs that add more blocks than were dropped

  /** Every block is mapped to the leaf. */
  ghost predicate AllAt(pos: seq<nat>, leaf: nat) {
    forall id :: 0 <= id < |pos| ==> pos[id] == leaf
  }

  /** A bucket on no path to a mapped leaf is free. */
  lemma OffPathFree<P(!new)>(o: Oram<P>, leaf: nat, h: nat)
    requires Sound(o) && AllAt(o.pos, leaf) && leaf < Pow2(o.level) && h < |o.tree|
    requires forall i :: 0 <= i <= o.level ==> h + 1 != Node(leaf, o.level, i)
    ensures AllFree(o.tree[h])
  {
    forall k | 0 <= k < |o.tree[h]|
      ensures !Real(o.tree[h][k])
    {
      if Real(o.tree[h][k]) {
        var i := BlockInTree(o.stash, o.tree, o.mem, o.pos, o.level, h, k);
        assert false;
      }
    }
  }

  /** Once its path is freed nothing is left. */
  lemma RestFree<P(!new)>(o: Oram<P>, leaf: nat, h: nat)
    requires Sound(o) && AllAt(o.pos, leaf) && leaf < Pow2(o.level) && h < |o.tree|
    ensures AllFree(Pushed(o.tree, FreedRows(PathOf(o.tree, leaf, o.level)), leaf, o.level, o.level + 1)[h])
  {
    hide Sound, AllAt, AllFree, Pushed, FreedRow;
    SoundTree(o);
    var free := FreedRows(PathOf(o.tree, leaf, o.level));
    PushedAt(o.tree, free, leaf, o.level, o.level + 1, h + 1);
    if i: nat :| i <= o.level && h + 1 == Node(leaf, o.level, i) {
      assert AllFree(free[i]);
    } else {
      OffPathFree(o, leaf, h);
    }
  }

  lemma SoundTree<P(!new)>(o: Oram<P>)
    requires Sound(o)
    ensures IsTree(o.tree, o.level)
  {}

  /** When every block is mapped to one leaf, its path holds all blocks of the tree. */
  lemma PathIsAll<P(!new)>(o: Oram<P>, leaf: nat)
    requires Sound(o) && AllAt(o.pos, leaf) && leaf < Pow2(o.level)
    ensures IsTree(o.tree, o.level)
    ensures SumOf(PathOf(o.tree, leaf, o.level), Occupied()) == SumOf(o.tree, Occupied())
  {
    hide Sound, AllAt, AllFree, Pushed, FreedRow, SumOf, PathOf;
    SoundTree(o);
    var path := PathOf(o.tree, leaf, o.level);
    var free := FreedRows(path);
    var rest := Pushed(o.tree, free, leaf, o.level, o.level + 1);
    PushedSum(o.tree, free, leaf, o.level, o.level + 1, Occupied());
    assert path[..o.level + 1] == path && free[..o.level + 1] == free;
    assert Weight<P>(Occupied());
    SumOfFree(free, Occupied());
    forall h | 0 <= h < |rest|
      ensures AllFree(rest[h])
    {
      RestFree(o, leaf, h);
    }
    SumOfFree(rest, Occupied());
  }

  /** Where one bucket takes all blocks, greedy eviction leaves none in the stash. */
  lemma StashEmptied<P(!new)>(o: Oram<P>, leaf: nat, size: nat)
    requires Sound(o) && EvictedTo(o, leaf) && Buckets(o.tree, size) && |o.pos| <= size
    ensures AllFree(o.stash.slots)
  {
    forall k | 0 <= k < |o.stash.slots|
      ensures !Real(o.stash.slots[k])
    {
      if Real(o.stash.slots[k]) {
        RootFull(o, leaf, size, k);
        SumHas(o.stash.slots, k, Occupied());
        SumOfHas(o.tree, Node(leaf, o.level, 0) - 1, Occupied());
        BlockCount(o.mem, |o.pos|);
        assert false;
      }
    }
  }

  /** A block in the stash is mapped to some leaf. */
  lemma StashMapped<P(!new)>(o: Oram<P>, k: nat)
    requires Sound(o) && k < |o.stash.slots| && Real(o.stash.slots[k])
    ensures var id := o.stash.slots[k].id; id < |o.pos| && o.pos[id] < Pow2(o.level)
  {
    hide Placed;
    var b := o.stash.slots[k];
    SumHas(o.stash.slots, k, Same(b));
    assert Sum(o.stash.slots, Same(b)) + SumOf(o.tree, Same(b)) == Expected(b, o.mem, o.pos);
  }

  /** A block left in the stash met a full root. */
  lemma RootFull<P(!new)>(o: Oram<P>, leaf: nat, size: nat, k: nat)
    requires Sound(o) && EvictedTo(o, leaf) && Buckets(o.tree, size)
    requires k < |o.stash.slots| && Real(o.stash.slots[k])
    ensures 1 <= Node(leaf, o.level, 0) <= |o.tree|
    ensures Sum(o.tree[Node(leaf, o.level, 0) - 1], Occupied()) == size
  {
    hide Sound, Shr, Pow2, Node;
    SoundTree(o);
    StashMapped(o, k);
    var b, path := o.stash.slots[k], PathOf(o.tree, leaf, o.level);
    AtRoot(o.pos[b.id], leaf, o.level);
    assert Eligible(b, o.pos, leaf, |path| - 1 - 0) && NoneFor(o.stash.slots, path[0], o.pos, leaf, |path| - 1 - 0);
    OccupiedBound(path[0]);
  }

  /** All leaves agree on no turns at all. */
  lemma AtRoot(p: nat, q: nat, level: nat)
    requires p < Pow2(level) && q < Pow2(level)
    ensures Shr(p, level) == Shr(q, level)
  {
    ShrBound(p, level, level);
    ShrBound(q, level, level);
  }

  /** With buckets that take all blocks, none is dropped when the ORAM is built. */
  lemma NoneDropped<P(!new)>(o: Oram<P>, source: seq<P>, leaves: seq<nat>, nFailed: nat, size: nat)
    requires Built(o, source, leaves, nFailed) && Buckets(o.tree, size) && |source| <= size
    ensures nFailed == 0
  {
    var n := |source|;
    BlockCount(o.mem, n);
    if nFailed > 0 {
      var id: nat :| id < n && id !in o.mem;
      var i := SegmentsPartition(n, id, o.level);
      assert InPlace(o.tree, o.mem, Block(id, o.pos[id], source[id]), o.level, i);
      var h := NodeIndex(o.tree, o.level, o.pos[id], i);
      OccupiedBound(o.tree[h]);
      SumOfHas(o.tree, h, Occupied());
      assert false;
    }
  }

  /** How far a run in which every block is mapped to leaf 0 has come: a loss in its first access, and none since. */
  ghost predicate AfterLoss<P(!new)>(o: Oram<P>, i: nat, losts: seq<set<nat>>, n: nat) {
    && Sound(o) && |o.pos| == n && AllAt(o.pos, 0) && AllFree(o.stash.slots)
    && (forall id :: 0 <= id < i ==> id in o.mem)
    && if i == 0 then |o.mem| == n && o.stash.length == DEFAULT_STASH_LENGTH && losts == []
       else |o.mem| <= o.stash.length && Total(losts) == n - DEFAULT_STASH_LENGTH
  }

  /** What the next access loses. */
  lemma LossNow<P(!new)>(o: Oram<P>, i: nat, losts: seq<set<nat>>, n: nat, bid: nat)
    requires AfterLoss(o, i, losts, n) && n > DEFAULT_STASH_LENGTH && Room(o, bid)
    ensures Loses(o, bid) == if i == 0 then n - DEFAULT_STASH_LENGTH else 0
  {
    PathIsAll(o, 0);
    SumFree(o.stash.slots, Occupied());
  }

  lemma LossNext<P(!new)>(o: Oram<P>, o': Oram<P>, i: nat, losts: seq<set<nat>>, n: nat, size: nat, clear: P -> P,
          b: Block<P>, lost: set<nat>)
    requires AfterLoss(o, i, losts, n) && DEFAULT_STASH_LENGTH < n <= size && i < n
    requires Made(o, o', i, 0, clear, b, lost) && Buckets(o'.tree, size)
    ensures AfterLoss(o', i + 1, losts + [lost], n)
  {
    hide Sound, Stretched, Loses, DirectStep, Buckets, AllAt, AllFree;
    LossNow(o, i, losts, n, i);
    MovedTo(o, o', i, clear, b, lost);
    PathAtZero(o, i);
    StashEmptied(o', 0, size);
    DirectCounts(o, o', i, 0, clear, b, lost);
    AllStretched(o, o');
    assert (losts + [lost])[..|losts|] == losts;
    if i > 0 {
      assert lost == {};
    }
  }

  lemma MovedTo<P(!new)>(o: Oram<P>, o': Oram<P>, bid: nat, clear: P -> P, b: Block<P>, lost: set<nat>)
    requires DirectStep(o, o', bid, 0, clear, b, lost) && AllAt(o.pos, 0)
    ensures Sound(o') && AllAt(o'.pos, 0) && |o'.pos| == |o.pos| && o'.level == o.level && EvictedTo(o', 0)
  {}

  lemma PathAtZero<P(!new)>(o: Oram<P>, bid: nat)
    requires Sound(o) && AllAt(o.pos, 0) && bid < |o.pos|
    ensures o.pos[bid] == 0 && 0 < Pow2(o.level) && IsTree(o.tree, o.level)
  {}

  lemma AllStretched<P(!new)>(o: Oram<P>, o': Oram<P>)
    requires Sound(o) && AllAt(o.pos, 0) && 0 < Pow2(o.level) && IsTree(o.tree, o.level)
    requires Stretched(o.tree, PathOf(o.tree, 0, o.level), o'.mem, o'.stash.length)
    ensures |o'.mem| <= o'.stash.length
  {
    PathIsAll(o, 0);
  }

  /** Accessing the blocks one after the other loses some in the first access and none later. */
  lemma {:induction false} LossOnce<P(!new)>(os: seq<Oram<P>>, bids: seq<nat>, nps: seq<nat>, clear: P -> P,
          outs: seq<Block<P>>, losts: seq<set<nat>>, size: nat, n: nat)
    requires MadeRun(os, bids, nps, clear, outs, losts, size) && DEFAULT_STASH_LENGTH < n <= size && |bids| <= n
    requires AfterLoss(os[0], 0, [], n)
    requires forall k :: 0 <= k < |bids| ==> bids[k] == k && nps[k] == 0
    ensures AfterLoss(os[|bids|], |bids|, losts, n)
    decreases |bids|
  {
    hide AfterLoss, Made, Buckets;
    var i := |bids|;
    if i == 0 {
      assert losts == [];
    } else {
      var m := i - 1;
      LossOnce(os[..i], bids[..m], nps[..m], clear, outs[..m], losts[..m], size, n);
      assert Made(os[m], os[i], bids[m], nps[m], clear, outs[m], losts[m]);
      LossNext(os[m], os[i], m, losts[..m], n, size, clear, outs[m], losts[m]);
      assert losts[..m] + [losts[m]] == losts;
    }
  }

  /** The ORAM as built, when every leaf drawn is 0. */
  lemma BuiltAtZero<P(!new)>(o: Oram<P>, source: seq<P>, leaves: seq<nat>, nFailed: nat, size: nat)
    requires Built(o, source, leaves, nFailed) && Buckets(o.tree, size) && |source| <= size
    requires o.stash.length == DEFAULT_STASH_LENGTH && forall k :: 0 <= k < |leaves| ==> leaves[k] == 0
    ensures nFailed == 0 && AfterLoss(o, 0, [], |source|)
  {
    NoneDropped(o, source, leaves, nFailed, size);
    hide *;
    BuiltParts(o, source, leaves, nFailed);
    MappedZero(o.pos, leaves, Pow2(o.level));
    StartsLossless(o, |source|);
  }

  lemma BuiltParts<P(!new)>(o: Oram<P>, source: seq<P>, leaves: seq<nat>, nFailed: nat)
    requires Built(o, source, leaves, nFailed)
    ensures Sound(o) && |o.pos| == |source| && AllFree(o.stash.slots) && |o.mem| + nFailed == |source|
    ensures Mapped(o.pos, leaves, Pow2(o.level), |o.pos|) && forall id :: id in o.mem ==> id < |source|
  {
    hide Sound, Settled, Mapped, AllFree;
  }

  lemma MappedZero(pos: seq<nat>, leaves: seq<nat>, nLeaf: nat)
    requires Mapped(pos, leaves, nLeaf, |pos|) && forall k :: 0 <= k < |leaves| ==> leaves[k] == 0
    ensures AllAt(pos, 0)
  {}

  lemma StartsLossless<P(!new)>(o: Oram<P>, n: nat)
    requires Sound(o) && |o.pos| == n && AllAt(o.pos, 0) && AllFree(o.stash.slots)
    requires |o.mem| == n && o.stash.length == DEFAULT_STASH_LENGTH
    ensures AfterLoss(o, 0, [], n)
  {
    hide Sound, AllAt, AllFree;
  }

  /**
    Of more than five blocks, all mapped to leaf 0 and moved there again, and in buckets that
    take them all, none is dropped when the ORAM is built.  Accessing each once loses all but
    five in the first access, so that as many are added although none had been dropped.
   */
  lemma AddsMoreThanDropped<P(!new)>(os: seq<Oram<P>>, bids: seq<nat>, nps: seq<nat>, clear: P -> P,
          outs: seq<Block<P>>, losts: seq<set<nat>>, size: nat, source: seq<P>, leaves: seq<nat>, nFailed: nat)
    requires MadeRun(os, bids, nps, clear, outs, losts, size) && Built(os[0], source, leaves, nFailed)
    requires DEFAULT_STASH_LENGTH < |source| <= size && os[0].stash.length == DEFAULT_STASH_LENGTH
    requires forall k :: 0 <= k < |leaves| ==> leaves[k] == 0
    requires |bids| == |source| && forall k :: 0 <= k < |bids| ==> bids[k] == k && nps[k] == 0
    ensures nFailed == 0 && os[|bids|].added == |source| - DEFAULT_STASH_LENGTH > 0
  {
    hide Made, Settled, Sound, Mapped, Buckets, AllAt, AllFree;
    var n := |source|;
    BuiltAtZero(os[0], source, leaves, nFailed, size);
    LossOnce(os, bids, nps, clear, outs, losts, size, n);
    MadeRunAccounts(os, bids, nps, clear, outs, losts, size, source, leaves, nFailed);
    SoundCount(os[n]);
    BlockCount(os[n].mem, n);
  }

  /** The first index of each block, one after the other. */
  function IndicesInTurn(n: nat, nRecord: nat): (draws: seq<nat>)
    requires n > 0 && nRecord > 0
    ensures |draws| == n && forall k :: 0 <= k < n ==> DrawnBlock(draws[k], n, nRecord) == k
  {
    hide DrawnBlock;
    assert forall k: nat :: k < n ==> DrawnBlock(k * nRecord, n, nRecord) == k by {
      forall k: nat | k < n
        ensures DrawnBlock(k * nRecord, n, nRecord) == k
      {
        DrawnEverywhere(0, k, 0, n, nRecord);
        assert 0 * (n * nRecord) + k * nRecord + 0 == k * nRecord;
      }
    }
    seq(n, k requires 0 <= k < n => k * nRecord)
  }

  function Zeros(n: nat): (s: seq<nat>)
    ensures |s| == n && forall k :: 0 <= k < n ==> s[k] == 0
  {
    seq(n, _ => 0)
  }

  lemma AccessedInTurn(n: nat, nRecord: nat, nLeaf: nat, bids: seq<nat>, nps: seq<nat>)
    requires n > 0 && nRecord > 0 && |bids| == |nps| == n
    requires BlocksDrawn(IndicesInTurn(n, nRecord), n, nRecord, bids) && LeavesDrawn(Zeros(n), nLeaf, nps)
    ensures forall k :: 0 <= k < n ==> bids[k] == k && nps[k] == 0
  {
    hide DrawnBlock;
  }

  /** There are such runs: for any six or more blocks that always find room. */
  method LossyRun<P(!new)>(source: seq<P>, nRecord: nat, sizeBucket: nat, compStash: bool, clear: P -> P, junk: P)
    returns (nFailed: nat, ghost os: seq<Oram<P>>, ghost bids: seq<nat>, ghost nps: seq<nat>, ghost outs: seq<Block<P>>,
          ghost losts: seq<set<nat>>)
    requires DEFAULT_STASH_LENGTH < |source| <= MAX_STASH_NUM - 8 && |source| <= sizeBucket && nRecord > 0
    ensures DirectRun(os, bids, nps, clear, outs, losts) && |bids| == |source|
    ensures Built(os[0], source, Zeros(|source|), nFailed)
    ensures nFailed == 0 && os[|bids|].added == |source| - DEFAULT_STASH_LENGTH > 0
  {
    hide Made, Built, Buckets, DirectStep, DirectAccounted, DrawnBlock, BlocksDrawn, LeavesDrawn, Room;
    var n := |source|;
    var ok;
    ok, nFailed, os, bids, nps, outs, losts := RunDirect(source, Zeros(n), nRecord, sizeBucket, compStash, clear,
        junk, IndicesInTurn(n, nRecord), Zeros(n));
    AccessedInTurn(n, nRecord, Pow2(os[0].level), bids, nps);
    MadeRunIsDirect(os, bids, nps, clear, outs, losts, sizeBucket);
    AddsMoreThanDropped(os, bids, nps, clear, outs, losts, sizeBucket, source, Zeros(n), nFailed);
  }
}

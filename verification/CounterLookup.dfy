/**
  Looking counters of the light part up obliviously: the table of counters is cut into
  blocks of 60, the blocks are kept in a Path-ORAM, and a lookup reads one of them.
 */
module CounterLookup {
  import opened BinaryArith
  import opened Blocks
  import opened OramRuns
  import opened PathOram
  import opened InitPlacement
  import opened SketchUpdate
  import opened BlockUpdate

  /** A lookup of a light counter: one access to its block. */
  method OAccessCounter(sketch: FOSketch<Row>, flowID: nat, hash: nat -> nat, numLight: nat, buf: Block<Row>,
          newPos: nat)
    returns (size: nat, ghost blk: Block<Row>)
    requires sketch.Shape() && sketch.sketchType.Counters? && sketch.nRecord == N_RECORD && newPos < sketch.nLeaf
    requires 0 < numLight <= N_RECORD * sketch.nBlock
    modifies sketch, sketch.OblivSK, sketch.pos_map, sketch.stash
    ensures sketch.OblivSK == old(sketch.OblivSK) && sketch.pos_map == old(sketch.pos_map) &&
            sketch.stash == old(sketch.stash)
    ensures sketch.Shape() && sketch.SameGeometry(old(sketch.level), old(sketch.nLeaf), old(sketch.nBlock))
    ensures var index := hash(flowID) % numLight;
            old(sketch.Valid()) && Room(old(sketch.Abstract()), index / N_RECORD) ==>
              && sketch.Valid()
              && Step(old(sketch.Abstract()), sketch.Abstract(), index / N_RECORD, newPos, sketch.clear, blk)
              && Lengthened(old(sketch.State()), sketch.State(), sketch.needComStash)
              && size == blk.payload[index % N_RECORD]
  {
    hide Sound, Room, Step;
    var index := hash(flowID) % numLight;
    assert index / N_RECORD < sketch.nBlock;
    var subIdx := index % N_RECORD;
    var isFound, b := sketch.OAccess(index, buf, newPos);
    blk := b;
    size := 0;
    if isFound {
      size := b.payload[subIdx];
    }
  }

  /** The blocks kept are those of the table of counters. */
  ghost predicate StoresCounters(mem: map<nat, Row>, light: seq<Counter>, n: nat) {
    && |light| == N_RECORD * n
    && forall b :: b in mem ==> b < n && mem[b] == LightRow(light, b)
  }

  /** What was handed out are the counters of kept blocks, and zeros for dropped ones. */
  ghost predicate CountersOut(kept: set<nat>, light: seq<Counter>, n: nat, bids: seq<nat>, outs: seq<Block<Row>>) {
    && |bids| == |outs| && |light| == N_RECORD * n
    && forall k, j :: 0 <= k < |outs| && bids[k] < n && 0 <= j < N_RECORD ==>
         outs[k].payload[j] == if bids[k] in kept then light[N_RECORD * bids[k] + j] else 0
  }

  /**
    Over any run each access, the first to a block or a later one, hands out the counters
    of the block, or zeros when the block was dropped at the start.
   */
  lemma CountersRight(first: Oram<Row>, last: Oram<Row>, bids: seq<nat>, clear: Row -> Row, outs: seq<Block<Row>>,
          compStash: bool, light: seq<Counter>, n: nat)
    requires Leads(first, last, bids, clear, outs, compStash) && ClearsTo<Row>(clear, Single(0, 0))
    requires StoresCounters(first.mem, light, n)
    ensures CountersOut(first.mem.Keys, light, n, bids, outs)
  {
    hide Leads, ClearsTo;
    LeadsAnswers(first, last, bids, clear, outs, compStash, Single(0, 0));
    forall k, j | 0 <= k < |outs| && bids[k] < n && 0 <= j < N_RECORD
      ensures outs[k].payload[j] == if bids[k] in first.mem.Keys then light[N_RECORD * bids[k] + j] else 0
    {
      assert outs[k].payload == Flat(first.mem, Single(0, 0), bids[k]);
      assert LightRow(light, bids[k])[j] == light[N_RECORD * bids[k] + j] && Single(0, 0)[j] == 0;
    }
  }

  /** Each lookup accessed the block of its counter and read the counter's place. */
  ghost predicate CountersRead(flowIDs: seq<nat>, sizes: seq<nat>, bids: seq<nat>, outs: seq<Block<Row>>, numLight: nat,
          hash: nat -> nat)
  {
    && |bids| == |outs| == |sizes| <= |flowIDs| && numLight > 0
    && forall k :: 0 <= k < |bids| ==>
         var index := hash(flowIDs[k]) % numLight;
         bids[k] == index / N_RECORD && sizes[k] == outs[k].payload[index % N_RECORD]
  }

  /** The sizes found are the counters of the flows, or zero for those in dropped blocks. */
  ghost predicate CounterSizes(flowIDs: seq<nat>, sizes: seq<nat>, light: seq<Counter>, numLight: nat, kept: set<nat>,
          hash: nat -> nat)
  {
    && |sizes| <= |flowIDs| && 0 < numLight <= |light|
    && forall k :: 0 <= k < |sizes| ==>
         var index := hash(flowIDs[k]) % numLight;
         sizes[k] == if index / N_RECORD in kept then light[index] else 0
  }

  lemma SizesRight(flowIDs: seq<nat>, sizes: seq<nat>, bids: seq<nat>, outs: seq<Block<Row>>, light: seq<Counter>,
          n: nat, numLight: nat, kept: set<nat>, hash: nat -> nat)
    requires CountersRead(flowIDs, sizes, bids, outs, numLight, hash) && CountersOut(kept, light, n, bids, outs)
    requires numLight <= N_RECORD * n
    ensures CounterSizes(flowIDs, sizes, light, numLight, kept, hash)
  {
    forall k | 0 <= k < |sizes|
      ensures var index := hash(flowIDs[k]) % numLight;
              sizes[k] == if index / N_RECORD in kept then light[index] else 0
    {
      var index := hash(flowIDs[k]) % numLight;
      assert bids[k] == index / N_RECORD < n && index == N_RECORD * bids[k] + index % N_RECORD;
    }
  }

  /**
    Lookups of the counters of any flows, with any leaves: up to the first that finds no
    room in the stash, each finds the counter, or zero when its block was dropped.
   */
  method OBurstAccessCounter(sketch: FOSketch<Row>, flowIDs: seq<nat>, newLeaves: seq<nat>, hash: nat -> nat,
          numLight: nat, buf: Block<Row>, ghost light: seq<Counter>)
    returns (ghost sizes: seq<nat>, ghost bids: seq<nat>, ghost outs: seq<Block<Row>>, ghost last: Oram<Row>)
    requires sketch.Valid() && sketch.sketchType.Counters? && sketch.nRecord == N_RECORD && |flowIDs| == |newLeaves|
    requires 0 < numLight <= N_RECORD * sketch.nBlock && ClearsTo<Row>(sketch.clear, Single(0, 0))
    requires StoresCounters(sketch.mem, light, sketch.nBlock)
    modifies sketch, sketch.OblivSK, sketch.pos_map, sketch.stash
    ensures CounterSizes(flowIDs, sizes, light, numLight, old(sketch.mem).Keys, hash)
    ensures CountersRead(flowIDs, sizes, bids, outs, numLight, hash)
    ensures Leads(old(sketch.Abstract()), last, bids, sketch.clear, outs, sketch.needComStash) && |sizes| <= |flowIDs|
    ensures |sizes| < |flowIDs| ==> !Room(last, hash(flowIDs[|sizes|]) % numLight / N_RECORD)
    ensures |sizes| == |flowIDs| ==> sketch.Valid() && last == sketch.Abstract()
  {
    hide StoresCounters, Sound, Room, Step, Leads, ClearsTo;
    ghost var n, leaves, first := sketch.nBlock, sketch.nLeaf, sketch.Abstract();
    sizes, bids, outs, last := [], [], [], first;
    LeadsNowhere(last, sketch.clear, sketch.needComStash);
    var i := 0;
    while i < |flowIDs|
      invariant 0 <= i <= |flowIDs| && sketch.Shape() && sketch.SameGeometry(old(sketch.level), leaves, n)
      invariant sketch.OblivSK == old(sketch.OblivSK) && sketch.pos_map == old(sketch.pos_map) &&
                sketch.stash == old(sketch.stash)
      invariant |sizes| <= i && CountersRead(flowIDs, sizes, bids, outs, numLight, hash)
      invariant Leads(first, last, bids, sketch.clear, outs, sketch.needComStash)
      invariant |sizes| < i ==> !Room(last, hash(flowIDs[|sizes|]) % numLight / N_RECORD)
      invariant |sizes| == i ==> sketch.Valid() && last == sketch.Abstract()
    {
      ghost var before, going := sketch.Abstract(), |sizes| == i;
      ghost var bid := hash(flowIDs[i]) % numLight / N_RECORD;
      var newPos := newLeaves[i] % sketch.nLeaf;
      ghost var size, blk;
      size, blk := OAccessCounter(sketch, flowIDs[i], hash, numLight, buf, newPos);
      if going && Room(before, bid) {
        LeadsFurther(first, before, bids, sketch.clear, outs, sketch.needComStash, sketch.Abstract(), bid, newPos, blk);
        sizes, bids, outs, last := sizes + [size], bids + [bid], outs + [blk], sketch.Abstract();
      }
      i := i + 1;
    }
    CountersRight(first, last, bids, sketch.clear, outs, sketch.needComStash, light, n);
    SizesRight(flowIDs, sizes, bids, outs, light, n, numLight, first.mem.Keys, hash);
  }

  // ----- from the table of counters to lookups

  /** The blocks of the table of counters. */
  function LightRows(light: seq<Counter>, n: nat): (r: seq<Row>)
    requires |light| == N_RECORD * n
    ensures |r| == n && forall b :: 0 <= b < n ==> r[b] == LightRow(light, b)
  {
    seq(n, b requires 0 <= b < n => LightRow(light, b))
  }

  lemma BuiltStoresCounters(o: Oram<Row>, light: seq<Counter>, n: nat, leaves: seq<nat>, nFailed: nat)
    requires |light| == N_RECORD * n && Built(o, LightRows(light, n), leaves, nFailed)
    ensures StoresCounters(o.mem, light, n)
  {
    hide Sound, Mapped, Settled;
  }

  /**
    An ORAM is built over the table of counters, the last block padded, and the counters of
    any flows are looked up with any leaves.  Up to the first lookup that finds no room in
    the stash, each finds the counter, or zero when its block was dropped at the start.
   */
  method RunCounters(light: seq<Counter>, numLight: nat, nBlock: nat, hash: nat -> nat, sizeBucket: nat,
          compStash: bool, clear: Row -> Row, leaves: seq<nat>, junk: Row, flowIDs: seq<nat>, newLeaves: seq<nat>)
    returns (ok: bool, nFailed: nat, ghost first: Oram<Row>, ghost last: Oram<Row>, ghost bids: seq<nat>,
          ghost outs: seq<Block<Row>>, ghost sizes: seq<nat>)
    requires 0 < numLight <= |light| == N_RECORD * nBlock && nBlock == |leaves|
    requires sizeBucket > 0 && |flowIDs| == |newLeaves| && ClearsTo<Row>(clear, Single(0, 0))
    ensures ok <==> nBlock < 0x1_0000
    ensures ok ==>
              && Built(first, LightRows(light, nBlock), leaves, nFailed)
              && Leads(first, last, bids, clear, outs, compStash)
              && CountersRead(flowIDs, sizes, bids, outs, numLight, hash)
              && CounterSizes(flowIDs, sizes, light, numLight, first.mem.Keys, hash)
              && (|sizes| < |flowIDs| ==> !Room(last, hash(flowIDs[|sizes|]) % numLight / N_RECORD))
              && (nBlock <= MAX_STASH_NUM - 8 ==> |sizes| == |flowIDs|)
  {
    hide StoresCounters, Sound, Room, Step, Leads, CountersRead, CounterSizes, ClearsTo, Settled, FloorLog2, Mapped;
    bids, outs, sizes := [], [], [];
    var sketch := new FOSketch<Row>(Counters, N_RECORD, sizeBucket, compStash, clear);
    first, last := sketch.Abstract(), sketch.Abstract();
    ok, nFailed := sketch.Init_OCU(LightRows(light, nBlock), leaves, junk);
    if !ok {
      return;
    }
    first := sketch.Abstract();
    BuiltStoresCounters(first, light, nBlock, leaves, nFailed);
    sizes, bids, outs, last := OBurstAccessCounter(sketch, flowIDs, newLeaves, hash, numLight, Block(0, 0, junk),
        light);
    if |sizes| < |flowIDs| && nBlock <= MAX_STASH_NUM - 8 {
      LeadsRoom(first, last, bids, clear, outs, compStash, hash(flowIDs[|sizes|]) % numLight / N_RECORD);
    }
  }
}

/**
  Whole runs of the Path-ORAM: over any sequence of accesses with room in the stash it
  answers as the flat array of its blocks would, and its counters account for every block.
 */
module OramRuns {
  import opened BinaryArith
  import opened Blocks
  import opened StashModel
  import opened TreeGeometry
  import opened OramInvariant

  /** The abstract state: what is stored, where it is mapped, what it means, and how many blocks accesses have added. */
  datatype Oram<P> = Oram(stash: Stash<P>, tree: seq<seq<Block<P>>>, pos: seq<nat>, level: nat, mem: map<nat, P>,
      added: nat)

  ghost predicate Sound<P(!new)>(o: Oram<P>) {
    Consistent(o.stash, o.tree, o.mem, o.pos, o.level)
  }

  /** The stash has room for the path of the block bid. */
  ghost predicate Room<P>(o: Oram<P>, bid: nat) {
    && IsTree(o.tree, o.level) && bid < |o.pos| && o.pos[bid] < Pow2(o.level)
    && Roomy(o.stash, PathOf(o.tree, o.pos[bid], o.level))
  }

  /**
    What an access to block bid hands out: an existing block as it is, moved to the leaf np;
    a missing one is added, cleared.
   */
  ghost predicate HandsOut<P(!new)>(mem: map<nat, P>, mem': map<nat, P>, bid: nat, np: nat, clear: P -> P, b: Block<P>,
          added: int)
  {
    && bid in mem' && b == Block(bid, np, mem'[bid])
    && (bid in mem ==> mem' == mem && added == 0)
    && (bid !in mem ==> mem' == mem[bid := b.payload] && (exists p :: b.payload == clear(p)) && added == 1)
  }

  /** The path to the leaf just evicted: what stands on it, and what is left in the stash, could not go deeper. */
  ghost predicate EvictedTo<P(!new)>(o: Oram<P>, leaf: nat) {
    && IsTree(o.tree, o.level) && leaf < Pow2(o.level)
    && WellEvicted(o.stash.slots, PathOf(o.tree, leaf, o.level), o.pos, leaf)
  }

  /** The stash after an access: compressed to its blocks or the default length, or at least as long as before. */
  ghost predicate Lengthened<P>(s: Stash<P>, s': Stash<P>, compress: bool) {
    if compress then s'.length == if Load(s') < DEFAULT_STASH_LENGTH then DEFAULT_STASH_LENGTH else Load(s')
    else s.length <= s'.length
  }

  /**
    One access: the block bid moves to the leaf np and is handed out as b, and the path it
    was on is evicted to.
   */
  ghost predicate Step<P(!new)>(o: Oram<P>, o': Oram<P>, bid: nat, np: nat, clear: P -> P, b: Block<P>) {
    && Sound(o') && o'.level == o.level
    && bid < |o.pos| && o'.pos == o.pos[bid := np]
    && HandsOut(o.mem, o'.mem, bid, np, clear, b, o'.added - o.added)
    && EvictedTo(o', o.pos[bid])
  }

  /** A run through the states os that accesses bids, moves them to nps, and hands out outs. */
  ghost predicate AccessRun<P(!new)>(os: seq<Oram<P>>, bids: seq<nat>, nps: seq<nat>, clear: P -> P,
          outs: seq<Block<P>>)
  {
    && |os| == |bids| + 1 && |nps| == |bids| == |outs|
    && forall k :: 0 <= k < |bids| ==> Step(os[k], os[k + 1], bids[k], nps[k], clear, outs[k])
  }

  /** Every access of the run left the stash as long as it should. */
  ghost predicate LengthsKept<P(!new)>(os: seq<Oram<P>>, compress: bool) {
    forall k: nat :: k + 1 < |os| ==> LengthKeptAt(os, k, compress)
  }

  ghost predicate LengthKeptAt<P(!new)>(os: seq<Oram<P>>, k: nat, compress: bool)
    requires k + 1 < |os|
  {
    Lengthened(os[k].stash, os[k + 1].stash, compress)
  }

  lemma LengthsExtended<P(!new)>(os: seq<Oram<P>>, o': Oram<P>, compress: bool)
    requires os != [] && LengthsKept(os, compress) && Lengthened(os[|os| - 1].stash, o'.stash, compress)
    ensures LengthsKept(os + [o'], compress)
  {
    hide Lengthened;
    forall k: nat | k + 1 < |os + [o']|
      ensures LengthKeptAt(os + [o'], k, compress)
    {
      assert k + 1 < |os| ==> LengthKeptAt(os, k, compress);
    }
  }

  /** Accessing bids takes the ORAM from one state to another and hands out outs. */
  ghost predicate Leads<P(!new)>(first: Oram<P>, last: Oram<P>, bids: seq<nat>, clear: P -> P, outs: seq<Block<P>>,
          compress: bool)
  {
    exists os, nps ::
      AccessRun(os, bids, nps, clear, outs) && os[0] == first && os[|bids|] == last && LengthsKept(os, compress)
  }

  lemma LeadsNowhere<P(!new)>(o: Oram<P>, clear: P -> P, compress: bool)
    ensures Leads(o, o, [], clear, [], compress)
  {
    assert AccessRun([o], [], [], clear, []) && LengthsKept([o], compress);
  }

  lemma LeadsFurther<P(!new)>(first: Oram<P>, last: Oram<P>, bids: seq<nat>, clear: P -> P, outs: seq<Block<P>>,
          compress: bool, o': Oram<P>, bid: nat, np: nat, b: Block<P>)
    requires Leads(first, last, bids, clear, outs, compress) && Step(last, o', bid, np, clear, b)
    requires Lengthened(last.stash, o'.stash, compress)
    ensures Leads(first, o', bids + [bid], clear, outs + [b], compress)
  {
    hide Step, Lengthened, LengthsKept;
    var os, nps :|
      AccessRun(os, bids, nps, clear, outs) && os[0] == first && os[|bids|] == last && LengthsKept(os, compress);
    RunExtended(os, bids, nps, clear, outs, o', bid, np, b);
    LengthsExtended(os, o', compress);
    assert AccessRun(os + [o'], bids + [bid], nps + [np], clear, outs + [b]) && LengthsKept(os + [o'], compress);
  }

  /** The flat array: the payload of every block, with zero for those that do not exist. */
  ghost function Flat<P>(mem: map<nat, P>, zero: P, b: nat): P {
    if b in mem then mem[b] else zero
  }

  ghost predicate ClearsTo<P(!new)>(clear: P -> P, zero: P) {
    forall p :: clear(p) == zero
  }

  lemma RunExtended<P(!new)>(os: seq<Oram<P>>, bids: seq<nat>, nps: seq<nat>, clear: P -> P, outs: seq<Block<P>>,
          o': Oram<P>, bid: nat, np: nat, b: Block<P>)
    requires AccessRun(os, bids, nps, clear, outs) && Step(os[|bids|], o', bid, np, clear, b)
    ensures AccessRun(os + [o'], bids + [bid], nps + [np], clear, outs + [b])
  {}

  /** Blocks are only ever added, each access adding one exactly when its block is missing. */
  lemma {:induction false} RunGrows<P(!new)>(os: seq<Oram<P>>, bids: seq<nat>, nps: seq<nat>, clear: P -> P,
          outs: seq<Block<P>>)
    requires AccessRun(os, bids, nps, clear, outs)
    ensures var n := |bids|;
            && (forall b :: b in os[n].mem <==> b in os[0].mem || b in bids)
            && (forall b :: b in os[0].mem ==> os[n].mem[b] == os[0].mem[b])
            && |os[n].mem| - os[n].added == |os[0].mem| - os[0].added
            && (forall k :: 0 <= k < n ==> bids[k] in os[n].mem && outs[k].payload == os[n].mem[bids[k]])
    decreases |bids|
  {
    var n := |bids|;
    if n == 0 {
    } else {
      var m := n - 1;
      RunGrows(os[..n], bids[..m], nps[..m], clear, outs[..m]);
      assert Step(os[m], os[n], bids[m], nps[m], clear, outs[m]);
      assert bids == bids[..m] + [bids[m]];
      MemUpdateCount(os[m].mem, bids[m], outs[m].payload);
    }
  }

  /** Where clearing means one fixed payload, no access ever changes the flat array, and each returns its entry. */
  lemma {:induction false} RunRefinesFlat<P(!new)>(os: seq<Oram<P>>, bids: seq<nat>, nps: seq<nat>, clear: P -> P,
          outs: seq<Block<P>>, zero: P)
    requires AccessRun(os, bids, nps, clear, outs) && ClearsTo(clear, zero)
    ensures var n := |bids|;
            && (forall b :: Flat(os[n].mem, zero, b) == Flat(os[0].mem, zero, b))
            && (forall k :: 0 <= k < n ==> outs[k].payload == Flat(os[0].mem, zero, bids[k]))
    decreases |bids|
  {
    var n := |bids|;
    if n == 0 {
    } else {
      var m := n - 1;
      RunRefinesFlat(os[..n], bids[..m], nps[..m], clear, outs[..m], zero);
      assert Step(os[m], os[n], bids[m], nps[m], clear, outs[m]);
      assert Flat(os[m].mem, zero, bids[m]) == Flat(os[0].mem, zero, bids[m]);
    }
  }

  /** The same of runs between two states. */
  lemma LeadsAnswers<P(!new)>(first: Oram<P>, last: Oram<P>, bids: seq<nat>, clear: P -> P, outs: seq<Block<P>>,
          compress: bool, zero: P)
    requires Leads(first, last, bids, clear, outs, compress) && ClearsTo(clear, zero)
    ensures |outs| == |bids| && forall k :: 0 <= k < |bids| ==> outs[k].payload == Flat(first.mem, zero, bids[k])
  {
    var os, nps :| AccessRun(os, bids, nps, clear, outs) && os[0] == first && os[|bids|] == last;
    RunRefinesFlat(os, bids, nps, clear, outs, zero);
  }

  /**
    Ids of existing blocks are mapped, so there are never more blocks than ids; as many exactly
    when none is missing.
   */
  lemma BlockCount<P>(mem: map<nat, P>, n: nat)
    requires forall id :: id in mem ==> id < n
    ensures |mem| <= n && (|mem| == n <==> forall id :: 0 <= id < n ==> id in mem)
  {
    var all := Below(n);
    assert |mem| == |mem.Keys|;
    SubsetCount(mem.Keys, all);
    if forall id :: 0 <= id < n ==> id in mem {
      assert mem.Keys == all;
    }
  }

  function Below(n: nat): (s: set<nat>)
    ensures |s| == n && forall id: nat :: id in s <==> id < n
    decreases n
  {
    if n == 0 then {} else Below(n - 1) + {n - 1}
  }

  lemma {:induction false} SubsetCount(a: set<nat>, b: set<nat>)
    requires a <= b
    ensures |a| <= |b| && (|a| == |b| <==> a == b)
    decreases |b|
  {
    if a != {} {
      var x :| x in a;
      SubsetCount(a - {x}, b - {x});
      assert a == (a - {x}) + {x} && b == (b - {x}) + {x};
    } else if b != {} {
      var y :| y in b;
      assert |b| == |b - {y}| + 1;
    }
  }

  /**
    Of n blocks, nFailed were dropped at the start.  After any run the accesses have added
    at most nFailed, and exactly nFailed when every dropped block has been accessed.
   */
  lemma RunAccounts<P(!new)>(os: seq<Oram<P>>, bids: seq<nat>, nps: seq<nat>, clear: P -> P, outs: seq<Block<P>>,
          n: nat, nFailed: nat)
    requires AccessRun(os, bids, nps, clear, outs) && Sound(os[0]) && |os[0].pos| == n
    requires |os[0].mem| + nFailed == n && os[0].added == 0
    ensures var o := os[|bids|];
            && |o.mem| == n - nFailed + o.added
            && Load(o.stash) + SumOf(o.tree, Occupied()) == n - nFailed + o.added
            && o.added <= nFailed
            && (o.added == nFailed <==> forall b :: 0 <= b < n && b !in os[0].mem ==> b in bids)
  {
    var o := os[|bids|];
    RunGrows(os, bids, nps, clear, outs);
    RunSound(os, bids, nps, clear, outs);
    BlockCount(o.mem, n);
  }

  lemma {:induction false} RunSound<P(!new)>(os: seq<Oram<P>>, bids: seq<nat>, nps: seq<nat>, clear: P -> P,
          outs: seq<Block<P>>)
    requires AccessRun(os, bids, nps, clear, outs)
    requires Sound(os[0])
    ensures Sound(os[|bids|]) && |os[|bids|].pos| == |os[0].pos|
    decreases |bids|
  {
    var n := |bids|;
    if n == 0 {
    } else {
      var m := n - 1;
      RunSound(os[..n], bids[..m], nps[..m], clear, outs[..m]);
      assert Step(os[m], os[n], bids[m], nps[m], clear, outs[m]);
    }
  }

  /** With at most MAX_STASH_NUM - 8 blocks in all there is always room. */
  lemma SmallRoom<P(!new)>(o: Oram<P>, bid: nat)
    requires Sound(o) && bid < |o.pos| <= MAX_STASH_NUM - 8
    ensures Room(o, bid)
  {
    assert Weight<P>(Occupied());
    PathWithinTree(o.tree, o.pos[bid], o.level, Occupied());
    BlockCount(o.mem, |o.pos|);
  }

  /** So no run over so few blocks ever finds no room. */
  lemma LeadsRoom<P(!new)>(first: Oram<P>, last: Oram<P>, bids: seq<nat>, clear: P -> P, outs: seq<Block<P>>,
          compress: bool, bid: nat)
    requires Leads(first, last, bids, clear, outs, compress) && Sound(first) && bid < |first.pos| <= MAX_STASH_NUM - 8
    ensures Room(last, bid)
  {
    var os, nps :| AccessRun(os, bids, nps, clear, outs) && os[0] == first && os[|bids|] == last;
    RunSound(os, bids, nps, clear, outs);
    SmallRoom(last, bid);
  }

  // ----- runs whose indices are drawn at random, from a source

  lemma IndexInRange(x: nat, n: nat, scale: nat)
    requires 0 < n && 0 < scale
    ensures n * scale > 0 && x % (n * scale) / scale < n
  {
    var y := x % (n * scale);
    MulMonotone(n, y / scale, scale);
  }

  /** An index drawn among n blocks of scale indices each. */
  function DrawnIndex(draw: nat, n: nat, scale: nat): (index: nat)
    requires n > 0 && scale > 0
    ensures index / scale < n
  {
    IndexInRange(draw, n, scale);
    draw % (n * scale)
  }

  /** The block an index drawn from n blocks of nRecord counters each lies in. */
  function DrawnBlock(draw: nat, n: nat, nRecord: nat): (b: nat)
    requires n > 0 && nRecord > 0
    ensures b < n
  {
    DrawnIndex(draw, n, nRecord) / nRecord
  }

  /** Every block is drawn by nRecord indices in a row, and so in every round of n * nRecord draws. */
  lemma DrawnEverywhere(round: nat, b: nat, j: nat, n: nat, nRecord: nat)
    requires b < n && j < nRecord
    ensures DrawnBlock(round * (n * nRecord) + b * nRecord + j, n, nRecord) == b
  {
    var all, y := n * nRecord, b * nRecord + j;
    MulMonotone(b + 1, n, nRecord);
    assert (b + 1) * nRecord == b * nRecord + nRecord;
    DivMod(round * all + y, round, y, all);
    DivMod(y, b, j, nRecord);
  }

  /** The entry of the flat array: a kept block is as in the source, a dropped one is cleared. */
  ghost function Entry<P>(source: seq<P>, kept: set<nat>, zero: P, b: nat): P
    requires b < |source|
  {
    if b in kept then source[b] else zero
  }

  /** The accesses outs to the blocks drawn handed out the flat array's entries. */
  ghost predicate Answers<P>(outs: seq<Block<P>>, draws: seq<nat>, nRecord: nat, source: seq<P>, kept: set<nat>,
          zero: P)
  {
    && |source| > 0 && nRecord > 0 && |outs| <= |draws|
    && forall k :: 0 <= k < |outs| ==>
         var b := DrawnBlock(draws[k], |source|, nRecord);
         outs[k].id == b && outs[k].payload == Entry(source, kept, zero, b)
  }

  /**
    All blocks kept or added are in the tree or the stash; what can still be added is the
    dropped ones not yet accessed.
   */
  ghost predicate Accounted<P>(o: Oram<P>, draws: seq<nat>, made: nat, nRecord: nat, n: nat, kept: set<nat>) {
    && made <= |draws| && n > 0 && nRecord > 0 && |kept| <= n
    && Load(o.stash) + SumOf(o.tree, Occupied()) == |kept| + o.added <= n
    && (|kept| + o.added == n <==>
          forall b :: 0 <= b < n && b !in kept ==> exists k :: 0 <= k < made && DrawnBlock(draws[k], n, nRecord) == b)
  }

  /** The blocks accessed are those of the first draws. */
  ghost predicate BlocksDrawn(draws: seq<nat>, n: nat, nRecord: nat, bids: seq<nat>) {
    && n > 0 && nRecord > 0 && |bids| <= |draws|
    && forall k :: 0 <= k < |bids| ==> bids[k] == DrawnBlock(draws[k], n, nRecord)
  }

  lemma RunAnswers<P(!new)>(os: seq<Oram<P>>, bids: seq<nat>, nps: seq<nat>, clear: P -> P, outs: seq<Block<P>>,
          draws: seq<nat>, nRecord: nat, source: seq<P>, zero: P)
    requires AccessRun(os, bids, nps, clear, outs) && ClearsTo(clear, zero)
    requires BlocksDrawn(draws, |source|, nRecord, bids)
    requires forall id :: id in os[0].mem ==> id < |source| && os[0].mem[id] == source[id]
    ensures Answers(outs, draws, nRecord, source, os[0].mem.Keys, zero)
  {
    RunRefinesFlat(os, bids, nps, clear, outs, zero);
    forall k | 0 <= k < |bids|
      ensures outs[k].id == bids[k]
    {
      assert Step(os[k], os[k + 1], bids[k], nps[k], clear, outs[k]);
    }
  }

  lemma RunAccounted<P(!new)>(os: seq<Oram<P>>, bids: seq<nat>, nps: seq<nat>, clear: P -> P, outs: seq<Block<P>>,
          draws: seq<nat>, nRecord: nat, n: nat, nFailed: nat)
    requires AccessRun(os, bids, nps, clear, outs) && BlocksDrawn(draws, n, nRecord, bids)
    requires Sound(os[0]) && |os[0].pos| == n && |os[0].mem| + nFailed == n && os[0].added == 0
    ensures Accounted(os[|bids|], draws, |bids|, nRecord, n, os[0].mem.Keys)
  {
    RunAccounts(os, bids, nps, clear, outs, n, nFailed);
    assert |os[0].mem.Keys| == |os[0].mem|;
    forall b | 0 <= b < n
      ensures b in bids <==> exists k :: 0 <= k < |bids| && DrawnBlock(draws[k], n, nRecord) == b
    {
      if b in bids {
        var k :| 0 <= k < |bids| && bids[k] == b;
        assert DrawnBlock(draws[k], n, nRecord) == b;
      }
      if k :| 0 <= k < |bids| && DrawnBlock(draws[k], n, nRecord) == b {
        assert bids[k] == b;
      }
    }
  }
}

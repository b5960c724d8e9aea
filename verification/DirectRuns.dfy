/**
  Runs of the direct access.  Its write of the path loses the blocks that do not fit; what
  is left stays a consistent ORAM, and the counters are off by exactly the blocks lost.
 */
module DirectRuns {
  import opened BinaryArith
  import opened Rearrangements
  import opened Blocks
  import opened StashModel
  import opened DirectStash
  import opened TreeGeometry
  import opened OramInvariant
  import opened OramRuns

  // ----- the ids of the blocks lost

  function IdsOf<P>(bs: seq<Block<P>>): (ids: set<nat>)
    ensures forall id :: id in ids <==> exists k :: 0 <= k < |bs| && bs[k].id == id
  {
    set k | 0 <= k < |bs| :: bs[k].id
  }

  ghost predicate IdsDiffer<P>(bs: seq<Block<P>>) {
    forall k, l :: 0 <= k < l < |bs| ==> bs[k].id != bs[l].id
  }

  lemma {:induction false} IdsCount<P>(bs: seq<Block<P>>)
    requires IdsDiffer(bs)
    ensures |IdsOf(bs)| == |bs|
    decreases |bs|
  {
    if bs == [] {
      assert IdsOf(bs) == {};
    } else {
      var n := |bs| - 1;
      IdsCount(bs[..n]);
      assert IdsOf(bs) == IdsOf(bs[..n]) + {bs[n].id};
    }
  }

  lemma {:induction false} SumTwice<P(!new)>(bs: seq<Block<P>>, k: nat, l: nat)
    requires k < l < |bs| && bs[k] == bs[l] && Real(bs[k])
    ensures Sum(bs, Same(bs[k])) >= 2
  {
    var f := Same(bs[k]);
    SumHas(bs[..l], k, f);
    SumTake(bs, l, f);
    SumConcat(bs[..l + 1], bs[l + 1..], f);
    assert bs == bs[..l + 1] + bs[l + 1..];
  }

  /** What every block weighs after a write that loses some. */
  ghost predicate WroteExcept<P(!new)>(s: Stash<P>, path: seq<seq<Block<P>>>, s1: Stash<P>, lost: seq<Block<P>>) {
    && s1.TailFree() && AllReal(lost)
    && forall f: Block<P> -> nat :: Weight(f) ==> Sum(s1.slots, f) + Sum(lost, f) == Sum(s.slots, f) + SumOf(path, f)
  }

  /** A lost block is the recorded one of its id, and it was lost once. */
  lemma LostKnown<P(!new)>(s: Stash<P>, t: seq<seq<Block<P>>>, leaf: nat, mem: map<nat, P>, pos: seq<nat>, level: nat,
          s1: Stash<P>, lost: seq<Block<P>>, k: nat)
    requires Consistent(s, t, mem, pos, level) && leaf < Pow2(level) && k < |lost|
    requires WroteExcept(s, PathOf(t, leaf, level), s1, lost)
    ensures var b := lost[k];
            b.id in mem && b.id < |pos| && b == Block(b.id, pos[b.id], mem[b.id]) && Sum(lost, Same(b)) == 1
  {
    var b, path := lost[k], PathOf(t, leaf, level);
    WeightsOk(b);
    SumHas(lost, k, Same(b));
    PathWithinTree(t, leaf, level, Same(b));
    assert Sum(s1.slots, Same(b)) + Sum(lost, Same(b)) == Sum(s.slots, Same(b)) + SumOf(path, Same(b));
    assert Sum(s.slots, Same(b)) + SumOf(t, Same(b)) == Expected(b, mem, pos);
  }

  lemma LostDiffer<P(!new)>(s: Stash<P>, t: seq<seq<Block<P>>>, leaf: nat, mem: map<nat, P>, pos: seq<nat>, level: nat,
          s1: Stash<P>, lost: seq<Block<P>>)
    requires Consistent(s, t, mem, pos, level) && leaf < Pow2(level)
    requires WroteExcept(s, PathOf(t, leaf, level), s1, lost)
    ensures IdsDiffer(lost) && IdsOf(lost) <= mem.Keys
  {
    hide Census, WroteExcept;
    forall k | 0 <= k < |lost|
      ensures lost[k].id in mem
    {
      LostKnown(s, t, leaf, mem, pos, level, s1, lost, k);
    }
    forall k, l | 0 <= k < l < |lost|
      ensures lost[k].id != lost[l].id
    {
      LostKnown(s, t, leaf, mem, pos, level, s1, lost, k);
      LostKnown(s, t, leaf, mem, pos, level, s1, lost, l);
      if lost[k].id == lost[l].id {
        LostReal(s, PathOf(t, leaf, level), s1, lost, k);
        SumTwice(lost, k, l);
      }
    }
  }

  lemma LostReal<P(!new)>(s: Stash<P>, path: seq<seq<Block<P>>>, s1: Stash<P>, lost: seq<Block<P>>, k: nat)
    requires WroteExcept(s, path, s1, lost) && k < |lost|
    ensures Real(lost[k])
  {}

  lemma {:induction false} SumMissing<P>(bs: seq<Block<P>>, b: Block<P>)
    requires forall k :: 0 <= k < |bs| ==> bs[k].id != b.id
    ensures Sum(bs, Same(b)) == 0
    decreases |bs|
  {
    if bs == [] {
    } else {
      var r := bs[..|bs| - 1];
      assert forall k :: 0 <= k < |r| ==> r[k] == bs[k];
      SumMissing(r, b);
    }
  }

  /** After the write the ORAM is in the middle of an access, without the blocks lost. */
  lemma PathWrittenExcept<P(!new)>(s: Stash<P>, t: seq<seq<Block<P>>>, leaf: nat, mem: map<nat, P>, pos: seq<nat>,
          level: nat, s1: Stash<P>, lost: seq<Block<P>>)
    requires Consistent(s, t, mem, pos, level) && leaf < Pow2(level)
    requires WroteExcept(s, PathOf(t, leaf, level), s1, lost)
    ensures IdsOf(lost) <= mem.Keys && |IdsOf(lost)| == |lost|
    ensures MidAccess(s1, t, PathOf(t, leaf, level), mem - IdsOf(lost), pos)
  {
    hide WroteExcept, Census, Loose, Sum, SumOf, Load;
    var path, ids := PathOf(t, leaf, level), IdsOf(lost);
    var mem1 := mem - ids;
    LostDiffer(s, t, leaf, mem, pos, level, s1, lost);
    IdsCount(lost);
    forall b: Block<P> | Real(b)
      ensures Loose(s1.slots, t, path, b) == Expected(b, mem1, pos)
    {
      LostOrNot(s, t, leaf, mem, pos, level, s1, lost, b);
    }
    LostLoad(s, t, leaf, mem, pos, level, s1, lost);
    RemainingCount(mem, ids);
    MidIds(s, t, mem, pos, level, ids);
  }

  lemma MidIds<P(!new)>(s: Stash<P>, t: seq<seq<Block<P>>>, mem: map<nat, P>, pos: seq<nat>, level: nat, ids: set<nat>)
    requires Consistent(s, t, mem, pos, level)
    ensures forall id :: id in mem - ids ==> id < |pos| && id != DUMMY_FLAG
  {}

  lemma LostLoad<P(!new)>(s: Stash<P>, t: seq<seq<Block<P>>>, leaf: nat, mem: map<nat, P>, pos: seq<nat>, level: nat,
          s1: Stash<P>, lost: seq<Block<P>>)
    requires Consistent(s, t, mem, pos, level) && leaf < Pow2(level)
    requires WroteExcept(s, PathOf(t, leaf, level), s1, lost)
    ensures Load(s1) + SumOf(t, Occupied()) + |lost| == |mem| + SumOf(PathOf(t, leaf, level), Occupied())
    ensures s1.TailFree()
  {
    assert Weight<P>(Occupied());
    OccupiedBound(lost);
  }

  lemma LostOrNot<P(!new)>(s: Stash<P>, t: seq<seq<Block<P>>>, leaf: nat, mem: map<nat, P>, pos: seq<nat>, level: nat,
          s1: Stash<P>, lost: seq<Block<P>>, b: Block<P>)
    requires Consistent(s, t, mem, pos, level) && leaf < Pow2(level) && Real(b)
    requires WroteExcept(s, PathOf(t, leaf, level), s1, lost)
    ensures Loose(s1.slots, t, PathOf(t, leaf, level), b) == Expected(b, mem - IdsOf(lost), pos)
  {
    var path := PathOf(t, leaf, level);
    WeightsOk(b);
    assert Sum(s1.slots, Same(b)) + Sum(lost, Same(b)) == Sum(s.slots, Same(b)) + SumOf(path, Same(b));
    assert Sum(s.slots, Same(b)) + SumOf(t, Same(b)) == Expected(b, mem, pos);
    if b.id in IdsOf(lost) {
      var k :| 0 <= k < |lost| && lost[k].id == b.id;
      LostKnown(s, t, leaf, mem, pos, level, s1, lost, k);
      if b != lost[k] && Sum(lost, Same(b)) > 0 {
        var l := SumFind(lost, b);
        LostKnown(s, t, leaf, mem, pos, level, s1, lost, l);
      }
    } else {
      SumMissing(lost, b);
    }
  }

  lemma RemainingCount<P>(mem: map<nat, P>, ids: set<nat>)
    requires ids <= mem.Keys
    ensures |mem - ids| == |mem| - |ids|
  {
    assert (mem - ids).Keys == mem.Keys - ids;
    assert |mem| == |mem.Keys| && |mem - ids| == |(mem - ids).Keys|;
  }

  // ----- one direct access

  ghost function Without<P>(o: Oram<P>, lost: set<nat>): Oram<P> {
    o.(mem := o.mem - lost)
  }

  /** A direct access loses some blocks and is then a step over those that are left. */
  ghost predicate DirectStep<P(!new)>(o: Oram<P>, o': Oram<P>, bid: nat, np: nat, clear: P -> P, b: Block<P>,
          lost: set<nat>)
  {
    lost <= o.mem.Keys && Step(Without(o, lost), o', bid, np, clear, b)
  }

  /** How many blocks an access to bid loses. */
  ghost function Loses<P(!new)>(o: Oram<P>, bid: nat): nat
    requires Sound(o) && Room(o, bid)
  {
    LostCount(o.stash, PathOf(o.tree, o.pos[bid], o.level))
  }

  /** Whether the access keeps every block, which a caller can check beforehand. */
  ghost predicate Keeps<P(!new)>(o: Oram<P>, bid: nat)
    requires Sound(o) && Room(o, bid)
  {
    PathKept(o.stash, PathOf(o.tree, o.pos[bid], o.level))
  }

  /** A direct access is a step of the ORAM exactly when it keeps every block. */
  lemma DirectStepExact<P(!new)>(o: Oram<P>, o': Oram<P>, bid: nat, np: nat, clear: P -> P, b: Block<P>, lost: set<nat>)
    requires Sound(o) && Room(o, bid) && DirectStep(o, o', bid, np, clear, b, lost) && |lost| == Loses(o, bid)
    ensures Step(o, o', bid, np, clear, b) <==> Keeps(o, bid)
  {
    hide Sound, Room;
    assert |lost| == 0 <==> lost == {};
    if lost == {} {
      assert o.mem - lost == o.mem;
    } else {
      var x :| x in lost;
      LosingIsNoStep(o, o', bid, np, clear, b, lost, x);
    }
  }

  lemma LosingIsNoStep<P(!new)>(o: Oram<P>, o': Oram<P>, bid: nat, np: nat, clear: P -> P, b: Block<P>, lost: set<nat>,
          x: nat)
    requires DirectStep(o, o', bid, np, clear, b, lost) && x in lost
    ensures !Step(o, o', bid, np, clear, b)
  {
    hide Sound;
    var left := Without(o, lost);
    assert x in o.mem && x !in left.mem && left.added == o.added;
    assert if x == bid then o'.added == o.added + 1 else x !in o'.mem;
  }

  // ----- runs

  /** A run of direct accesses that loses the blocks losts. */
  ghost predicate DirectRun<P(!new)>(os: seq<Oram<P>>, bids: seq<nat>, nps: seq<nat>, clear: P -> P,
          outs: seq<Block<P>>, losts: seq<set<nat>>)
  {
    && |os| == |bids| + 1 && |nps| == |bids| == |outs| == |losts|
    && forall k :: 0 <= k < |bids| ==> DirectStep(os[k], os[k + 1], bids[k], nps[k], clear, outs[k], losts[k])
  }

  /** How many blocks were lost in all. */
  ghost function Total(losts: seq<set<nat>>): nat
    decreases |losts|
  {
    if losts == [] then 0 else Total(losts[..|losts| - 1]) + |losts[|losts| - 1]|
  }

  /** The block is there after the run: accessed last after it was lost last, or there from the start and never lost. */
  ghost predicate Survives(b: nat, kept: set<nat>, bids: seq<nat>, losts: seq<set<nat>>)
    requires |bids| == |losts|
    decreases |bids|, b, kept
  {
    if bids == [] then b in kept
    else
      var m := |bids| - 1;
      b == bids[m] || (b !in losts[m] && Survives(b, kept, bids[..m], losts[..m]))
  }

  ghost predicate Survivors(now: set<nat>, kept: set<nat>, bids: seq<nat>, losts: seq<set<nat>>)
    requires |bids| == |losts|
  {
    forall b :: b in now <==> Survives(b, kept, bids, losts)
  }

  lemma {:induction false} SurvivorsStep(before: set<nat>, now: set<nat>, kept: set<nat>, bids: seq<nat>,
          losts: seq<set<nat>>)
    requires |bids| == |losts| > 0
    requires var m := |bids| - 1;
             && Survivors(before, kept, bids[..m], losts[..m])
             && forall b :: b in now <==> b == bids[m] || (b !in losts[m] && b in before)
    ensures Survivors(now, kept, bids, losts)
  {}

  lemma {:induction false} DirectGrows<P(!new)>(os: seq<Oram<P>>, bids: seq<nat>, nps: seq<nat>, clear: P -> P,
          outs: seq<Block<P>>, losts: seq<set<nat>>)
    requires DirectRun(os, bids, nps, clear, outs, losts) && Sound(os[0])
    ensures var n := |bids|;
            && Sound(os[n]) && |os[n].pos| == |os[0].pos|
            && Survivors(os[n].mem.Keys, os[0].mem.Keys, bids, losts)
            && |os[n].mem| + Total(losts) - os[n].added == |os[0].mem| - os[0].added
    decreases |bids|
  {
    hide Survivors, Sound, DirectStep;
    var n := |bids|;
    if n == 0 {
      SurvivesStart(os[0].mem.Keys);
    } else {
      var m := n - 1;
      DirectGrows(os[..n], bids[..m], nps[..m], clear, outs[..m], losts[..m]);
      assert DirectStep(os[m], os[n], bids[m], nps[m], clear, outs[m], losts[m]);
      DirectCounts(os[m], os[n], bids[m], nps[m], clear, outs[m], losts[m]);
      SurvivorsStep(os[m].mem.Keys, os[n].mem.Keys, os[0].mem.Keys, bids, losts);
      TotalStep(losts);
    }
  }

  lemma SurvivesStart(kept: set<nat>)
    ensures Survivors(kept, kept, [], [])
  {}

  lemma TotalStep(losts: seq<set<nat>>)
    requires losts != []
    ensures Total(losts) == Total(losts[..|losts| - 1]) + |losts[|losts| - 1]|
  {}

  lemma DirectCounts<P(!new)>(o: Oram<P>, o': Oram<P>, bid: nat, np: nat, clear: P -> P, b: Block<P>, lost: set<nat>)
    requires DirectStep(o, o', bid, np, clear, b, lost)
    ensures Sound(o') && |o'.pos| == |o.pos|
    ensures forall x :: x in o'.mem <==> x == bid || (x !in lost && x in o.mem)
    ensures |o'.mem| + |lost| - o'.added == |o.mem| - o.added
  {
    hide Sound;
    RemainingCount(o.mem, lost);
    MemUpdateCount(o.mem - lost, bid, b.payload);
  }

  lemma SoundCount<P(!new)>(o: Oram<P>)
    requires Sound(o)
    ensures Load(o.stash) + SumOf(o.tree, Occupied()) == |o.mem| && forall id :: id in o.mem ==> id < |o.pos|
  {}

  /**
    Of n blocks, nFailed were dropped at the start.  After any run of direct accesses the
    blocks added are those dropped and those lost, less those missing now; so more are
    added than were dropped exactly when more were lost than are missing.
   */
  lemma DirectAccounts<P(!new)>(os: seq<Oram<P>>, bids: seq<nat>, nps: seq<nat>, clear: P -> P, outs: seq<Block<P>>,
          losts: seq<set<nat>>, n: nat, nFailed: nat)
    requires DirectRun(os, bids, nps, clear, outs, losts) && Sound(os[0]) && |os[0].pos| == n
    requires |os[0].mem| + nFailed == n && os[0].added == 0
    ensures var o := os[|bids|];
            && |o.mem| <= n && Load(o.stash) + SumOf(o.tree, Occupied()) == |o.mem|
            && o.added == nFailed + Total(losts) - (n - |o.mem|)
            && (o.added > nFailed <==> Total(losts) > n - |o.mem|)
            && Survivors(o.mem.Keys, os[0].mem.Keys, bids, losts)
            && (|o.mem| == n <==> forall b :: 0 <= b < n ==> b in o.mem)
  {
    hide DirectStep, Survivors, Sound;
    DirectGrows(os, bids, nps, clear, outs, losts);
    SoundCount(os[|bids|]);
    BlockCount(os[|bids|].mem, n);
  }
}

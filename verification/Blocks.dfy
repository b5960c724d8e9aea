/**
  ORAM blocks, and weighing the blocks held by a bucket, the stash or the tree.  A weight
  gives free slots zero; counting one particular block and counting all blocks are weights,
  so an operation that keeps every weight neither loses nor duplicates a block.
 */
module Blocks {
  import opened Rearrangements

  const DUMMY_FLAG: nat := 0xffff
  const MAX_STASH_NUM: nat := 105
  const DEFAULT_STASH_LENGTH: nat := 5
  const PACE_STASH: nat := 5

  /** A slot; one whose id is DUMMY_FLAG is free, and the rest of it is stale. */
  datatype Block<P> = Block(id: nat, pos: nat, payload: P)

  predicate Real<P>(b: Block<P>) {
    b.id != DUMMY_FLAG
  }

  function Freed<P>(b: Block<P>): Block<P> {
    b.(id := DUMMY_FLAG)
  }

  ghost predicate AllReal<P>(bs: seq<Block<P>>) {
    forall k :: 0 <= k < |bs| ==> Real(bs[k])
  }

  ghost predicate AllFree<P>(bs: seq<Block<P>>) {
    forall k :: 0 <= k < |bs| ==> !Real(bs[k])
  }

  // ----- weights

  ghost predicate Weight<P(!new)>(f: Block<P> -> nat) {
    forall b :: !Real(b) ==> f(b) == 0
  }

  /** Counts the block x. */
  ghost function Same<P>(x: Block<P>): (f: Block<P> -> nat)
  {
    b => if b == x && Real(b) then 1 else 0
  }

  /** Counts every block. */
  ghost function Occupied<P>(): (f: Block<P> -> nat)
  {
    b => if Real(b) then 1 else 0
  }

  /** The weight of a row of buckets: the tree, or the path. */
  ghost function SumOf<P>(t: seq<seq<Block<P>>>, f: Block<P> -> nat): nat
    decreases |t|, f
  {
    if t == [] then 0 else SumOf(t[..|t| - 1], f) + Sum(t[|t| - 1], f)
  }

  lemma SumOfTake<P>(t: seq<seq<Block<P>>>, i: nat, f: Block<P> -> nat)
    requires i < |t|
    ensures SumOf(t[..i + 1], f) == SumOf(t[..i], f) + Sum(t[i], f)
  {
    assert t[..i + 1][..i] == t[..i];
  }

  lemma {:induction false} SumOfUpdate<P>(t: seq<seq<Block<P>>>, h: nat, bk: seq<Block<P>>, f: Block<P> -> nat)
    requires h < |t|
    ensures SumOf(t[h := bk], f) + Sum(t[h], f) == SumOf(t, f) + Sum(bk, f)
    decreases |t|
  {
    var n := |t| - 1;
    if h == n {
      assert t[h := bk][..n] == t[..n];
    } else {
      SumOfUpdate(t[..n], h, bk, f);
      assert t[h := bk][..n] == t[..n][h := bk];
    }
  }

  lemma {:induction false} SumFree<P(!new)>(bs: seq<Block<P>>, f: Block<P> -> nat)
    requires Weight(f) && AllFree(bs)
    ensures Sum(bs, f) == 0
    decreases |bs|
  {
    if bs == [] {
    } else {
      SumFree(bs[..|bs| - 1], f);
    }
  }

  lemma {:induction false} SumOfFree<P(!new)>(t: seq<seq<Block<P>>>, f: Block<P> -> nat)
    requires Weight(f) && forall i :: 0 <= i < |t| ==> AllFree(t[i])
    ensures SumOf(t, f) == 0
    decreases |t|
  {
    if t == [] {
    } else {
      SumOfFree(t[..|t| - 1], f);
      SumFree(t[|t| - 1], f);
    }
  }

  // ----- finding blocks by weight

  lemma {:induction false} SumFind<P>(bs: seq<Block<P>>, x: Block<P>) returns (i: nat)
    requires Sum(bs, Same(x)) > 0
    ensures i < |bs| && bs[i] == x && Real(x)
    decreases |bs|
  {
    i := |bs| - 1;
    if Same(x)(bs[i]) == 0 {
      i := SumFind(bs[..i], x);
    }
  }

  lemma {:induction false} SumOfFind<P>(t: seq<seq<Block<P>>>, x: Block<P>) returns (h: nat)
    requires SumOf(t, Same(x)) > 0
    ensures h < |t| && Sum(t[h], Same(x)) > 0
    decreases |t|
  {
    h := |t| - 1;
    if Sum(t[h], Same(x)) == 0 {
      h := SumOfFind(t[..h], x);
    }
  }

  lemma {:induction false} SumOfHas<P>(t: seq<seq<Block<P>>>, h: nat, f: Block<P> -> nat)
    requires h < |t|
    ensures SumOf(t, f) >= Sum(t[h], f)
    decreases |t|
  {
    var n := |t| - 1;
    if h == n {
    } else {
      SumOfHas(t[..n], h, f);
    }
  }

  /** A row never holds more blocks than slots; it holds as many exactly when it is full. */
  lemma {:induction false} OccupiedBound<P>(bs: seq<Block<P>>)
    ensures Sum(bs, Occupied()) <= |bs|
    ensures Sum(bs, Occupied()) == |bs| <==> AllReal(bs)
    decreases |bs|
  {
    if bs == [] {
    } else {
      var n := |bs| - 1;
      OccupiedBound(bs[..n]);
      assert AllReal(bs) <==> AllReal(bs[..n]) && Real(bs[n]);
    }
  }

  // ----- the census: which blocks exist, where they are mapped, what they hold

  /**
    Exactly one block exists for each id in mem, it carries the mapped position and the
    recorded payload, and no other block exists.
   */
  ghost predicate Census<P(!new)>(st: seq<Block<P>>, t: seq<seq<Block<P>>>, mem: map<nat, P>, pos: seq<nat>) {
    && (forall id :: id in mem ==> id < |pos| && id != DUMMY_FLAG)
    && (forall b: Block<P> :: Real(b) ==> Sum(st, Same(b)) + SumOf(t, Same(b)) == Expected(b, mem, pos))
  }

  ghost function Expected<P>(b: Block<P>, mem: map<nat, P>, pos: seq<nat>): nat {
    if b.id in mem && b.id < |pos| && b.pos == pos[b.id] && b.payload == mem[b.id] then 1 else 0
  }
}

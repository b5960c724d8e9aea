/**
  The binary tree of buckets, stored as a heap: which heap node holds depth i of a leaf's
  path, and reading and writing whole paths.
 */
module TreeGeometry {
  import opened BinaryArith
  import opened Blocks

  /** The heap node at depth i on the path to a leaf of a tree with the given level. */
  function Node(leaf: nat, level: nat, i: nat): nat
    requires i <= level
  {
    Shr(leaf + Pow2(level), level - i)
  }

  ghost predicate AtDepth(h: nat, i: nat) {
    Pow2(i) <= h < Pow2(i + 1)
  }

  lemma NodeValue(leaf: nat, level: nat, i: nat)
    requires i <= level && leaf < Pow2(level)
    ensures Node(leaf, level, i) == Shr(leaf, level - i) + Pow2(i)
    ensures AtDepth(Node(leaf, level, i), i)
    ensures 1 <= Node(leaf, level, i) < Pow2(level + 1)
  {
    ShrPlusPow2(leaf, level, level - i);
    ShrBound(leaf, level, level - i);
    if i < level {
      Pow2Monotone(i + 1, level + 1);
    }
  }

  lemma NodesInTree(leaf: nat, level: nat)
    requires leaf < Pow2(level)
    ensures forall i: nat :: i <= level ==> 1 <= Node(leaf, level, i) < Pow2(level + 1)
  {
    forall i: nat | i <= level
      ensures 1 <= Node(leaf, level, i) < Pow2(level + 1)
    {
      NodeValue(leaf, level, i);
    }
  }

  /** The children of a node: the next turn is the next bit of the leaf. */
  lemma NodeStep(leaf: nat, level: nat, i: nat)
    requires i < level && leaf < Pow2(level)
    ensures Node(leaf, level, i + 1) == 2 * Node(leaf, level, i) + Shr(leaf, level - i - 1) % 2
  {
    var k := level - i - 1;
    NodeValue(leaf, level, i);
    NodeValue(leaf, level, i + 1);
    ShrStep(leaf, k);
    ShrStep(leaf + Pow2(level), k);
  }

  /** Two leaves share the node at depth i exactly when they agree on the first i turns. */
  lemma NodeShared(p: nat, q: nat, level: nat, i: nat)
    requires i <= level && p < Pow2(level) && q < Pow2(level)
    ensures Node(p, level, i) == Node(q, level, i) <==> Shr(p, level - i) == Shr(q, level - i)
  {
    NodeValue(p, level, i);
    NodeValue(q, level, i);
  }

  lemma DepthUnique(h: nat, i: nat, j: nat)
    requires AtDepth(h, i) && AtDepth(h, j)
    ensures i == j
  {
    if i < j {
      if i + 1 < j { Pow2Monotone(i + 1, j); }
    } else if j < i {
      if j + 1 < i { Pow2Monotone(j + 1, i); }
    }
  }

  lemma {:induction false} DepthOf(h: nat) returns (i: nat)
    requires h > 0
    ensures AtDepth(h, i)
  {
    if h == 1 {
      i := 0;
      assert Pow2(1) == 2;
    } else {
      i := DepthOf(h / 2);
      i := i + 1;
    }
  }

  lemma DepthBound(h: nat, i: nat, level: nat)
    requires AtDepth(h, i) && h < Pow2(level + 1)
    ensures i <= level
  {
    if level + 1 < i {
      Pow2Monotone(level + 1, i);
    }
  }

  // ----- whole paths

  ghost predicate IsTree<P>(t: seq<seq<Block<P>>>, level: nat) {
    |t| == Pow2(level + 1) - 1
  }

  /** The buckets from the root to a leaf. */
  function PathOf<P>(t: seq<seq<Block<P>>>, leaf: nat, level: nat): (r: seq<seq<Block<P>>>)
    requires IsTree(t, level) && leaf < Pow2(level)
    ensures |r| == level + 1
    ensures forall i :: 0 <= i <= level ==> 1 <= Node(leaf, level, i) <= |t| && r[i] == t[Node(leaf, level, i) - 1]
  {
    NodesInTree(leaf, level);
    seq(level + 1, i requires 0 <= i <= level => t[Node(leaf, level, i) - 1])
  }

  /** The tree with the first n buckets of a path overwritten. */
  function Pushed<P>(t: seq<seq<Block<P>>>, path: seq<seq<Block<P>>>, leaf: nat, level: nat, n: nat)
    : (r: seq<seq<Block<P>>>)
    requires IsTree(t, level) && leaf < Pow2(level) && n <= |path| == level + 1
    ensures IsTree(r, level)
    decreases n, t, path, leaf, level
  {
    if n == 0 then t
    else
      NodeValue(leaf, level, n - 1);
      Pushed(t, path, leaf, level, n - 1)[Node(leaf, level, n - 1) - 1 := path[n - 1]]
  }

  lemma NodesIncrease(leaf: nat, level: nat, i: nat, j: nat)
    requires i < j <= level && leaf < Pow2(level)
    ensures Node(leaf, level, i) < Node(leaf, level, j)
  {
    NodeValue(leaf, level, i);
    NodeValue(leaf, level, j);
    if i + 1 < j {
      Pow2Monotone(i + 1, j);
    }
  }

  /** Pushing writes the path's nodes and no others. */
  lemma {:induction false} PushedAt<P>(t: seq<seq<Block<P>>>, path: seq<seq<Block<P>>>, leaf: nat, level: nat, n: nat,
          h: nat)
    requires IsTree(t, level) && leaf < Pow2(level) && n <= |path| == level + 1 && 1 <= h <= |t|
    ensures forall i :: 0 <= i < n && h == Node(leaf, level, i) ==> Pushed(t, path, leaf, level, n)[h - 1] == path[i]
    ensures (forall i :: 0 <= i < n ==> h != Node(leaf, level, i)) ==>
              Pushed(t, path, leaf, level, n)[h - 1] == t[h - 1]
    decreases n
  {
    if n == 0 {
    } else {
      PushedAt(t, path, leaf, level, n - 1, h);
      NodeValue(leaf, level, n - 1);
      forall i | 0 <= i < n - 1
        ensures Node(leaf, level, i) != Node(leaf, level, n - 1)
      {
        NodesIncrease(leaf, level, i, n - 1);
      }
    }
  }

  /** Overwriting a path exchanges its old weight for the new one. */
  lemma {:induction false} PushedSum<P>(t: seq<seq<Block<P>>>, path: seq<seq<Block<P>>>, leaf: nat, level: nat, n: nat,
          f: Block<P> -> nat)
    requires IsTree(t, level) && leaf < Pow2(level) && n <= |path| == level + 1
    ensures SumOf(Pushed(t, path, leaf, level, n), f) + SumOf(PathOf(t, leaf, level)[..n], f) ==
            SumOf(t, f) + SumOf(path[..n], f)
    decreases n
  {
    var old' := PathOf(t, leaf, level);
    if n == 0 {
      assert old'[..0] == [] && path[..0] == [];
    } else {
      var i := n - 1;
      var before := Pushed(t, path, leaf, level, i);
      assert Pushed(t, path, leaf, level, n) == before[Node(leaf, level, i) - 1 := path[i]];
      hide Pushed, SumOf, Pow2, Node, IsTree;
      PushedSum(t, path, leaf, level, i, f);
      PathNodeUntouched(t, path, leaf, level, i);
      SumOfUpdate(before, Node(leaf, level, i) - 1, path[i], f);
      SumOfTake(old', i, f);
      SumOfTake(path, i, f);
    }
  }

  lemma PathNodeUntouched<P>(t: seq<seq<Block<P>>>, path: seq<seq<Block<P>>>, leaf: nat, level: nat, i: nat)
    requires IsTree(t, level) && leaf < Pow2(level) && i <= level && |path| == level + 1
    ensures 1 <= Node(leaf, level, i) <= |t|
    ensures Pushed(t, path, leaf, level, i)[Node(leaf, level, i) - 1] == PathOf(t, leaf, level)[i]
  {
    NodeValue(leaf, level, i);
    forall j | 0 <= j < i
      ensures Node(leaf, level, j) != Node(leaf, level, i)
    {
      NodesIncrease(leaf, level, j, i);
    }
    PushedAt(t, path, leaf, level, i, Node(leaf, level, i));
  }

  /** Reading back the path just pushed. */
  lemma PathPushed<P>(t: seq<seq<Block<P>>>, path: seq<seq<Block<P>>>, leaf: nat, level: nat)
    requires IsTree(t, level) && leaf < Pow2(level) && |path| == level + 1
    ensures PathOf(Pushed(t, path, leaf, level, level + 1), leaf, level) == path
  {
    var r := PathOf(Pushed(t, path, leaf, level, level + 1), leaf, level);
    forall i | 0 <= i <= level
      ensures r[i] == path[i]
    {
      NodeValue(leaf, level, i);
      PushedAt(t, path, leaf, level, level + 1, Node(leaf, level, i));
    }
  }

  // ----- every block on the path to its leaf

  /** Each block of a bucket at node h, depth i, belongs to a leaf below h. */
  ghost predicate PlacedAt<P>(bk: seq<Block<P>>, h: nat, i: nat, level: nat)
    requires i <= level
  {
    forall k :: 0 <= k < |bk| && Real(bk[k]) ==> bk[k].pos < Pow2(level) && h == Node(bk[k].pos, level, i)
  }

  ghost predicate Placed<P>(t: seq<seq<Block<P>>>, level: nat) {
    && IsTree(t, level)
    && forall h: nat, i: nat :: AtDepth(h, i) && i <= level && h <= |t| ==> PlacedAt(t[h - 1], h, i, level)
  }

  /** A block in the tree is on the path to the leaf it is mapped to. */
  lemma PlacedOnPath<P>(t: seq<seq<Block<P>>>, level: nat, x: Block<P>)
    requires Placed(t, level) && SumOf(t, Same(x)) > 0
    ensures x.pos < Pow2(level) && SumOf(PathOf(t, x.pos, level), Same(x)) > 0
  {
    var h := SumOfFind(t, x);
    var k := SumFind(t[h], x);
    var i := DepthOf(h + 1);
    DepthBound(h + 1, i, level);
    assert PlacedAt(t[h], h + 1, i, level);
    SumOfHas(PathOf(t, x.pos, level), i, Same(x));
  }

  /** A pushed path of properly placed buckets keeps every block placed. */
  lemma PushedPlaced<P>(t: seq<seq<Block<P>>>, path: seq<seq<Block<P>>>, leaf: nat, level: nat)
    requires Placed(t, level) && leaf < Pow2(level) && |path| == level + 1
    requires forall i :: 0 <= i <= level ==> PlacedAt(path[i], Node(leaf, level, i), i, level)
    ensures Placed(Pushed(t, path, leaf, level, level + 1), level)
  {
    var t' := Pushed(t, path, leaf, level, level + 1);
    forall h: nat, i: nat | AtDepth(h, i) && i <= level && h <= |t'|
      ensures PlacedAt(t'[h - 1], h, i, level)
    {
      PushedAt(t, path, leaf, level, level + 1, h);
      NodeValue(leaf, level, i);
      if h != Node(leaf, level, i) {
        forall j | 0 <= j <= level
          ensures h != Node(leaf, level, j)
        {
          NodeValue(leaf, level, j);
          if h == Node(leaf, level, j) {
            DepthUnique(h, i, j);
          }
        }
        assert PlacedAt(t[h - 1], h, i, level);
      }
    }
  }
}

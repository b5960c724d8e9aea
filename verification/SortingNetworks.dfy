/**
  Compare-exchange networks.  Both sorters of the enclave touch their list only through
  comparisons whose positions depend on the length alone.  This module runs a network over
  any element type and carries a verdict about bits over to every strict weak order
  (the 0-1 principle).
 */
module SortingNetworks {

  /** The value meaning of the conditional move: x when the condition holds, else y. */
  function OMove<T>(x: T, y: T, cond: bool): T {
    if cond then x else y
  }

  /** Compare positions i and j; `asc` says whether the smaller value goes to i. */
  datatype Network =
    | Skip
    | Compare(i: nat, j: nat, asc: bool)
    | Then(first: Network, second: Network)

  ghost predicate StrictWeakOrder<T(!new)>(gt: (T, T) -> bool) {
    && (forall x :: !gt(x, x))
    && (forall x, y, z :: gt(x, y) && gt(y, z) ==> gt(x, z))
    && (forall x, y, z :: gt(x, z) ==> gt(x, y) || gt(y, z))
  }

  /** s[lo..hi] is in order, ascending or descending, as far as gt can tell. */
  ghost predicate SortedOn<T>(s: seq<T>, lo: nat, hi: nat, gt: (T, T) -> bool, asc: bool)
    requires hi <= |s|
  {
    forall i, j :: lo <= i < j < hi ==> if asc then !gt(s[i], s[j]) else !gt(s[j], s[i])
  }

  /** r is s with lo .. lo+n rearranged. */
  ghost predicate Rearranged<T>(s: seq<T>, r: seq<T>, lo: nat, n: nat) {
    && lo + n <= |s| == |r|
    && multiset(r[lo..lo + n]) == multiset(s[lo..lo + n])
    && r[..lo] == s[..lo] && r[lo + n..] == s[lo + n..]
  }

  /** r is s with lo .. lo+n put in order, rearranging only that stretch. */
  ghost predicate SortedFrom<T>(s: seq<T>, r: seq<T>, lo: nat, n: nat, gt: (T, T) -> bool, asc: bool) {
    Rearranged(s, r, lo, n) && SortedOn(r, lo, lo + n, gt, asc)
  }

  /** One more than the largest position compared. */
  function Reach(net: Network): nat {
    match net
    case Skip => 0
    case Compare(i, j, _) => if i < j then j + 1 else i + 1
    case Then(a, b) => if Reach(a) < Reach(b) then Reach(b) else Reach(a)
  }

  /** The network compares only positions in lo .. hi, never one with itself. */
  ghost predicate Inside(net: Network, lo: nat, hi: nat)
  {
    match net
    case Skip => true
    case Compare(i, j, _) => lo <= i < hi && lo <= j < hi && i != j
    case Then(a, b) => Inside(a, lo, hi) && Inside(b, lo, hi)
  }

  lemma {:induction false} InsideWider(net: Network, lo: nat, hi: nat, lo': nat, hi': nat)
    requires Inside(net, lo, hi) && lo' <= lo && hi <= hi'
    ensures Inside(net, lo', hi')
  {
    if !net.Then? {
    } else {
      InsideWider(net.first, lo, hi, lo', hi');
      InsideWider(net.second, lo, hi, lo', hi');
    }
  }

  lemma InsideParts(a: Network, b: Network, lo: nat, m: nat, n: nat)
    requires m <= n && Inside(a, lo, lo + m) && Inside(b, lo + m, lo + n)
    ensures Inside(Then(a, b), lo, lo + n)
  {
    InsideWider(a, lo, lo + m, lo, lo + n);
    InsideWider(b, lo + m, lo + n, lo, lo + n);
  }

  function Exchange<T>(s: seq<T>, i: nat, j: nat, cond: bool): (r: seq<T>)
    requires i < |s| && j < |s|
  {
    var tmp := OMove(s[i], s[j], cond);
    s[i := OMove(s[j], s[i], cond)][j := tmp]
  }

  function Run<T>(net: Network, s: seq<T>, gt: (T, T) -> bool): (r: seq<T>)
    requires Reach(net) <= |s|
    ensures |r| == |s|
    decreases net, s, gt
  {
    match net
    case Skip => s
    case Compare(i, j, asc) => Exchange(s, i, j, asc == gt(s[i], s[j]))
    case Then(a, b) => Run(b, Run(a, s, gt), gt)
  }

  lemma RunThen<T>(a: Network, b: Network, s: seq<T>, gt: (T, T) -> bool)
    requires Reach(a) <= |s| && Reach(b) <= |s|
    ensures Reach(Then(a, b)) <= |s| && Run(Then(a, b), s, gt) == Run(b, Run(a, s, gt), gt)
  {}

  // ----- a network rearranges the stretch it compares and touches nothing else

  lemma ExchangePermutes<T>(s: seq<T>, i: nat, j: nat, cond: bool)
    requires i < |s| && j < |s| && i != j
    ensures multiset(Exchange(s, i, j, cond)) == multiset(s)
  {
    if cond {
      var x, y := s[i], s[j];
      var r := s[i := y];
      assert r[j] == y;
      assert multiset(r) == multiset(s)[x := multiset(s)[x] - 1] + multiset{y};
    } else {
      assert Exchange(s, i, j, cond) == s;
    }
  }

  lemma {:induction false} RunMoves<T>(net: Network, s: seq<T>, gt: (T, T) -> bool, lo: nat, hi: nat)
    requires Inside(net, lo, hi) && Reach(net) <= hi && lo <= hi <= |s|
    ensures multiset(Run(net, s, gt)) == multiset(s)
    ensures forall k :: 0 <= k < |s| && !(lo <= k < hi) ==> Run(net, s, gt)[k] == s[k]
  {
    match net
    case Skip =>
    case Compare(i, j, asc) =>
      ExchangePermutes(s, i, j, asc == gt(s[i], s[j]));
    case Then(a, b) =>
      RunMoves(a, s, gt, lo, hi);
      RunMoves(b, Run(a, s, gt), gt, lo, hi);
  }

  lemma SplitMultiset<T>(s: seq<T>, lo: nat, hi: nat)
    requires lo <= hi <= |s|
    ensures multiset(s) == multiset(s[..lo]) + multiset(s[lo..hi]) + multiset(s[hi..])
  {
    assert s == s[..lo] + s[lo..hi] + s[hi..];
  }

  lemma KeptOutside<T>(s: seq<T>, r: seq<T>, lo: nat, n: nat)
    requires |r| == |s| && lo + n <= |s| && multiset(r) == multiset(s)
    requires forall k :: 0 <= k < |s| && !(lo <= k < lo + n) ==> r[k] == s[k]
    ensures Rearranged(s, r, lo, n)
  {
    assert r[..lo] == s[..lo] && r[lo + n..] == s[lo + n..];
    SplitMultiset(s, lo, lo + n);
    SplitMultiset(r, lo, lo + n);
    CancelMultisets(multiset(s[..lo]), multiset(r[lo..lo + n]), multiset(s[lo..lo + n]), multiset(s[lo + n..]));
  }

  lemma CancelMultisets<T>(c: multiset<T>, a: multiset<T>, b: multiset<T>, d: multiset<T>)
    requires c + a + d == c + b + d
    ensures a == b
  {
    forall x
      ensures a[x] == b[x]
    {
      assert (c + a + d)[x] == (c + b + d)[x];
    }
  }

  lemma RunPermutes<T>(net: Network, s: seq<T>, gt: (T, T) -> bool, lo: nat, n: nat)
    requires Inside(net, lo, lo + n) && Reach(net) <= lo + n <= |s|
    ensures Rearranged(s, Run(net, s, gt), lo, n)
  {
    RunMoves(net, s, gt, lo, lo + n);
    KeptOutside(s, Run(net, s, gt), lo, n);
  }

  /** So a network that leaves its stretch in order sorts it. */
  lemma SortedAndRearranged<T>(net: Network, s: seq<T>, lo: nat, n: nat, gt: (T, T) -> bool, asc: bool)
    requires Inside(net, lo, lo + n) && Reach(net) <= lo + n <= |s|
    requires SortedOn(Run(net, s, gt), lo, lo + n, gt, asc)
    ensures SortedFrom(s, Run(net, s, gt), lo, n, gt, asc)
  {
    RunPermutes(net, s, gt, lo, n);
  }

  // ----- bits

  predicate BitGreater(a: bool, b: bool) {
    a && !b
  }

  /** The value a comparison of direction asc moves to its first position. */
  predicate Low(b: bool, asc: bool) {
    b != asc
  }

  function Project<T>(s: seq<T>, t: T, gt: (T, T) -> bool): (r: seq<bool>)
    ensures |r| == |s| && forall k :: 0 <= k < |s| ==> r[k] == gt(s[k], t)
  {
    seq(|s|, k requires 0 <= k < |s| => gt(s[k], t))
  }

  /** Thresholding at any element commutes with every network. */
  lemma {:induction false} RunProject<T(!new)>(net: Network, s: seq<T>, t: T, gt: (T, T) -> bool)
    requires StrictWeakOrder(gt) && Reach(net) <= |s|
    ensures Project(Run(net, s, gt), t, gt) == Run(net, Project(s, t, gt), BitGreater)
  {
    match net
    case Skip =>
    case Compare(i, j, asc) =>
    case Then(a, b) =>
      RunProject(a, s, t, gt);
      RunProject(b, Run(a, s, gt), t, gt);
  }

  /** The first `b` of the n positions from lo hold the low value, the others the high one. */
  ghost predicate LowsFirst(s: seq<bool>, lo: nat, n: nat, asc: bool, b: nat)
    requires lo + n <= |s|
  {
    forall k :: lo <= k < lo + n ==> (Low(s[k], asc) <==> k < lo + b)
  }

  ghost predicate SortedBits(s: seq<bool>, lo: nat, n: nat, asc: bool)
    requires lo + n <= |s|
  {
    exists b: nat :: LowsFirst(s, lo, n, asc, b)
  }

  /** A list whose every threshold projection is sorted is sorted. */
  lemma SortedFromBits<T(!new)>(s: seq<T>, lo: nat, n: nat, gt: (T, T) -> bool, asc: bool)
    requires StrictWeakOrder(gt) && lo + n <= |s|
    requires forall t :: SortedBits(Project(s, t, gt), lo, n, asc)
    ensures SortedOn(s, lo, lo + n, gt, asc)
  {
    forall i, j | lo <= i < j < lo + n
      ensures if asc then !gt(s[i], s[j]) else !gt(s[j], s[i])
    {
      var t := if asc then s[j] else s[i];
      var p := Project(s, t, gt);
      assert SortedBits(p, lo, n, asc);
      var b: nat :| LowsFirst(p, lo, n, asc, b);
      assert p[i] == gt(s[i], t) && p[j] == gt(s[j], t);
    }
  }

  /** And conversely: thresholding a sorted list gives sorted bits. */
  lemma {:induction false} BitsFromSorted<T(!new)>(s: seq<T>, lo: nat, n: nat, gt: (T, T) -> bool, asc: bool, t: T)
    requires StrictWeakOrder(gt) && lo + n <= |s| && SortedOn(s, lo, lo + n, gt, asc)
    ensures SortedBits(Project(s, t, gt), lo, n, asc)
  {
    var p := Project(s, t, gt);
    var b := 0;
    while b < n && Low(p[lo + b], asc)
      invariant b <= n && forall k :: lo <= k < lo + b ==> Low(p[k], asc)
    {
      b := b + 1;
    }
    forall k | lo + b <= k < lo + n
      ensures !Low(p[k], asc)
    {
      assert k == lo + b || if asc then !gt(s[lo + b], s[k]) else !gt(s[k], s[lo + b]);
    }
    assert LowsFirst(p, lo, n, asc, b);
  }

  /** The network sorts lo .. lo+n of every bit string of the given length. */
  ghost predicate SortsBits(net: Network, length: nat, lo: nat, n: nat, asc: bool)
    requires Reach(net) <= length && lo + n <= length
  {
    forall bits: seq<bool> :: |bits| == length ==> SortedBits(Run(net, bits, BitGreater), lo, n, asc)
  }

  /**
    The 0-1 principle on a stretch: a network that sorts every bit string there sorts
    every list, for every strict weak order, and only rearranges it.
   */
  lemma ZeroOnePrinciple<T(!new)>(net: Network, s: seq<T>, lo: nat, n: nat, gt: (T, T) -> bool, asc: bool)
    requires StrictWeakOrder(gt) && lo + n <= |s| && Inside(net, lo, lo + n) && Reach(net) <= lo + n
    requires SortsBits(net, |s|, lo, n, asc)
    ensures SortedFrom(s, Run(net, s, gt), lo, n, gt, asc)
  {
    NetworkSorts(net, s, lo, n, gt, asc);
    SortedAndRearranged(net, s, lo, n, gt, asc);
  }

  lemma NetworkSorts<T(!new)>(net: Network, s: seq<T>, lo: nat, n: nat, gt: (T, T) -> bool, asc: bool)
    requires StrictWeakOrder(gt) && lo + n <= |s| && Reach(net) <= |s| && SortsBits(net, |s|, lo, n, asc)
    ensures SortedOn(Run(net, s, gt), lo, lo + n, gt, asc)
  {
    forall t
      ensures SortedBits(Project(Run(net, s, gt), t, gt), lo, n, asc)
    {
      ThresholdSorted(net, s, t, lo, n, gt, asc);
    }
    SortedFromBits(Run(net, s, gt), lo, n, gt, asc);
  }

  lemma ThresholdSorted<T(!new)>(net: Network, s: seq<T>, t: T, lo: nat, n: nat, gt: (T, T) -> bool, asc: bool)
    requires StrictWeakOrder(gt) && lo + n <= |s| && Reach(net) <= |s| && SortsBits(net, |s|, lo, n, asc)
    ensures SortedBits(Project(Run(net, s, gt), t, gt), lo, n, asc)
  {
    RunProject(net, s, t, gt);
    assert |Project(s, t, gt)| == |s|;
  }
}

/**
  The bitonic sorter for lists of any length: its compare schedule, the proof that the
  schedule sorts, and the in-place sorter that follows it.
 */
module BitonicSorting {
  import opened BinaryArith
  import opened SortingNetworks

  // ----- the schedule

  /** Positions lo .. lo+cnt against those m further on. */
  function Cleaner(lo: nat, cnt: nat, m: nat, asc: bool): (r: Network)
    requires m > 0
    ensures Inside(r, lo, lo + m + cnt) && Reach(r) <= lo + m + cnt
  {
    if cnt == 0 then Skip
    else
      var before := Cleaner(lo, cnt - 1, m, asc);
      InsideWider(before, lo, lo + m + cnt - 1, lo, lo + m + cnt);
      Then(before, Compare(lo + cnt - 1, lo + cnt - 1 + m, asc))
  }

  function MergeSchedule(lo: nat, n: nat, asc: bool): (r: Network)
    ensures Inside(r, lo, lo + n) && Reach(r) <= lo + n
    decreases n, lo, asc
  {
    if n <= 1 then Skip
    else
      var m := GreatestPow2Below(n);
      var lower, upper := MergeSchedule(lo, m, asc), MergeSchedule(lo + m, n - m, asc);
      InsideParts(lower, upper, lo, m, n);
      Then(Cleaner(lo, n - m, m, asc), Then(lower, upper))
  }

  function SortSchedule(lo: nat, n: nat, asc: bool): (r: Network)
    ensures Inside(r, lo, lo + n) && Reach(r) <= lo + n
    decreases n, lo, asc
  {
    if n <= 1 then Skip
    else
      var m := n / 2;
      var lower, upper := SortSchedule(lo, m, !asc), SortSchedule(lo + m, n - m, asc);
      InsideParts(lower, upper, lo, m, n);
      Then(Then(lower, upper), MergeSchedule(lo, n, asc))
  }

  // ----- the schedule on bits

  /** k lies in the circular stretch of length b that starts at a, modulo n. */
  predicate InCircle(k: int, n: nat, a: nat, b: nat) {
    a <= k < a + b || k < a + b - n
  }

  /** The low positions of s[lo..lo+n] are the circular stretch (a, b). */
  ghost predicate CircularLows(s: seq<bool>, lo: nat, n: nat, asc: bool, a: nat, b: nat)
    requires lo + n <= |s|
  {
    forall k :: lo <= k < lo + n ==> (Low(s[k], asc) <==> InCircle(k - lo, n, a, b))
  }

  /** Positions k and k+m of r hold those of s, the low one first. */
  ghost predicate Paired(s: seq<bool>, r: seq<bool>, k: nat, m: nat, asc: bool)
    requires k + m < |s| == |r|
  {
    && (Low(r[k], asc) <==> Low(s[k], asc) || Low(s[k + m], asc))
    && (Low(r[k + m], asc) <==> Low(s[k], asc) && Low(s[k + m], asc))
  }

  /** r is s with cnt positions from lo compared with those m further on. */
  ghost predicate Cleaned(s: seq<bool>, r: seq<bool>, lo: nat, cnt: nat, m: nat, asc: bool)
    requires lo + m + cnt <= |s| == |r|
  {
    && (forall k :: lo <= k < lo + cnt ==> Paired(s, r, k, m, asc))
    && (forall k :: 0 <= k < |s| && !(lo <= k < lo + cnt) && !(lo + m <= k < lo + m + cnt) ==> r[k] == s[k])
  }

  lemma {:induction false} CleanerOnBits(s: seq<bool>, lo: nat, cnt: nat, m: nat, asc: bool)
    requires 0 < m && cnt <= m && lo + m + cnt <= |s|
    ensures Cleaned(s, Run(Cleaner(lo, cnt, m, asc), s, BitGreater), lo, cnt, m, asc)
  {
    if cnt == 0 {
    } else {
      CleanerOnBits(s, lo, cnt - 1, m, asc);
      CleanOneMore(s, Run(Cleaner(lo, cnt - 1, m, asc), s, BitGreater), lo, cnt - 1, m, asc);
    }
  }

  lemma CleanOneMore(s: seq<bool>, b: seq<bool>, lo: nat, cnt: nat, m: nat, asc: bool)
    requires cnt < m && lo + m + cnt < |s| == |b| && Cleaned(s, b, lo, cnt, m, asc)
    ensures Cleaned(s, Run(Compare(lo + cnt, lo + cnt + m, asc), b, BitGreater), lo, cnt + 1, m, asc)
  {
    var r := Run(Compare(lo + cnt, lo + cnt + m, asc), b, BitGreater);
    forall k: nat | lo <= k < lo + cnt + 1
      ensures Paired(s, r, k, m, asc)
    {
      if k < lo + cnt {
        assert Paired(s, b, k, m, asc);
        assert r[k] == b[k] && r[k + m] == b[k + m];
      }
    }
  }

  /** One round of comparisons on a circularly bitonic stretch leaves two of half the length. */
  lemma CircleHalved(s: seq<bool>, c: seq<bool>, lo: nat, m: nat, asc: bool, a: nat, b: nat)
    requires 0 < m && lo + 2 * m <= |s| == |c| && a < 2 * m && b <= 2 * m
    requires CircularLows(s, lo, 2 * m, asc, a, b) && Cleaned(s, c, lo, m, m, asc)
    ensures var a' := if a < m then a else a - m;
            && CircularLows(c, lo, m, asc, a', if b < m then b else m)
            && CircularLows(c, lo + m, m, asc, a', if b < m then 0 else b - m)
  {
    forall k: nat | lo <= k < lo + m
      ensures Low(c[k], asc) <==> InCircle(k - lo, 2 * m, a, b) || InCircle(k + m - lo, 2 * m, a, b)
    {
      assert Paired(s, c, k, m, asc);
    }
    forall k: nat | lo + m <= k < lo + 2 * m
      ensures Low(c[k], asc) <==> InCircle(k - m - lo, 2 * m, a, b) && InCircle(k - lo, 2 * m, a, b)
    {
      assert Paired(s, c, k - m, m, asc);
    }
  }

  /** One round on a valley leaves a circularly bitonic stretch and a shorter valley. */
  lemma ValleyHalved(s: seq<bool>, c: seq<bool>, lo: nat, n: nat, m: nat, asc: bool, a: nat, b: nat)
    requires 0 < m < n <= 2 * m && lo + n <= |s| == |c| && a + b <= n
    requires Valley(s, lo, n, asc, a, b) && Cleaned(s, c, lo, n - m, m, asc)
    ensures CircularLows(c, lo, m, asc, if a < m then a else if b == 0 then 0 else a - m, if b < m then b else m)
    ensures Valley(c, lo + m, n - m, asc, if b < m then 0 else a, if b < m then 0 else b - m)
  {
    forall k: nat | lo <= k < lo + m
      ensures Low(c[k], asc) <==> lo + a <= k < lo + a + b || lo + a <= k + m < lo + a + b
    {
      assert k < lo + n - m ==> Paired(s, c, k, m, asc);
    }
    forall k: nat | lo + m <= k < lo + n
      ensures Low(c[k], asc) <==> lo + a <= k - m < lo + a + b && lo + a <= k < lo + a + b
    {
      assert Paired(s, c, k - m, m, asc);
    }
  }

  /** High bits, then b low bits from position a of the stretch, then high bits. */
  ghost predicate Valley(s: seq<bool>, lo: nat, n: nat, asc: bool, a: nat, b: nat)
    requires lo + n <= |s|
  {
    forall k :: lo <= k < lo + n ==> (Low(s[k], asc) <==> lo + a <= k < lo + a + b)
  }

  ghost predicate SameOutside(s: seq<bool>, r: seq<bool>, lo: nat, hi: nat)
    requires |s| == |r|
  {
    forall k :: 0 <= k < |s| && !(lo <= k < hi) ==> r[k] == s[k]
  }

  /** Sorting a lower part that is all low, or an upper part that is all high, joins up. */
  lemma PartsJoin(t: seq<bool>, r: seq<bool>, lo: nat, m: nat, n: nat, asc: bool, b1: nat, b2: nat)
    requires lo + n <= |t| == |r| && m <= n && (b2 == 0 || b1 == m)
    requires b1 <= m && LowsFirst(t, lo, m, asc, b1)
    requires LowsFirst(r, lo + m, n - m, asc, b2) && SameOutside(t, r, lo + m, lo + n)
    ensures LowsFirst(r, lo, n, asc, b1 + b2)
  {}

  lemma RunInside(net: Network, s: seq<bool>, lo: nat, hi: nat)
    requires Inside(net, lo, hi) && Reach(net) <= hi && lo <= hi <= |s|
    ensures SameOutside(s, Run(net, s, BitGreater), lo, hi)
  {
    RunMoves(net, s, BitGreater, lo, hi);
  }

  /** Three networks in a row, the last two on their own parts of the stretch. */
  lemma Stages(x: Network, y: Network, z: Network, s: seq<bool>, lo: nat, m: nat, n: nat)
    returns (c: seq<bool>, t: seq<bool>, r: seq<bool>)
    requires m <= n && lo + n <= |s| && Reach(x) <= |s|
    requires Inside(y, lo, lo + m) && Reach(y) <= lo + m && Inside(z, lo + m, lo + n) && Reach(z) <= lo + n
    ensures |c| == |t| == |r| == |s|
    ensures c == Run(x, s, BitGreater)
    ensures t == Run(y, c, BitGreater) && SameOutside(c, t, lo, lo + m)
    ensures r == Run(z, t, BitGreater) && SameOutside(t, r, lo + m, lo + n)
    ensures r == Run(Then(x, Then(y, z)), s, BitGreater) == Run(Then(Then(x, y), z), s, BitGreater)
  {
    c := Run(x, s, BitGreater);
    t := Run(y, c, BitGreater);
    r := Run(z, t, BitGreater);
    RunInside(y, c, lo, lo + m);
    RunInside(z, t, lo + m, lo + n);
    RunThen(y, z, c, BitGreater);
    RunThen(x, Then(y, z), s, BitGreater);
    RunThen(x, y, s, BitGreater);
    RunThen(Then(x, y), z, s, BitGreater);
  }

  lemma MergeUnfolds(lo: nat, n: nat, asc: bool)
    requires n >= 2
    ensures var m := GreatestPow2Below(n);
            MergeSchedule(lo, n, asc) ==
            Then(Cleaner(lo, n - m, m, asc), Then(MergeSchedule(lo, m, asc), MergeSchedule(lo + m, n - m, asc)))
  {}

  /** The round of comparisons and the two smaller merges that make up a merge. */
  lemma MergeParts(lo: nat, n: nat, asc: bool, m: nat) returns (x: Network, y: Network, z: Network)
    requires n >= 2 && m == GreatestPow2Below(n)
    ensures x == Cleaner(lo, n - m, m, asc) && Reach(x) <= lo + n
    ensures y == MergeSchedule(lo, m, asc) && Inside(y, lo, lo + m) && Reach(y) <= lo + m
    ensures z == MergeSchedule(lo + m, n - m, asc) && Inside(z, lo + m, lo + n) && Reach(z) <= lo + n
    ensures MergeSchedule(lo, n, asc) == Then(x, Then(y, z))
  {
    MergeUnfolds(lo, n, asc);
    x, y, z := Cleaner(lo, n - m, m, asc), MergeSchedule(lo, m, asc), MergeSchedule(lo + m, n - m, asc);
  }

  lemma MergeStages(s: seq<bool>, lo: nat, n: nat, asc: bool, m: nat) returns (c: seq<bool>, t: seq<bool>, r: seq<bool>)
    requires n >= 2 && lo + n <= |s| && m == GreatestPow2Below(n)
    ensures |c| == |t| == |r| == |s|
    ensures Cleaned(s, c, lo, n - m, m, asc)
    ensures t == Run(MergeSchedule(lo, m, asc), c, BitGreater)
    ensures r == Run(MergeSchedule(lo + m, n - m, asc), t, BitGreater) && SameOutside(t, r, lo + m, lo + n)
    ensures SameOutside(c, t, lo, lo + m)
    ensures r == Run(MergeSchedule(lo, n, asc), s, BitGreater)
  {
    var x, y, z := MergeParts(lo, n, asc, m);
    c, t, r := Stages(x, y, z, s, lo, m, n);
    CleanerOnBits(s, lo, n - m, m, asc);
  }

  /** A stretch whose low bits are b consecutive ones on the circle, from a on. */
  ghost predicate Circle(s: seq<bool>, lo: nat, n: nat, asc: bool, a: nat, b: nat) {
    lo + n <= |s| && a < n && b <= n && CircularLows(s, lo, n, asc, a, b)
  }

  /** The merge sorts the stretch, with b low bits. */
  ghost predicate MergedTo(s: seq<bool>, lo: nat, n: nat, asc: bool, b: nat) {
    lo + n <= |s| && LowsFirst(Run(MergeSchedule(lo, n, asc), s, BitGreater), lo, n, asc, b)
  }

  /** The merge of s is the merge of the lower m bits of c, giving t, and then of the upper bits of t. */
  ghost predicate MergedInHalves(s: seq<bool>, c: seq<bool>, t: seq<bool>, lo: nat, n: nat, m: nat, asc: bool) {
    && m <= n && lo + n <= |s| == |c| == |t|
    && t == Run(MergeSchedule(lo, m, asc), c, BitGreater)
    && Run(MergeSchedule(lo + m, n - m, asc), t, BitGreater) == Run(MergeSchedule(lo, n, asc), s, BitGreater)
  }

  lemma HalvesJoin(s: seq<bool>, c: seq<bool>, t: seq<bool>, lo: nat, n: nat, m: nat, asc: bool, b1: nat, b2: nat)
    requires MergedInHalves(s, c, t, lo, n, m, asc) && b1 <= m && (b2 == 0 || b1 == m)
    requires MergedTo(c, lo, m, asc, b1) && MergedTo(t, lo + m, n - m, asc, b2)
    ensures MergedTo(s, lo, n, asc, b1 + b2)
  {
    hide Run, LowsFirst, MergeSchedule, Inside, Reach;
    RunInside(MergeSchedule(lo + m, n - m, asc), t, lo + m, lo + n);
    PartsJoin(t, Run(MergeSchedule(lo, n, asc), s, BitGreater), lo, m, n, asc, b1, b2);
  }

  lemma CircleStages(s: seq<bool>, lo: nat, m: nat, asc: bool, a: nat, b: nat)
    returns (c: seq<bool>, t: seq<bool>, a': nat, b1: nat, b2: nat)
    requires 0 < m == GreatestPow2Below(2 * m) && Circle(s, lo, 2 * m, asc, a, b)
    ensures b1 <= m && b1 + b2 == b && (b2 == 0 || b1 == m) && MergedInHalves(s, c, t, lo, 2 * m, m, asc)
    ensures Circle(c, lo, m, asc, a', b1) && Circle(t, lo + m, m, asc, a', b2)
  {
    hide Run, MergeSchedule, GreatestPow2Below, Inside, Reach;
    a' := if a < m then a else a - m;
    b1, b2 := if b < m then b else m, if b < m then 0 else b - m;
    var r;
    c, t, r := MergeStages(s, lo, 2 * m, asc, m);
    hide Cleaned, InCircle;
    CircleHalved(s, c, lo, m, asc, a, b);
  }

  lemma CircleOfOne(s: seq<bool>, lo: nat, asc: bool, a: nat, b: nat)
    requires Circle(s, lo, 1, asc, a, b)
    ensures MergedTo(s, lo, 1, asc, b)
  {}

  /** Power-of-two lengths: any circularly bitonic stretch of bits is sorted. */
  lemma {:induction false} MergeCircular(s: seq<bool>, lo: nat, n: nat, e: nat, asc: bool, a: nat, b: nat)
    requires n == Pow2(e) && Circle(s, lo, n, asc, a, b)
    ensures MergedTo(s, lo, n, asc, b)
    decreases e
  {
    if e == 0 {
      CircleOfOne(s, lo, asc, a, b);
    } else {
      var m := Pow2(e - 1);
      assert n == 2 * m;
      hide *;
      GreatestPow2BelowUnique(n, e - 1);
      var c, t, a', b1, b2 := CircleStages(s, lo, m, asc, a, b);
      MergeCircular(c, lo, m, e - 1, asc, a', b1);
      MergeCircular(t, lo + m, m, e - 1, asc, a', b2);
      HalvesJoin(s, c, t, lo, n, m, asc, b1, b2);
    }
  }

  /** A stretch of a high bits, then b low bits, then high bits. */
  ghost predicate Dip(s: seq<bool>, lo: nat, n: nat, asc: bool, a: nat, b: nat) {
    lo + n <= |s| && a + b <= n && Valley(s, lo, n, asc, a, b)
  }

  lemma ValleyStages(s: seq<bool>, lo: nat, n: nat, m: nat, asc: bool, a: nat, b: nat)
    returns (c: seq<bool>, t: seq<bool>, a1: nat, a2: nat, b1: nat, b2: nat)
    requires n > 1 && m == GreatestPow2Below(n) && Dip(s, lo, n, asc, a, b)
    ensures b1 <= m && b1 + b2 == b && (b2 == 0 || b1 == m) && MergedInHalves(s, c, t, lo, n, m, asc)
    ensures Circle(c, lo, m, asc, a1, b1) && Dip(t, lo + m, n - m, asc, a2, b2)
  {
    hide Run, MergeSchedule, GreatestPow2Below, Inside, Reach;
    a1, a2 := if a < m then a else if b == 0 then 0 else a - m, if b < m then 0 else a;
    b1, b2 := if b < m then b else m, if b < m then 0 else b - m;
    var r;
    c, t, r := MergeStages(s, lo, n, asc, m);
    hide Cleaned, InCircle, CircularLows;
    ValleyHalved(s, c, lo, n, m, asc, a, b);
  }

  lemma DipOfOne(s: seq<bool>, lo: nat, n: nat, asc: bool, a: nat, b: nat)
    requires n <= 1 && Dip(s, lo, n, asc, a, b)
    ensures MergedTo(s, lo, n, asc, b)
  {}

  /** Any length: high bits, then low bits, then high bits become sorted. */
  lemma {:induction false} MergeValley(s: seq<bool>, lo: nat, n: nat, asc: bool, a: nat, b: nat)
    requires Dip(s, lo, n, asc, a, b)
    ensures MergedTo(s, lo, n, asc, b)
    decreases n
  {
    hide *;
    if n <= 1 {
      DipOfOne(s, lo, n, asc, a, b);
    } else {
      var m := GreatestPow2Below(n);
      var e := GreatestPow2BelowExponent(n);
      var c, t, a1, a2, b1, b2 := ValleyStages(s, lo, n, m, asc, a, b);
      MergeCircular(c, lo, m, e, asc, a1, b1);
      MergeValley(t, lo + m, n - m, asc, a2, b2);
      HalvesJoin(s, c, t, lo, n, m, asc, b1, b2);
    }
  }

  /** Two oppositely sorted halves form a valley. */
  lemma HalvesMakeValley(t: seq<bool>, u: seq<bool>, lo: nat, m: nat, n: nat, asc: bool, b1: nat, b2: nat)
    requires lo + n <= |t| == |u| && m <= n && b1 <= m && b2 <= n - m
    requires LowsFirst(t, lo, m, !asc, b1) && LowsFirst(u, lo + m, n - m, asc, b2)
    requires SameOutside(t, u, lo + m, lo + n)
    ensures Valley(u, lo, n, asc, b1, m - b1 + b2)
  {}

  lemma SortUnfolds(lo: nat, n: nat, asc: bool, m: nat)
    requires n >= 2 && m == n / 2
    ensures SortSchedule(lo, n, asc) ==
            Then(Then(SortSchedule(lo, m, !asc), SortSchedule(lo + m, n - m, asc)), MergeSchedule(lo, n, asc))
  {}

  lemma SortStages(s: seq<bool>, lo: nat, n: nat, asc: bool, m: nat) returns (t: seq<bool>, u: seq<bool>)
    requires n >= 2 && lo + n <= |s| && m == n / 2
    ensures |t| == |u| == |s|
    ensures t == Run(SortSchedule(lo, m, !asc), s, BitGreater)
    ensures u == Run(SortSchedule(lo + m, n - m, asc), t, BitGreater) && SameOutside(t, u, lo + m, lo + n)
    ensures Run(SortSchedule(lo, n, asc), s, BitGreater) == Run(MergeSchedule(lo, n, asc), u, BitGreater)
  {
    SortUnfolds(lo, n, asc, m);
    hide *;
    var y, z := SortSchedule(lo, m, !asc), SortSchedule(lo + m, n - m, asc);
    var c, x, r := Stages(Skip, y, z, s, lo, m, n);
    t, u := x, r;
  }

  /** The schedule sorts every bit string. */
  lemma {:induction false} SortOnBits(s: seq<bool>, lo: nat, n: nat, asc: bool) returns (b: nat)
    requires lo + n <= |s|
    ensures b <= n && LowsFirst(Run(SortSchedule(lo, n, asc), s, BitGreater), lo, n, asc, b)
    decreases n
  {
    if n <= 1 {
      b := if n == 1 && Low(s[lo], asc) then 1 else 0;
    } else {
      var m := n / 2;
      var t, u := SortStages(s, lo, n, asc, m);
      var b1 := SortOnBits(s, lo, m, !asc);
      var b2 := SortOnBits(t, lo + m, n - m, asc);
      b := m - b1 + b2;
      HalvesMakeValley(t, u, lo, m, n, asc, b1, b2);
      MergeValley(u, lo, n, asc, b1, b);
    }
  }

  // ----- what the schedules do to any list

  /** Every list of every length comes out in order, rearranged, and nothing else moves. */
  lemma BitonicSortCorrect<T(!new)>(s: seq<T>, lo: nat, n: nat, gt: (T, T) -> bool, asc: bool)
    requires StrictWeakOrder(gt) && lo + n <= |s|
    ensures SortedFrom(s, Run(SortSchedule(lo, n, asc), s, gt), lo, n, gt, asc)
  {
    SortsAllBits(|s|, lo, n, asc);
    ZeroOnePrinciple(SortSchedule(lo, n, asc), s, lo, n, gt, asc);
  }

  lemma SortsAllBits(length: nat, lo: nat, n: nat, asc: bool)
    requires lo + n <= length
    ensures SortsBits(SortSchedule(lo, n, asc), length, lo, n, asc)
  {
    forall bits: seq<bool> | |bits| == length
      ensures SortedBits(Run(SortSchedule(lo, n, asc), bits, BitGreater), lo, n, asc)
    {
      var b := SortOnBits(bits, lo, n, asc);
    }
  }

  lemma ProjectedMerge<T(!new)>(s: seq<T>, lo: nat, p: nat, n: nat, gt: (T, T) -> bool, asc: bool, t: T)
    requires StrictWeakOrder(gt) && p <= n && lo + n <= |s|
    requires SortedOn(s, lo, lo + p, gt, !asc) && SortedOn(s, lo + p, lo + n, gt, asc)
    ensures SortedBits(Project(Run(MergeSchedule(lo, n, asc), s, gt), t, gt), lo, n, asc)
  {
    var bits := Project(s, t, gt);
    BitsFromSorted(s, lo, p, gt, !asc, t);
    BitsFromSorted(s, lo + p, n - p, gt, asc, t);
    var b1 := LowCount(bits, lo, p, !asc);
    var b2 := LowCount(bits, lo + p, n - p, asc);
    HalvesMakeValley(bits, bits, lo, p, n, asc, b1, b2);
    MergeValley(bits, lo, n, asc, b1, p - b1 + b2);
    RunProject(MergeSchedule(lo, n, asc), s, t, gt);
  }

  lemma LowCount(s: seq<bool>, lo: nat, n: nat, asc: bool) returns (b: nat)
    requires lo + n <= |s| && SortedBits(s, lo, n, asc)
    ensures b <= n && LowsFirst(s, lo, n, asc, b)
  {
    b :| LowsFirst(s, lo, n, asc, b);
    if b > n {
      b := n;
    }
  }

  /** A merge sorts a stretch that falls and then rises (for asc), split anywhere, of any length. */
  lemma BitonicMergeCorrect<T(!new)>(s: seq<T>, lo: nat, p: nat, n: nat, gt: (T, T) -> bool, asc: bool)
    requires StrictWeakOrder(gt) && p <= n && lo + n <= |s|
    requires SortedOn(s, lo, lo + p, gt, !asc) && SortedOn(s, lo + p, lo + n, gt, asc)
    ensures SortedFrom(s, Run(MergeSchedule(lo, n, asc), s, gt), lo, n, gt, asc)
  {
    var net := MergeSchedule(lo, n, asc);
    forall t
      ensures SortedBits(Project(Run(net, s, gt), t, gt), lo, n, asc)
    {
      ProjectedMerge(s, lo, p, n, gt, asc, t);
    }
    SortedFromBits(Run(net, s, gt), lo, n, gt, asc);
    SortedAndRearranged(net, s, lo, n, gt, asc);
  }

  /** Rises and then falls: the low bits are at both ends, one stretch on the circle. */
  lemma HalvesMakeCircle(s: seq<bool>, lo: nat, p: nat, n: nat, asc: bool, b1: nat, b2: nat) returns (a: nat)
    requires lo + n <= |s| && p <= n && 0 < n && b1 <= p && b2 <= n - p
    requires LowsFirst(s, lo, p, asc, b1) && LowsFirst(s, lo + p, n - p, !asc, b2)
    ensures a < n && CircularLows(s, lo, n, asc, a, b1 + (n - p - b2))
  {
    a := if p + b2 == n then 0 else p + b2;
  }

  /** For a power-of-two length the merge also sorts a stretch that rises and then falls. */
  lemma BitonicMergePow2Correct<T(!new)>(s: seq<T>, lo: nat, p: nat, e: nat, gt: (T, T) -> bool, asc: bool)
    requires StrictWeakOrder(gt) && p <= Pow2(e) && lo + Pow2(e) <= |s|
    requires SortedOn(s, lo, lo + p, gt, asc) && SortedOn(s, lo + p, lo + Pow2(e), gt, !asc)
    ensures SortedOn(Run(MergeSchedule(lo, Pow2(e), asc), s, gt), lo, lo + Pow2(e), gt, asc)
  {
    var n := Pow2(e);
    var net := MergeSchedule(lo, n, asc);
    forall t
      ensures SortedBits(Project(Run(net, s, gt), t, gt), lo, n, asc)
    {
      ProjectedPow2Merge(s, lo, p, n, e, gt, asc, t);
    }
    SortedFromBits(Run(net, s, gt), lo, n, gt, asc);
  }

  lemma ProjectedPow2Merge<T(!new)>(s: seq<T>, lo: nat, p: nat, n: nat, e: nat, gt: (T, T) -> bool, asc: bool, t: T)
    requires StrictWeakOrder(gt) && n == Pow2(e) && p <= n && lo + n <= |s|
    requires SortedOn(s, lo, lo + p, gt, asc) && SortedOn(s, lo + p, lo + n, gt, !asc)
    ensures SortedBits(Project(Run(MergeSchedule(lo, n, asc), s, gt), t, gt), lo, n, asc)
  {
    var bits := Project(s, t, gt);
    BitsFromSorted(s, lo, p, gt, asc, t);
    BitsFromSorted(s, lo + p, n - p, gt, !asc, t);
    var b1 := LowCount(bits, lo, p, asc);
    var b2 := LowCount(bits, lo + p, n - p, !asc);
    var a := HalvesMakeCircle(bits, lo, p, n, asc, b1, b2);
    MergeCircular(bits, lo, n, e, asc, a, b1 + (n - p - b2));
    RunProject(MergeSchedule(lo, n, asc), s, t, gt);
  }

  // ----- the schedules run piece by piece

  lemma ShortRuns<T>(s: seq<T>, lo: nat, n: nat, asc: bool, gt: (T, T) -> bool)
    requires lo + n <= |s|
    ensures n <= 1 ==> Run(SortSchedule(lo, n, asc), s, gt) == Run(MergeSchedule(lo, n, asc), s, gt) == s
  {}

  lemma SortRuns<T>(s: seq<T>, t: seq<T>, u: seq<T>, lo: nat, n: nat, m: nat, asc: bool, gt: (T, T) -> bool)
    requires n >= 2 && m == n / 2 && lo + n <= |s|
    requires t == Run(SortSchedule(lo, m, !asc), s, gt) && u == Run(SortSchedule(lo + m, n - m, asc), t, gt)
    ensures Run(MergeSchedule(lo, n, asc), u, gt) == Run(SortSchedule(lo, n, asc), s, gt)
  {
    hide *;
    SortUnfolds(lo, n, asc, m);
    var y, z := SortSchedule(lo, m, !asc), SortSchedule(lo + m, n - m, asc);
    RunThen(y, z, s, gt);
    RunThen(Then(y, z), MergeSchedule(lo, n, asc), s, gt);
  }

  lemma MergeRuns<T>(s: seq<T>, t: seq<T>, u: seq<T>, v: seq<T>, lo: nat, n: nat, m: nat, asc: bool, gt: (T, T) -> bool)
    requires n >= 2 && m == GreatestPow2Below(n) && lo + n <= |s|
    requires t == Run(Cleaner(lo, n - m, m, asc), s, gt) && u == Run(MergeSchedule(lo, m, asc), t, gt)
    requires v == Run(MergeSchedule(lo + m, n - m, asc), u, gt)
    ensures v == Run(MergeSchedule(lo, n, asc), s, gt)
  {
    var x, y, z := MergeParts(lo, n, asc, m);
    hide *;
    RunThen(y, z, t, gt);
    RunThen(x, Then(y, z), s, gt);
  }

  // ----- the in-place sorter

  /** k << 1 and k >> 1 on a 32-bit int. */
  function Double32(k: int): int {
    var d := 2 * k % 0x1_0000_0000;
    if d >= 0x8000_0000 then d - 0x1_0000_0000 else d
  }

  function Halve32(k: int): int {
    k / 2
  }

  lemma DoublingStep(e: nat)
    requires e <= 30
    ensures Pow2(e) <= MAX_SORTABLE
    ensures Double32(Pow2(e)) == if e == 30 then -0x8000_0000 else Pow2(e + 1)
    ensures e == 30 ==> Pow2(e) == MAX_SORTABLE
  {
    Pow2Values();
    if e < 30 {
      Pow2Monotone(e, 30);
    }
  }

  class BitonicSorter<T(!new)> {
    const greater: (T, T) -> bool
    var List: array?<T>
    var numElem: nat

    constructor (grt: (T, T) -> bool)
      ensures greater == grt && List == null
    {
      greater := grt;
      List := null;
      numElem := 0;
    }

    /** Sorts the num elements that start at pData + off. */
    method Sort(pData: array<T>, off: nat, num: nat)
      requires StrictWeakOrder(greater)
      requires off + num <= pData.Length && num <= MAX_SORTABLE
      modifies this, pData
      ensures pData[..] == Run(SortSchedule(off, num, true), old(pData[..]), greater)
      ensures SortedFrom(old(pData[..]), pData[..], off, num, greater, true)
    {
      BitonicSortCorrect(pData[..], off, num, greater, true);
      if num < 2 {
        return;
      }
      List := pData;
      numElem := num;
      BitonicSort(off, numElem, true);
      List := null;
    }

    /** Merges num elements that fall and then rise, turning at any p. */
    method Merge(pData: array<T>, off: nat, num: nat, ghost p: nat)
      requires StrictWeakOrder(greater)
      requires p <= num && off + num <= pData.Length && num <= MAX_SORTABLE
      requires SortedOn(pData[..], off, off + p, greater, false)
      requires SortedOn(pData[..], off + p, off + num, greater, true)
      modifies this, pData
      ensures pData[..] == Run(MergeSchedule(off, num, true), old(pData[..]), greater)
      ensures SortedFrom(old(pData[..]), pData[..], off, num, greater, true)
    {
      BitonicMergeCorrect(pData[..], off, p, num, greater, true);
      if num < 2 {
        return;
      }
      List := pData;
      numElem := num;
      BitonicMerge(off, numElem, true);
      List := null;
    }

    /** The stretch lies in the list, and its length is one the power-of-two search works for. */
    ghost predicate InList(lo: nat, n: nat)
      reads this
    {
      List != null && lo + n <= List.Length && n <= MAX_SORTABLE
    }

    method BitonicSort(lo: nat, n: nat, dir: bool)
      requires InList(lo, n)
      modifies List
      ensures List[..] == Run(SortSchedule(lo, n, dir), old(List[..]), greater)
      decreases n
    {
      hide Run, SortSchedule, MergeSchedule, Inside, Reach;
      ShortRuns(List[..], lo, n, dir, greater);
      if n > 1 {
        ghost var s := List[..];
        var m := n / 2;
        BitonicSort(lo, m, !dir);
        ghost var t := List[..];
        BitonicSort(lo + m, n - m, dir);
        SortRuns(s, t, List[..], lo, n, m, dir, greater);
        BitonicMerge(lo, n, dir);
      }
    }

    method BitonicMerge(lo: nat, n: nat, dir: bool)
      requires InList(lo, n)
      modifies List
      ensures List[..] == Run(MergeSchedule(lo, n, dir), old(List[..]), greater)
      decreases n
    {
      hide Run, Cleaner, MergeSchedule, Inside, Reach;
      ShortRuns(List[..], lo, n, dir, greater);
      if n > 1 {
        ghost var s := List[..];
        var m := GreatestPowerOfTwoLessThan(n);
        CompareRow(lo, n - m, m, dir);
        ghost var t := List[..];
        BitonicMerge(lo, m, dir);
        ghost var u := List[..];
        BitonicMerge(lo + m, n - m, dir);
        MergeRuns(s, t, u, List[..], lo, n, m, dir, greater);
      }
    }

    /** The comparison loop of a merge. */
    method CompareRow(lo: nat, cnt: nat, m: nat, dir: bool)
      requires List != null && 0 < m && lo + m + cnt <= List.Length
      modifies List
      ensures List[..] == Run(Cleaner(lo, cnt, m, dir), old(List[..]), greater)
    {
      var i := lo;
      while i < lo + cnt
        invariant lo <= i <= lo + cnt
        invariant List[..] == Run(Cleaner(lo, i - lo, m, dir), old(List[..]), greater)
      {
        CompareAt(i, i + m, dir);
        i := i + 1;
      }
    }

    method CompareAt(i: nat, j: nat, dir: bool)
      requires List != null && i < List.Length && j < List.Length && i != j
      modifies List
      ensures List[..] == Run(Compare(i, j, dir), old(List[..]), greater)
    {
      var cond := dir == greater(List[i], List[j]);
      var tmp := OMove(List[i], List[j], cond);
      List[i] := OMove(List[j], List[i], cond);
      List[j] := tmp;
    }

    /**
      The loop doubles a 32-bit int.  Up to 2^30 it finds the power of two; above, the
      doubling overflows and the result is negative.
     */
    method GreatestPowerOfTwoLessThan(n: int) returns (r: int)
      requires 2 <= n <= 0x7fff_ffff
      ensures n <= MAX_SORTABLE ==> r == GreatestPow2Below(n)
      ensures n > MAX_SORTABLE ==> r == -0x4000_0000
    {
      var k := 1;
      ghost var e: nat := 0;
      while k > 0 && k < n
        invariant e <= 31 && k == if e == 31 then -0x8000_0000 else Pow2(e)
        invariant e == 31 ==> n > MAX_SORTABLE
        invariant 0 < e < 31 ==> Pow2(e - 1) < n
        decreases 31 - e
      {
        DoublingStep(e);
        k := Double32(k);
        e := e + 1;
      }
      r := Halve32(k);
      if e < 31 {
        DoublingStep(e);
        GreatestPow2BelowUnique(n, e - 1);
      }
    }
  }
}

/**
  Batcher's odd-even merge sorter for lists of power-of-two length: its compare schedule
  over strided subsequences, the proof that it sorts, and the in-place sorter.
 */
module OddEvenSorting {
  import opened BinaryArith
  import opened SortingNetworks

  // ----- strided subsequences

  /** The k-th position of the subsequence lo, lo + r, lo + 2r, ... */
  function At(lo: nat, r: nat, k: nat): (p: nat)
    ensures p >= lo
  {
    if k == 0 then lo else At(lo, r, k - 1) + r
  }

  lemma {:induction false} AtEvenOdd(lo: nat, r: nat, k: nat)
    ensures At(lo, 2 * r, k) == At(lo, r, 2 * k)
    ensures At(lo + r, 2 * r, k) == At(lo, r, 2 * k + 1) == At(lo, r, 2 * k) + r
  {
    if k == 0 {
    } else {
      AtEvenOdd(lo, r, k - 1);
      assert At(lo, r, 2 * k) == At(lo, r, 2 * k - 1) + r;
      assert At(lo, r, 2 * k - 1) == At(lo, r, 2 * (k - 1)) + r;
    }
  }

  lemma {:induction false} AtIncreases(lo: nat, r: nat, j: nat, k: nat)
    requires r > 0 && j < k
    ensures At(lo, r, j) + r <= At(lo, r, k)
  {
    if j == k - 1 {
    } else {
      AtIncreases(lo, r, j, k - 1);
    }
  }

  lemma {:induction false} AtShift(lo: nat, r: nat, k: nat)
    ensures At(lo, r, k) == lo + At(0, r, k)
    ensures At(lo, 1, k) == lo + k
  {
    if k == 0 {
    } else {
      AtShift(lo, r, k - 1);
    }
  }

  // ----- the schedule

  /** Positions 2k+1 and 2k+2 of the subsequence against each other, for k below cnt. */
  function Row(lo: nat, r: nat, cnt: nat): Network {
    if cnt == 0 then Skip else Then(Row(lo, r, cnt - 1), Compare(At(lo, r, 2 * cnt - 1), At(lo, r, 2 * cnt), true))
  }

  /** Merge the two halves of the 2^e elements at stride r from lo. */
  function MergeSchedule(lo: nat, e: nat, r: nat): Network
    requires e > 0
    decreases e, lo, r
  {
    if e == 1 then Compare(lo, lo + r, true)
    else
      Then(MergeSchedule(lo, e - 1, 2 * r), Then(MergeSchedule(lo + r, e - 1, 2 * r), Row(lo, r, Pow2(e - 1) - 1)))
  }

  function SortSchedule(lo: nat, e: nat): Network
    decreases e, lo
  {
    if e == 0 then Skip
    else
      Then(Then(SortSchedule(lo, e - 1), SortSchedule(lo + Pow2(e - 1), e - 1)), MergeSchedule(lo, e, 1))
  }

  // ----- which positions the schedule touches

  predicate Touches(net: Network, p: nat) {
    match net
    case Skip => false
    case Compare(i, j, _) => p == i || p == j
    case Then(a, b) => Touches(a, p) || Touches(b, p)
  }

  /** Every comparison joins two different positions. */
  predicate Proper(net: Network) {
    match net
    case Skip => true
    case Compare(i, j, _) => i != j
    case Then(a, b) => Proper(a) && Proper(b)
  }

  ghost predicate OnStride(p: nat, lo: nat, r: nat, c: nat) {
    exists k: nat :: k < c && p == At(lo, r, k)
  }

  lemma {:induction false} RunKeeps<T>(net: Network, s: seq<T>, gt: (T, T) -> bool, p: nat)
    requires Reach(net) <= |s| && p < |s| && !Touches(net, p)
    ensures Run(net, s, gt)[p] == s[p]
  {
    if !net.Then? {
    } else {
      RunKeeps(net.first, s, gt, p);
      RunKeeps(net.second, Run(net.first, s, gt), gt, p);
    }
  }

  lemma {:induction false} RowTouches(lo: nat, r: nat, cnt: nat, c: nat, p: nat)
    requires 2 * cnt < c && Touches(Row(lo, r, cnt), p)
    ensures OnStride(p, lo, r, c)
  {
    if p == At(lo, r, 2 * cnt - 1) || p == At(lo, r, 2 * cnt) {
    } else {
      RowTouches(lo, r, cnt - 1, c, p);
    }
  }

  lemma HalfStride(p: nat, lo: nat, r: nat, h: nat)
    requires OnStride(p, lo, 2 * r, h) || OnStride(p, lo + r, 2 * r, h)
    ensures OnStride(p, lo, r, 2 * h)
  {
    if k: nat :| k < h && p == At(lo, 2 * r, k) {
      AtEvenOdd(lo, r, k);
    } else {
      var k: nat :| k < h && p == At(lo + r, 2 * r, k);
      AtEvenOdd(lo, r, k);
    }
  }

  lemma {:induction false} MergeTouches(lo: nat, e: nat, r: nat, p: nat)
    requires e > 0 && Touches(MergeSchedule(lo, e, r), p)
    ensures OnStride(p, lo, r, Pow2(e))
    decreases e
  {
    var h := Pow2(e - 1);
    if e == 1 {
      assert p == At(lo, r, 0) || p == At(lo, r, 1);
    } else if Touches(Row(lo, r, h - 1), p) {
      RowTouches(lo, r, h - 1, 2 * h, p);
    } else if Touches(MergeSchedule(lo, e - 1, 2 * r), p) {
      MergeTouches(lo, e - 1, 2 * r, p);
      HalfStride(p, lo, r, h);
    } else {
      MergeTouches(lo + r, e - 1, 2 * r, p);
      HalfStride(p, lo, r, h);
    }
  }

  lemma {:induction false} RowProper(lo: nat, r: nat, cnt: nat)
    requires r > 0
    ensures Proper(Row(lo, r, cnt))
  {
    if cnt == 0 {
    } else {
      RowProper(lo, r, cnt - 1);
      AtIncreases(lo, r, 2 * cnt - 1, 2 * cnt);
    }
  }

  lemma {:induction false} MergeProper(lo: nat, e: nat, r: nat)
    requires e > 0 && r > 0
    ensures Proper(MergeSchedule(lo, e, r))
    decreases e
  {
    if e <= 1 {
    } else {
      MergeProper(lo, e - 1, 2 * r);
      MergeProper(lo + r, e - 1, 2 * r);
      RowProper(lo, r, Pow2(e - 1) - 1);
    }
  }

  lemma {:induction false} TouchesBound(net: Network, lo: nat, hi: nat)
    requires Proper(net) && forall p: nat :: Touches(net, p) ==> lo <= p < hi
    ensures Inside(net, lo, hi) && Reach(net) <= hi
  {
    match net
    case Skip =>
    case Compare(i, j, _) =>
      assert Touches(net, i) && Touches(net, j);
    case Then(a, b) =>
      forall p: nat | Touches(a, p) || Touches(b, p)
        ensures lo <= p < hi
      {
        assert Touches(net, p);
      }
      TouchesBound(a, lo, hi);
      TouchesBound(b, lo, hi);
  }

  /** A merge stays between its first and its last element. */
  lemma MergeInside(lo: nat, e: nat, r: nat)
    requires e > 0 && r > 0
    ensures Inside(MergeSchedule(lo, e, r), lo, At(lo, r, Pow2(e) - 1) + 1)
    ensures Reach(MergeSchedule(lo, e, r)) <= At(lo, r, Pow2(e) - 1) + 1
  {
    MergeProper(lo, e, r);
    forall p: nat | Touches(MergeSchedule(lo, e, r), p)
      ensures lo <= p <= At(lo, r, Pow2(e) - 1)
    {
      MergeTouches(lo, e, r, p);
      var k: nat :| k < Pow2(e) && p == At(lo, r, k);
      if k < Pow2(e) - 1 {
        AtIncreases(lo, r, k, Pow2(e) - 1);
      }
    }
    TouchesBound(MergeSchedule(lo, e, r), lo, At(lo, r, Pow2(e) - 1) + 1);
  }

  // ----- the schedule on bits

  /** Among elements a .. a+c of the subsequence, exactly the first z are low. */
  ghost predicate LowsOnStride(s: seq<bool>, lo: nat, r: nat, a: nat, c: nat, z: nat) {
    forall k: nat :: a <= k < a + c ==> At(lo, r, k) < |s| && (Low(s[At(lo, r, k)], true) <==> k < a + z)
  }

  /** Both halves of the first 2h elements are sorted, with z1 and z2 low bits. */
  ghost predicate HalvesInOrder(s: seq<bool>, lo: nat, r: nat, h: nat, z1: nat, z2: nat) {
    z1 <= h && z2 <= h && LowsOnStride(s, lo, r, 0, h, z1) && LowsOnStride(s, lo, r, h, h, z2)
  }

  /** The even and the odd elements of two sorted halves are sorted halves again. */
  lemma EvensAndOdds(s: seq<bool>, lo: nat, r: nat, g: nat, z1: nat, z2: nat)
    returns (e1: nat, o1: nat, e2: nat, o2: nat)
    requires HalvesInOrder(s, lo, r, 2 * g, z1, z2)
    ensures e1 + o1 == z1 && o1 <= e1 <= o1 + 1 && e1 <= g && e2 + o2 == z2 && o2 <= e2 <= o2 + 1 && e2 <= g
    ensures HalvesInOrder(s, lo, 2 * r, g, e1, e2) && HalvesInOrder(s, lo + r, 2 * r, g, o1, o2)
  {
    e1, o1, e2, o2 := (z1 + 1) / 2, z1 / 2, (z2 + 1) / 2, z2 / 2;
    var lo', r' := lo + r, 2 * r;
    forall k: nat | k < 2 * g
      ensures At(lo, r', k) < |s|
      ensures Low(s[At(lo, r', k)], true) <==> if k < g then k < (z1 + 1) / 2 else k < g + (z2 + 1) / 2
    {
      AtEvenOdd(lo, r, k);
    }
    forall k: nat | k < 2 * g
      ensures At(lo', r', k) < |s|
      ensures Low(s[At(lo', r', k)], true) <==> if k < g then k < z1 / 2 else k < g + z2 / 2
    {
      AtEvenOdd(lo, r, k);
      assert At(lo', r', k) == At(lo, r, 2 * k + 1);
    }
  }

  /** Elements 2k+1 and 2k+2 of v hold those of u, the low one first. */
  ghost predicate RowPaired(u: seq<bool>, v: seq<bool>, lo: nat, r: nat, k: nat)
    requires |u| == |v|
  {
    var i, j := At(lo, r, 2 * k + 1), At(lo, r, 2 * k + 2);
    && i < |u| && j < |u|
    && (Low(v[i], true) <==> Low(u[i], true) || Low(u[j], true))
    && (Low(v[j], true) <==> Low(u[i], true) && Low(u[j], true))
  }

  /** v is u after the first cnt comparisons of a row. */
  ghost predicate RowDone(u: seq<bool>, v: seq<bool>, lo: nat, r: nat, cnt: nat)
    requires |u| == |v|
  {
    && (forall k: nat :: k < cnt ==> RowPaired(u, v, lo, r, k))
    && (forall p: nat :: p < |u| && !(lo < p <= At(lo, r, 2 * cnt)) ==> v[p] == u[p])
  }

  /** The next comparison joins two elements behind those already compared. */
  lemma RowOneMore(u: seq<bool>, b: seq<bool>, lo: nat, r: nat, cnt: nat, i: nat, j: nat)
    requires r > 0 && i == At(lo, r, 2 * cnt + 1) && j == At(lo, r, 2 * cnt + 2) && i < |u| && j < |u| == |b|
    requires RowDone(u, b, lo, r, cnt)
    ensures RowDone(u, Run(Compare(i, j, true), b, BitGreater), lo, r, cnt + 1)
  {
    AtIncreases(lo, r, 2 * cnt, 2 * cnt + 1);
    AtIncreases(lo, r, 2 * cnt + 1, 2 * cnt + 2);
    var v := Run(Compare(i, j, true), b, BitGreater);
    PairCompared(b, i, j);
    hide Run, Reach, At, Low;
    forall k: nat | k < cnt
      ensures RowPaired(u, v, lo, r, k)
    {
      assert RowPaired(u, b, lo, r, k);
      AtIncreases(lo, r, 2 * k + 1, 2 * cnt + 1);
      AtIncreases(lo, r, 2 * k + 2, 2 * cnt + 1);
    }
    assert RowPaired(u, v, lo, r, cnt);
  }

  lemma PairCompared(b: seq<bool>, i: nat, j: nat)
    requires i < j < |b|
    ensures var v := Run(Compare(i, j, true), b, BitGreater);
            && (Low(v[i], true) <==> Low(b[i], true) || Low(b[j], true))
            && (Low(v[j], true) <==> Low(b[i], true) && Low(b[j], true))
            && forall p :: 0 <= p < |b| && p != i && p != j ==> v[p] == b[p]
  {}

  lemma {:induction false} RowOnBits(u: seq<bool>, lo: nat, r: nat, cnt: nat)
    requires r > 0 && At(lo, r, 2 * cnt) < |u|
    ensures Reach(Row(lo, r, cnt)) <= |u|
    ensures RowDone(u, Run(Row(lo, r, cnt), u, BitGreater), lo, r, cnt)
  {
    if cnt == 0 {
    } else {
      AtIncreases(lo, r, 2 * cnt - 2, 2 * cnt);
      AtIncreases(lo, r, 2 * cnt - 1, 2 * cnt);
      RowOnBits(u, lo, r, cnt - 1);
      RowOneMore(u, Run(Row(lo, r, cnt - 1), u, BitGreater), lo, r, cnt - 1,
                 At(lo, r, 2 * cnt - 1), At(lo, r, 2 * cnt));
    }
  }

  /** With the evens and the odds in order, the row of comparisons finishes the merge. */
  lemma RowFinishes(u: seq<bool>, v: seq<bool>, lo: nat, r: nat, h: nat, ze: nat, zo: nat)
    requires h > 0 && |u| == |v| && zo <= ze <= zo + 2 && ze <= h && zo <= h
    requires LowsOnStride(u, lo, 2 * r, 0, h, ze) && LowsOnStride(u, lo + r, 2 * r, 0, h, zo)
    requires r > 0 && At(lo, r, 2 * h - 1) < |u| && RowDone(u, v, lo, r, h - 1)
    ensures LowsOnStride(v, lo, r, 0, 2 * h, ze + zo)
  {
    forall j: nat | j < 2 * h
      ensures At(lo, r, j) < |v| && (Low(v[At(lo, r, j)], true) <==> j < ze + zo)
    {
      RowFinishesAt(u, v, lo, r, h, ze, zo, j);
    }
  }

  lemma RowFinishesAt(u: seq<bool>, v: seq<bool>, lo: nat, r: nat, h: nat, ze: nat, zo: nat, j: nat)
    requires h > 0 && |u| == |v| && zo <= ze <= zo + 2 && ze <= h && zo <= h && j < 2 * h
    requires LowsOnStride(u, lo, 2 * r, 0, h, ze) && LowsOnStride(u, lo + r, 2 * r, 0, h, zo)
    requires r > 0 && At(lo, r, 2 * h - 1) < |u| && RowDone(u, v, lo, r, h - 1)
    ensures At(lo, r, j) < |v| && (Low(v[At(lo, r, j)], true) <==> j < ze + zo)
  {
    var k := j / 2;
    if j == 0 || j == 2 * h - 1 {
      EndFinished(u, v, lo, r, h, ze, zo, j);
    } else if j == 2 * k {
      EvenFinished(u, v, lo, r, h, ze, zo, k);
    } else {
      OddFinished(u, v, lo, r, h, ze, zo, k);
    }
  }

  /** The row leaves the first and the last element alone. */
  lemma EndFinished(u: seq<bool>, v: seq<bool>, lo: nat, r: nat, h: nat, ze: nat, zo: nat, j: nat)
    requires h > 0 && |u| == |v| && zo <= ze <= zo + 2 && ze <= h && zo <= h && (j == 0 || j == 2 * h - 1)
    requires LowsOnStride(u, lo, 2 * r, 0, h, ze) && LowsOnStride(u, lo + r, 2 * r, 0, h, zo)
    requires r > 0 && At(lo, r, 2 * h - 1) < |u| && RowDone(u, v, lo, r, h - 1)
    ensures At(lo, r, j) < |v| && (Low(v[At(lo, r, j)], true) <==> j < ze + zo)
  {
    AtEvenOdd(lo, r, j / 2);
    AtIncreases(lo, r, 2 * h - 2, 2 * h - 1);
  }

  lemma EvenFinished(u: seq<bool>, v: seq<bool>, lo: nat, r: nat, h: nat, ze: nat, zo: nat, k: nat)
    requires |u| == |v| && zo <= ze <= zo + 2 && 0 < k < h
    requires LowsOnStride(u, lo, 2 * r, 0, h, ze) && LowsOnStride(u, lo + r, 2 * r, 0, h, zo)
    requires RowDone(u, v, lo, r, h - 1)
    ensures At(lo, r, 2 * k) < |v| && (Low(v[At(lo, r, 2 * k)], true) <==> 2 * k < ze + zo)
  {
    AtEvenOdd(lo, r, k);
    AtEvenOdd(lo, r, k - 1);
    hide At;
    assert RowPaired(u, v, lo, r, k - 1);
  }

  lemma OddFinished(u: seq<bool>, v: seq<bool>, lo: nat, r: nat, h: nat, ze: nat, zo: nat, k: nat)
    requires |u| == |v| && zo <= ze <= zo + 2 && k + 1 < h
    requires LowsOnStride(u, lo, 2 * r, 0, h, ze) && LowsOnStride(u, lo + r, 2 * r, 0, h, zo)
    requires RowDone(u, v, lo, r, h - 1)
    ensures At(lo, r, 2 * k + 1) < |v| && (Low(v[At(lo, r, 2 * k + 1)], true) <==> 2 * k + 1 < ze + zo)
  {
    AtEvenOdd(lo, r, k);
    AtEvenOdd(lo, r, k + 1);
    hide At;
    assert RowPaired(u, v, lo, r, k);
  }

  /** Merging the evens leaves the odds alone, and the other way round. */
  lemma OtherStrideKept(s: seq<bool>, lo: nat, e: nat, r: nat, b: nat, o: nat, a: nat, c: nat, z: nat)
    requires e > 0 && r > 0 && ((b == lo && o == lo + r) || (b == lo + r && o == lo))
    requires Reach(MergeSchedule(b, e, 2 * r)) <= |s| && LowsOnStride(s, o, 2 * r, a, c, z)
    ensures LowsOnStride(Run(MergeSchedule(b, e, 2 * r), s, BitGreater), o, 2 * r, a, c, z)
  {
    var net, r' := MergeSchedule(b, e, 2 * r), 2 * r;
    forall k: nat | a <= k < a + c
      ensures !Touches(net, At(o, r', k))
    {
      var p := At(o, r', k);
      if Touches(net, p) {
        MergeTouches(b, e, r', p);
        var j: nat :| j < Pow2(e) && p == At(b, r', j);
        StridesApart(lo, r, j, k);
        StridesApart(lo, r, k, j);
      }
    }
    forall k: nat | a <= k < a + c
      ensures At(o, r', k) < |s| && Run(net, s, BitGreater)[At(o, r', k)] == s[At(o, r', k)]
    {
      RunKeeps(net, s, BitGreater, At(o, r', k));
    }
  }

  /** t is what the merge makes of s. */
  ghost predicate MergedBy(s: seq<bool>, t: seq<bool>, lo: nat, e: nat, r: nat)
    requires e > 0
  {
    && Reach(MergeSchedule(lo, e, r)) <= |s| == |t|
    && t == Run(MergeSchedule(lo, e, r), s, BitGreater)
  }

  lemma OddsKept(s: seq<bool>, t: seq<bool>, lo: nat, e: nat, r: nat, g: nat, o1: nat, o2: nat)
    requires e > 0 && r > 0 && MergedBy(s, t, lo, e, 2 * r) && HalvesInOrder(s, lo + r, 2 * r, g, o1, o2)
    ensures HalvesInOrder(t, lo + r, 2 * r, g, o1, o2)
  {
    hide LowsOnStride, Run, MergeSchedule, Reach;
    OtherStrideKept(s, lo, e, r, lo, lo + r, 0, g, o1);
    OtherStrideKept(s, lo, e, r, lo, lo + r, g, g, o2);
  }

  lemma StridesApart(lo: nat, r: nat, j: nat, k: nat)
    requires r > 0
    ensures At(lo, 2 * r, j) != At(lo + r, 2 * r, k)
  {
    AtEvenOdd(lo, r, j);
    AtEvenOdd(lo, r, k);
    if 2 * j < 2 * k + 1 {
      AtIncreases(lo, r, 2 * j, 2 * k + 1);
    } else {
      AtIncreases(lo, r, 2 * k + 1, 2 * j);
    }
  }

  /** The evens' merge, the odds' merge and the row, one after the other. */
  lemma MergeStages(s: seq<bool>, v: seq<bool>, lo: nat, e: nat, r: nat, h: nat) returns (t: seq<bool>, u: seq<bool>)
    requires e > 1 && r > 0 && h == Pow2(e - 1) && At(lo, r, 2 * h - 1) < |s| && MergedBy(s, v, lo, e, r)
    ensures MergedBy(s, t, lo, e - 1, 2 * r) && MergedBy(t, u, lo + r, e - 1, 2 * r)
    ensures |u| == |v| && RowDone(u, v, lo, r, h - 1)
  {
    StagesReach(|s|, lo, e, r, h);
    hide Pow2, At, RowDone, MergeSchedule, Row, Reach, Run;
    t := Run(MergeSchedule(lo, e - 1, 2 * r), s, BitGreater);
    u := Run(MergeSchedule(lo + r, e - 1, 2 * r), t, BitGreater);
    RowOnBits(u, lo, r, h - 1);
    MergeUnfolds(lo, e, r, h);
    RunThree(MergeSchedule(lo, e - 1, 2 * r), MergeSchedule(lo + r, e - 1, 2 * r), Row(lo, r, h - 1), s);
  }

  lemma RunThree(x: Network, y: Network, z: Network, s: seq<bool>)
    requires Reach(x) <= |s| && Reach(y) <= |s| && Reach(z) <= |s|
    ensures Reach(Then(x, Then(y, z))) <= |s|
    ensures Run(Then(x, Then(y, z)), s, BitGreater) == Run(z, Run(y, Run(x, s, BitGreater), BitGreater), BitGreater)
  {
    RunThen(y, z, Run(x, s, BitGreater), BitGreater);
    RunThen(x, Then(y, z), s, BitGreater);
  }

  lemma StagesReach(length: nat, lo: nat, e: nat, r: nat, h: nat)
    requires e > 1 && r > 0 && h == Pow2(e - 1) && At(lo, r, 2 * h - 1) < length
    ensures h > 0 && At(lo, r, 2 * (h - 1)) < length
    ensures Reach(MergeSchedule(lo, e - 1, 2 * r)) <= length && Reach(MergeSchedule(lo + r, e - 1, 2 * r)) <= length
  {
    hide Reach, MergeSchedule, At;
    StrideEnds(lo, r, h);
    MergeInside(lo, e - 1, 2 * r);
    MergeInside(lo + r, e - 1, 2 * r);
  }

  lemma MergeUnfolds(lo: nat, e: nat, r: nat, h: nat)
    requires e > 1 && h == Pow2(e - 1)
    ensures MergeSchedule(lo, e, r) ==
            Then(MergeSchedule(lo, e - 1, 2 * r), Then(MergeSchedule(lo + r, e - 1, 2 * r), Row(lo, r, h - 1)))
  {}

  lemma StrideEnds(lo: nat, r: nat, h: nat)
    requires h > 0 && r > 0
    ensures At(lo, 2 * r, h - 1) < At(lo, r, 2 * h - 1) == At(lo + r, 2 * r, h - 1)
    ensures At(lo, r, 2 * (h - 1)) < At(lo, r, 2 * h - 1)
  {
    AtEvenOdd(lo, r, h - 1);
  }

  lemma FinishMerge(t: seq<bool>, u: seq<bool>, v: seq<bool>, lo: nat, e: nat, r: nat, h: nat, ze: nat, zo: nat)
    requires e > 0 && r > 0 && h > 0 && |u| == |v| && At(lo, r, 2 * h - 1) < |u|
    requires zo <= ze <= zo + 2 && ze <= h && zo <= h && MergedBy(t, u, lo + r, e, 2 * r)
    requires LowsOnStride(t, lo, 2 * r, 0, h, ze) && LowsOnStride(u, lo + r, 2 * r, 0, h, zo)
    requires RowDone(u, v, lo, r, h - 1)
    ensures LowsOnStride(v, lo, r, 0, 2 * h, ze + zo)
  {
    OtherStrideKept(t, lo, e, r, lo + r, lo, 0, h, ze);
    hide *;
    RowFinishes(u, v, lo, r, h, ze, zo);
  }

  lemma MergePair(s: seq<bool>, t: seq<bool>, lo: nat, r: nat, z1: nat, z2: nat)
    requires r > 0 && At(lo, r, 1) < |s| && HalvesInOrder(s, lo, r, 1, z1, z2) && MergedBy(s, t, lo, 1, r)
    ensures LowsOnStride(t, lo, r, 0, 2, z1 + z2)
  {
    assert At(lo, r, 0) == lo && At(lo, r, 1) == lo + r;
  }

  /** Two sorted halves of a strided subsequence are merged. */
  lemma {:induction false} MergeOnBits(s: seq<bool>, v: seq<bool>, lo: nat, e: nat, r: nat, h: nat, z1: nat, z2: nat)
    requires e > 0 && r > 0 && h == Pow2(e - 1) && At(lo, r, 2 * h - 1) < |s|
    requires HalvesInOrder(s, lo, r, h, z1, z2) && MergedBy(s, v, lo, e, r)
    ensures LowsOnStride(v, lo, r, 0, 2 * h, z1 + z2)
    decreases e
  {
    hide *;
    Pow2Split(e - 1);
    if e == 1 {
      MergePair(s, v, lo, r, z1, z2);
    } else {
      var g := Pow2(e - 2);
      var t, u := MergeStages(s, v, lo, e, r, h);
      var e1, o1, e2, o2 := EvensAndOdds(s, lo, r, g, z1, z2);
      OddsKept(s, t, lo, e - 1, r, g, o1, o2);
      MergeEnds(s, t, u, lo, e, r, h);
      MergeOnBits(s, t, lo, e - 1, 2 * r, g, e1, e2);
      MergeOnBits(t, u, lo + r, e - 1, 2 * r, g, o1, o2);
      FinishMerge(t, u, v, lo, e - 1, r, h, e1 + e2, o1 + o2);
    }
  }

  lemma Pow2Split(k: nat)
    ensures Pow2(k) == if k == 0 then 1 else 2 * Pow2(k - 1)
  {}

  lemma MergeEnds(s: seq<bool>, t: seq<bool>, u: seq<bool>, lo: nat, e: nat, r: nat, h: nat)
    requires e > 1 && r > 0 && h == Pow2(e - 1) && At(lo, r, 2 * h - 1) < |s|
    requires MergedBy(s, t, lo, e - 1, 2 * r) && MergedBy(t, u, lo + r, e - 1, 2 * r)
    ensures h > 0 && |t| == |u| == |s|
    ensures At(lo, 2 * r, h - 1) < |s| && At(lo + r, 2 * r, h - 1) < |t|
  {
    hide MergeSchedule, Reach, Run;
    StrideEnds(lo, r, h);
  }

  lemma LowsAtStrideOne(s: seq<bool>, lo: nat, a: nat, c: nat, z: nat)
    requires lo + a + c <= |s|
    ensures LowsOnStride(s, lo, 1, a, c, z) <==> LowsFirst(s, lo + a, c, true, z)
  {
    forall k: nat
      ensures At(lo, 1, k) == lo + k
    {
      AtShift(lo, 1, k);
    }
    if LowsOnStride(s, lo, 1, a, c, z) {
      forall k | lo + a <= k < lo + a + c
        ensures Low(s[k], true) <==> k < lo + a + z
      {
        assert At(lo, 1, k - lo) == k;
      }
    }
  }

  lemma {:induction false} SortInside(lo: nat, e: nat)
    ensures Inside(SortSchedule(lo, e), lo, lo + Pow2(e)) && Reach(SortSchedule(lo, e)) <= lo + Pow2(e)
    decreases e
  {
    hide *;
    Pow2Split(e);
    if e == 0 {
      OneInside(lo);
    } else {
      var h := Pow2(e - 1);
      SortUnfolds(lo, e, h);
      SortInside(lo, e - 1);
      SortInside(lo + h, e - 1);
      MergeInsideOne(lo, e, h);
      SortPartsInside(SortSchedule(lo, e - 1), SortSchedule(lo + h, e - 1), MergeSchedule(lo, e, 1), lo, h);
    }
  }

  lemma OneInside(lo: nat)
    ensures Inside(SortSchedule(lo, 0), lo, lo + 1) && Reach(SortSchedule(lo, 0)) <= lo + 1
  {}

  lemma SortPartsInside(x: Network, y: Network, z: Network, lo: nat, h: nat)
    requires Inside(x, lo, lo + h) && Inside(y, lo + h, lo + 2 * h) && Inside(z, lo, lo + 2 * h)
    requires Reach(x) <= lo + h && Reach(y) <= lo + 2 * h && Reach(z) <= lo + 2 * h
    ensures var net := Then(Then(x, y), z); Inside(net, lo, lo + 2 * h) && Reach(net) <= lo + 2 * h
  {
    InsideParts(x, y, lo, h, 2 * h);
  }

  /** The two half sorts and the merge, one after the other. */
  lemma SortStages(s: seq<bool>, lo: nat, e: nat, h: nat) returns (t: seq<bool>, u: seq<bool>)
    requires e > 0 && h == Pow2(e - 1) && lo + 2 * h <= |s|
    ensures |t| == |u| == |s|
    ensures Reach(SortSchedule(lo, e - 1)) <= |s| && Reach(SortSchedule(lo + h, e - 1)) <= |s|
    ensures Reach(SortSchedule(lo, e)) <= |s| && Reach(MergeSchedule(lo, e, 1)) <= |s|
    ensures t == Run(SortSchedule(lo, e - 1), s, BitGreater)
    ensures u == Run(SortSchedule(lo + h, e - 1), t, BitGreater)
    ensures forall k :: lo <= k < lo + h ==> u[k] == t[k]
    ensures Run(SortSchedule(lo, e), s, BitGreater) == Run(MergeSchedule(lo, e, 1), u, BitGreater)
  {
    assert Pow2(e) == 2 * h;
    hide *;
    SortInside(lo, e - 1);
    SortInside(lo + h, e - 1);
    SortInside(lo, e);
    MergeInsideOne(lo, e, h);
    SortUnfolds(lo, e, h);
    t, u := RunStages(SortSchedule(lo, e - 1), SortSchedule(lo + h, e - 1), MergeSchedule(lo, e, 1), s, lo, h);
  }

  lemma RunStages(x: Network, y: Network, z: Network, s: seq<bool>, lo: nat, h: nat)
    returns (t: seq<bool>, u: seq<bool>)
    requires lo + 2 * h <= |s| && Inside(y, lo + h, lo + 2 * h) && Reach(x) <= |s| && Reach(y) <= lo + 2 * h &&
             Reach(z) <= |s|
    ensures |t| == |u| == |s| && t == Run(x, s, BitGreater) && u == Run(y, t, BitGreater)
    ensures forall k :: lo <= k < lo + h ==> u[k] == t[k]
    ensures Reach(Then(Then(x, y), z)) <= |s| && Run(Then(Then(x, y), z), s, BitGreater) == Run(z, u, BitGreater)
  {
    t := Run(x, s, BitGreater);
    u := Run(y, t, BitGreater);
    RunMoves(y, t, BitGreater, lo + h, lo + 2 * h);
  }

  lemma SortUnfolds(lo: nat, e: nat, h: nat)
    requires e > 0 && h == Pow2(e - 1)
    ensures SortSchedule(lo, e) ==
            Then(Then(SortSchedule(lo, e - 1), SortSchedule(lo + h, e - 1)), MergeSchedule(lo, e, 1))
  {}

  /** The schedule sorts every bit string of length 2^e. */
  lemma {:induction false} SortOnBits(s: seq<bool>, lo: nat, e: nat, n: nat) returns (z: nat)
    requires n == Pow2(e) && lo + n <= |s|
    ensures Reach(SortSchedule(lo, e)) <= |s|
    ensures z <= n && LowsFirst(Run(SortSchedule(lo, e), s, BitGreater), lo, n, true, z)
    decreases e
  {
    if e == 0 {
      z := if Low(s[lo], true) then 1 else 0;
    } else {
      var h := Pow2(e - 1);
      var t, u := SortStages(s, lo, e, h);
      var z1 := SortOnBits(s, lo, e - 1, h);
      var z2 := SortOnBits(t, lo + h, e - 1, h);
      z := z1 + z2;
      MergeFirst(u, lo, e, h, z1, z2);
    }
  }

  /** The merge at stride one. */
  lemma MergeFirst(u: seq<bool>, lo: nat, e: nat, h: nat, z1: nat, z2: nat)
    requires e > 0 && h == Pow2(e - 1) && lo + 2 * h <= |u| && z1 <= h && z2 <= h
    requires LowsFirst(u, lo, h, true, z1) && LowsFirst(u, lo + h, h, true, z2)
    ensures Reach(MergeSchedule(lo, e, 1)) <= |u|
    ensures LowsFirst(Run(MergeSchedule(lo, e, 1), u, BitGreater), lo, 2 * h, true, z1 + z2)
  {
    AtShift(lo, 1, 2 * h - 1);
    LowsAtStrideOne(u, lo, 0, h, z1);
    LowsAtStrideOne(u, lo, h, h, z2);
    MergeInsideOne(lo, e, h);
    hide *;
    var v := Run(MergeSchedule(lo, e, 1), u, BitGreater);
    MergeOnBits(u, v, lo, e, 1, h, z1, z2);
    LowsAtStrideOne(v, lo, 0, 2 * h, z1 + z2);
  }

  // ----- what the schedules do to any list

  /** Elements a .. a+c of the subsequence are in order as far as gt can tell. */
  ghost predicate SortedStride<T>(s: seq<T>, lo: nat, r: nat, a: nat, c: nat, gt: (T, T) -> bool) {
    && (forall k: nat :: a <= k < a + c ==> At(lo, r, k) < |s|)
    && forall j: nat, k: nat :: a <= j < k < a + c ==> !gt(s[At(lo, r, j)], s[At(lo, r, k)])
  }

  lemma StrideBits<T(!new)>(s: seq<T>, lo: nat, r: nat, a: nat, c: nat, gt: (T, T) -> bool, t: T) returns (z: nat)
    requires StrictWeakOrder(gt) && SortedStride(s, lo, r, a, c, gt)
    ensures z <= c && LowsOnStride(Project(s, t, gt), lo, r, a, c, z)
  {
    z := 0;
    while z < c && !gt(s[At(lo, r, a + z)], t)
      invariant z <= c && forall k: nat :: a <= k < a + z ==> !gt(s[At(lo, r, k)], t)
    {
      z := z + 1;
    }
    forall k: nat | a + z <= k < a + c
      ensures gt(s[At(lo, r, k)], t)
    {
      assert k == a + z || !gt(s[At(lo, r, a + z)], s[At(lo, r, k)]);
    }
  }

  lemma MergedProjection<T(!new)>(s: seq<T>, lo: nat, e: nat, r: nat, h: nat, gt: (T, T) -> bool, t: T) returns (z: nat)
    requires StrictWeakOrder(gt) && e > 0 && r > 0 && h == Pow2(e - 1) && At(lo, r, 2 * h - 1) < |s|
    requires SortedStride(s, lo, r, 0, h, gt) && SortedStride(s, lo, r, h, h, gt)
    requires Reach(MergeSchedule(lo, e, r)) <= |s|
    ensures LowsOnStride(Project(Run(MergeSchedule(lo, e, r), s, gt), t, gt), lo, r, 0, 2 * h, z)
  {
    var z1 := StrideBits(s, lo, r, 0, h, gt, t);
    var z2 := StrideBits(s, lo, r, h, h, gt, t);
    z := z1 + z2;
    ProjectionMerged(s, lo, e, r, gt, t);
    MergeOnBits(Project(s, t, gt), Project(Run(MergeSchedule(lo, e, r), s, gt), t, gt), lo, e, r, h, z1, z2);
  }

  lemma ProjectionMerged<T(!new)>(s: seq<T>, lo: nat, e: nat, r: nat, gt: (T, T) -> bool, t: T)
    requires StrictWeakOrder(gt) && e > 0 && Reach(MergeSchedule(lo, e, r)) <= |s|
    ensures MergedBy(Project(s, t, gt), Project(Run(MergeSchedule(lo, e, r), s, gt), t, gt), lo, e, r)
  {
    RunProject(MergeSchedule(lo, e, r), s, t, gt);
  }

  lemma StrideFromBits<T(!new)>(p: seq<T>, lo: nat, r: nat, c: nat, gt: (T, T) -> bool, j: nat, k: nat, z: nat)
    requires StrictWeakOrder(gt) && j < k < c && At(lo, r, k) < |p|
    requires LowsOnStride(Project(p, p[At(lo, r, k)], gt), lo, r, 0, c, z)
    ensures At(lo, r, j) < |p| && !gt(p[At(lo, r, j)], p[At(lo, r, k)])
  {
    var x := p[At(lo, r, k)];
    assert !gt(x, x);
    assert Low(Project(p, x, gt)[At(lo, r, k)], true) && k < z;
    assert At(lo, r, j) < |p| && Low(Project(p, x, gt)[At(lo, r, j)], true);
  }

  /** Any two elements of a merged subsequence are in order. */
  lemma MergedInOrder<T(!new)>(s: seq<T>, lo: nat, e: nat, r: nat, h: nat, gt: (T, T) -> bool, j: nat, k: nat)
    requires StrictWeakOrder(gt) && e > 0 && r > 0 && h == Pow2(e - 1) && At(lo, r, 2 * h - 1) < |s| && j < k < 2 * h
    requires SortedStride(s, lo, r, 0, h, gt) && SortedStride(s, lo, r, h, h, gt)
    requires Reach(MergeSchedule(lo, e, r)) <= |s|
    ensures At(lo, r, j) < |s| && At(lo, r, k) < |s|
    ensures var m := Run(MergeSchedule(lo, e, r), s, gt); !gt(m[At(lo, r, j)], m[At(lo, r, k)])
  {
    var m := Run(MergeSchedule(lo, e, r), s, gt);
    if k < 2 * h - 1 {
      AtIncreases(lo, r, k, 2 * h - 1);
    }
    var z := MergedProjection(s, lo, e, r, h, gt, m[At(lo, r, k)]);
    StrideFromBits(m, lo, r, 2 * h, gt, j, k, z);
  }

  /** A merge sorts the strided subsequence whose halves are sorted, for every strict weak order. */
  lemma OddEvenMergeSorts<T(!new)>(s: seq<T>, lo: nat, e: nat, r: nat, h: nat, gt: (T, T) -> bool)
    requires StrictWeakOrder(gt) && e > 0 && r > 0 && h == Pow2(e - 1) && At(lo, r, 2 * h - 1) < |s|
    requires SortedStride(s, lo, r, 0, h, gt) && SortedStride(s, lo, r, h, h, gt)
    ensures Reach(MergeSchedule(lo, e, r)) <= |s|
    ensures SortedStride(Run(MergeSchedule(lo, e, r), s, gt), lo, r, 0, 2 * h, gt)
  {
    MergeInside(lo, e, r);
    var m := Run(MergeSchedule(lo, e, r), s, gt);
    forall j: nat, k: nat | j < k < 2 * h
      ensures At(lo, r, k) < |s| && At(lo, r, j) < |s| && !gt(m[At(lo, r, j)], m[At(lo, r, k)])
    {
      MergedInOrder(s, lo, e, r, h, gt, j, k);
    }
    AtIncreases(lo, r, 0, 2 * h - 1);
  }

  /** A merge rearranges its strided subsequence and touches nothing else. */
  lemma OddEvenMergeKeepsRest<T>(s: seq<T>, lo: nat, e: nat, r: nat, gt: (T, T) -> bool, p: nat)
    requires e > 0 && r > 0 && At(lo, r, Pow2(e) - 1) < |s|
    ensures Reach(MergeSchedule(lo, e, r)) <= |s|
    ensures multiset(Run(MergeSchedule(lo, e, r), s, gt)) == multiset(s)
    ensures p < |s| && !OnStride(p, lo, r, Pow2(e)) ==> Run(MergeSchedule(lo, e, r), s, gt)[p] == s[p]
  {
    MergeInside(lo, e, r);
    var net := MergeSchedule(lo, e, r);
    RunMoves(net, s, gt, lo, At(lo, r, Pow2(e) - 1) + 1);
    if p < |s| && !OnStride(p, lo, r, Pow2(e)) {
      if Touches(net, p) {
        MergeTouches(lo, e, r, p);
      }
      RunKeeps(net, s, gt, p);
    }
  }

  lemma SortsAllBits(length: nat, lo: nat, e: nat)
    requires lo + Pow2(e) <= length
    ensures Reach(SortSchedule(lo, e)) <= length
    ensures SortsBits(SortSchedule(lo, e), length, lo, Pow2(e), true)
  {
    SortInside(lo, e);
    forall bits: seq<bool> | |bits| == length
      ensures SortedBits(Run(SortSchedule(lo, e), bits, BitGreater), lo, Pow2(e), true)
    {
      var z := SortOnBits(bits, lo, e, Pow2(e));
    }
  }

  /** Every list of power-of-two length comes out in order, rearranged, and nothing else moves. */
  lemma OddEvenSortCorrect<T(!new)>(s: seq<T>, lo: nat, e: nat, n: nat, gt: (T, T) -> bool)
    requires StrictWeakOrder(gt) && n == Pow2(e) && lo + n <= |s|
    ensures Reach(SortSchedule(lo, e)) <= |s|
    ensures SortedFrom(s, Run(SortSchedule(lo, e), s, gt), lo, n, gt, true)
  {
    SortInside(lo, e);
    SortsAllBits(|s|, lo, e);
    var net := SortSchedule(lo, e);
    assert Inside(net, lo, lo + n) && Reach(net) <= lo + n;
    assert SortsBits(net, |s|, lo, n, true);
    ZeroOnePrinciple(net, s, lo, n, gt, true);
  }

  // ----- the in-place sorter

  class OddEvenMergeSorter<T(!new)> {
    const greater: (T, T) -> bool
    var List: array?<T>

    constructor (grt: (T, T) -> bool)
      ensures greater == grt && List == null
    {
      greater := grt;
      List := null;
    }

    /**
      Sorts the num elements that start at pData + off, when num is a power of two; refuses
      any other length and leaves the list as it was.
     */
    method Sort(pData: array<T>, off: nat, num: nat)
      requires StrictWeakOrder(greater)
      requires off + num <= pData.Length && num <= MAX_SORTABLE
      modifies this, pData
      ensures num < 2 || IsPow2(num) ==> SortedFrom(old(pData[..]), pData[..], off, num, greater, true)
      ensures num >= 2 && !IsPow2(num) ==> pData[..] == old(pData[..])
    {
      TestPo2Exact(num);
      if num < 2 {
        return;
      }
      if !TestPo2(num) {
        return;
      }
      ghost var e := CeilLog2(num);
      OddEvenSortCorrect(pData[..], off, e, num, greater);
      List := pData;
      OddEvenMergeSort(off, num, e);
      List := null;
    }

    /** Merges the two sorted halves of the num elements that start at pData + off. */
    method Merge(pData: array<T>, off: nat, num: nat)
      requires StrictWeakOrder(greater)
      requires off + num <= pData.Length && num <= MAX_SORTABLE
      requires SortedOn(pData[..], off, off + num / 2, greater, true)
      requires SortedOn(pData[..], off + num / 2, off + num, greater, true)
      modifies this, pData
      ensures num < 2 || IsPow2(num) ==> SortedFrom(old(pData[..]), pData[..], off, num, greater, true)
      ensures num >= 2 && !IsPow2(num) ==> pData[..] == old(pData[..])
    {
      TestPo2Exact(num);
      if num < 2 {
        return;
      }
      if !TestPo2(num) {
        return;
      }
      ghost var e := CeilLog2(num);
      HalvesMerge(pData[..], off, e, num / 2, greater);
      List := pData;
      AtShift(0, 1, num);
      AtShift(off, 1, num - 1);
      OddEvenMerge(off, num, 1, e);
      List := null;
    }

    method OddEvenMergeSort(lo: nat, n: nat, ghost e: nat)
      requires List != null && n == Pow2(e) && lo + n <= List.Length
      modifies List
      ensures Reach(SortSchedule(lo, e)) <= List.Length
      ensures List[..] == Run(SortSchedule(lo, e), old(List[..]), greater)
      decreases n
    {
      SortInside(lo, e);
      if n > 1 {
        var m := n / 2;
        OddEvenMergeSort(lo, m, e - 1);
        OddEvenMergeSort(lo + m, m, e - 1);
        AtShift(0, 1, n);
        AtShift(lo, 1, n - 1);
        OddEvenMerge(lo, n, 1, e);
      }
    }

    /** Merges the 2^e elements at distance r from lo, in a piece of length n. */
    method OddEvenMerge(lo: nat, n: nat, r: nat, ghost e: nat)
      requires List != null && e > 0 && r > 0 && n == At(0, r, Pow2(e)) && At(lo, r, Pow2(e) - 1) < List.Length
      modifies List
      ensures Reach(MergeSchedule(lo, e, r)) <= List.Length
      ensures List[..] == Run(MergeSchedule(lo, e, r), old(List[..]), greater)
      decreases n - r
    {
      hide Run, MergeSchedule, Row, Reach, At, Pow2;
      ghost var s := List[..];
      MergeInside(lo, e, r);
      StrideLength(r, e, n);
      var m := r * 2;
      if m < n {
        StrideHalves(lo, r, e);
        OddEvenMerge(lo, n, m, e - 1);
        ghost var t := List[..];
        OddEvenMerge(lo + r, n, m, e - 1);
        ghost var u := List[..];
        CompareRow(lo, n, r, e);
        MergeRuns(s, t, u, lo, e, r, greater);
      } else {
        PairRuns(s, lo, r, greater);
        CompareAt(lo, lo + r);
      }
    }

    /** The comparison loop of a merge: it makes 2^(e-1) - 1 comparisons. */
    method CompareRow(lo: nat, n: nat, r: nat, ghost e: nat)
      requires List != null && e > 1 && r > 0 && n == At(0, r, Pow2(e)) && At(lo, r, Pow2(e) - 1) < List.Length
      modifies List
      ensures Reach(Row(lo, r, Pow2(e - 1) - 1)) <= List.Length
      ensures List[..] == Run(Row(lo, r, Pow2(e - 1) - 1), old(List[..]), greater)
    {
      var i, m := lo + r, r * 2;
      ghost var k, h := 0, Pow2(e - 1);
      while i + r < lo + n
        invariant k < h && i == At(lo, r, 2 * k + 1)
        invariant Reach(Row(lo, r, k)) <= List.Length
        invariant List[..] == Run(Row(lo, r, k), old(List[..]), greater)
        decreases h - k
      {
        RowBound(lo, r, n, e, k);
        CompareAt(i, i + r);
        i := i + m;
        k := k + 1;
      }
      RowBound(lo, r, n, e, k);
    }

    method CompareAt(i: nat, j: nat)
      requires List != null && i < List.Length && j < List.Length && i != j
      modifies List
      ensures List[..] == Run(Compare(i, j, true), old(List[..]), greater)
    {
      var cond := greater(List[i], List[j]);
      var tmp := OMove(List[i], List[j], cond);
      List[i] := OMove(List[j], List[i], cond);
      List[j] := tmp;
    }
  }

  /** The merge run piece by piece. */
  lemma MergeRuns<T>(s: seq<T>, t: seq<T>, u: seq<T>, lo: nat, e: nat, r: nat, gt: (T, T) -> bool)
    requires e > 1 && Reach(MergeSchedule(lo, e - 1, 2 * r)) <= |s| && Reach(MergeSchedule(lo + r, e - 1, 2 * r)) <= |s|
    requires Reach(Row(lo, r, Pow2(e - 1) - 1)) <= |s| && Reach(MergeSchedule(lo, e, r)) <= |s|
    requires t == Run(MergeSchedule(lo, e - 1, 2 * r), s, gt) && u == Run(MergeSchedule(lo + r, e - 1, 2 * r), t, gt)
    ensures Run(Row(lo, r, Pow2(e - 1) - 1), u, gt) == Run(MergeSchedule(lo, e, r), s, gt)
  {
    MergeUnfolds(lo, e, r, Pow2(e - 1));
    hide *;
    var x, y, z := MergeSchedule(lo, e - 1, 2 * r), MergeSchedule(lo + r, e - 1, 2 * r), Row(lo, r, Pow2(e - 1) - 1);
    RunThen(y, z, t, gt);
    RunThen(x, Then(y, z), s, gt);
  }

  lemma PairRuns<T>(s: seq<T>, lo: nat, r: nat, gt: (T, T) -> bool)
    requires Reach(MergeSchedule(lo, 1, r)) <= |s|
    ensures lo < |s| && lo + r < |s| && Reach(Compare(lo, lo + r, true)) <= |s|
    ensures Run(Compare(lo, lo + r, true), s, gt) == Run(MergeSchedule(lo, 1, r), s, gt)
  {}

  lemma StrideHalves(lo: nat, r: nat, e: nat)
    requires e > 1 && r > 0
    ensures var last := At(lo, r, Pow2(e) - 1);
            At(lo, 2 * r, Pow2(e - 1) - 1) < last == At(lo + r, 2 * r, Pow2(e - 1) - 1)
  {
    StrideEnds(lo, r, Pow2(e - 1));
  }

  lemma StrideLength(r: nat, e: nat, n: nat)
    requires e > 0 && r > 0 && n == At(0, r, Pow2(e))
    ensures 2 * r <= n && (2 * r < n <==> e > 1) && (e > 1 ==> n == At(0, 2 * r, Pow2(e - 1)))
  {
    AtEvenOdd(0, r, Pow2(e - 1));
    assert At(0, r, 2) == 2 * r by {
      assert At(0, r, 1) == r;
    }
    if e > 1 {
      Pow2Monotone(1, e);
      AtIncreases(0, r, 2, Pow2(e));
    }
  }

  lemma RowBound(lo: nat, r: nat, n: nat, e: nat, k: nat)
    requires e > 1 && r > 0 && n == At(0, r, Pow2(e)) && k < Pow2(e - 1)
    ensures At(lo, r, 2 * k + 2) == At(lo, r, 2 * k + 1) + r
    ensures At(lo, r, 2 * k + 2) < lo + n <==> k < Pow2(e - 1) - 1
    ensures k < Pow2(e - 1) - 1 ==> At(lo, r, 2 * k + 2) <= At(lo, r, Pow2(e) - 1)
  {
    AtShift(lo, r, Pow2(e));
    if k < Pow2(e - 1) - 1 {
      AtIncreases(lo, r, 2 * k + 2, Pow2(e));
      if 2 * k + 2 < Pow2(e) - 1 {
        AtIncreases(lo, r, 2 * k + 2, Pow2(e) - 1);
      }
    }
  }

  lemma MergeInsideOne(lo: nat, e: nat, h: nat)
    requires e > 0 && h == Pow2(e - 1)
    ensures Inside(MergeSchedule(lo, e, 1), lo, lo + 2 * h) && Reach(MergeSchedule(lo, e, 1)) <= lo + 2 * h
    ensures At(lo, 1, 2 * h - 1) == lo + 2 * h - 1
  {
    MergeInside(lo, e, 1);
    AtShift(lo, 1, Pow2(e) - 1);
  }

  /** The merge at stride one joins two sorted halves. */
  lemma HalvesMerge<T(!new)>(s: seq<T>, lo: nat, e: nat, h: nat, gt: (T, T) -> bool)
    requires StrictWeakOrder(gt) && e > 0 && h == Pow2(e - 1) && lo + 2 * h <= |s|
    requires SortedOn(s, lo, lo + h, gt, true) && SortedOn(s, lo + h, lo + 2 * h, gt, true)
    ensures Reach(MergeSchedule(lo, e, 1)) <= |s|
    ensures SortedFrom(s, Run(MergeSchedule(lo, e, 1), s, gt), lo, 2 * h, gt, true)
  {
    hide *;
    HalvesSort(s, lo, e, h, gt);
    MergeInsideOne(lo, e, h);
    SortedAndRearranged(MergeSchedule(lo, e, 1), s, lo, 2 * h, gt, true);
  }

  lemma HalvesSort<T(!new)>(s: seq<T>, lo: nat, e: nat, h: nat, gt: (T, T) -> bool)
    requires StrictWeakOrder(gt) && e > 0 && h == Pow2(e - 1) && lo + 2 * h <= |s|
    requires SortedOn(s, lo, lo + h, gt, true) && SortedOn(s, lo + h, lo + 2 * h, gt, true)
    ensures Reach(MergeSchedule(lo, e, 1)) <= |s|
    ensures SortedOn(Run(MergeSchedule(lo, e, 1), s, gt), lo, lo + 2 * h, gt, true)
  {
    StrideOne(s, lo, 0, h, gt);
    StrideOne(s, lo, h, h, gt);
    MergeInsideOne(lo, e, h);
    OddEvenMergeSorts(s, lo, e, 1, h, gt);
    StrideOne(Run(MergeSchedule(lo, e, 1), s, gt), lo, 0, 2 * h, gt);
  }

  lemma StrideOne<T>(s: seq<T>, lo: nat, a: nat, c: nat, gt: (T, T) -> bool)
    requires lo + a + c <= |s|
    ensures SortedStride(s, lo, 1, a, c, gt) <==> SortedOn(s, lo + a, lo + a + c, gt, true)
  {
    forall k: nat
      ensures At(lo, 1, k) == lo + k
    {
      AtShift(lo, 1, k);
    }
    if SortedStride(s, lo, 1, a, c, gt) {
      forall i, j | lo + a <= i < j < lo + a + c
        ensures !gt(s[i], s[j])
      {
        assert At(lo, 1, i - lo) == i && At(lo, 1, j - lo) == j;
      }
    }
  }
}

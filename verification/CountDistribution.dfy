/**
  How many heavy flows have each size: one scan over the flows sorted by size counts the
  length of each run, marks all but the last entry of a run, and a sort moves the marked
  entries to the end.
 */
module CountDistribution {
  import opened BinaryArith
  import opened Rearrangements
  import opened SortingNetworks
  import opened RangeSorting
  import opened Items

  datatype CDist = CDist(size: nat, count: nat)

  predicate GreaterCDist(x: CDist, y: CDist) {
    x.size > y.size
  }

  lemma GreaterCDistOrder()
    ensures StrictWeakOrder(GreaterCDist)
  {}

  ghost function SizeIs(size: nat): (f: Item -> nat) {
    (x: Item) => if x.size == size then 1 else 0
  }

  /** How many flows have the size. */
  ghost function Multiplicity(s: seq<Item>, size: nat): nat {
    Sum(s, SizeIs(size))
  }

  /** The count of an entry, nothing for a marked one. */
  ghost function Kept(): (f: CDist -> nat) {
    (x: CDist) => if x.size == MAX_SIZE then 0 else x.count
  }

  ghost predicate HasSize(r: seq<CDist>, size: nat) {
    exists k :: 0 <= k < |r| && r[k].size == size
  }

  /** Each size that occurs has exactly one entry, with its multiplicity; all others are marked. */
  ghost predicate Counts(s: seq<Item>, r: seq<CDist>) {
    && |r| == |s|
    && (forall k :: 0 <= k < |r| && r[k].size != MAX_SIZE ==> r[k].count == Multiplicity(s, r[k].size) > 0)
    && (forall k :: 0 <= k < |s| ==> HasSize(r, s[k].size))
    && (forall k, l :: 0 <= k < l < |r| && r[k].size == r[l].size ==> r[k].size == MAX_SIZE)
    && Sum(r, Kept()) == |s|
  }

  ghost predicate Ascending(r: seq<CDist>) {
    forall i, j :: 0 <= i < j < |r| ==> r[i].size <= r[j].size
  }

  // ----- the scan

  predicate EndsRun(s: seq<Item>, k: nat)
    requires k < |s|
  {
    k == |s| - 1 || s[k + 1].size < s[k].size
  }

  /** The entry the scan writes at position k. */
  ghost function EntryAt(s: seq<Item>, k: nat): CDist
    requires k < |s|
  {
    CDist(if EndsRun(s, k) then s[k].size else MAX_SIZE, Multiplicity(s[..k + 1], s[k].size))
  }

  lemma {:induction false} Absent(s: seq<Item>, size: nat)
    requires forall k :: 0 <= k < |s| ==> s[k].size != size
    ensures Multiplicity(s, size) == 0
  {
    SumConstant(s, SizeIs(size), 0);
  }

  /** The running count: one more inside a run, one at the start of a run. */
  lemma RunLength(s: seq<Item>, k: nat)
    requires Descending(s) && k < |s|
    ensures Multiplicity(s[..k + 1], s[k].size) ==
            1 + if k > 0 && !EndsRun(s, k - 1) then Multiplicity(s[..k], s[k - 1].size) else 0
  {
    SumTake(s, k, SizeIs(s[k].size));
    if k == 0 || EndsRun(s, k - 1) {
      Absent(s[..k], s[k].size);
    }
  }

  /** At the end of a run the running count is the multiplicity. */
  lemma RunComplete(s: seq<Item>, k: nat)
    requires Descending(s) && k < |s| && EndsRun(s, k)
    ensures Multiplicity(s[..k + 1], s[k].size) == Multiplicity(s, s[k].size) > 0
  {
    SumConcat(s[..k + 1], s[k + 1..], SizeIs(s[k].size));
    assert s == s[..k + 1] + s[k + 1..];
    Absent(s[k + 1..], s[k].size);
    SumTake(s, k, SizeIs(s[k].size));
  }

  lemma {:induction false} RunEnd(s: seq<Item>, k: nat) returns (l: nat)
    requires Descending(s) && k < |s|
    ensures l < |s| && s[l].size == s[k].size && EndsRun(s, l)
    decreases |s| - k
  {
    l := k;
    if EndsRun(s, k) {
    } else {
      l := RunEnd(s, k + 1);
    }
  }

  /** The counts kept so far and the run in progress cover what was scanned. */
  lemma {:induction false} KeptSoFar(s: seq<Item>, r: seq<CDist>, i: nat)
    requires Descending(s) && |r| == |s| && i <= |s|
             && forall k :: 0 <= k < |s| ==> r[k] == EntryAt(s, k) && s[k].size < MAX_SIZE
    ensures Sum(r[..i], Kept()) + (if i == 0 || EndsRun(s, i - 1) then 0 else Multiplicity(s[..i], s[i - 1].size)) == i
    decreases i
  {
    hide Multiplicity;
    if i == 0 {
    } else {
      KeptSoFar(s, r, i - 1);
      SumTake(r, i - 1, Kept());
      RunLength(s, i - 1);
    }
  }

  lemma ScanCounts(s: seq<Item>, r: seq<CDist>)
    requires Descending(s) && |r| == |s| && forall k :: 0 <= k < |s| ==> r[k] == EntryAt(s, k) && s[k].size < MAX_SIZE
    ensures Counts(s, r)
  {
    KeptAll(s, r);
    hide Multiplicity, EndsRun, EntryAt, Descending, HasSize, Kept, Sum;
    forall k | 0 <= k < |r| && r[k].size != MAX_SIZE
      ensures r[k].count == Multiplicity(s, r[k].size) > 0
    {
      EntryCounted(s, r[k], k);
    }
    forall k | 0 <= k < |s|
      ensures HasSize(r, s[k].size)
    {
      SizeCounted(s, r, k);
    }
    forall k, l | 0 <= k < l < |r| && r[k].size == r[l].size
      ensures r[k].size == MAX_SIZE
    {
      EntriesDiffer(s, r[k], r[l], k, l);
    }
  }

  lemma EntryCounted(s: seq<Item>, x: CDist, k: nat)
    requires Descending(s) && k < |s| && x == EntryAt(s, k) && x.size != MAX_SIZE
    ensures x.count == Multiplicity(s, x.size) > 0
  {
    RunComplete(s, k);
  }

  lemma SizeCounted(s: seq<Item>, r: seq<CDist>, k: nat)
    requires Descending(s) && |r| == |s| && k < |s| && forall l :: 0 <= l < |s| ==> r[l] == EntryAt(s, l)
    ensures HasSize(r, s[k].size)
  {
    var l := RunEnd(s, k);
    assert r[l].size == s[k].size;
  }

  /** Of two entries for the same size the earlier one is marked. */
  lemma EntriesDiffer(s: seq<Item>, x: CDist, y: CDist, k: nat, l: nat)
    requires Descending(s) && k < l < |s| && x == EntryAt(s, k) && y == EntryAt(s, l) && x.size == y.size
    ensures x.size == MAX_SIZE
  {
    hide Multiplicity;
    assert EndsRun(s, k) ==> s[l].size <= s[k + 1].size < s[k].size;
  }

  lemma KeptAll(s: seq<Item>, r: seq<CDist>)
    requires Descending(s) && |r| == |s| && forall k :: 0 <= k < |s| ==> r[k] == EntryAt(s, k) && s[k].size < MAX_SIZE
    ensures Sum(r, Kept()) == |s|
  {
    hide Multiplicity, EntryAt, Descending, Sum;
    KeptSoFar(s, r, |s|);
    assert r[..|s|] == r;
  }
  lemma CountsPermuted(s: seq<Item>, r: seq<CDist>, r': seq<CDist>)
    requires Counts(s, r) && multiset(r) == multiset(r')
    ensures Counts(s, r')
  {
    hide Multiplicity;
    SameLength(r, r');
    SumPermuted(r, r', Kept());
    forall k | 0 <= k < |r'|
      ensures r'[k] in r
    {
      assert r'[k] in multiset(r);
    }
    forall k | 0 <= k < |s|
      ensures HasSize(r', s[k].size)
    {
      assert HasSize(r, s[k].size);
      var l :| 0 <= l < |r| && r[l].size == s[k].size;
      assert r[l] in multiset(r');
    }
    forall k, l | 0 <= k < l < |r'| && r'[k].size == r'[l].size
      ensures r'[k].size == MAX_SIZE
    {
      if r'[k].size != MAX_SIZE {
        KeyOnce(r, r', (x: CDist) => x.size, k, l);
      }
    }
  }

  /**
    The distribution of sizes of a list sorted by descending size: ascending entries, one
    for each size with its multiplicity, then marked ones.
   */
  method OItemCountDist_DESC(OrdArry: seq<Item>, countDist: array<CDist>, length: nat)
    requires 0 < length == |OrdArry| <= countDist.Length && length <= MAX_SORTABLE
    requires Descending(OrdArry) && forall k :: 0 <= k < length ==> OrdArry[k].size < MAX_SIZE
    modifies countDist
    ensures Counts(OrdArry, countDist[..length]) && Ascending(countDist[..length])
    ensures countDist[length..] == old(countDist[length..])
  {
    hide Multiplicity, Counts;
    var curCount := 0;
    var cond := true;
    var i := 0;
    while i < length - 1
      invariant 0 <= i <= length - 1
      invariant cond == (i == 0 || EndsRun(OrdArry, i - 1))
      invariant i > 0 ==> curCount == Multiplicity(OrdArry[..i], OrdArry[i - 1].size)
      invariant forall k :: 0 <= k < i ==> countDist[k] == EntryAt(OrdArry, k)
      invariant countDist[length..] == old(countDist[length..])
    {
      RunLength(OrdArry, i);
      curCount := OMove(1, curCount + 1, cond);
      cond := OrdArry[i + 1].size < OrdArry[i].size;
      countDist[i] := CDist(OMove(OrdArry[i].size, MAX_SIZE, cond), curCount);
      i := i + 1;
    }
    RunLength(OrdArry, length - 1);
    countDist[length - 1] := CDist(OrdArry[length - 1].size, OMove(1, curCount + 1, cond));
    ghost var r := countDist[..];
    ScanCounts(OrdArry, r[..length]);
    GreaterCDistOrder();
    SortRange(countDist, 0, length, GreaterCDist);
    SortedCounts(OrdArry, r, countDist[..], length);
    assert countDist[..][..length] == countDist[..length] && countDist[..][length..] == countDist[length..];
  }

  lemma SortedCounts(s: seq<Item>, r: seq<CDist>, r': seq<CDist>, n: nat)
    requires SortedFrom(r, r', 0, n, GreaterCDist, true) && n <= |r| && Counts(s, r[..n])
    ensures n <= |r'| && Counts(s, r'[..n]) && Ascending(r'[..n]) && r'[n..] == r[n..]
  {
    hide Counts;
    assert r[0..0 + n] == r[..n] && r'[0..0 + n] == r'[..n] && r'[0 + n..] == r[n..];
    CountsPermuted(s, r[..n], r'[..n]);
    forall i, j | 0 <= i < j < n
      ensures r'[i].size <= r'[j].size
    {
      assert !GreaterCDist(r'[i], r'[j]);
    }
  }

  // ----- the direct count

  /** The map from sizes to how often they occur. */
  ghost predicate CountsMap(s: seq<Item>, m: map<nat, nat>) {
    && (forall size :: size in m <==> Multiplicity(s, size) > 0)
    && (forall size :: size in m ==> m[size] == Multiplicity(s, size))
  }

  method CountSizes(HList: seq<Item>) returns (result_map: map<nat, nat>)
    ensures CountsMap(HList, result_map)
  {
    result_map := map[];
    var i := 0;
    assert HList[..|HList|] == HList;
    while i < |HList|
      invariant 0 <= i <= |HList| && CountsMap(HList[..i], result_map)
    {
      CountsOneMore(HList, i, result_map);
      var size := HList[i].size;
      result_map := result_map[size := (if size in result_map then result_map[size] else 0) + 1];
      i := i + 1;
    }
  }

  lemma CountsOneMore(s: seq<Item>, i: nat, m: map<nat, nat>)
    requires i < |s| && CountsMap(s[..i], m)
    ensures var size := s[i].size;
            CountsMap(s[..i + 1], m[size := (if size in m then m[size] else 0) + 1])
  {
    forall size: nat
      ensures Multiplicity(s[..i + 1], size) == Multiplicity(s[..i], size) + if s[i].size == size then 1 else 0
    {
      SumTake(s, i, SizeIs(size));
    }
  }

  /** Entry by entry, the oblivious distribution is the map. */
  lemma DistributionIsMap(s: seq<Item>, r: seq<CDist>, m: map<nat, nat>)
    requires Counts(s, r) && CountsMap(s, m) && forall k :: 0 <= k < |s| ==> s[k].size < MAX_SIZE
    ensures forall size :: size in m <==> size != MAX_SIZE && HasSize(r, size)
    ensures forall k :: 0 <= k < |r| && r[k].size != MAX_SIZE ==> r[k].size in m && r[k].count == m[r[k].size]
  {
    forall size: nat | Multiplicity(s, size) > 0
      ensures size != MAX_SIZE && HasSize(r, size)
    {
      if forall k :: 0 <= k < |s| ==> s[k].size != size {
        Absent(s, size);
      }
    }
  }
}

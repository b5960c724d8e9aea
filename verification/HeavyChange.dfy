/**
  Heavy-change detection over two epochs: both lists are shuffled and hashed into buckets,
  every bucket is differenced in place, and the buckets are collected and sorted by the
  size of the change.
 */
module HeavyChange {
  import opened BinaryArith
  import opened Rearrangements
  import opened SortingNetworks
  import opened RangeSorting
  import opened Memory
  import opened Items
  import opened FlowDelta
  import opened FlowBuckets

  // ----- shuffling

  datatype ShufflePair = ShufflePair(index: nat, elem: Item)

  predicate GreaterIndex(x: ShufflePair, y: ShufflePair) {
    x.index > y.index
  }

  lemma GreaterIndexOrder()
    ensures StrictWeakOrder(GreaterIndex)
  {}

  ghost function Elems(s: seq<ShufflePair>): (r: seq<Item>)
    ensures |r| == |s| && forall k :: 0 <= k < |s| ==> r[k] == s[k].elem
  {
    seq(|s|, k requires 0 <= k < |s| => s[k].elem)
  }

  lemma {:induction false} ElemsPermuted(a: seq<ShufflePair>, b: seq<ShufflePair>)
    requires multiset(a) == multiset(b)
    ensures multiset(Elems(a)) == multiset(Elems(b))
    decreases |a|
  {
    SameLength(a, b);
    if a == [] {
      assert Elems(a) == Elems(b);
    } else {
      var n := |a| - 1;
      var i := SameElements(a, b);
      ElemsPermuted(RemoveAt(a, n), RemoveAt(b, i));
      assert Elems(RemoveAt(a, n)) == RemoveAt(Elems(a), n) && Elems(RemoveAt(b, i)) == RemoveAt(Elems(b), i);
      RemoveAtMultiset(Elems(a), n);
      RemoveAtMultiset(Elems(b), i);
    }
  }

  /** The list in the order of random indices. */
  method Shuffle(list: seq<Item>, rand: nat -> nat, numBucket: nat) returns (pairs: array<ShufflePair>)
    requires numBucket > 0 && |list| <= MAX_SORTABLE
    ensures fresh(pairs) && pairs.Length == |list| && multiset(Elems(pairs[..])) == multiset(list)
  {
    pairs := new ShufflePair[|list|](_ => ShufflePair(0, DUMMY_ITEM));
    var i := 0;
    while i < |list|
      invariant 0 <= i <= |list| && forall k :: 0 <= k < i ==> pairs[k].elem == list[k]
    {
      pairs[i] := ShufflePair(rand(i) % numBucket % 0x1_0000, list[i]);
      i := i + 1;
    }
    assert Elems(pairs[..]) == list;
    GreaterIndexOrder();
    ghost var before := pairs[..];
    SortRange(pairs, 0, |list|, GreaterIndex);
    assert before[0..0 + |list|] == before && pairs[..][0..0 + |list|] == pairs[..];
    ElemsPermuted(before, pairs[..]);
  }

  // ----- the bucket table

  /** What every bucket holds, by bucket. */
  ghost function Buckets(st: Store, maxnumBucket: nat): (r: seq<seq<Item>>)
    requires Laid(st, maxnumBucket)
    ensures |r| == |st.len| && forall b :: 0 <= b < |r| ==> r[b] == Contents(st, maxnumBucket, b)
  {
    seq(|st.len|, b requires 0 <= b < |st.len| => Contents(st, maxnumBucket, b))
  }

  /** Every bucket holds its flows of the first list and then its flows of the second. */
  ghost predicate Holds(st: Store, maxnumBucket: nat, prev: seq<Item>, cur: seq<Item>, hash: nat -> nat) {
    && Laid(st, maxnumBucket) && |st.len| > 0
    && forall b :: 0 <= b < |st.len| ==>
         Contents(st, maxnumBucket, b) == InBucket(prev, hash, |st.len|, b) + InBucket(cur, hash, |st.len|, b)
  }

  lemma HoldsNothing(st: Store, maxnumBucket: nat, hash: nat -> nat)
    requires |st.table| == 16 * |st.len| && |st.tmp| == 32 * maxnumBucket && st.spilled == 0 &&
             maxnumBucket <= 256 && |st.len| > 0
    requires forall b :: 0 <= b < |st.len| ==> st.len[b] == 0
    ensures Holds(st, maxnumBucket, [], [], hash) && SpillCount(st)
  {
    assert (set b: nat | b < |st.len| && st.len[b] > 16) == {};
  }

  /** As many buckets are spilled as are longer than 16. */
  ghost predicate SpillCount(st: Store) {
    st.spilled == |set b: nat | b < |st.len| && st.len[b] > 16|
  }

  lemma HoldsPrev(st: Store, st': Store, maxnumBucket: nat, prev: seq<Item>, i: nat, hash: nat -> nat)
    requires i < |prev| && Holds(st, maxnumBucket, prev[..i], [], hash)
    requires Added(st, st', maxnumBucket, hash(prev[i].flowID) % |st.len|, prev[i])
    ensures Holds(st', maxnumBucket, prev[..i + 1], [], hash)
  {
    hide InBucket, Laid, Contents;
    var n := |st.len|;
    forall b | 0 <= b < n
      ensures Contents(st', maxnumBucket, b) == InBucket(prev[..i + 1], hash, n, b) + InBucket([], hash, n, b)
    {
      InBucketStep(prev, i, hash, n, b);
      InBucketEmpty(hash, n, b);
    }
  }

  lemma InBucketEmpty(hash: nat -> nat, n: nat, b: nat)
    requires n > 0
    ensures InBucket([], hash, n, b) == []
  {}

  lemma HoldsCur(st: Store, st': Store, maxnumBucket: nat, prev: seq<Item>, cur: seq<Item>, i: nat, hash: nat -> nat)
    requires i < |cur| && Holds(st, maxnumBucket, prev, cur[..i], hash)
    requires Added(st, st', maxnumBucket, hash(cur[i].flowID) % |st.len|, cur[i])
    ensures Holds(st', maxnumBucket, prev, cur[..i + 1], hash)
  {
    hide InBucket, Laid, Contents;
    var n := |st.len|;
    forall b | 0 <= b < n
      ensures Contents(st', maxnumBucket, b) == InBucket(prev, hash, n, b) + InBucket(cur[..i + 1], hash, n, b)
    {
      InBucketStep(cur, i, hash, n, b);
    }
  }

  lemma HoldsLengths(st: Store, maxnumBucket: nat, prev: seq<Item>, cur: seq<Item>, hash: nat -> nat)
    requires Holds(st, maxnumBucket, prev, cur, hash)
    ensures forall b :: 0 <= b < |st.len| ==> st.len[b] == Load(prev, cur, hash, |st.len|, b)
  {
    hide InBucket;
    forall b | 0 <= b < |st.len|
      ensures st.len[b] == Load(prev, cur, hash, |st.len|, b)
    {
      assert |Contents(st, maxnumBucket, b)| == st.len[b];
    }
  }

  /** Adding a sixteenth-plus-first item is the one step that changes how many buckets are longer than 16. */
  lemma SpillCountStep(st: Store, st': Store, maxnumBucket: nat, b: nat, x: Item)
    requires Laid(st, maxnumBucket) && b < |st.len| && Added(st, st', maxnumBucket, b, x) && SpillCount(st)
    requires st'.spilled == st.spilled + if st.len[b] == 16 then 1 else 0
    ensures SpillCount(st')
  {
    var old', new' := set c: nat | c < |st.len| && st.len[c] > 16, set c: nat | c < |st'.len| && st'.len[c] > 16;
    if st.len[b] == 16 {
      assert new' == old' + {b};
    } else {
      assert new' == old';
    }
  }

  // ----- why an insertion can fail

  /** A bucket that already has 16 flows of the first epoch and gets one more. */
  lemma PrevOverflows(st: Store, maxnumBucket: nat, prev: seq<Item>, i: nat, cur: seq<Item>, hash: nat -> nat)
    requires i < |prev| && Holds(st, maxnumBucket, prev[..i], [], hash)
    requires st.len[hash(prev[i].flowID) % |st.len|] >= 16
    ensures !Fits(prev, cur, hash, |st.len|, maxnumBucket)
  {
    hide Laid, Contents, InBucket;
    var n, b := |st.len|, hash(prev[i].flowID) % |st.len|;
    HoldsLengths(st, maxnumBucket, prev[..i], [], hash);
    InBucketEmpty(hash, n, b);
    InBucketStep(prev, i, hash, n, b);
    LoadGrows(prev, i + 1, hash, n, b);
  }

  /** A bucket that already has 32 flows, or is full when the spill area is, and gets one more. */
  lemma CurOverflows(st: Store, maxnumBucket: nat, prev: seq<Item>, cur: seq<Item>, i: nat, hash: nat -> nat)
    requires i < |cur| && Holds(st, maxnumBucket, prev, cur[..i], hash) && SpillCount(st)
    requires var len := st.len[hash(cur[i].flowID) % |st.len|];
             len >= 32 || (len == 16 && st.spilled >= maxnumBucket)
    ensures !Fits(prev, cur, hash, |st.len|, maxnumBucket)
  {
    hide Laid, Contents, InBucket;
    var n, b := |st.len|, hash(cur[i].flowID) % |st.len|;
    HoldsLengths(st, maxnumBucket, prev, cur[..i], hash);
    InBucketStep(cur, i, hash, n, b);
    forall c: nat | c < n
      ensures Load(prev, cur, hash, n, c) >= st.len[c] + if c == b then 1 else 0
    {
      InBucketStep(cur, i, hash, n, c);
      LoadGrows(cur, i + 1, hash, n, c);
    }
    if st.len[b] == 16 {
      var now := set c: nat | c < n && st.len[c] > 16;
      assert now + {b} <= Overfull(prev, cur, hash, n);
      SmallerSet(now + {b}, Overfull(prev, cur, hash, n));
      assert |now + {b}| == |now| + 1;
    }
  }

  lemma {:induction false} SmallerSet(a: set<nat>, b: set<nat>)
    requires a <= b
    ensures |a| <= |b|
    decreases |a|
  {
    if x :| x in a {
      SmallerSet(a - {x}, b - {x});
    }
  }

  /** When everything was inserted, everything fits. */
  lemma InsertedFits(st: Store, maxnumBucket: nat, prev: seq<Item>, cur: seq<Item>, hash: nat -> nat)
    requires Holds(st, maxnumBucket, prev, cur, hash) && SpillCount(st)
    requires forall b: nat :: b < |st.len| ==> |InBucket(prev, hash, |st.len|, b)| <= 16
    ensures Fits(prev, cur, hash, |st.len|, maxnumBucket)
  {
    hide InBucket;
    HoldsLengths(st, maxnumBucket, prev, cur, hash);
    assert Overfull(prev, cur, hash, |st.len|) == set b: nat | b < |st.len| && st.len[b] > 16;
  }

  // ----- filling the table

  /** The bucket of a flow; a missing flow goes to a random one. */
  function BucketOf(x: Item, hash: nat -> nat, r: nat, n: nat): (b: nat)
    requires n > 0
    ensures b < n && (x.flowID != 0 ==> b == hash(x.flowID) % n)
  {
    OMove(r % n, hash(x.flowID) % n, x.flowID == 0)
  }

  ghost predicate NonZero(s: seq<Item>) {
    forall k :: 0 <= k < |s| ==> s[k].flowID != 0
  }

  /** The flows of the first epoch, each into its bucket; fails when a bucket has no room. */
  method PutPrev(pairs: array<ShufflePair>, hash: nat -> nat, rand: nat -> nat, BucketTable: array<Item>,
          idcList: array<nat>, ghost tmp: seq<Item>, ghost maxnumBucket: nat)
    returns (ok: bool)
    requires idcList.Length > 0 && BucketTable.Length == 16 * idcList.Length && |tmp| == 32 * maxnumBucket &&
             maxnumBucket <= 256
    requires NonZero(Elems(pairs[..])) && forall b :: 0 <= b < idcList.Length ==> idcList[b] == 0
    modifies BucketTable, idcList
    ensures ok ==> Holds(Store(BucketTable[..], tmp, idcList[..], 0), maxnumBucket, Elems(pairs[..]), [], hash)
    ensures ok ==> SpillCount(Store(BucketTable[..], tmp, idcList[..], 0))
    ensures ok ==> forall b :: 0 <= b < idcList.Length ==> idcList[b] <= 16
    ensures !ok ==> forall cur :: !Fits(Elems(pairs[..]), cur, hash, idcList.Length, maxnumBucket)
  {
    hide Holds, SpillCount, Fits, Added;
    ghost var prev, n := Elems(pairs[..]), idcList.Length;
    HoldsNothing(Store(BucketTable[..], tmp, idcList[..], 0), maxnumBucket, hash);
    var i := 0;
    assert prev[..0] == [];
    while i < pairs.Length
      invariant 0 <= i <= pairs.Length && Elems(pairs[..]) == prev
      invariant Holds(Store(BucketTable[..], tmp, idcList[..], 0), maxnumBucket, prev[..i], [], hash)
      invariant SpillCount(Store(BucketTable[..], tmp, idcList[..], 0))
      invariant forall b :: 0 <= b < n ==> idcList[b] <= 16
    {
      ghost var st := Store(BucketTable[..], tmp, idcList[..], 0);
      var item := pairs[i].elem;
      assert item == prev[i];
      var ind := BucketOf(item, hash, rand(i), idcList.Length);
      if idcList[ind] >= BT_BUCKET_SIZE {
        forall cur
          ensures !Fits(prev, cur, hash, n, maxnumBucket)
        {
          PrevOverflows(st, maxnumBucket, prev, i, cur, hash);
        }
        return false;
      }
      HoldsLaid(st, maxnumBucket, prev[..i], [], hash);
      BucketTable[BT_BUCKET_SIZE * ind + idcList[ind]] := item;
      idcList[ind] := idcList[ind] + 1;
      ghost var st' := Store(BucketTable[..], tmp, idcList[..], 0);
      AddedDirect(st, maxnumBucket, ind, item, st');
      HoldsPrev(st, st', maxnumBucket, prev, i, hash);
      SpillCountStep(st, st', maxnumBucket, ind, item);
      i := i + 1;
    }
    assert prev[..pairs.Length] == prev;
    return true;
  }

  lemma HoldsLaid(st: Store, maxnumBucket: nat, prev: seq<Item>, cur: seq<Item>, hash: nat -> nat)
    requires Holds(st, maxnumBucket, prev, cur, hash)
    ensures Laid(st, maxnumBucket)
  {}

  ghost function StoreOf(BucketTable: array<Item>, tmpBucketTable: array<Item>, idcList: array<nat>, tmpCount: nat)
    : Store
    reads BucketTable, tmpBucketTable, idcList
  {
    Store(BucketTable[..], tmpBucketTable[..], idcList[..], tmpCount)
  }

  /** One flow of the second epoch into its bucket, which spills when it is full. */
  method PutOne(item: Item, ind: nat, BucketTable: array<Item>, tmpBucketTable: array<Item>, idcList: array<nat>,
          tmpCount: nat, maxnumBucket: nat)
    returns (ok: bool, tmpCount': nat)
    requires Laid(StoreOf(BucketTable, tmpBucketTable, idcList, tmpCount), maxnumBucket) && ind < idcList.Length
    requires BucketTable != tmpBucketTable
    modifies BucketTable, tmpBucketTable, idcList
    ensures ok <==> old(idcList[ind]) < 32 && (old(idcList[ind]) == 16 ==> tmpCount < maxnumBucket)
    ensures ok ==> Added(old(StoreOf(BucketTable, tmpBucketTable, idcList, tmpCount)),
                         StoreOf(BucketTable, tmpBucketTable, idcList, tmpCount'), maxnumBucket, ind, item)
    ensures ok ==> tmpCount' == tmpCount + if old(idcList[ind]) == 16 then 1 else 0
  {
    ghost var st := StoreOf(BucketTable, tmpBucketTable, idcList, tmpCount);
    tmpCount' := tmpCount;
    var len := idcList[ind];
    if len == BT_BUCKET_SIZE {
      if tmpCount >= maxnumBucket {
        return false, tmpCount;
      }
      SpillOver(item, ind, BucketTable, tmpBucketTable, tmpCount);
      tmpCount' := tmpCount + 1;
      idcList[ind] := len + 1;
      ghost var st' := StoreOf(BucketTable, tmpBucketTable, idcList, tmpCount');
      AddedBySpill(st, maxnumBucket, ind, item, st');
    } else if len > BT_BUCKET_SIZE {
      if len >= BT_BUCKET_MAX_SIZE {
        return false, tmpCount;
      }
      var loca := ByteOf(BucketTable[BT_BUCKET_SIZE * ind]);
      assert Spilled(st, ind) && loca == Loca(st, ind);
      tmpBucketTable[loca * BT_BUCKET_MAX_SIZE + len] := item;
      idcList[ind] := len + 1;
      ghost var st' := StoreOf(BucketTable, tmpBucketTable, idcList, tmpCount');
      AddedSpilled(st, maxnumBucket, ind, item, st');
    } else {
      BucketTable[BT_BUCKET_SIZE * ind + len] := item;
      idcList[ind] := len + 1;
      ghost var st' := StoreOf(BucketTable, tmpBucketTable, idcList, tmpCount');
      AddedDirect(st, maxnumBucket, ind, item, st');
    }
    return true, tmpCount';
  }

  /** A full bucket is copied to the spill area with the new item behind it, and its first byte says where. */
  method SpillOver(item: Item, ind: nat, BucketTable: array<Item>, tmpBucketTable: array<Item>, tmpCount: nat)
    requires 16 * ind + 16 <= BucketTable.Length && 32 * tmpCount + 32 <= tmpBucketTable.Length && tmpCount < 256
    requires BucketTable != tmpBucketTable
    modifies BucketTable, tmpBucketTable
    ensures var t, tmp, at := old(BucketTable[..]), old(tmpBucketTable[..]), 32 * tmpCount;
            && BucketTable[..] == t[16 * ind := WithByte(t[16 * ind], tmpCount)]
            && tmpBucketTable[..] == tmp[..at] + t[16 * ind..16 * ind + 16] + [item] + tmp[at + 17..]
  {
    ghost var at, t, tmp := 32 * tmpCount, BucketTable[..], tmpBucketTable[..];
    Memcpy(tmpBucketTable, tmpCount * BT_BUCKET_MAX_SIZE,
        BucketTable[BT_BUCKET_SIZE * ind..BT_BUCKET_SIZE * ind + BT_BUCKET_SIZE]);
    tmpBucketTable[tmpCount * BT_BUCKET_MAX_SIZE + BT_BUCKET_SIZE] := item;
    BucketTable[BT_BUCKET_SIZE * ind] := WithByte(BucketTable[BT_BUCKET_SIZE * ind], tmpCount);
    assert tmpBucketTable[..] == tmp[..at] + t[16 * ind..16 * ind + 16] + [item] + tmp[at + 17..];
  }

  /** The flows of the second epoch behind those of the first; fails when a bucket or the spill area has no room. */
  method PutCur(pairs: array<ShufflePair>, hash: nat -> nat, rand: nat -> nat, BucketTable: array<Item>,
          tmpBucketTable: array<Item>, idcList: array<nat>, maxnumBucket: nat, ghost prev: seq<Item>)
    returns (ok: bool, ghost tmpCount: nat)
    requires Holds(StoreOf(BucketTable, tmpBucketTable, idcList, 0), maxnumBucket, prev, [], hash)
    requires SpillCount(StoreOf(BucketTable, tmpBucketTable, idcList, 0))
    requires NonZero(Elems(pairs[..])) && BucketTable != tmpBucketTable
    modifies BucketTable, tmpBucketTable, idcList
    ensures ok ==>
              Holds(StoreOf(BucketTable, tmpBucketTable, idcList, tmpCount), maxnumBucket, prev, Elems(pairs[..]), hash)
    ensures ok ==> SpillCount(StoreOf(BucketTable, tmpBucketTable, idcList, tmpCount))
    ensures !ok ==> !Fits(prev, Elems(pairs[..]), hash, idcList.Length, maxnumBucket)
  {
    hide Holds, SpillCount, Fits, Added, Laid;
    ghost var cur, n := Elems(pairs[..]), idcList.Length;
    HoldsLaid(StoreOf(BucketTable, tmpBucketTable, idcList, 0), maxnumBucket, prev, [], hash);
    var count := 0;
    var i := 0;
    assert cur[..0] == [];
    while i < pairs.Length
      invariant 0 <= i <= pairs.Length && Elems(pairs[..]) == cur
      invariant Holds(StoreOf(BucketTable, tmpBucketTable, idcList, count), maxnumBucket, prev, cur[..i], hash)
      invariant SpillCount(StoreOf(BucketTable, tmpBucketTable, idcList, count))
    {
      ghost var st := StoreOf(BucketTable, tmpBucketTable, idcList, count);
      HoldsLaid(st, maxnumBucket, prev, cur[..i], hash);
      HoldsSome(st, maxnumBucket, prev, cur[..i], hash);
      var item := pairs[i].elem;
      assert item == cur[i];
      var ind := BucketOf(item, hash, rand(i), idcList.Length);
      ghost var len := idcList[ind];
      var put, next := PutOne(item, ind, BucketTable, tmpBucketTable, idcList, count, maxnumBucket);
      if !put {
        CurOverflows(st, maxnumBucket, prev, cur, i, hash);
        return false, count;
      }
      ghost var st' := StoreOf(BucketTable, tmpBucketTable, idcList, next);
      HoldsCur(st, st', maxnumBucket, prev, cur, i, hash);
      SpillCountStep(st, st', maxnumBucket, ind, item);
      count := next;
      i := i + 1;
    }
    assert cur[..pairs.Length] == cur;
    return true, count;
  }

  lemma HoldsSome(st: Store, maxnumBucket: nat, prev: seq<Item>, cur: seq<Item>, hash: nat -> nat)
    requires Holds(st, maxnumBucket, prev, cur, hash)
    ensures |st.len| > 0
  {}

  // ----- differencing and collecting

  /** The first m buckets are differenced, the others still hold both epochs. */
  ghost predicate Differenced(st: Store, maxnumBucket: nat, prev: seq<Item>, cur: seq<Item>, hash: nat -> nat, m: nat) {
    && Laid(st, maxnumBucket) && |st.len| > 0
    && forall b :: 0 <= b < |st.len| ==>
         var p, c := InBucket(prev, hash, |st.len|, b), InBucket(cur, hash, |st.len|, b);
         Contents(st, maxnumBucket, b) == if b < m then DeltaLists(p, c, 1) else p + c
  }

  lemma DifferencedNext(st: Store, st': Store, maxnumBucket: nat, prev: seq<Item>, cur: seq<Item>, hash: nat -> nat,
          m: nat)
    requires Differenced(st, maxnumBucket, prev, cur, hash, m) && m < |st.len|
    requires var p, c := InBucket(prev, hash, |st.len|, m), InBucket(cur, hash, |st.len|, m);
             Replaced(st, st', maxnumBucket, m, DeltaLists(p, c, 1))
    ensures Differenced(st', maxnumBucket, prev, cur, hash, m + 1)
  {
    hide Laid, Contents, InBucket, DeltaLists;
  }

  /** One bucket, wherever it is. */
  method DeltaBucket(i: nat, BucketTable: array<Item>, tmpBucketTable: array<Item>, ind1: nat, idcList: array<nat>,
          ghost tmpCount: nat, ghost maxnumBucket: nat, ghost p: seq<Item>, ghost c: seq<Item>)
    requires Laid(StoreOf(BucketTable, tmpBucketTable, idcList, tmpCount), maxnumBucket) && i < idcList.Length
    requires Contents(StoreOf(BucketTable, tmpBucketTable, idcList, tmpCount), maxnumBucket, i) == p + c
    requires |p| == ind1 && Flows(p) && Flows(c) && Signed(p) && Signed(c) && BucketTable != tmpBucketTable
    modifies BucketTable, tmpBucketTable
    ensures Replaced(old(StoreOf(BucketTable, tmpBucketTable, idcList, tmpCount)),
                     StoreOf(BucketTable, tmpBucketTable, idcList, tmpCount), maxnumBucket, i, DeltaLists(p, c, 1))
  {
    hide Flows, Signed, DeltaLists, Laid, Contents, Replaced;
    ghost var st, r := StoreOf(BucketTable, tmpBucketTable, idcList, tmpCount), DeltaLists(p, c, 1);
    BucketShape(st, maxnumBucket, i);
    var len := idcList[i];
    if len > BT_BUCKET_SIZE {
      var at := ByteOf(BucketTable[BT_BUCKET_SIZE * i]) * BT_BUCKET_MAX_SIZE;
      assert Spilled(st, i) && at == 32 * Loca(st, i);
      DeltaAt(tmpBucketTable, at, ind1, len, p, c);
      ReplacedSpilled(st, maxnumBucket, i, r, StoreOf(BucketTable, tmpBucketTable, idcList, tmpCount));
    } else {
      var at := BT_BUCKET_SIZE * i;
      DeltaAt(BucketTable, at, ind1, len, p, c);
      ReplacedDirect(st, maxnumBucket, i, r, StoreOf(BucketTable, tmpBucketTable, idcList, tmpCount));
    }
  }

  method DeltaAt(L: array<Item>, at: nat, ind1: nat, len: nat, ghost p: seq<Item>, ghost c: seq<Item>)
    requires at + len <= L.Length && |p| == ind1 && |p| + |c| == len && L[at..at + len] == p + c
    requires Flows(p) && Flows(c) && Signed(p) && Signed(c)
    modifies L
    ensures L[at..at + len] == DeltaLists(p, c, 1)
    ensures forall k :: 0 <= k < L.Length && !(at <= k < at + len) ==> L[k] == old(L[k])
  {
    hide Flows, Signed, DeltaLists;
    TwoParts(L[..], at, p, c);
    ODelta(L, at, ind1, at + ind1, len - ind1, 1);
    assert L[at..at + len] == L[at..at + ind1] + L[at + ind1..at + len];
  }

  lemma TwoParts(s: seq<Item>, at: nat, p: seq<Item>, c: seq<Item>)
    requires at + |p| + |c| <= |s| && s[at..at + |p| + |c|] == p + c
    ensures s[at..at + |p|] == p && s[at + |p|..at + |p| + |c|] == c
  {
    var t := s[at..at + |p| + |c|];
    assert s[at..at + |p|] == t[..|p|] && s[at + |p|..at + |p| + |c|] == t[|p|..];
  }

  method DeltaBuckets(BucketTable: array<Item>, tmpBucketTable: array<Item>, ind1: array<nat>, idcList: array<nat>,
          ghost tmpCount: nat, ghost maxnumBucket: nat, ghost prev: seq<Item>, ghost cur: seq<Item>,
          ghost hash: nat -> nat)
    requires Holds(StoreOf(BucketTable, tmpBucketTable, idcList, tmpCount), maxnumBucket, prev, cur, hash)
    requires Flows(prev) && Flows(cur) && Signed(prev) && Signed(cur) && BucketTable != tmpBucketTable
    requires 0 < ind1.Length == idcList.Length
    requires forall b :: 0 <= b < ind1.Length ==> ind1[b] == |InBucket(prev, hash, idcList.Length, b)|
    modifies BucketTable, tmpBucketTable
    ensures Differenced(StoreOf(BucketTable, tmpBucketTable, idcList, tmpCount), maxnumBucket, prev, cur, hash,
            idcList.Length)
  {
    hide Flows, Signed, DeltaLists, InBucket;
    ghost var n := idcList.Length;
    var i := 0;
    while i < idcList.Length
      invariant 0 <= i <= n
      invariant Differenced(StoreOf(BucketTable, tmpBucketTable, idcList, tmpCount), maxnumBucket, prev, cur, hash, i)
    {
      ghost var st := StoreOf(BucketTable, tmpBucketTable, idcList, tmpCount);
      InBucketFlows(prev, hash, n, i);
      InBucketFlows(cur, hash, n, i);
      InBucketSigned(prev, hash, n, i);
      InBucketSigned(cur, hash, n, i);
      DeltaBucket(i, BucketTable, tmpBucketTable, ind1[i], idcList, tmpCount, maxnumBucket,
          InBucket(prev, hash, n, i), InBucket(cur, hash, n, i));
      DifferencedNext(st, StoreOf(BucketTable, tmpBucketTable, idcList, tmpCount), maxnumBucket, prev, cur, hash, i);
      i := i + 1;
    }
  }

  /** The items of a bucket, wherever it is. */
  method BucketItems(BucketTable: array<Item>, tmpBucketTable: array<Item>, idcList: array<nat>, ghost tmpCount: nat,
          ghost maxnumBucket: nat, i: nat)
    returns (src: seq<Item>)
    requires Laid(StoreOf(BucketTable, tmpBucketTable, idcList, tmpCount), maxnumBucket) && i < idcList.Length
    ensures src == Contents(StoreOf(BucketTable, tmpBucketTable, idcList, tmpCount), maxnumBucket, i)
  {
    ghost var st := StoreOf(BucketTable, tmpBucketTable, idcList, tmpCount);
    BucketShape(st, maxnumBucket, i);
    hide Laid, Contents;
    var at, leng := BT_BUCKET_SIZE * i, idcList[i];
    if leng > BT_BUCKET_SIZE {
      var loca := ByteOf(BucketTable[at]);
      src := tmpBucketTable[loca * BT_BUCKET_MAX_SIZE..loca * BT_BUCKET_MAX_SIZE + leng];
    } else {
      src := BucketTable[at..at + leng];
    }
  }

  /** The buckets one after the other. */
  method Collect(BucketTable: array<Item>, tmpBucketTable: array<Item>, idcList: array<nat>, ghost tmpCount: nat,
          ghost maxnumBucket: nat, HeavyChangeList: array<Item>)
    returns (acount: nat)
    requires Laid(StoreOf(BucketTable, tmpBucketTable, idcList, tmpCount), maxnumBucket)
    requires var st := StoreOf(BucketTable, tmpBucketTable, idcList, tmpCount);
             |Flatten(Buckets(st, maxnumBucket))| <= HeavyChangeList.Length
    requires HeavyChangeList != BucketTable && HeavyChangeList != tmpBucketTable
    modifies HeavyChangeList
    ensures acount <= HeavyChangeList.Length
    ensures HeavyChangeList[..acount] ==
              Flatten(Buckets(StoreOf(BucketTable, tmpBucketTable, idcList, tmpCount), maxnumBucket))
  {
    ghost var st := StoreOf(BucketTable, tmpBucketTable, idcList, tmpCount);
    ghost var rs := Buckets(st, maxnumBucket);
    hide Buckets, Laid, Contents;
    acount := 0;
    var i := 0;
    while i < idcList.Length
      invariant 0 <= i <= idcList.Length && acount <= HeavyChangeList.Length
      invariant HeavyChangeList[..acount] == Flatten(rs[..i])
    {
      FlattenGrows(rs, i);
      var src := BucketItems(BucketTable, tmpBucketTable, idcList, tmpCount, maxnumBucket, i);
      Memcpy(HeavyChangeList, acount, src);
      acount := acount + |src|;
      i := i + 1;
    }
    assert rs[..idcList.Length] == rs;
  }

  lemma BucketShape(st: Store, maxnumBucket: nat, b: nat)
    requires Laid(st, maxnumBucket) && b < |st.len|
    ensures 16 * b + 16 <= |st.table|
    ensures st.len[b] > 16 ==>
              var at := 32 * Loca(st, b);
              at + st.len[b] <= |st.tmp| && Contents(st, maxnumBucket, b) == st.tmp[at..at + st.len[b]]
    ensures st.len[b] <= 16 ==> Contents(st, maxnumBucket, b) == st.table[16 * b..16 * b + st.len[b]]
  {}

  /** The collected buckets are twice numHeavy entries, and report every change. */
  lemma Collected(st: Store, maxnumBucket: nat, prev: seq<Item>, cur: seq<Item>, hash: nat -> nat)
    requires Differenced(st, maxnumBucket, prev, cur, hash, |st.len|) && Flows(prev) && Flows(cur)
    ensures var r := Flatten(Buckets(st, maxnumBucket)); |r| == |prev| + |cur| && IsDelta(prev, cur, r)
  {
    hide InBucket, Flows, IsDelta, DeltaLists, Contents, Laid;
    var rs, n := Buckets(st, maxnumBucket), |st.len|;
    forall b | 0 <= b < n
      ensures |rs[b]| == Load(prev, cur, hash, n, b)
      ensures IsDelta(InBucket(prev, hash, n, b), InBucket(cur, hash, n, b), rs[b])
    {
      InBucketFlows(prev, hash, n, b);
      InBucketFlows(cur, hash, n, b);
      DeltaIsDelta(InBucket(prev, hash, n, b), InBucket(cur, hash, n, b));
    }
    FlattenTotal(prev, cur, hash, n, rs);
    AllBuckets(prev, cur, hash, n, rs);
  }

  // ----- the whole detection

  predicate SmallerItem(x: Item, y: Item) {
    x.size < y.size
  }

  lemma SmallerItemOrder()
    ensures StrictWeakOrder(SmallerItem)
  {}

  /** The filled buckets are differenced and collected into the change list. */
  method ReportChanges(BucketTable: array<Item>, tmpBucketTable: array<Item>, ind1: array<nat>, idcList: array<nat>,
          ghost tmpCount: nat, ghost maxnumBucket: nat, ghost p: seq<Item>, ghost c: seq<Item>,
          ghost hash: nat -> nat, total: nat, HeavyChangeList: array<Item>)
    requires Holds(StoreOf(BucketTable, tmpBucketTable, idcList, tmpCount), maxnumBucket, p, c, hash)
    requires Flows(p) && Flows(c) && Signed(p) && Signed(c) && |p| + |c| == total <= HeavyChangeList.Length
    requires 0 < ind1.Length == idcList.Length
    requires forall b :: 0 <= b < ind1.Length ==> ind1[b] == |InBucket(p, hash, idcList.Length, b)|
    requires BucketTable != tmpBucketTable && HeavyChangeList != BucketTable && HeavyChangeList != tmpBucketTable
    modifies BucketTable, tmpBucketTable, HeavyChangeList
    ensures IsDelta(p, c, HeavyChangeList[..total])
  {
    hide Flows, Signed, Holds, Differenced, IsDelta, Laid, Buckets, InBucket;
    DeltaBuckets(BucketTable, tmpBucketTable, ind1, idcList, tmpCount, maxnumBucket, p, c, hash);
    ghost var st := StoreOf(BucketTable, tmpBucketTable, idcList, tmpCount);
    DifferencedLaid(st, maxnumBucket, p, c, hash);
    Collected(st, maxnumBucket, p, c, hash);
    var acount := Collect(BucketTable, tmpBucketTable, idcList, tmpCount, maxnumBucket, HeavyChangeList);
    if acount != total {
      assert false;
    }
  }

  /** Filling and differencing the buckets and collecting them into the change list. */
  method BuildChanges(prev: seq<Item>, cur: seq<Item>, numBucket: nat, maxnumBucket: nat, hash: nat -> nat,
          rand1: nat -> nat, rand2: nat -> nat, HeavyChangeList: array<Item>)
    returns (built: bool)
    requires numBucket > 0 && maxnumBucket <= 256 && |prev| == |cur| <= MAX_SORTABLE
    requires 2 * |prev| <= HeavyChangeList.Length
    requires Flows(prev) && Flows(cur) && Signed(prev) && Signed(cur) && NonZero(prev) && NonZero(cur)
    modifies HeavyChangeList
    ensures built <==> Fits(prev, cur, hash, numBucket, maxnumBucket)
    ensures built ==> IsDelta(prev, cur, HeavyChangeList[..2 * |prev|])
  {
    hide Flows, Signed, Fits, Holds, SpillCount, Differenced, NonZero, IsDelta, Laid, Buckets;
    var pairs := Shuffle(prev, rand1, numBucket);
    ghost var p := Elems(pairs[..]);
    ListPermuted(prev, p);
    var BucketTable := new Item[numBucket * BT_BUCKET_SIZE](_ => DUMMY_ITEM);
    var tmpBucketTable := new Item[maxnumBucket * BT_BUCKET_MAX_SIZE](_ => DUMMY_ITEM);
    var ind1 := new nat[numBucket](_ => 0);
    var ok := PutPrev(pairs, hash, rand1, BucketTable, ind1, tmpBucketTable[..], maxnumBucket);
    if !ok {
      assert Elems(pairs[..]) == p;
      NeverFits(prev, cur, p, hash, numBucket, maxnumBucket);
      return false;
    }
    var ind2 := new nat[numBucket](i requires 0 <= i < numBucket reads ind1 => ind1[i]);
    assert ind2[..] == ind1[..];
    HoldsLengths(StoreOf(BucketTable, tmpBucketTable, ind2, 0), maxnumBucket, p, [], hash);
    LoadsOfFirst(p, hash, numBucket);
    pairs := Shuffle(cur, rand2, numBucket);
    ghost var c := Elems(pairs[..]);
    ListPermuted(cur, c);
    FitsEither(prev, cur, p, c, hash, numBucket, maxnumBucket);
    ghost var tmpCount;
    ok, tmpCount := PutCur(pairs, hash, rand2, BucketTable, tmpBucketTable, ind2, maxnumBucket, p);
    if !ok {
      return false;
    }
    InsertedFits(StoreOf(BucketTable, tmpBucketTable, ind2, tmpCount), maxnumBucket, p, c, hash);
    ReportChanges(BucketTable, tmpBucketTable, ind1, ind2, tmpCount, maxnumBucket, p, c, hash, 2 * |prev|,
        HeavyChangeList);
    DeltaOfSame(prev, cur, p, c, HeavyChangeList[..2 * |prev|]);
    return true;
  }

  lemma SignedPermuted(s: seq<Item>, s': seq<Item>)
    requires Signed(s) && multiset(s') == multiset(s)
    ensures Signed(s')
  {
    forall k | 0 <= k < |s'|
      ensures s'[k].size < 0x8000_0000
    {
      assert s'[k] in multiset(s);
    }
  }

  lemma NonZeroPermuted(s: seq<Item>, s': seq<Item>)
    requires NonZero(s) && multiset(s') == multiset(s)
    ensures NonZero(s')
  {
    forall k | 0 <= k < |s'|
      ensures s'[k].flowID != 0
    {
      assert s'[k] in multiset(s);
    }
  }

  /** What is known of a list of flows still holds when it is shuffled. */
  lemma ListPermuted(s: seq<Item>, s': seq<Item>)
    requires Flows(s) && Signed(s) && NonZero(s) && multiset(s') == multiset(s)
    ensures Flows(s') && Signed(s') && NonZero(s') && |s'| == |s|
  {
    FlowsPermuted(s, s');
    SignedPermuted(s, s');
    NonZeroPermuted(s, s');
    SameLength(s, s');
  }

  lemma NeverFits(prev: seq<Item>, cur: seq<Item>, p: seq<Item>, hash: nat -> nat, n: nat, maxnumBucket: nat)
    requires n > 0 && multiset(p) == multiset(prev) && !Fits(p, cur, hash, n, maxnumBucket)
    ensures !Fits(prev, cur, hash, n, maxnumBucket)
  {
    hide Fits;
    FitsPermuted(prev, cur, p, cur, hash, n, maxnumBucket);
  }

  lemma FitsEither(prev: seq<Item>, cur: seq<Item>, p: seq<Item>, c: seq<Item>, hash: nat -> nat, n: nat,
          maxnumBucket: nat)
    requires n > 0 && multiset(p) == multiset(prev) && multiset(c) == multiset(cur)
    ensures Fits(prev, cur, hash, n, maxnumBucket) <==> Fits(p, c, hash, n, maxnumBucket)
  {
    hide Fits;
    FitsPermuted(prev, cur, p, c, hash, n, maxnumBucket);
    FitsPermuted(p, c, prev, cur, hash, n, maxnumBucket);
  }

  lemma LoadsOfFirst(p: seq<Item>, hash: nat -> nat, n: nat)
    requires n > 0
    ensures forall b :: 0 <= b < n ==> Load(p, [], hash, n, b) == |InBucket(p, hash, n, b)|
  {}

  lemma DifferencedLaid(st: Store, maxnumBucket: nat, prev: seq<Item>, cur: seq<Item>, hash: nat -> nat)
    requires Differenced(st, maxnumBucket, prev, cur, hash, |st.len|)
    ensures Laid(st, maxnumBucket)
  {}

  /** The report over the shuffled lists is one over the lists. */
  lemma DeltaOfSame(prev: seq<Item>, cur: seq<Item>, p: seq<Item>, c: seq<Item>, r: seq<Item>)
    requires Flows(prev) && Flows(cur) && multiset(prev) == multiset(p) && multiset(cur) == multiset(c)
    requires IsDelta(p, c, r)
    ensures IsDelta(prev, cur, r)
  {
    FlowsPermuted(prev, p);
    FlowsPermuted(cur, c);
    hide Flows, SizeOf;
    forall f: nat
      ensures Change(p, c, f) == Change(prev, cur, f)
    {}
  }

  /**
    The heavy changes between two epochs of numHeavy flows, the current one first.  It
    succeeds exactly when the buckets fit; then the list holds, in descending order of
    size, the change of every flow that changed, and otherwise zeros, and the count is the
    number of flows that changed.
   */
  method OHeavyChange(HeavyHitterList: seq<Item>, numHeavy: nat, numBucket: nat, maxnumBucket: nat, hash: nat -> nat,
          rand1: nat -> nat, rand2: nat -> nat, HeavyChangeList: array<Item>)
    returns (count: nat, built: bool)
    requires numBucket > 0 && maxnumBucket <= 256 && 2 * numHeavy <= MAX_SORTABLE
    requires 2 * numHeavy <= |HeavyHitterList| && 2 * numHeavy <= HeavyChangeList.Length
    requires Flows(HeavyHitterList[..numHeavy]) && Flows(HeavyHitterList[numHeavy..2 * numHeavy])
    requires Signed(HeavyHitterList[..numHeavy]) && Signed(HeavyHitterList[numHeavy..2 * numHeavy])
    requires NonZero(HeavyHitterList[..numHeavy]) && NonZero(HeavyHitterList[numHeavy..2 * numHeavy])
    modifies HeavyChangeList
    ensures var cur, prev, r := HeavyHitterList[..numHeavy], HeavyHitterList[numHeavy..2 * numHeavy],
            HeavyChangeList[..2 * numHeavy];
            && (built <==> Fits(prev, cur, hash, numBucket, maxnumBucket))
            && (!built ==> count == 0)
            && (built ==> IsDelta(prev, cur, r) && Descending(r) && count == Sum(r, Positive()))
  {
    hide Flows, Signed, Fits, IsDelta, Descending, NonZero;
    ghost var cur, prev := HeavyHitterList[..numHeavy], HeavyHitterList[numHeavy..2 * numHeavy];
    built := BuildChanges(HeavyHitterList[numHeavy..2 * numHeavy], HeavyHitterList[..numHeavy], numBucket,
        maxnumBucket, hash, rand1, rand2, HeavyChangeList);
    if !built {
      return 0, false;
    }
    ghost var before := HeavyChangeList[..];
    SmallerItemOrder();
    SortRange(HeavyChangeList, 0, 2 * numHeavy, SmallerItem);
    SortedDelta(prev, cur, before, HeavyChangeList[..], 2 * numHeavy);
    count := CountPositiveItems(HeavyChangeList, 2 * numHeavy);
    assert before[..2 * numHeavy] == before[..2 * numHeavy] &&
        HeavyChangeList[..][..2 * numHeavy] == HeavyChangeList[..2 * numHeavy];
  }

  lemma SortedDelta(prev: seq<Item>, cur: seq<Item>, s: seq<Item>, r: seq<Item>, n: nat)
    requires SortedFrom(s, r, 0, n, SmallerItem, true) && n <= |s| && IsDelta(prev, cur, s[..n])
    ensures n <= |r| && IsDelta(prev, cur, r[..n]) && Descending(r[..n])
  {
    hide IsDelta;
    assert s[0..0 + n] == s[..n] && r[0..0 + n] == r[..n];
    DeltaPermuted(prev, cur, s[..n], r[..n]);
    forall i, j | 0 <= i < j < n
      ensures r[i].size >= r[j].size
    {
      assert !SmallerItem(r[i], r[j]);
    }
  }

  method CountPositiveItems(a: array<Item>, n: nat) returns (count: nat)
    requires n <= a.Length
    ensures count == Sum(a[..n], Positive())
  {
    ghost var r := a[..n];
    count := 0;
    var i := 0;
    while i < n
      invariant 0 <= i <= n && count == Sum(r[..i], Positive())
    {
      SumTake(r, i, Positive());
      count := count + OMove(1, 0, a[i].size > 0);
      i := i + 1;
    }
    assert r[..n] == r;
  }
}

/**
  Looking flows up obliviously: the heavy flows are hashed into rows of seven with a small
  overflow list, the rows become the blocks of a Path-ORAM, and a lookup reads one block
  and scans the overflow list.
 */
module HeavyLookup {
  import opened BinaryArith
  import opened Blocks
  import opened StashModel
  import opened InitPlacement
  import opened OramRuns
  import opened PathOram
  import opened SortingNetworks
  import opened Items
  import opened FlowDelta
  import FlowBuckets
  import opened HeavyChange

  const ST_BUCKET_SIZE: nat := 7

  /** One bucket of the table, which is the payload of one block. */
  type TableRow = s: seq<Item> | |s| == 7 witness seq(7, _ => Item(0, 0))

  // ----- scanning for a flow

  /** The size of the last entry with the flow id, or d. */
  function ScanFor(s: seq<Item>, f: nat, d: nat): nat
    decreases |s|, f, d
  {
    if s == [] then d
    else if s[|s| - 1].flowID == f then s[|s| - 1].size
    else ScanFor(s[..|s| - 1], f, d)
  }

  lemma ScanStep(s: seq<Item>, i: nat, f: nat, d: nat)
    requires i < |s|
    ensures ScanFor(s[..i + 1], f, d) == OMove(s[i].size, ScanFor(s[..i], f, d), s[i].flowID == f)
  {
    assert s[..i + 1][..i] == s[..i];
  }

  /** Writing a new flow over an entry nobody looks for. */
  lemma {:induction false} ScanWritten(s: seq<Item>, pos: nat, x: Item, f: nat, d: nat)
    requires pos < |s| && !HasFlow(s, x.flowID) && s[pos].flowID != f
    ensures ScanFor(s[pos := x], f, d) == if x.flowID == f then x.size else ScanFor(s, f, d)
    decreases |s|
  {
    var n := |s| - 1;
    var s' := s[..n];
    if pos == n {
      assert s[pos := x][..n] == s';
    } else {
      assert s[pos := x][..n] == s'[pos := x];
      assert forall k :: 0 <= k < n ==> s'[k] == s[k];
      assert s[n].flowID != x.flowID;
      ScanWritten(s', pos, x, f, d);
    }
  }

  lemma {:induction false} ScanMissing(s: seq<Item>, f: nat, d: nat)
    requires !HasFlow(s, f)
    ensures ScanFor(s, f, d) == d
    decreases |s|
  {
    if s == [] {
    } else {
      var s' := s[..|s| - 1];
      assert forall k :: 0 <= k < |s'| ==> s'[k] == s[k];
      assert s[|s| - 1].flowID != f;
      ScanMissing(s', f, d);
    }
  }

  /** What a lookup finds in its row and then the overflow list. */
  function Found(row: seq<Item>, stashHeavy: seq<Item>, f: nat): nat {
    ScanFor(stashHeavy, f, ScanFor(row, f, 0))
  }

  // ----- building the table

  /** Row b of the table. */
  function RowOf(table: seq<Item>, b: nat): TableRow
    requires 7 * b + 7 <= |table|
  {
    table[7 * b..7 * b + 7]
  }

  /**
    The table holds the flows of the list: a row is filled from the front, holds flows of the
    list only, and every lookup is right.
   */
  ghost predicate Records(table: seq<Item>, idcList: seq<nat>, stashHeavy: seq<Item>, list: seq<Item>, hash: nat -> nat)
  {
    && |idcList| > 0 && |table| == 7 * |idcList|
    && (forall b :: 0 <= b < |idcList| ==> RowSound(RowOf(table, b), idcList[b], list))
    && (forall k :: 0 <= k < |stashHeavy| ==> HasFlow(list, stashHeavy[k].flowID))
    && (forall f :: f != 0 ==> Found(RowOf(table, hash(f) % |idcList|), stashHeavy, f) == SizeOf(list, f))
  }

  ghost predicate RowSound(row: TableRow, used: nat, list: seq<Item>) {
    && used <= 7
    && (forall k :: 0 <= k < used ==> HasFlow(list, row[k].flowID))
    && (forall k :: used <= k < 7 ==> row[k].flowID == 0)
  }

  lemma NothingRecorded(table: seq<Item>, idcList: seq<nat>, hash: nat -> nat)
    requires |idcList| > 0 && |table| == 7 * |idcList|
    requires forall k :: 0 <= k < |table| ==> table[k] == Item(0, 0)
    requires forall b :: 0 <= b < |idcList| ==> idcList[b] == 0
    ensures Records(table, idcList, [], [], hash)
  {
    forall f: nat | f != 0
      ensures Found(RowOf(table, hash(f) % |idcList|), [], f) == SizeOf([], f)
    {
      ScanMissing(RowOf(table, hash(f) % |idcList|), f, 0);
    }
  }

  /** A flow is new when neither its row nor the overflow list has it. */
  lemma NewFlow(table: seq<Item>, idcList: seq<nat>, stashHeavy: seq<Item>, list: seq<Item>, i: nat, hash: nat -> nat)
    requires i < |list| && Flows(list) && list[i].flowID != 0 && Records(table, idcList, stashHeavy, list[..i], hash)
    ensures !HasFlow(list[..i], list[i].flowID)
    ensures forall b :: 0 <= b < |idcList| ==> !HasFlow(RowOf(table, b), list[i].flowID)
    ensures !HasFlow(stashHeavy, list[i].flowID)
  {
    var t := list[..i];
    assert forall k :: 0 <= k < i ==> t[k] == list[k];
    forall b | 0 <= b < |idcList|
      ensures !HasFlow(RowOf(table, b), list[i].flowID)
    {
      assert RowSound(RowOf(table, b), idcList[b], t);
    }
  }

  lemma {:induction false} HasFlowGrows(list: seq<Item>, i: nat)
    requires i < |list|
    ensures forall f :: HasFlow(list[..i], f) ==> HasFlow(list[..i + 1], f)
    ensures HasFlow(list[..i + 1], list[i].flowID)
  {
    forall f: nat
      ensures HasFlow(list[..i + 1], f) <==> HasFlow(list[..i], f) || list[i].flowID == f
    {
      HasFlowStep(list, i, f);
    }
  }

  /** A flow goes into the next place of its row. */
  lemma RecordedInRow(table: seq<Item>, idcList: seq<nat>, stashHeavy: seq<Item>, list: seq<Item>, i: nat,
          hash: nat -> nat)
    requires i < |list| && Flows(list) && list[i].flowID != 0 && Records(table, idcList, stashHeavy, list[..i], hash)
    requires idcList[hash(list[i].flowID) % |idcList|] < 7
    ensures var b := hash(list[i].flowID) % |idcList|;
            Records(table[7 * b + idcList[b] := list[i]], idcList[b := idcList[b] + 1], stashHeavy, list[..i + 1], hash)
  {
    hide SizeOf, HasFlow, Flows, RowOf, RowSound, ScanFor;
    var x, b := list[i], hash(list[i].flowID) % |idcList|;
    var pos := idcList[b];
    var table', idcList' := table[7 * b + pos := x], idcList[b := pos + 1];
    NewFlow(table, idcList, stashHeavy, list, i, hash);
    HasFlowGrows(list, i);
    RowWritten(table, b, pos, x);
    forall c | 0 <= c < |idcList|
      ensures RowSound(RowOf(table', c), idcList'[c], list[..i + 1])
    {
      RowStaysSound(RowOf(table, c), idcList[c], list, i);
    }
    forall f: nat | f != 0
      ensures Found(RowOf(table', hash(f) % |idcList|), stashHeavy, f) == SizeOf(list[..i + 1], f)
    {
      SizeOfStep(list, i, f);
      FoundWritten(RowOf(table, b), pos, x, stashHeavy, f, idcList[b], list[..i]);
    }
  }

  lemma RowWritten(table: seq<Item>, b: nat, pos: nat, x: Item)
    requires 7 * b + 7 <= |table| && pos < 7
    ensures forall c :: 0 <= c && 7 * c + 7 <= |table| ==>
              RowOf(table[7 * b + pos := x], c) == if c == b then RowOf(table, b)[pos := x] else RowOf(table, c)
  {}

  lemma RowStaysSound(row: TableRow, used: nat, list: seq<Item>, i: nat)
    requires i < |list| && RowSound(row, used, list[..i])
    ensures RowSound(row, used, list[..i + 1])
    ensures used < 7 ==> RowSound(row[used := list[i]], used + 1, list[..i + 1])
  {
    hide HasFlow;
    HasFlowGrows(list, i);
  }

  /** A new flow in a row is found there, and no other lookup changes. */
  lemma FoundWritten(row: TableRow, pos: nat, x: Item, stashHeavy: seq<Item>, f: nat, used: nat, list: seq<Item>)
    requires RowSound(row, used, list) && pos == used < 7 && f != 0 && !HasFlow(row, x.flowID) &&
             !HasFlow(stashHeavy, x.flowID)
    ensures Found(row[pos := x], stashHeavy, f) == if x.flowID == f then x.size else Found(row, stashHeavy, f)
  {
    hide ScanFor;
    ScanWritten(row, pos, x, f, 0);
    if f == x.flowID {
      ScanMissing(stashHeavy, f, x.size);
    }
  }

  /** A flow whose row is full goes to the overflow list. */
  lemma RecordedInStash(table: seq<Item>, idcList: seq<nat>, stashHeavy: seq<Item>, list: seq<Item>, i: nat,
          hash: nat -> nat)
    requires i < |list| && Flows(list) && Records(table, idcList, stashHeavy, list[..i], hash)
    ensures Records(table, idcList, stashHeavy + [list[i]], list[..i + 1], hash)
  {
    hide SizeOf, HasFlow, Flows;
    HasFlowGrows(list, i);
    var s := stashHeavy + [list[i]];
    assert s[..|s| - 1] == stashHeavy;
    forall f: nat | f != 0
      ensures Found(RowOf(table, hash(f) % |idcList|), s, f) == SizeOf(list[..i + 1], f)
    {
      SizeOfStep(list, i, f);
    }
  }

  /** Looking up any flow finds its size in the list, and zero if the list does not have it. */
  ghost predicate TableFor(list: seq<Item>, table: seq<Item>, stashHeavy: seq<Item>, bucketNum: nat, hash: nat -> nat) {
    && bucketNum > 0 && |table| == 7 * bucketNum
    && forall f: nat :: f != 0 ==> Found(RowOf(table, hash(f) % bucketNum), stashHeavy, f) == SizeOf(list, f)
  }

  lemma TableComplete(table: seq<Item>, idcList: seq<nat>, stashHeavy: seq<Item>, list: seq<Item>, hash: nat -> nat)
    requires Records(table, idcList, stashHeavy, list, hash)
    ensures TableFor(list, table, stashHeavy, |idcList|, hash)
  {}

  // ----- how full the rows get

  /** How many flows of the first m rows do not fit their row of seven. */
  ghost function Excess(list: seq<Item>, hash: nat -> nat, n: nat, m: nat): nat
    requires n > 0
    decreases m, list, hash, n
  {
    if m == 0 then 0
    else
      var load := |FlowBuckets.InBucket(list, hash, n, m - 1)|;
      Excess(list, hash, n, m - 1) + if load > 7 then load - 7 else 0
  }

  /** One more flow adds to the excess exactly when its row is full. */
  lemma {:induction false} ExcessStep(list: seq<Item>, i: nat, hash: nat -> nat, n: nat, m: nat)
    requires n > 0 && i < |list|
    ensures var b := hash(list[i].flowID) % n;
            Excess(list[..i + 1], hash, n, m) == Excess(list[..i], hash, n, m) +
              if b < m && |FlowBuckets.InBucket(list[..i], hash, n, b)| >= 7 then 1 else 0
    decreases m
  {
    hide FlowBuckets.InBucket;
    if m == 0 {
    } else {
      ExcessStep(list, i, hash, n, m - 1);
      FlowBuckets.InBucketStep(list, i, hash, n, m - 1);
    }
  }

  lemma {:induction false} ExcessGrows(list: seq<Item>, i: nat, hash: nat -> nat, n: nat, m: nat)
    requires n > 0 && i <= |list|
    ensures Excess(list[..i], hash, n, m) <= Excess(list, hash, n, m)
    decreases m
  {
    hide FlowBuckets.InBucket;
    if m == 0 {
    } else {
      ExcessGrows(list, i, hash, n, m - 1);
      FlowBuckets.LoadGrows(list, i, hash, n, m - 1);
    }
  }

  lemma {:induction false} ExcessPermuted(s: seq<Item>, s': seq<Item>, hash: nat -> nat, n: nat, m: nat)
    requires n > 0 && multiset(s) == multiset(s')
    ensures Excess(s', hash, n, m) == Excess(s, hash, n, m)
    decreases m
  {
    hide FlowBuckets.InBucket;
    if m == 0 {
    } else {
      ExcessPermuted(s, s', hash, n, m - 1);
      FlowBuckets.LoadPermuted(s, s', hash, n, m - 1);
    }
  }

  /** Rows are filled up to seven, and the overflow list has the rest. */
  ghost predicate FilledUp(idcList: seq<nat>, overflow: nat, list: seq<Item>, hash: nat -> nat) {
    && |idcList| > 0
    && overflow == Excess(list, hash, |idcList|, |idcList|)
    && forall b :: 0 <= b < |idcList| ==>
         var load := |FlowBuckets.InBucket(list, hash, |idcList|, b)|;
         idcList[b] == if load < 7 then load else 7
  }

  lemma {:induction false} NothingFilled(idcList: seq<nat>, hash: nat -> nat, m: nat)
    requires |idcList| > 0 && m <= |idcList| && forall b :: 0 <= b < |idcList| ==> idcList[b] == 0
    ensures Excess([], hash, |idcList|, m) == 0
    ensures m == |idcList| ==> FilledUp(idcList, 0, [], hash)
    decreases m
  {
    if m == 0 {
    } else {
      NothingFilled(idcList, hash, m - 1);
    }
  }

  lemma FilledNext(idcList: seq<nat>, overflow: nat, list: seq<Item>, i: nat, hash: nat -> nat)
    requires i < |list| && FilledUp(idcList, overflow, list[..i], hash)
    ensures var b := hash(list[i].flowID) % |idcList|;
            if idcList[b] >= 7 then FilledUp(idcList, overflow + 1, list[..i + 1], hash)
            else FilledUp(idcList[b := idcList[b] + 1], overflow, list[..i + 1], hash)
  {
    hide FlowBuckets.InBucket, Excess;
    var n := |idcList|;
    ExcessStep(list, i, hash, n, n);
    forall b | 0 <= b < n
      ensures |FlowBuckets.InBucket(list[..i + 1], hash, n, b)| ==
              |FlowBuckets.InBucket(list[..i], hash, n, b)| + if hash(list[i].flowID) % n == b then 1 else 0
    {
      FlowBuckets.InBucketStep(list, i, hash, n, b);
    }
  }

  /** Giving up with a full row and a full overflow list is right: there is too much excess. */
  lemma TooMuchExcess(idcList: seq<nat>, overflow: nat, list: seq<Item>, i: nat, hash: nat -> nat)
    requires i < |list| && FilledUp(idcList, overflow, list[..i], hash)
    requires idcList[hash(list[i].flowID) % |idcList|] >= 7
    ensures overflow < Excess(list, hash, |idcList|, |idcList|)
  {
    hide Excess;
    var n := |idcList|;
    ExcessStep(list, i, hash, n, n);
    ExcessGrows(list, i + 1, hash, n, n);
  }

  lemma FilledOverflow(idcList: seq<nat>, overflow: nat, list: seq<Item>, hash: nat -> nat)
    requires FilledUp(idcList, overflow, list, hash)
    ensures overflow == Excess(list, hash, |idcList|, |idcList|)
  {}

  /**
    The table of heavy flows.  Flow ids are forced to 1, 2, 3, ...; the flows arrive in
    random order.  It succeeds exactly when the flows that do not fit their rows fit the
    overflow list.
   */
  method OBuildSTable(HeavyHitterList: array<Item>, numHeavy: nat, bucketNum: nat, stashNum: nat, hash: nat -> nat,
          rand: nat -> nat)
    returns (ok: bool, pDataStashTable: seq<Item>, pStashHeavy: seq<Item>)
    requires numHeavy <= HeavyHitterList.Length && numHeavy <= MAX_SORTABLE && 0 < bucketNum
    modifies HeavyHitterList
    ensures forall k :: 0 <= k < numHeavy ==> HeavyHitterList[k] == Item(k + 1, old(HeavyHitterList[k].size))
    ensures ok <==> Excess(HeavyHitterList[..numHeavy], hash, bucketNum, bucketNum) <= stashNum
    ensures ok ==> |pStashHeavy| <= stashNum
                   && TableFor(HeavyHitterList[..numHeavy], pDataStashTable, pStashHeavy, bucketNum, hash)
  {
    var i := 0;
    while i < numHeavy
      invariant 0 <= i <= numHeavy
      invariant forall k :: 0 <= k < i ==> HeavyHitterList[k] == Item(k + 1, old(HeavyHitterList[k].size))
      invariant forall k :: i <= k < numHeavy ==> HeavyHitterList[k] == old(HeavyHitterList[k])
    {
      HeavyHitterList[i] := Item(i + 1, HeavyHitterList[i].size);
      i := i + 1;
    }
    ghost var all := HeavyHitterList[..numHeavy];
    assert Flows(all) && NonZero(all);
    var pairs := Shuffle(HeavyHitterList[..numHeavy], rand, bucketNum);
    ghost var list := Elems(pairs[..]);
    NonZeroPermuted(all, list);
    FlowBuckets.FlowsPermuted(all, list);
    ExcessPermuted(all, list, hash, bucketNum, bucketNum);
    ok, pDataStashTable, pStashHeavy := FillTable(pairs, bucketNum, stashNum, hash, rand);
  }

  method FillTable(pairs: array<ShufflePair>, bucketNum: nat, stashNum: nat, hash: nat -> nat, rand: nat -> nat)
    returns (ok: bool, pDataStashTable: seq<Item>, pStashHeavy: seq<Item>)
    requires 0 < bucketNum && Flows(Elems(pairs[..])) && NonZero(Elems(pairs[..]))
    ensures ok <==> Excess(Elems(pairs[..]), hash, bucketNum, bucketNum) <= stashNum
    ensures ok ==> |pStashHeavy| <= stashNum
                   && TableFor(Elems(pairs[..]), pDataStashTable, pStashHeavy, bucketNum, hash)
  {
    hide Flows, Records, TableFor, Excess, FilledUp;
    ghost var list := Elems(pairs[..]);
    var table := new Item[bucketNum * ST_BUCKET_SIZE](_ => Item(0, 0));
    var idcList := new nat[bucketNum](_ => 0);
    pStashHeavy := [];
    NothingRecorded(table[..], idcList[..], hash);
    NothingFilled(idcList[..], hash, bucketNum);
    var i := 0;
    assert list[..0] == [];
    while i < pairs.Length
      invariant 0 <= i <= pairs.Length && Elems(pairs[..]) == list && |pStashHeavy| <= stashNum
      invariant Records(table[..], idcList[..], pStashHeavy, list[..i], hash)
      invariant FilledUp(idcList[..], |pStashHeavy|, list[..i], hash)
    {
      var tmp := pairs[i].elem;
      assert tmp == list[i];
      var ind := BucketOf(tmp, hash, rand(i), bucketNum);
      RecordsUsed(table[..], idcList[..], pStashHeavy, list[..i], hash, ind);
      FilledNext(idcList[..], |pStashHeavy|, list, i, hash);
      if idcList[ind] >= ST_BUCKET_SIZE {
        if |pStashHeavy| >= stashNum {
          TooMuchExcess(idcList[..], |pStashHeavy|, list, i, hash);
          return false, table[..], pStashHeavy;
        }
        RecordedInStash(table[..], idcList[..], pStashHeavy, list, i, hash);
        pStashHeavy := pStashHeavy + [tmp];
      } else {
        RecordedInRow(table[..], idcList[..], pStashHeavy, list, i, hash);
        var index := ST_BUCKET_SIZE * ind + idcList[ind];
        ghost var t, c := table[..], idcList[..];
        table[index] := tmp;
        idcList[ind] := idcList[ind] + 1;
        assert table[..] == t[7 * ind + c[ind] := tmp] && idcList[..] == c[ind := c[ind] + 1];
      }
      i := i + 1;
    }
    assert list[..pairs.Length] == list;
    TableComplete(table[..], idcList[..], pStashHeavy, list, hash);
    FilledOverflow(idcList[..], |pStashHeavy|, list, hash);
    return true, table[..], pStashHeavy;
  }

  lemma RecordsUsed(table: seq<Item>, idcList: seq<nat>, stashHeavy: seq<Item>, list: seq<Item>, hash: nat -> nat,
          b: nat)
    requires Records(table, idcList, stashHeavy, list, hash) && b < |idcList|
    ensures idcList[b] <= 7
  {
    assert RowSound(RowOf(table, b), idcList[b], list);
  }

  // ----- looking flows up

  /**
    A lookup of a heavy flow: one access to the block of its row, a scan of the row and a
    scan of the overflow list.
   */
  method OAccessFID(sketch: FOSketch<TableRow>, flowID: nat, hash: nat -> nat, pStashHeavy: seq<Item>,
          buf: Block<TableRow>, newPos: nat)
    returns (size: nat, ghost blk: Block<TableRow>)
    requires sketch.Shape() && sketch.sketchType.Table? && sketch.nBlock > 0 && newPos < sketch.nLeaf
    modifies sketch, sketch.OblivSK, sketch.pos_map, sketch.stash
    ensures sketch.OblivSK == old(sketch.OblivSK) && sketch.pos_map == old(sketch.pos_map) &&
            sketch.stash == old(sketch.stash)
    ensures sketch.Shape() && sketch.SameGeometry(old(sketch.level), old(sketch.nLeaf), old(sketch.nBlock))
    ensures var bid := hash(flowID) % old(sketch.nBlock);
            old(sketch.Valid()) && Room(old(sketch.Abstract()), bid) ==>
              && sketch.Valid() && Step(old(sketch.Abstract()), sketch.Abstract(), bid, newPos, sketch.clear, blk)
              && Lengthened(old(sketch.State()), sketch.State(), sketch.needComStash)
              && size == Found(blk.payload, pStashHeavy, flowID)
  {
    hide Sound, Room, Step;
    var index := hash(flowID) % sketch.nBlock;
    var isFound, b := sketch.OAccess(index, buf, newPos);
    blk := b;
    size := 0;
    if isFound {
      var row := b.payload;
      size := Scan(row, flowID, size);
    }
    size := Scan(pStashHeavy, flowID, size);
  }

  /** The entries one after the other, each match overwriting the size. */
  method Scan(s: seq<Item>, flowID: nat, d: nat) returns (size: nat)
    ensures size == ScanFor(s, flowID, d)
  {
    size := d;
    var x := 0;
    while x < |s|
      invariant 0 <= x <= |s| && size == ScanFor(s[..x], flowID, d)
    {
      ScanStep(s, x, flowID, d);
      size := OMove(s[x].size, size, s[x].flowID == flowID);
      x := x + 1;
    }
    assert s[..|s|] == s;
  }

  /** The blocks kept are the rows of the table they were built from. */
  ghost predicate StoresRows(mem: map<nat, TableRow>, table: seq<Item>, bucketNum: nat, kept: set<nat>) {
    && |table| == 7 * bucketNum
    && forall b :: b in kept ==> b < bucketNum && b in mem && mem[b] == RowOf(table, b)
  }

  /** A lookup finds the size of any flow whose row was kept, and leaves the rows as they are. */
  lemma LookupRight(o: Oram<TableRow>, o': Oram<TableRow>, np: nat, clear: TableRow -> TableRow, blk: Block<TableRow>,
          list: seq<Item>, table: seq<Item>, stashHeavy: seq<Item>, bucketNum: nat, kept: set<nat>, hash: nat -> nat,
          f: nat)
    requires TableFor(list, table, stashHeavy, bucketNum, hash) && StoresRows(o.mem, table, bucketNum, kept)
    requires Step(o, o', hash(f) % bucketNum, np, clear, blk)
    ensures StoresRows(o'.mem, table, bucketNum, kept)
    ensures f != 0 && hash(f) % bucketNum in kept ==> Found(blk.payload, stashHeavy, f) == SizeOf(list, f)
  {
    hide Sound;
  }

  /** For flows whose rows were kept the sizes found are those of the list. */
  ghost predicate Lookups(flowIDs: seq<nat>, sizes: seq<nat>, list: seq<Item>, n: nat, kept: set<nat>, hash: nat -> nat)
  {
    && |sizes| <= |flowIDs| && n > 0
    && forall k :: 0 <= k < |sizes| && flowIDs[k] != 0 && hash(flowIDs[k]) % n in kept ==>
         sizes[k] == SizeOf(list, flowIDs[k])
  }

  /** The rows looked at are those of the flows. */
  ghost predicate RowsOf(flowIDs: seq<nat>, bids: seq<nat>, n: nat, hash: nat -> nat) {
    n > 0 && |bids| <= |flowIDs| && forall k :: 0 <= k < |bids| ==> bids[k] == hash(flowIDs[k]) % n
  }

  /**
    Lookups of any flows, with any leaves, in an ORAM of rows of the table: up to the first
    that finds no room in the stash, each finds the size of its flow if the row was kept.
   */
  method OBurstAccessFID(sketch: FOSketch<TableRow>, flowIDs: seq<nat>, newLeaves: seq<nat>, hash: nat -> nat,
          pStashHeavy: seq<Item>, buf: Block<TableRow>, ghost list: seq<Item>, ghost table: seq<Item>)
    returns (ghost sizes: seq<nat>, ghost bids: seq<nat>, ghost outs: seq<Block<TableRow>>, ghost last: Oram<TableRow>)
    requires sketch.Valid() && sketch.sketchType.Table? && sketch.nBlock > 0 && |flowIDs| == |newLeaves|
    requires TableFor(list, table, pStashHeavy, sketch.nBlock, hash)
    requires StoresRows(sketch.mem, table, sketch.nBlock, sketch.mem.Keys)
    modifies sketch, sketch.OblivSK, sketch.pos_map, sketch.stash
    ensures Lookups(flowIDs, sizes, list, old(sketch.nBlock), old(sketch.mem).Keys, hash)
    ensures RowsOf(flowIDs, bids, old(sketch.nBlock), hash) && |bids| == |sizes| <= |flowIDs|
    ensures Leads(old(sketch.Abstract()), last, bids, sketch.clear, outs, sketch.needComStash)
    ensures |sizes| < |flowIDs| ==> !Room(last, hash(flowIDs[|sizes|]) % old(sketch.nBlock))
    ensures |sizes| == |flowIDs| ==> sketch.Valid() && last == sketch.Abstract()
  {
    hide TableFor, StoresRows, Sound, Room, Step, SizeOf, Leads;
    ghost var n, leaves, kept := sketch.nBlock, sketch.nLeaf, sketch.mem.Keys;
    sizes, bids, outs, last := [], [], [], sketch.Abstract();
    LeadsNowhere(last, sketch.clear, sketch.needComStash);
    var i := 0;
    while i < |flowIDs|
      invariant 0 <= i <= |flowIDs| && sketch.Shape() && sketch.SameGeometry(old(sketch.level), leaves, n)
      invariant sketch.OblivSK == old(sketch.OblivSK) && sketch.pos_map == old(sketch.pos_map) &&
                sketch.stash == old(sketch.stash)
      invariant |bids| == |sizes| <= i && Lookups(flowIDs, sizes, list, n, kept, hash)
      invariant RowsOf(flowIDs, bids, n, hash)
      invariant Leads(old(sketch.Abstract()), last, bids, sketch.clear, outs, sketch.needComStash)
      invariant |sizes| < i ==> !Room(last, hash(flowIDs[|sizes|]) % n)
      invariant |sizes| == i ==>
                  sketch.Valid() && last == sketch.Abstract() && StoresRows(sketch.mem, table, n, kept)
    {
      ghost var before, going := sketch.Abstract(), |sizes| == i;
      ghost var bid := hash(flowIDs[i]) % n;
      var newPos := newLeaves[i] % sketch.nLeaf;
      ghost var size, blk;
      size, blk := OAccessFID(sketch, flowIDs[i], hash, pStashHeavy, buf, newPos);
      if going && Room(before, bid) {
        LookupRight(before, sketch.Abstract(), newPos, sketch.clear, blk, list, table, pStashHeavy, n, kept, hash,
            flowIDs[i]);
        LeadsFurther(old(sketch.Abstract()), before, bids, sketch.clear, outs, sketch.needComStash,
            sketch.Abstract(), bid, newPos, blk);
        sizes, bids, outs, last := sizes + [size], bids + [bid], outs + [blk], sketch.Abstract();
      }
      i := i + 1;
    }
  }

  // ----- from the list of heavy flows to lookups

  /** The rows of the table, each of which becomes a block. */
  function Rows(table: seq<Item>, bucketNum: nat): (r: seq<TableRow>)
    requires |table| == 7 * bucketNum
    ensures |r| == bucketNum && forall b :: 0 <= b < bucketNum ==> r[b] == RowOf(table, b)
  {
    seq(bucketNum, b requires 0 <= b < bucketNum => RowOf(table, b))
  }

  /** An ORAM built over the rows stores them; all of them when no block was dropped. */
  lemma BuiltStoresRows(o: Oram<TableRow>, table: seq<Item>, bucketNum: nat, leaves: seq<nat>, nFailed: nat)
    requires |table| == 7 * bucketNum && Built(o, Rows(table, bucketNum), leaves, nFailed)
    ensures StoresRows(o.mem, table, bucketNum, o.mem.Keys)
    ensures nFailed == 0 ==> forall b :: 0 <= b < bucketNum ==> b in o.mem
  {
    hide Sound, Mapped, Settled;
    BlockCount(o.mem, bucketNum);
  }

  /** With every row kept, every lookup is right. */
  lemma AllLookups(flowIDs: seq<nat>, sizes: seq<nat>, list: seq<Item>, n: nat, kept: set<nat>, hash: nat -> nat)
    requires Lookups(flowIDs, sizes, list, n, kept, hash) && forall b :: 0 <= b < n ==> b in kept
    ensures forall k :: 0 <= k < |sizes| && flowIDs[k] != 0 ==> sizes[k] == SizeOf(list, flowIDs[k])
  {}

  /** An ORAM over the rows of the table is built and flows are looked up in it. */
  method LookUpInTable(pDataStashTable: seq<Item>, pStashHeavy: seq<Item>, bucketNum: nat, hash: nat -> nat,
          sizeBucket: nat, compStash: bool, clear: TableRow -> TableRow, leaves: seq<nat>, junk: TableRow,
          flowIDs: seq<nat>, newLeaves: seq<nat>, ghost list: seq<Item>)
    returns (ok: bool, nFailed: nat, ghost first: Oram<TableRow>, ghost last: Oram<TableRow>, ghost bids: seq<nat>,
          ghost outs: seq<Block<TableRow>>, ghost sizes: seq<nat>)
    requires TableFor(list, pDataStashTable, pStashHeavy, bucketNum, hash) && bucketNum == |leaves|
    requires sizeBucket > 0 && |flowIDs| == |newLeaves|
    ensures ok <==> bucketNum < 0x1_0000
    ensures ok ==> |pDataStashTable| == 7 * bucketNum
    ensures ok ==> Built(first, Rows(pDataStashTable, bucketNum), leaves, nFailed)
    ensures ok ==> RowsOf(flowIDs, bids, bucketNum, hash) && |bids| == |sizes| <= |flowIDs|
    ensures ok ==> Leads(first, last, bids, clear, outs, compStash)
    ensures ok ==> Lookups(flowIDs, sizes, list, bucketNum, first.mem.Keys, hash)
    ensures ok && |sizes| < |flowIDs| ==> !Room(last, hash(flowIDs[|sizes|]) % bucketNum)
  {
    hide TableFor, StoresRows, Sound, Room, Step, SizeOf, Leads, Lookups, RowsOf, Settled, FloorLog2, Mapped;
    TableSize(list, pDataStashTable, pStashHeavy, bucketNum, hash);
    bids, outs, sizes := [], [], [];
    var sketch := new FOSketch<TableRow>(Table, ST_BUCKET_SIZE, sizeBucket, compStash, clear);
    first, last := sketch.Abstract(), sketch.Abstract();
    ok, nFailed := sketch.Init_OCU(Rows(pDataStashTable, bucketNum), leaves, junk);
    if ok {
      first := sketch.Abstract();
      BuiltStoresRows(first, pDataStashTable, bucketNum, leaves, nFailed);
      sizes, bids, outs, last := OBurstAccessFID(sketch, flowIDs, newLeaves, hash, pStashHeavy, Block(0, 0, junk),
          list, pDataStashTable);
    }
  }

  /**
    The list of heavy flows is hashed into a table, an ORAM is built over its rows, and any
    flows are looked up with any leaves.  Up to the first lookup that finds no room in the
    stash, each finds the size of its flow in the list, zero if it is not listed, whenever
    its row was not dropped; and when none was dropped, always.
   */
  method RunTable(HeavyHitterList: array<Item>, numHeavy: nat, bucketNum: nat, stashNum: nat, hash: nat -> nat,
          rand: nat -> nat, sizeBucket: nat, compStash: bool, clear: TableRow -> TableRow, leaves: seq<nat>,
          junk: TableRow, flowIDs: seq<nat>, newLeaves: seq<nat>)
    returns (ok: bool, nFailed: nat, ghost table: seq<Item>, ghost first: Oram<TableRow>, ghost last: Oram<TableRow>,
          ghost bids: seq<nat>, ghost outs: seq<Block<TableRow>>, ghost sizes: seq<nat>)
    requires numHeavy <= HeavyHitterList.Length && numHeavy <= MAX_SORTABLE && 0 < bucketNum == |leaves|
    requires sizeBucket > 0 && |flowIDs| == |newLeaves|
    modifies HeavyHitterList
    ensures forall k :: 0 <= k < numHeavy ==> HeavyHitterList[k] == Item(k + 1, old(HeavyHitterList[k].size))
    ensures var list := HeavyHitterList[..numHeavy];
            && (ok <==> Excess(list, hash, bucketNum, bucketNum) <= stashNum && bucketNum < 0x1_0000)
            && (ok ==>
                  && |table| == 7 * bucketNum && Built(first, Rows(table, bucketNum), leaves, nFailed)
                  && RowsOf(flowIDs, bids, bucketNum, hash) && |bids| == |sizes|
                  && Leads(first, last, bids, clear, outs, compStash)
                  && Lookups(flowIDs, sizes, list, bucketNum, first.mem.Keys, hash)
                  && (nFailed == 0 ==>
                        forall k :: 0 <= k < |sizes| && flowIDs[k] != 0 ==> sizes[k] == SizeOf(list, flowIDs[k]))
                  && (|sizes| < |flowIDs| ==> !Room(last, hash(flowIDs[|sizes|]) % bucketNum))
                  && (bucketNum <= MAX_STASH_NUM - 8 ==> |sizes| == |flowIDs|))
  {
    hide TableFor, Sound, Room, SizeOf, Leads, Lookups, RowsOf, Excess, Built;
    table, bids, outs, sizes, nFailed := [], [], [], [], 0;
    var pDataStashTable, pStashHeavy;
    ok, pDataStashTable, pStashHeavy := OBuildSTable(HeavyHitterList, numHeavy, bucketNum, stashNum, hash, rand);
    ghost var list := HeavyHitterList[..numHeavy];
    if ok {
      table := pDataStashTable;
      ok, nFailed, first, last, bids, outs, sizes := LookUpInTable(pDataStashTable, pStashHeavy, bucketNum, hash,
          sizeBucket, compStash, clear, leaves, junk, flowIDs, newLeaves, list);
      if ok {
        TableAnswers(first, last, table, bucketNum, leaves, nFailed, clear, compStash, flowIDs, bids, outs,
            sizes, list, hash);
      }
    } else {
      first := Oram(Stash([], 0), [], [], 0, map[], 0);
      last := first;
    }
  }

  /** What follows when no row was dropped, and when there are few rows. */
  lemma TableAnswers(first: Oram<TableRow>, last: Oram<TableRow>, table: seq<Item>, bucketNum: nat, leaves: seq<nat>,
          nFailed: nat, clear: TableRow -> TableRow, compStash: bool, flowIDs: seq<nat>, bids: seq<nat>,
          outs: seq<Block<TableRow>>, sizes: seq<nat>, list: seq<Item>, hash: nat -> nat)
    requires bucketNum > 0 && |table| == 7 * bucketNum && Built(first, Rows(table, bucketNum), leaves, nFailed)
    requires Leads(first, last, bids, clear, outs, compStash) && |sizes| <= |flowIDs|
    requires Lookups(flowIDs, sizes, list, bucketNum, first.mem.Keys, hash)
    requires |sizes| < |flowIDs| ==> !Room(last, hash(flowIDs[|sizes|]) % bucketNum)
    ensures nFailed == 0 ==>
              forall k :: 0 <= k < |sizes| && flowIDs[k] != 0 ==> sizes[k] == SizeOf(list, flowIDs[k])
    ensures bucketNum <= MAX_STASH_NUM - 8 ==> |sizes| == |flowIDs|
  {
    hide Lookups, Leads, Sound, Room, SizeOf, Mapped, Settled;
    BuiltStoresRows(first, table, bucketNum, leaves, nFailed);
    if nFailed == 0 {
      AllLookups(flowIDs, sizes, list, bucketNum, first.mem.Keys, hash);
    }
    if |sizes| < |flowIDs| && bucketNum <= MAX_STASH_NUM - 8 {
      LeadsRoom(first, last, bids, clear, outs, compStash, hash(flowIDs[|sizes|]) % bucketNum);
    }
  }

  lemma TableSize(list: seq<Item>, table: seq<Item>, stashHeavy: seq<Item>, bucketNum: nat, hash: nat -> nat)
    requires TableFor(list, table, stashHeavy, bucketNum, hash)
    ensures |table| == 7 * bucketNum && bucketNum > 0
  {}
}

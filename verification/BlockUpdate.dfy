/**
  The same update of the light part on blocks of 60 counters: the flows become blocks with
  one counter set, are condensed among themselves, merged with the table's blocks, and
  condensed again.
 */
module BlockUpdate {
  import opened BinaryArith
  import opened SortingNetworks
  import opened OddEvenSorting
  import opened RangeSorting
  import opened GroupScan
  import opened Items
  import opened SketchUpdate

  const N_RECORD: nat := 60
  const DUMMY_BLOCK: nat := 0xffff

  /** The counters of one cache-line block. */
  type Row = s: seq<Counter> | |s| == 60 witness seq(60, _ => 0)

  /** Bytewise maximum of two blocks. */
  function MaxRow(a: Row, b: Row): Row {
    seq(N_RECORD, j requires 0 <= j < N_RECORD => MaxOf(a[j], b[j]))
  }

  function Counted(r: Row, j: nat): nat {
    if j < N_RECORD then r[j] else 0
  }

  lemma MaxRowIsJoin()
    ensures IsJoin(MaxRow, Counted)
  {}

  /** A block that is zero except for one counter. */
  function Single(j: nat, c: Counter): Row {
    seq(N_RECORD, k requires 0 <= k < N_RECORD => if k == j then c else 0)
  }

  // ----- the blocks before sorting

  ghost predicate LightBlocks(a: seq<Rec<Row>>, light: seq<Counter>, num1: nat) {
    && num1 <= |a| && N_RECORD * num1 <= |light|
    && forall i :: 0 <= i < num1 ==> a[i] == Rec(i, LightRow(light, i))
  }

  /** The counters of block i. */
  function LightRow(light: seq<Counter>, i: nat): Row
    requires N_RECORD * i + N_RECORD <= |light|
  {
    light[N_RECORD * i..N_RECORD * i + N_RECORD]
  }

  /** The block of a flow: its counter's block, with only that counter set. */
  function FlowBlock(x: Item, hash: nat -> nat, numLight: nat): Rec<Row>
    requires numLight > 0
  {
    var cid := hash(x.flowID) % numLight;
    Rec(cid / N_RECORD, Single(cid % N_RECORD, Capped(x.size)))
  }

  ghost predicate HeavyBlocks(a: seq<Rec<Row>>, heavy: seq<Item>, hash: nat -> nat, numLight: nat) {
    && numLight > 0 && |heavy| <= |a|
    && (forall i :: 0 <= i < |heavy| ==> a[i] == FlowBlock(heavy[i], hash, numLight))
    && (forall i :: |heavy| <= i < |a| ==> a[i].key == DUMMY_BLOCK)
  }

  lemma HeavyKeys(a: seq<Rec<Row>>, heavy: seq<Item>, hash: nat -> nat, numLight: nat, num1: nat)
    requires HeavyBlocks(a, heavy, hash, numLight) && numLight == N_RECORD * num1
    ensures forall i :: 0 <= i < |heavy| ==> a[i].key < num1
  {
    forall i | 0 <= i < |heavy|
      ensures a[i].key < num1
    {
      var cid := hash(heavy[i].flowID) % numLight;
    }
  }

  // ----- what is condensed, cell by cell

  /**
    The flow blocks condensed to c, of which all but dummies are among the first num1: the
    best of light and condensed flow blocks is the heaviest of the cell.
   */
  lemma MergedBest(light: seq<Counter>, num1: nat, heavy: seq<Item>, hash: nat -> nat, l: seq<Rec<Row>>,
          h: seq<Rec<Row>>, c: seq<Rec<Row>>, i: nat, j: nat, v: nat)
    requires num1 <= DUMMY_BLOCK && |l| == num1 && LightBlocks(l, light, num1)
    requires HeavyBlocks(h, heavy, hash, N_RECORD * num1)
    requires Condensed(h, c, Counted, DUMMY_BLOCK) && num1 <= |c| &&
             forall k :: num1 <= k < |c| ==> c[k].key == DUMMY_BLOCK
    requires i < num1 && j < N_RECORD && Best(l + c[..num1], i, Counted, j, v)
    ensures v == Heaviest(light[N_RECORD * i + j], heavy, hash, N_RECORD * num1, N_RECORD * i + j)
  {
    MergedIsLargest(light, num1, heavy, hash, l, h, c, i, j, v);
    var cell, n := N_RECORD * i + j, N_RECORD * num1;
    hide *;
    HeaviestIsLargest(light[cell], heavy, hash, n, cell);
    LargestUnique(light[cell], v, Heaviest(light[cell], heavy, hash, n, cell), heavy, hash, n, cell);
  }

  lemma MergedIsLargest(light: seq<Counter>, num1: nat, heavy: seq<Item>, hash: nat -> nat, l: seq<Rec<Row>>,
          h: seq<Rec<Row>>, c: seq<Rec<Row>>, i: nat, j: nat, v: nat)
    requires num1 <= DUMMY_BLOCK && |l| == num1 && LightBlocks(l, light, num1)
    requires HeavyBlocks(h, heavy, hash, N_RECORD * num1)
    requires Condensed(h, c, Counted, DUMMY_BLOCK) && num1 <= |c| &&
             forall k :: num1 <= k < |c| ==> c[k].key == DUMMY_BLOCK
    requires i < num1 && j < N_RECORD && Best(l + c[..num1], i, Counted, j, v)
    ensures Largest(light[N_RECORD * i + j], v, heavy, hash, N_RECORD * num1, N_RECORD * i + j)
  {
    hide Capped, Bounds, Attained, HeavyBlocks, Condensed;
    var all := l + c[..num1];
    assert all[i] == l[i] && Counted(l[i].val, j) == light[N_RECORD * i + j];
    FlowsBelow(num1, heavy, hash, l, h, c, i, j, v);
    var k :| 0 <= k < |all| && all[k].key == i && Counted(all[k].val, j) == v;
    if k < num1 {
      assert all[k] == l[k];
    } else {
      assert all[k] == c[k - num1];
      FlowsAttain(num1, heavy, hash, h, c, k - num1, i, j, v);
    }
  }

  /** Every flow of the cell is at most the best. */
  lemma FlowsBelow(num1: nat, heavy: seq<Item>, hash: nat -> nat, l: seq<Rec<Row>>, h: seq<Rec<Row>>, c: seq<Rec<Row>>,
          i: nat, j: nat, v: nat)
    requires 0 < num1 <= DUMMY_BLOCK && |l| == num1 && HeavyBlocks(h, heavy, hash, N_RECORD * num1)
    requires Condensed(h, c, Counted, DUMMY_BLOCK) && num1 <= |c| &&
             forall k :: num1 <= k < |c| ==> c[k].key == DUMMY_BLOCK
    requires i < num1 && j < N_RECORD && Best(l + c[..num1], i, Counted, j, v)
    ensures Bounds(v, heavy, hash, N_RECORD * num1, N_RECORD * i + j)
  {
    forall k | 0 <= k < |heavy| && hash(heavy[k].flowID) % (N_RECORD * num1) == N_RECORD * i + j
      ensures Capped(heavy[k].size) <= v
    {
      assert h[k] == FlowBlock(heavy[k], hash, N_RECORD * num1);
      assert h[k].key == i && Counted(h[k].val, j) == Capped(heavy[k].size);
      assert HasKey(c, i);
      var m :| 0 <= m < |c| && c[m].key == i;
      assert Best(h, i, Counted, j, Counted(c[m].val, j));
      assert (l + c[..num1])[num1 + m] == c[m];
    }
  }

  /** A condensed flow block holds zero or a flow of the cell. */
  lemma FlowsAttain(num1: nat, heavy: seq<Item>, hash: nat -> nat, h: seq<Rec<Row>>, c: seq<Rec<Row>>, m: nat, i: nat,
          j: nat, v: nat)
    requires 0 < num1 <= DUMMY_BLOCK && HeavyBlocks(h, heavy, hash, N_RECORD * num1)
    requires Condensed(h, c, Counted, DUMMY_BLOCK)
    requires i < num1 && j < N_RECORD && m < |c| && c[m].key == i && Counted(c[m].val, j) == v
    ensures v == 0 || Attained(v, heavy, hash, N_RECORD * num1, N_RECORD * i + j)
  {
    assert Best(h, i, Counted, j, v);
    var k :| 0 <= k < |h| && h[k].key == i && Counted(h[k].val, j) == v;
    if v != 0 {
      assert h[k] == FlowBlock(heavy[k], hash, N_RECORD * num1);
      var cid := hash(heavy[k].flowID) % (N_RECORD * num1);
      assert cid / N_RECORD == i && cid % N_RECORD == j;
    }
  }

  // ----- building, sorting and writing back

  method BuildLight(dump: array<Rec<Row>>, pLight: array<Counter>, num1: nat)
    requires num1 <= dump.Length && N_RECORD * num1 <= pLight.Length
    modifies dump
    ensures LightBlocks(dump[..num1], pLight[..], num1)
  {
    var i := 0;
    while i < num1
      invariant 0 <= i <= num1
      invariant forall k :: 0 <= k < i ==> dump[k] == Rec(k, LightRow(pLight[..], k))
    {
      dump[i] := Rec(i, LightRow(pLight[..], i));
      i := i + 1;
    }
  }

  method BuildHeavy(dump: array<Rec<Row>>, num1: nat, num2: nat, pHeavy: seq<Item>, hash: nat -> nat, numLight: nat)
    requires num1 + num2 == dump.Length && |pHeavy| <= num2 && num1 <= num2 && numLight > 0
    requires num2 == if |pHeavy| > num1 then |pHeavy| else num1
    modifies dump
    ensures dump[..num1] == old(dump[..num1]) && HeavyBlocks(dump[num1..], pHeavy, hash, numLight)
  {
    hide Capped, Single;
    var i := |pHeavy|;
    while i < num1
      invariant |pHeavy| <= i && (i <= num1 || i == |pHeavy|) && dump[..num1] == old(dump[..num1])
      invariant forall k :: num1 + |pHeavy| <= k < num1 + i ==> dump[k].key == DUMMY_BLOCK
    {
      dump[num1 + i] := Rec(DUMMY_BLOCK, dump[num1 + i].val);
      i := i + 1;
    }
    i := 0;
    while i < |pHeavy|
      invariant 0 <= i <= |pHeavy| && dump[..num1] == old(dump[..num1])
      invariant forall k :: num1 + |pHeavy| <= k < num1 + num2 ==> dump[k].key == DUMMY_BLOCK
      invariant forall k :: num1 <= k < num1 + i ==> dump[k] == FlowBlock(pHeavy[k - num1], hash, numLight)
    {
      var cid := hash(pHeavy[i].flowID) % numLight;
      dump[num1 + i] := Rec(cid / N_RECORD, Single(cid % N_RECORD, Capped(pHeavy[i].size)));
      assert dump[num1 + i] == FlowBlock(pHeavy[i], hash, numLight);
      i := i + 1;
    }
    hide FlowBlock;
    ghost var a := dump[num1..];
    forall k | 0 <= k < num2
      ensures a[k] == dump[num1 + k]
    {}
    assert forall k :: 0 <= k < |pHeavy| ==> a[k] == FlowBlock(pHeavy[num1 + k - num1], hash, numLight);
  }

  ghost predicate FlowsFirst(a: seq<Rec<Row>>, n: nat) {
    && n <= |a|
    && (forall k :: 0 <= k < n ==> a[k].key < DUMMY_BLOCK)
    && (forall k :: n <= k < |a| ==> a[k].key == DUMMY_BLOCK)
  }

  /** The flow blocks sorted, condensed, and sorted again. */
  method CondenseFlows(dump: array<Rec<Row>>, num1: nat, num2: nat, n: nat)
    requires num1 + num2 == dump.Length && 0 < n <= num2 <= MAX_SORTABLE
    requires FlowsFirst(dump[num1..], n)
    modifies dump
    ensures dump[..num1] == old(dump[..num1])
    ensures Condensed(old(dump[num1..]), dump[num1..], Counted, DUMMY_BLOCK) && SortedByKey(dump[num1..])
  {
    hide Condensed, SortedByKey, ScannedFrom, SortedFrom, FlowsFirst;
    ghost var d0 := dump[..];
    GreaterKeyOrder<Row>();
    SortRange(dump, num1, num2, GreaterKey);
    ghost var d1 := dump[..];
    Scan(dump, num1, n, MaxRow, DUMMY_BLOCK);
    ghost var d2 := dump[..];
    SortRange(dump, num1, num2, GreaterKey);
    FlowsCondensed(d0, d1, d2, dump[..], num1, num2, n);
    assert d0[num1..] == old(dump[num1..]) && d0[..num1] == old(dump[..num1]);
    assert dump[..][num1..] == dump[num1..] && dump[..][..num1] == dump[..num1];
  }

  lemma FlowsStayFirst(a: seq<Rec<Row>>, s: seq<Rec<Row>>, n: nat)
    requires multiset(a) == multiset(s) && SortedByKey(s) && FlowsFirst(a, n)
    ensures FlowsFirst(s, n)
  {
    DummiesLast(a, s, n, DUMMY_BLOCK);
  }

  lemma FlowsCondensed(d0: seq<Rec<Row>>, d1: seq<Rec<Row>>, d2: seq<Rec<Row>>, d3: seq<Rec<Row>>, num1: nat, num2: nat,
          n: nat)
    requires |d0| == num1 + num2 && n <= num2 && FlowsFirst(d0[num1..], n)
    requires SortedFrom(d0, d1, num1, num2, GreaterKey, true) && SortedFrom(d2, d3, num1, num2, GreaterKey, true)
    requires ScannedFrom(d1, d2, num1, n, MaxRow, DUMMY_BLOCK)
    ensures |d3| == |d0| && d3[..num1] == d0[..num1]
    ensures Condensed(d0[num1..], d3[num1..], Counted, DUMMY_BLOCK) && SortedByKey(d3[num1..])
  {
    hide Scanned, Condensed, SortedByKey, SortedFrom, FlowsFirst;
    SortedRange(d0, d1, num1, num2);
    SortedRange(d2, d3, num1, num2);
    var a, s, r, r' := d0[num1..], d1[num1..], d2[num1..], d3[num1..];
    assert d0[num1..num1 + num2] == a && d1[num1..num1 + num2] == s && d2[num1..num1 + num2] == r &&
        d3[num1..num1 + num2] == r';
    FlowsStayFirst(a, s, n);
    var head, pad := d1[num1..num1 + n], d1[num1 + n..];
    assert head == s[..n] && pad == s[n..] && s == head + pad && r == Scanned(head, MaxRow, DUMMY_BLOCK) + pad;
    HeadSorted(s, n);
    MaxRowIsJoin();
    ScanCondenses(head, MaxRow, Counted, DUMMY_BLOCK);
    PadFree(s, n);
    CondensedPadded(head, Scanned(head, MaxRow, DUMMY_BLOCK), pad, Counted, DUMMY_BLOCK);
    SourcePermuted(s, a, r, Counted, DUMMY_BLOCK);
    ResultPermuted(a, r, r', Counted, DUMMY_BLOCK);
  }

  lemma PadFree(s: seq<Rec<Row>>, n: nat)
    requires FlowsFirst(s, n)
    ensures n <= |s| && forall k :: 0 <= k < |s[n..]| ==> s[n..][k].key == DUMMY_BLOCK
  {}

  lemma HeadSorted<V>(s: seq<Rec<V>>, n: nat)
    requires SortedByKey(s) && n <= |s|
    ensures SortedByKey(s[..n])
  {}

  // ----- merging with the table

  /** Condensed and sorted, the flow blocks take the first places: there are at most as many as blocks of the table. */
  lemma FlowsFit(h: seq<Rec<Row>>, c: seq<Rec<Row>>, heavy: seq<Item>, hash: nat -> nat, num1: nat)
    requires 0 < num1 <= DUMMY_BLOCK && HeavyBlocks(h, heavy, hash, N_RECORD * num1)
    requires Condensed(h, c, Counted, DUMMY_BLOCK) && SortedByKey(c)
    ensures forall k :: 0 <= k < |c| ==> c[k].key < num1 || c[k].key == DUMMY_BLOCK
    ensures forall k :: num1 <= k < |c| ==> c[k].key == DUMMY_BLOCK
  {
    HeavyKeys(h, heavy, hash, N_RECORD * num1, num1);
    forall k | 0 <= k < |c|
      ensures c[k].key < num1 || c[k].key == DUMMY_BLOCK
      ensures k >= num1 ==> c[k].key == DUMMY_BLOCK
    {
      if c[k].key != DUMMY_BLOCK {
        assert Best(h, c[k].key, Counted, 0, Counted(c[k].val, 0));
        KeysAtLeast(c, num1, DUMMY_BLOCK, k);
      }
    }
  }

  lemma MergedCover(light: seq<Counter>, num1: nat, l: seq<Rec<Row>>, c: seq<Rec<Row>>)
    requires num1 <= DUMMY_BLOCK && |l| == num1 <= |c| && LightBlocks(l, light, num1)
    requires forall k :: 0 <= k < |c| ==> c[k].key < num1 || c[k].key == DUMMY_BLOCK
    ensures Covers(l + c[..num1], num1, DUMMY_BLOCK)
  {
    var all := l + c[..num1];
    forall i | 0 <= i < num1
      ensures HasKey(all, i)
    {
      assert all[i].key == i;
    }
  }

  /** Table and flow blocks merged, condensed, and sorted. */
  method MergeFlows(dump: array<Rec<Row>>, num1: nat)
    requires IsPow2(num1) && 2 * num1 <= dump.Length && 2 * num1 <= MAX_SORTABLE
    requires SortedByKey(dump[..num1]) && SortedByKey(dump[num1..])
    modifies dump
    ensures Condensed(old(dump[..2 * num1]), dump[..2 * num1], Counted, DUMMY_BLOCK) && SortedByKey(dump[..2 * num1])
  {
    hide Condensed, SortedByKey, ScannedFrom, SortedFrom, IsPow2, SortedOn, StrictWeakOrder;
    ghost var n, d0 := 2 * num1, dump[..];
    DoublePow2(num1);
    GreaterKeyOrder<Row>();
    SortedHalves(d0, num1);
    var oeBlockASC := new OddEvenMergeSorter<Rec<Row>>(GreaterKey);
    assert 0 + num1 * 2 / 2 == num1;
    oeBlockASC.Merge(dump, 0, num1 * 2);
    ghost var d1 := dump[..];
    Scan(dump, 0, num1 * 2, MaxRow, DUMMY_BLOCK);
    ghost var d2 := dump[..];
    SortRange(dump, 0, num1 * 2, GreaterKey);
    MergedCondensed(d0, d1, d2, dump[..], n);
    assert dump[..][..n] == dump[..n] && d0[..n] == old(dump[..n]);
  }

  lemma SortedHalves(d: seq<Rec<Row>>, num1: nat)
    requires 2 * num1 <= |d| && SortedByKey(d[..num1]) && SortedByKey(d[num1..])
    ensures SortedOn(d, 0, num1, GreaterKey, true) && SortedOn(d, num1, 2 * num1, GreaterKey, true)
  {
    forall i, j | num1 <= i < j < 2 * num1
      ensures !GreaterKey(d[i], d[j])
    {
      assert d[num1..][i - num1].key <= d[num1..][j - num1].key;
    }
    forall i, j | 0 <= i < j < num1
      ensures !GreaterKey(d[i], d[j])
    {
      assert d[..num1][i].key <= d[..num1][j].key;
    }
  }

  lemma MergedCondensed(d0: seq<Rec<Row>>, d1: seq<Rec<Row>>, d2: seq<Rec<Row>>, d3: seq<Rec<Row>>, n: nat)
    requires n <= |d0|
    requires SortedFrom(d0, d1, 0, n, GreaterKey, true) && SortedFrom(d2, d3, 0, n, GreaterKey, true)
    requires ScannedFrom(d1, d2, 0, n, MaxRow, DUMMY_BLOCK)
    ensures |d3| == |d0| && Condensed(d0[..n], d3[..n], Counted, DUMMY_BLOCK) && SortedByKey(d3[..n])
  {
    hide Scanned, Condensed, SortedByKey, SortedFrom;
    SortedRange(d0, d1, 0, n);
    SortedRange(d2, d3, 0, n);
    MaxRowIsJoin();
    var s := d1[0..0 + n];
    ScanCondenses(s, MaxRow, Counted, DUMMY_BLOCK);
    SourcePermuted(s, d0[..n], d2[0..0 + n], Counted, DUMMY_BLOCK);
    ResultPermuted(d0[..n], d2[0..0 + n], d3[..n], Counted, DUMMY_BLOCK);
  }

  // ----- writing back

  /** Block i of r is what block i of the table becomes. */
  ghost predicate TableBlocks(r: seq<Rec<Row>>, light: seq<Counter>, num1: nat, heavy: seq<Item>, hash: nat -> nat) {
    && 0 < num1 <= |r| && N_RECORD * num1 <= |light|
    && forall i, j :: 0 <= i < num1 && 0 <= j < N_RECORD ==>
         r[i].val[j] == Heaviest(light[N_RECORD * i + j], heavy, hash, N_RECORD * num1, N_RECORD * i + j)
  }

  lemma MergedTable(light: seq<Counter>, num1: nat, heavy: seq<Item>, hash: nat -> nat, l: seq<Rec<Row>>,
          h: seq<Rec<Row>>, c: seq<Rec<Row>>, r: seq<Rec<Row>>)
    requires 0 < num1 <= DUMMY_BLOCK && |l| == num1 <= |c| && LightBlocks(l, light, num1)
    requires HeavyBlocks(h, heavy, hash, N_RECORD * num1)
    requires Condensed(h, c, Counted, DUMMY_BLOCK) && SortedByKey(c)
    requires Condensed(l + c[..num1], r, Counted, DUMMY_BLOCK) && SortedByKey(r)
    ensures TableBlocks(r, light, num1, heavy, hash)
  {
    hide Condensed, SortedByKey, Heaviest, LightBlocks, HeavyBlocks, Best, Covers;
    FlowsFit(h, c, heavy, hash, num1);
    MergedCover(light, num1, l, c);
    var all := l + c[..num1];
    TableInPlace(all, r, num1, DUMMY_BLOCK, Counted);
    LightLength(l, light, num1);
    forall i, j | 0 <= i < num1 && 0 <= j < N_RECORD
      ensures r[i].val[j] == Heaviest(light[N_RECORD * i + j], heavy, hash, N_RECORD * num1, N_RECORD * i + j)
    {
      var obs: (Row, nat) -> nat := Counted;
      assert Best(all, i, Counted, j, obs(r[i].val, j));
      MergedBest(light, num1, heavy, hash, l, h, c, i, j, r[i].val[j]);
    }
  }

  lemma LightLength(l: seq<Rec<Row>>, light: seq<Counter>, num1: nat)
    requires LightBlocks(l, light, num1)
    ensures N_RECORD * num1 <= |light|
  {}

  method WriteBack(dump: array<Rec<Row>>, pLight: array<Counter>, num1: nat, ghost heavy: seq<Item>,
          ghost hash: nat -> nat)
    requires num1 <= dump.Length && TableBlocks(dump[..], pLight[..], num1, heavy, hash)
    modifies pLight
    ensures Updated(old(pLight[..]), pLight[..], N_RECORD * num1, heavy, hash)
  {
    hide Heaviest;
    ghost var light, r := pLight[..], dump[..];
    var i := 0;
    while i < num1
      invariant 0 <= i <= num1 && dump[..] == r
      invariant forall k :: 0 <= k < N_RECORD * i ==> pLight[k] == Heaviest(light[k], heavy, hash, N_RECORD * num1, k)
      invariant forall k :: N_RECORD * i <= k < pLight.Length ==> pLight[k] == light[k]
    {
      var j := 0;
      while j < N_RECORD
        invariant 0 <= j <= N_RECORD && dump[..] == r
        invariant forall k ::
                    0 <= k < N_RECORD * i + j ==> pLight[k] == Heaviest(light[k], heavy, hash, N_RECORD * num1, k)
        invariant forall k :: N_RECORD * i + j <= k < pLight.Length ==> pLight[k] == light[k]
      {
        assert r[i] == dump[i];
        pLight[N_RECORD * i + j] := dump[i].val[j];
        j := j + 1;
      }
      i := i + 1;
    }
    HeaviestTableUpdated(light, pLight[..], N_RECORD * num1, heavy, hash);
  }

  /** The oblivious update in blocks, for a power of two of full blocks. */
  method OUpdateCUSketch_BEx(pLight: array<Counter>, numLight: nat, pHeavy: seq<Item>, hash: nat -> nat)
    requires numLight <= pLight.Length && numLight % N_RECORD == 0 && IsPow2(numLight / N_RECORD) &&
             numLight / N_RECORD < DUMMY_BLOCK
    requires 0 < |pHeavy| <= MAX_SORTABLE
    modifies pLight
    ensures Updated(old(pLight[..]), pLight[..], numLight, pHeavy, hash)
  {
    hide Condensed, SortedByKey, LightBlocks, HeavyBlocks, IsPow2, TableBlocks, Updated;
    var num1Block := numLight / N_RECORD;
    assert numLight == N_RECORD * num1Block && num1Block > 0 by { DoublePow2(num1Block); }
    var num2Block := |pHeavy|;
    num2Block := if num2Block > num1Block then num2Block else num1Block;
    var dump := new Rec<Row>[num1Block + num2Block](_ => Rec(0, Single(0, 0)));
    BuildLight(dump, pLight, num1Block);
    ghost var light, l := pLight[..], dump[..num1Block];
    BuildHeavy(dump, num1Block, num2Block, pHeavy, hash, numLight);
    ghost var h := dump[num1Block..];
    FlowsStart(h, pHeavy, hash, num1Block);
    CondenseFlows(dump, num1Block, num2Block, |pHeavy|);
    ghost var c := dump[num1Block..];
    LightSorted(l, light, num1Block);
    assert dump[..2 * num1Block] == l + c[..num1Block];
    MergeFlows(dump, num1Block);
    MergedTable(light, num1Block, pHeavy, hash, l, h, c, dump[..2 * num1Block]);
    TableBlocksLonger(dump[..2 * num1Block], dump[2 * num1Block..], light, num1Block, pHeavy, hash);
    assert dump[..2 * num1Block] + dump[2 * num1Block..] == dump[..];
    WriteBack(dump, pLight, num1Block, pHeavy, hash);
  }

  lemma FlowsStart(h: seq<Rec<Row>>, heavy: seq<Item>, hash: nat -> nat, num1: nat)
    requires 0 < num1 < DUMMY_BLOCK && HeavyBlocks(h, heavy, hash, N_RECORD * num1)
    ensures FlowsFirst(h, |heavy|)
  {
    HeavyKeys(h, heavy, hash, N_RECORD * num1, num1);
  }

  lemma LightSorted(l: seq<Rec<Row>>, light: seq<Counter>, num1: nat)
    requires LightBlocks(l, light, num1) && |l| == num1
    ensures SortedByKey(l)
  {}

  lemma TableBlocksLonger(r: seq<Rec<Row>>, rest: seq<Rec<Row>>, light: seq<Counter>, num1: nat, heavy: seq<Item>,
          hash: nat -> nat)
    requires TableBlocks(r, light, num1, heavy, hash)
    ensures TableBlocks(r + rest, light, num1, heavy, hash)
  {}
}

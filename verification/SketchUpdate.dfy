/**
  Adding the heavy flows to the light part of the sketch: each counter becomes the maximum
  of itself and the capped sizes of the flows that hash to it.  The direct loops, which
  reveal the counters they touch, and the oblivious sort-scan-sort compute the same table.
 */
module SketchUpdate {
  import opened BinaryArith
  import opened SortingNetworks
  import opened BitonicSorting
  import opened GroupScan
  import opened Items

  /** An eight-bit counter. */
  type Counter = x: nat | x < 256

  function Capped(size: nat): Counter {
    if size > 255 then 255 else size
  }

  /** Counter i after all heavy flows: the largest of it and the capped sizes of the flows in its cell. */
  function Heaviest(c: Counter, heavy: seq<Item>, hash: nat -> nat, numLight: nat, i: nat): Counter
    requires numLight > 0
    decreases |heavy|, c, hash, numLight, i
  {
    if heavy == [] then c
    else
      var n := |heavy| - 1;
      var m := Heaviest(c, heavy[..n], hash, numLight, i);
      var size := Capped(heavy[n].size);
      if hash(heavy[n].flowID) % numLight == i && size > m then size else m
  }

  /** v bounds the sizes, up to 255, of the flows that hash to cell i of n. */
  ghost predicate Bounds(v: nat, heavy: seq<Item>, hash: nat -> nat, n: nat, i: nat)
    requires n > 0
  {
    forall k :: 0 <= k < |heavy| && hash(heavy[k].flowID) % n == i ==>
      (if heavy[k].size > 255 then 255 else heavy[k].size) <= v
  }

  /** v is such a size. */
  ghost predicate Attained(v: nat, heavy: seq<Item>, hash: nat -> nat, n: nat, i: nat)
    requires n > 0
  {
    exists k ::
      && 0 <= k < |heavy| && hash(heavy[k].flowID) % n == i
      && v == if heavy[k].size > 255 then 255 else heavy[k].size
  }

  /** v is the largest of the counter c and the sizes, up to 255, of the flows that hash to cell i of n. */
  ghost predicate Largest(c: Counter, v: nat, heavy: seq<Item>, hash: nat -> nat, n: nat, i: nat)
    requires n > 0
  {
    c <= v && Bounds(v, heavy, hash, n, i) && (v == c || Attained(v, heavy, hash, n, i))
  }

  /** There is only one such v. */
  lemma LargestUnique(c: Counter, v: nat, w: nat, heavy: seq<Item>, hash: nat -> nat, n: nat, i: nat)
    requires n > 0 && Largest(c, v, heavy, hash, n, i) && Largest(c, w, heavy, hash, n, i)
    ensures v == w
  {}

  /** What the loops compute bounds the counter and every flow of the cell, and is one of them. */
  lemma {:induction false} HeaviestIsLargest(c: Counter, heavy: seq<Item>, hash: nat -> nat, numLight: nat, i: nat)
    requires numLight > 0
    ensures Largest(c, Heaviest(c, heavy, hash, numLight, i), heavy, hash, numLight, i)
    decreases |heavy|
  {
    if heavy == [] {
    } else {
      var n := |heavy| - 1;
      HeaviestIsLargest(c, heavy[..n], hash, numLight, i);
      var m := Heaviest(c, heavy[..n], hash, numLight, i);
      if m != c {
        var k :| 0 <= k < n && hash(heavy[..n][k].flowID) % numLight == i && Capped(heavy[..n][k].size) == m;
        assert heavy[k] == heavy[..n][k];
      }
      forall k | 0 <= k < |heavy| && hash(heavy[k].flowID) % numLight == i
        ensures Capped(heavy[k].size) <= Heaviest(c, heavy, hash, numLight, i)
      {
        if k < n {
          assert heavy[k] == heavy[..n][k];
        }
      }
    }
  }

  /**
    The table the light part becomes: every counter is the largest of what it was and the
    sizes of its flows, and nothing behind the counters changes.
   */
  ghost predicate Updated(light: seq<Counter>, light': seq<Counter>, numLight: nat, heavy: seq<Item>, hash: nat -> nat)
  {
    && |light'| == |light| && 0 < numLight <= |light|
    && (forall i :: 0 <= i < numLight ==> Largest(light[i], light'[i], heavy, hash, numLight, i))
    && (forall i :: numLight <= i < |light| ==> light'[i] == light[i])
  }

  /** The same, cell by cell computed. */
  ghost predicate HeaviestTable(light: seq<Counter>, light': seq<Counter>, numLight: nat, heavy: seq<Item>,
          hash: nat -> nat)
  {
    && |light'| == |light| && 0 < numLight <= |light|
    && (forall i :: 0 <= i < numLight ==> light'[i] == Heaviest(light[i], heavy, hash, numLight, i))
    && (forall i :: numLight <= i < |light| ==> light'[i] == light[i])
  }

  lemma HeaviestTableUpdated(light: seq<Counter>, light': seq<Counter>, numLight: nat, heavy: seq<Item>,
          hash: nat -> nat)
    requires HeaviestTable(light, light', numLight, heavy, hash)
    ensures Updated(light, light', numLight, heavy, hash)
  {
    hide Largest, Heaviest;
    forall i | 0 <= i < numLight
      ensures Largest(light[i], light'[i], heavy, hash, numLight, i)
    {
      HeaviestIsLargest(light[i], heavy, hash, numLight, i);
    }
  }

  // ----- the direct loops

  method UpdateCUSketch_NO(pLight: array<Counter>, numLight: nat, pHeavy: seq<Item>, hash: nat -> nat)
    requires 0 < numLight <= pLight.Length
    modifies pLight
    ensures Updated(old(pLight[..]), pLight[..], numLight, pHeavy, hash)
  {
    ghost var light := pLight[..];
    var i := 0;
    assert pHeavy[..|pHeavy|] == pHeavy;
    while i < |pHeavy|
      invariant 0 <= i <= |pHeavy| && HeaviestTable(light, pLight[..], numLight, pHeavy[..i], hash)
    {
      assert pHeavy[..i + 1][..i] == pHeavy[..i];
      var idx := hash(pHeavy[i].flowID) % numLight;
      var size: nat := pHeavy[i].size;
      if size > 255 {
        size := 255;
      }
      if size > pLight[idx] {
        pLight[idx] := size;
      }
      i := i + 1;
    }
    HeaviestTableUpdated(light, pLight[..], numLight, pHeavy, hash);
  }

  /** The same with a scan over all counters for every flow. */
  method UpdateCUSketch_Scan(pLight: array<Counter>, numLight: nat, pHeavy: seq<Item>, hash: nat -> nat)
    requires 0 < numLight <= pLight.Length
    modifies pLight
    ensures Updated(old(pLight[..]), pLight[..], numLight, pHeavy, hash)
  {
    ghost var light := pLight[..];
    var i := 0;
    assert pHeavy[..|pHeavy|] == pHeavy;
    while i < |pHeavy|
      invariant 0 <= i <= |pHeavy| && HeaviestTable(light, pLight[..], numLight, pHeavy[..i], hash)
    {
      assert pHeavy[..i + 1][..i] == pHeavy[..i];
      var idx := hash(pHeavy[i].flowID) % numLight;
      var size: Counter := Capped(pHeavy[i].size);
      ghost var before := pLight[..];
      var j := 0;
      while j < numLight
        invariant 0 <= j <= numLight
        invariant pLight[..] == if idx < j && size > before[idx] then before[idx := size] else before
      {
        var cond := j == idx;
        var max := OMove(size, pLight[j], size > pLight[j]);
        pLight[idx] := OMove(max, pLight[idx], cond);
        j := j + 1;
      }
      i := i + 1;
    }
    HeaviestTableUpdated(light, pLight[..], numLight, pHeavy, hash);
  }

  // ----- sort, scan, sort

  /** One record for every counter, then one for every flow, then dummies. */
  ghost predicate Records(a: seq<Rec<Counter>>, light: seq<Counter>, numLight: nat, heavy: seq<Item>, hash: nat -> nat)
  {
    && 0 < numLight <= |light| && numLight + |heavy| <= |a|
    && (forall i :: 0 <= i < numLight ==> a[i] == Rec(i, light[i]))
    && (forall i :: 0 <= i < |heavy| ==> a[numLight + i] == Rec(hash(heavy[i].flowID) % numLight,
        Capped(heavy[i].size)))
    && (forall i :: numLight + |heavy| <= i < |a| ==> a[i].key == DUMMY_FLOW)
  }

  function MaxOf(a: Counter, b: Counter): Counter {
    if a > b then a else b
  }

  function Itself(c: Counter, j: nat): nat {
    c
  }

  lemma MaxIsJoin()
    ensures IsJoin(MaxOf, Itself)
  {}

  /** The best record of cell i is the counter or its heaviest flow. */
  lemma RecordsBest(a: seq<Rec<Counter>>, light: seq<Counter>, numLight: nat, heavy: seq<Item>, hash: nat -> nat,
          i: nat, v: nat)
    requires Records(a, light, numLight, heavy, hash) && i < numLight < DUMMY_FLOW && Best(a, i, Itself, 0, v)
    ensures v == Heaviest(light[i], heavy, hash, numLight, i)
  {
    RecordsLargest(a, light, numLight, heavy, hash, i, v);
    HeaviestIsLargest(light[i], heavy, hash, numLight, i);
    LargestUnique(light[i], v, Heaviest(light[i], heavy, hash, numLight, i), heavy, hash, numLight, i);
  }

  lemma RecordsLargest(a: seq<Rec<Counter>>, light: seq<Counter>, numLight: nat, heavy: seq<Item>, hash: nat -> nat,
          i: nat, v: nat)
    requires Records(a, light, numLight, heavy, hash) && i < numLight < DUMMY_FLOW && Best(a, i, Itself, 0, v)
    ensures Largest(light[i], v, heavy, hash, numLight, i)
  {
    assert a[i].key == i;
    forall k | 0 <= k < |heavy| && hash(heavy[k].flowID) % numLight == i
      ensures Capped(heavy[k].size) <= v
    {
      assert a[numLight + k] == Rec(hash(heavy[k].flowID) % numLight, Capped(heavy[k].size));
    }
    var k :| 0 <= k < |a| && a[k].key == i && Itself(a[k].val, 0) == v;
    if numLight <= k < numLight + |heavy| {
      var x := heavy[k - numLight];
      assert a[numLight + (k - numLight)] == Rec(hash(x.flowID) % numLight, Capped(x.size));
    }
  }

  lemma RecordsCover(a: seq<Rec<Counter>>, light: seq<Counter>, numLight: nat, heavy: seq<Item>, hash: nat -> nat)
    requires Records(a, light, numLight, heavy, hash) && numLight < DUMMY_FLOW
    ensures Covers(a, numLight, DUMMY_FLOW)
    ensures numLight + |heavy| <= |a|
    ensures forall k :: 0 <= k < numLight + |heavy| ==> a[k].key < DUMMY_FLOW
    ensures forall k :: numLight + |heavy| <= k < |a| ==> a[k].key == DUMMY_FLOW
  {
    forall k | 0 <= k < numLight + |heavy|
      ensures a[k].key < numLight
    {
      if k >= numLight {
        var x := heavy[k - numLight];
        assert a[numLight + (k - numLight)] == Rec(hash(x.flowID) % numLight, Capped(x.size));
      }
    }
    forall c | 0 <= c < numLight
      ensures HasKey(a, c)
    {
      assert a[c].key == c;
    }
  }

  /** The least power of two from n on. */
  lemma PaddedLength(n: nat)
    requires 0 < n <= MAX_SORTABLE
    ensures n <= Pow2(CeilLog2(n)) <= MAX_SORTABLE
  {
    CeilLog2Least(n);
    ExponentBelow(CeilLog2(n));
  }

  lemma ExponentBelow(e: nat)
    requires Pow2(e) < 2 * MAX_SORTABLE
    ensures Pow2(e) <= MAX_SORTABLE
  {
    Pow2Values();
    hide Pow2;
    if e < 30 {
      Pow2Monotone(e, 30);
    } else if e > 30 {
      Pow2Monotone(30, e);
    }
  }

  lemma {:induction false} CeilLog2Least(n: nat)
    requires n > 0
    ensures Pow2(CeilLog2(n)) < 2 * n
    decreases n
  {
    if n <= 1 {
    } else {
      CeilLog2Least((n + 1) / 2);
    }
  }

  lemma CappedIs(size: nat)
    ensures Capped(size) == OMove(255, size, size > 255)
  {}

  method BuildRecords(pLight: array<Counter>, numLight: nat, pHeavy: seq<Item>, hash: nat -> nat, length: nat)
    returns (dump: array<Rec<Counter>>)
    requires 0 < numLight <= pLight.Length && numLight + |pHeavy| <= length
    ensures fresh(dump) && dump.Length == length && Records(dump[..], pLight[..], numLight, pHeavy, hash)
  {
    hide Capped;
    dump := new Rec<Counter>[length](_ => Rec(0, 0));
    var i := numLight + |pHeavy|;
    while i < length
      invariant numLight + |pHeavy| <= i <= length
      invariant forall k :: numLight + |pHeavy| <= k < i ==> dump[k].key == DUMMY_FLOW
    {
      dump[i] := Rec(DUMMY_FLOW, dump[i].val);
      i := i + 1;
    }
    i := 0;
    while i < numLight
      invariant 0 <= i <= numLight
      invariant forall k :: numLight + |pHeavy| <= k < length ==> dump[k].key == DUMMY_FLOW
      invariant forall k :: 0 <= k < i ==> dump[k] == Rec(k, pLight[k])
    {
      dump[i] := Rec(i, pLight[i]);
      i := i + 1;
    }
    i := 0;
    while i < |pHeavy|
      invariant 0 <= i <= |pHeavy|
      invariant forall k :: numLight + |pHeavy| <= k < length ==> dump[k].key == DUMMY_FLOW
      invariant forall k :: 0 <= k < numLight ==> dump[k] == Rec(k, pLight[k])
      invariant forall k :: 0 <= k < i ==>
                  dump[numLight + k] == Rec(hash(pHeavy[k].flowID) % numLight, Capped(pHeavy[k].size))
    {
      var cnt := pHeavy[i].size;
      CappedIs(cnt);
      dump[i + numLight] := Rec(hash(pHeavy[i].flowID) % numLight, OMove(255, cnt, cnt > 255));
      i := i + 1;
    }
  }

  /** Sorted and condensed, the records are the updated table. */
  lemma TableUpdated(a: seq<Rec<Counter>>, r: seq<Rec<Counter>>, light: seq<Counter>, numLight: nat, heavy: seq<Item>,
          hash: nat -> nat)
    requires numLight <= |light| && Records(a, light, numLight, heavy, hash) && numLight < DUMMY_FLOW
    requires Condensed(a, r, Itself, DUMMY_FLOW) && SortedByKey(r)
    ensures numLight <= |r|
    ensures forall i :: 0 <= i < numLight ==> r[i].val == Heaviest(light[i], heavy, hash, numLight, i)
  {
    hide Heaviest, Condensed, SortedByKey, Best, Records, Covers;
    RecordsCover(a, light, numLight, heavy, hash);
    TableInPlace(a, r, numLight, DUMMY_FLOW, Itself);
    forall i | 0 <= i < numLight
      ensures r[i].val == Heaviest(light[i], heavy, hash, numLight, i)
    {
      var obs: (Counter, nat) -> nat := Itself;
      assert Best(a, i, Itself, 0, obs(r[i].val, 0));
      RecordsBest(a, light, numLight, heavy, hash, i, r[i].val);
    }
  }

  /** The oblivious update of the light part. */
  method OUpdateCUSketch(pLight: array<Counter>, numLight: nat, pHeavy: seq<Item>, hash: nat -> nat)
    requires 0 < numLight <= pLight.Length && numLight + |pHeavy| <= MAX_SORTABLE
    modifies pLight
    ensures Updated(old(pLight[..]), pLight[..], numLight, pHeavy, hash)
  {
    hide Heaviest, Capped, Condensed, SortedByKey, Pow2, CeilLog2, Best, Records;
    var n := numLight + |pHeavy|;
    PaddedLength(n);
    var length := Pow2(CeilLog2(n));
    var dump := BuildRecords(pLight, numLight, pHeavy, hash, length);
    ghost var a := dump[..];
    RecordsCover(a, pLight[..], numLight, pHeavy, hash);
    SortScanSort(dump, n);
    ghost var light, r := pLight[..], dump[..];
    TableUpdated(a, r, light, numLight, pHeavy, hash);
    var i := 0;
    while i < numLight
      invariant 0 <= i <= numLight && dump[..] == r
      invariant forall k :: 0 <= k < i ==> pLight[k] == Heaviest(light[k], pHeavy, hash, numLight, k)
      invariant forall k :: i <= k < pLight.Length ==> pLight[k] == light[k]
    {
      pLight[i] := dump[i].val;
      i := i + 1;
    }
    HeaviestTableUpdated(light, pLight[..], numLight, pHeavy, hash);
  }

  /** The records sorted by key, scanned, and sorted again; the first n are not dummies. */
  method SortScanSort(dump: array<Rec<Counter>>, n: nat)
    requires 0 < n <= dump.Length <= MAX_SORTABLE
    requires forall k :: 0 <= k < n ==> dump[k].key < DUMMY_FLOW
    requires forall k :: n <= k < dump.Length ==> dump[k].key == DUMMY_FLOW
    modifies dump
    ensures Condensed(old(dump[..]), dump[..], Itself, DUMMY_FLOW) && SortedByKey(dump[..])
  {
    hide Condensed, SortedByKey, ScannedFrom, SortedFrom;
    GreaterKeyOrder<Counter>();
    var bsItemASC := new BitonicSorter<Rec<Counter>>(GreaterKey);
    ghost var a := dump[..];
    bsItemASC.Sort(dump, 0, dump.Length);
    ghost var s := dump[..];
    WholeSorted(a, s);
    DummiesLast(a, s, n, DUMMY_FLOW);
    Scan(dump, 0, n, MaxOf, DUMMY_FLOW);
    ghost var r := dump[..];
    bsItemASC.Sort(dump, 0, dump.Length);
    WholeSorted(r, dump[..]);
    ScannedCondenses(a, s, n, r, dump[..]);
  }

  lemma WholeSorted(s: seq<Rec<Counter>>, r: seq<Rec<Counter>>)
    requires SortedFrom(s, r, 0, |s|, GreaterKey, true)
    ensures |r| == |s| && multiset(s) == multiset(r) && SortedByKey(r)
  {
    SortedRange(s, r, 0, |s|);
    assert s[0..0 + |s|] == s && r[0..0 + |s|] == r;
  }

  lemma ScannedCondenses(a: seq<Rec<Counter>>, s: seq<Rec<Counter>>, n: nat, r: seq<Rec<Counter>>,
          r': seq<Rec<Counter>>)
    requires multiset(a) == multiset(s) && SortedByKey(s) && n <= |s| &&
             forall k :: n <= k < |s| ==> s[k].key == DUMMY_FLOW
    requires ScannedFrom(s, r, 0, n, MaxOf, DUMMY_FLOW) && multiset(r) == multiset(r')
    ensures Condensed(a, r', Itself, DUMMY_FLOW)
  {
    hide Scanned, Condensed;
    MaxIsJoin();
    var head, pad := s[0..0 + n], s[0 + n..];
    ScanCondenses(head, MaxOf, Itself, DUMMY_FLOW);
    CondensedPadded(head, Scanned(head, MaxOf, DUMMY_FLOW), pad, Itself, DUMMY_FLOW);
    assert s == head + pad && r == r[0..0 + n] + r[0 + n..];
    SourcePermuted(s, a, r, Itself, DUMMY_FLOW);
    ResultPermuted(a, r, r', Itself, DUMMY_FLOW);
  }
}

/**
  The bucket table of the heavy-change detection: buckets of 16 flows, with a spill area
  for the few that hold up to 32.  The first byte of a spilled bucket says where in the
  spill area it went.
 */
module FlowBuckets {
  import opened Rearrangements
  import opened Items
  import opened FlowDelta

  const BT_BUCKET_SIZE: nat := 16
  const BT_BUCKET_MAX_SIZE: nat := 32

  /** The table, the spill area, the length of each bucket, and how many are spilled. */
  datatype Store = Store(table: seq<Item>, tmp: seq<Item>, len: seq<nat>, spilled: nat)

  /** Overwriting and reading the first byte of a flow id. */
  function WithByte(x: Item, b: nat): (y: Item)
    requires b < 256
    ensures ByteOf(y) == b
  {
    x.(flowID := x.flowID - x.flowID % 256 + b)
  }

  function ByteOf(x: Item): nat {
    x.flowID % 256
  }

  ghost predicate Spilled(st: Store, b: nat)
    requires b < |st.len|
  {
    st.len[b] > 16
  }

  /** Where in the spill area a bucket is. */
  ghost function Loca(st: Store, b: nat): nat
    requires 16 * b < |st.table|
  {
    ByteOf(st.table[16 * b])
  }

  ghost predicate Laid(st: Store, maxnumBucket: nat) {
    && |st.table| == 16 * |st.len| && |st.tmp| == 32 * maxnumBucket
    && st.spilled <= maxnumBucket <= 256
    && (forall b :: 0 <= b < |st.len| ==> st.len[b] <= 32)
    && (forall b :: 0 <= b < |st.len| && Spilled(st, b) ==> Loca(st, b) < st.spilled)
    && (forall b, c :: 0 <= b < c < |st.len| && Spilled(st, b) && Spilled(st, c) ==> Loca(st, b) != Loca(st, c))
  }

  /** What a bucket holds. */
  ghost function Contents(st: Store, maxnumBucket: nat, b: nat): (r: seq<Item>)
    requires Laid(st, maxnumBucket) && b < |st.len|
    ensures |r| == st.len[b]
  {
    if Spilled(st, b) then st.tmp[32 * Loca(st, b)..32 * Loca(st, b) + st.len[b]]
    else st.table[16 * b..16 * b + st.len[b]]
  }

  /** Bucket b got the item x, and no other bucket changed. */
  ghost predicate Added(st: Store, st': Store, maxnumBucket: nat, b: nat, x: Item)
    requires Laid(st, maxnumBucket) && b < |st.len|
  {
    && Laid(st', maxnumBucket) && st'.len == st.len[b := st.len[b] + 1]
    && Contents(st', maxnumBucket, b) == Contents(st, maxnumBucket, b) + [x]
    && forall c :: 0 <= c < |st.len| && c != b ==> Contents(st', maxnumBucket, c) == Contents(st, maxnumBucket, c)
  }

  lemma AddedDirect(st: Store, maxnumBucket: nat, b: nat, x: Item, st': Store)
    requires Laid(st, maxnumBucket) && b < |st.len| && st.len[b] < 16
    requires st' == st.(table := st.table[16 * b + st.len[b] := x], len := st.len[b := st.len[b] + 1])
    ensures Added(st, st', maxnumBucket, b, x)
  {
    forall c | 0 <= c < |st.len| && Spilled(st', c)
      ensures Spilled(st, c) && Loca(st', c) == Loca(st, c)
    {}
    assert Laid(st', maxnumBucket);
    assert Contents(st', maxnumBucket, b) == Contents(st, maxnumBucket, b) + [x];
    forall c | 0 <= c < |st.len| && c != b
      ensures Contents(st', maxnumBucket, c) == Contents(st, maxnumBucket, c)
    {}
  }

  lemma AddedSpilled(st: Store, maxnumBucket: nat, b: nat, x: Item, st': Store)
    requires Laid(st, maxnumBucket) && b < |st.len| && 16 < st.len[b] < 32
    requires st' == st.(tmp := st.tmp[32 * Loca(st, b) + st.len[b] := x], len := st.len[b := st.len[b] + 1])
    ensures Added(st, st', maxnumBucket, b, x)
  {
    forall c | 0 <= c < |st.len| && Spilled(st', c)
      ensures Spilled(st, c) && Loca(st', c) == Loca(st, c)
    {}
    assert Laid(st', maxnumBucket);
    assert Contents(st', maxnumBucket, b) == Contents(st, maxnumBucket, b) + [x];
    forall c | 0 <= c < |st.len| && c != b
      ensures Contents(st', maxnumBucket, c) == Contents(st, maxnumBucket, c)
    {
      if Spilled(st, c) {
        assert Loca(st, c) != Loca(st, b);
      }
    }
  }

  /** A full bucket moves to the spill area, with the new item behind it. */
  lemma AddedBySpill(st: Store, maxnumBucket: nat, b: nat, x: Item, st': Store)
    requires Laid(st, maxnumBucket) && b < |st.len| && st.len[b] == 16 && st.spilled < maxnumBucket
    requires var at := 32 * st.spilled;
             st' == Store(st.table[16 * b := WithByte(st.table[16 * b], st.spilled)],
                          st.tmp[..at] + st.table[16 * b..16 * b + 16] + [x] + st.tmp[at + 17..],
                          st.len[b := 17], st.spilled + 1)
    ensures Added(st, st', maxnumBucket, b, x)
  {
    forall c | 0 <= c < |st.len| && c != b
      ensures Loca(st', c) == Loca(st, c) && Spilled(st', c) == Spilled(st, c)
    {}
    assert Loca(st', b) == st.spilled && Spilled(st', b);
    assert Laid(st', maxnumBucket);
    assert Contents(st', maxnumBucket, b) == Contents(st, maxnumBucket, b) + [x];
    forall c | 0 <= c < |st.len| && c != b
      ensures Contents(st', maxnumBucket, c) == Contents(st, maxnumBucket, c)
    {
      if Spilled(st, c) {
        assert Loca(st, c) < st.spilled;
      }
    }
  }

  /** The contents of bucket b became r, and no other bucket changed. */
  ghost predicate Replaced(st: Store, st': Store, maxnumBucket: nat, b: nat, r: seq<Item>)
    requires Laid(st, maxnumBucket) && b < |st.len|
  {
    && Laid(st', maxnumBucket) && st'.len == st.len
    && Contents(st', maxnumBucket, b) == r
    && forall c :: 0 <= c < |st.len| && c != b ==> Contents(st', maxnumBucket, c) == Contents(st, maxnumBucket, c)
  }

  lemma ReplacedDirect(st: Store, maxnumBucket: nat, b: nat, r: seq<Item>, st': Store)
    requires Laid(st, maxnumBucket) && b < |st.len| && !Spilled(st, b) && |r| == st.len[b]
    requires st' == st.(table := st'.table) && |st'.table| == |st.table| && st'.table[16 * b..16 * b + |r|] == r
    requires forall k :: 0 <= k < |st.table| && !(16 * b <= k < 16 * b + |r|) ==> st'.table[k] == st.table[k]
    ensures Replaced(st, st', maxnumBucket, b, r)
  {
    forall c | 0 <= c < |st.len| && c != b
      ensures Loca(st', c) == Loca(st, c)
    {}
    assert Laid(st', maxnumBucket);
    forall c | 0 <= c < |st.len| && c != b
      ensures Contents(st', maxnumBucket, c) == Contents(st, maxnumBucket, c)
    {}
  }

  lemma ReplacedSpilled(st: Store, maxnumBucket: nat, b: nat, r: seq<Item>, st': Store)
    requires Laid(st, maxnumBucket) && b < |st.len| && Spilled(st, b) && |r| == st.len[b]
    requires st' == st.(tmp := st'.tmp) && |st'.tmp| == |st.tmp|
    requires var at := 32 * Loca(st, b);
             && st'.tmp[at..at + |r|] == r
             && forall k :: 0 <= k < |st.tmp| && !(at <= k < at + |r|) ==> st'.tmp[k] == st.tmp[k]
    ensures Replaced(st, st', maxnumBucket, b, r)
  {
    forall c | 0 <= c < |st.len|
      ensures Loca(st', c) == Loca(st, c) && Spilled(st', c) == Spilled(st, c)
    {}
    assert Laid(st', maxnumBucket);
    forall c | 0 <= c < |st.len| && c != b
      ensures Contents(st', maxnumBucket, c) == Contents(st, maxnumBucket, c)
    {
      if Spilled(st, c) {
        assert Loca(st, c) != Loca(st, b);
      }
    }
  }

  // ----- the items of one bucket

  /** The flows of a list that hash to bucket b, in order. */
  ghost function InBucket(s: seq<Item>, hash: nat -> nat, n: nat, b: nat): seq<Item>
    requires n > 0
    decreases |s|, hash, n, b
  {
    if s == [] then []
    else
      var m := |s| - 1;
      InBucket(s[..m], hash, n, b) + if hash(s[m].flowID) % n == b then [s[m]] else []
  }

  lemma InBucketStep(s: seq<Item>, i: nat, hash: nat -> nat, n: nat, b: nat)
    requires n > 0 && i < |s|
    ensures InBucket(s[..i + 1], hash, n, b) ==
              InBucket(s[..i], hash, n, b) + if hash(s[i].flowID) % n == b then [s[i]] else []
  {
    assert s[..i + 1][..i] == s[..i];
  }

  /** A bucket has exactly the flows that hash to it. */
  lemma {:induction false} InBucketFlows(s: seq<Item>, hash: nat -> nat, n: nat, b: nat)
    requires n > 0 && Flows(s)
    ensures var t := InBucket(s, hash, n, b);
            && Flows(t)
            && (forall x :: x in t <==> x in s && hash(x.flowID) % n == b)
    decreases |s|
  {
    if s == [] {
    } else {
      var m := |s| - 1;
      var s', t' := s[..m], InBucket(s[..m], hash, n, b);
      assert s == s' + [s[m]];
      InBucketFlows(s', hash, n, b);
      var t := InBucket(s, hash, n, b);
      forall i, j | 0 <= i < j < |t|
        ensures t[i].flowID != t[j].flowID
      {
        if j == |t'| {
          assert t'[i] in s';
        }
      }
      forall k | 0 <= k < |t|
        ensures t[k].flowID != DUMMY_FLOW
      {
        assert t[k] in t;
      }
    }
  }

  lemma InBucketSigned(s: seq<Item>, hash: nat -> nat, n: nat, b: nat)
    requires n > 0 && Flows(s) && Signed(s)
    ensures Signed(InBucket(s, hash, n, b))
  {
    InBucketFlows(s, hash, n, b);
    var t := InBucket(s, hash, n, b);
    forall k | 0 <= k < |t|
      ensures t[k].size < 0x8000_0000
    {
      assert t[k] in s;
    }
  }

  lemma InBucketSizes(s: seq<Item>, hash: nat -> nat, n: nat, b: nat, f: nat)
    requires n > 0 && Flows(s)
    ensures SizeOf(InBucket(s, hash, n, b), f) == if hash(f) % n == b then SizeOf(s, f) else 0
    ensures HasFlow(InBucket(s, hash, n, b), f) ==> hash(f) % n == b
  {
    InBucketFlows(s, hash, n, b);
    var t := InBucket(s, hash, n, b);
    if HasFlow(s, f) && hash(f) % n == b {
      var l :| 0 <= l < |s| && s[l].flowID == f;
      assert s[l] in t;
    }
    if HasFlow(t, f) {
      var k :| 0 <= k < |t| && t[k].flowID == f;
      SizeOfFlow(t, k);
      assert t[k] in s;
      var l :| 0 <= l < |s| && s[l] == t[k];
      SizeOfFlow(s, l);
    }
  }

  // ----- putting the buckets' differences together

  ghost function Flatten(rs: seq<seq<Item>>): seq<Item>
    decreases |rs|
  {
    if rs == [] then [] else Flatten(rs[..|rs| - 1]) + rs[|rs| - 1]
  }

  /** Each bucket holds the changes of its flows. */
  ghost predicate DeltaOf(prev: seq<Item>, cur: seq<Item>, hash: nat -> nat, n: nat, rs: seq<seq<Item>>)
    requires n > 0
  {
    forall b :: 0 <= b < |rs| ==> IsDelta(InBucket(prev, hash, n, b), InBucket(cur, hash, n, b), rs[b])
  }

  /** Together the first buckets report the changes of exactly the flows that hash to them. */
  ghost predicate DeltaBelow(prev: seq<Item>, cur: seq<Item>, hash: nat -> nat, n: nat, m: nat, r: seq<Item>)
    requires n > 0
  {
    && (forall k :: 0 <= k < |r| && r[k].size > 0 ==>
          r[k].size == Change(prev, cur, r[k].flowID) && hash(r[k].flowID) % n < m)
    && (forall f :: Change(prev, cur, f) > 0 && hash(f) % n < m ==> Reported(r, f))
    && (forall k, l :: 0 <= k < l < |r| && r[k].size > 0 && r[l].size > 0 ==> r[k].flowID != r[l].flowID)
  }

  lemma {:induction false} BucketsTogether(prev: seq<Item>, cur: seq<Item>, hash: nat -> nat, n: nat,
          rs: seq<seq<Item>>, m: nat)
    requires n > 0 && Flows(prev) && Flows(cur) && DeltaOf(prev, cur, hash, n, rs) && m <= |rs|
    ensures DeltaBelow(prev, cur, hash, n, m, Flatten(rs[..m]))
    decreases m
  {
    if m == 0 {
    } else {
      var b := m - 1;
      BucketsTogether(prev, cur, hash, n, rs, b);
      assert rs[..m][..b] == rs[..b];
      OneMoreBucket(prev, cur, hash, n, b, Flatten(rs[..b]), rs[b]);
    }
  }

  lemma OneMoreBucket(prev: seq<Item>, cur: seq<Item>, hash: nat -> nat, n: nat, b: nat, r: seq<Item>, d: seq<Item>)
    requires n > 0 && Flows(prev) && Flows(cur) && DeltaBelow(prev, cur, hash, n, b, r)
    requires IsDelta(InBucket(prev, hash, n, b), InBucket(cur, hash, n, b), d)
    ensures DeltaBelow(prev, cur, hash, n, b + 1, r + d)
  {
    hide SizeOf, HasFlow, InBucket, Flows;
    var all := r + d;
    forall f: nat
      ensures Change(InBucket(prev, hash, n, b), InBucket(cur, hash, n, b), f) ==
                if hash(f) % n == b then Change(prev, cur, f) else 0
    {
      InBucketSizes(prev, hash, n, b, f);
      InBucketSizes(cur, hash, n, b, f);
    }
    forall k | 0 <= k < |all| && all[k].size > 0
      ensures all[k].size == Change(prev, cur, all[k].flowID)
      ensures if k < |r| then hash(all[k].flowID) % n < b else hash(all[k].flowID) % n == b
    {
      if k >= |r| {
        assert all[k] == d[k - |r|];
      }
    }
    forall f: nat | Change(prev, cur, f) > 0 && hash(f) % n < b + 1
      ensures Reported(all, f)
    {
      if hash(f) % n < b {
        assert Reported(r, f);
        var k :| 0 <= k < |r| && r[k].size > 0 && r[k].flowID == f;
        assert all[k] == r[k];
      } else {
        assert Reported(d, f);
        var k :| 0 <= k < |d| && d[k].size > 0 && d[k].flowID == f;
        assert all[|r| + k] == d[k];
      }
    }
    forall k, l | 0 <= k < l < |all| && all[k].size > 0 && all[l].size > 0
      ensures all[k].flowID != all[l].flowID
    {
      if k >= |r| {
        assert all[k] == d[k - |r|] && all[l] == d[l - |r|];
      }
    }
  }

  lemma {:induction false} FlattenFrom(rs: seq<seq<Item>>, x: Item) returns (b: nat)
    requires x in Flatten(rs)
    ensures b < |rs| && x in rs[b]
    decreases |rs|
  {
    b := |rs| - 1;
    if x in rs[b] {
    } else {
      b := FlattenFrom(rs[..b], x);
    }
  }

  lemma AllZeros(prev: seq<Item>, cur: seq<Item>, hash: nat -> nat, n: nat, rs: seq<seq<Item>>)
    requires n > 0 && Flows(prev) && Flows(cur) && DeltaOf(prev, cur, hash, n, rs)
    ensures ZeroEntries(prev, cur, Flatten(rs))
  {
    hide InBucket, Flows;
    var r := Flatten(rs);
    forall k | 0 <= k < |r| && r[k].size == 0
      ensures r[k].flowID == DUMMY_FLOW || HasFlow(prev, r[k].flowID) != HasFlow(cur, r[k].flowID)
    {
      var b := FlattenFrom(rs, r[k]);
      BucketZero(prev, cur, hash, n, b, rs[b], r[k]);
    }
  }

  lemma BucketZero(prev: seq<Item>, cur: seq<Item>, hash: nat -> nat, n: nat, b: nat, d: seq<Item>, x: Item)
    requires n > 0 && Flows(prev) && Flows(cur) && x in d && x.size == 0
    requires IsDelta(InBucket(prev, hash, n, b), InBucket(cur, hash, n, b), d)
    ensures x.flowID == DUMMY_FLOW || HasFlow(prev, x.flowID) != HasFlow(cur, x.flowID)
  {
    hide HasFlow, Flows, InBucket, Change, Reported;
    var k :| 0 <= k < |d| && d[k] == x;
    InBucketHas(prev, hash, n, b, x.flowID);
    InBucketHas(cur, hash, n, b, x.flowID);
  }

  lemma InBucketHas(s: seq<Item>, hash: nat -> nat, n: nat, b: nat, f: nat)
    requires n > 0 && Flows(s)
    ensures HasFlow(InBucket(s, hash, n, b), f) <==> hash(f) % n == b && HasFlow(s, f)
  {
    InBucketFlows(s, hash, n, b);
    var t := InBucket(s, hash, n, b);
    if HasFlow(s, f) && hash(f) % n == b {
      var l :| 0 <= l < |s| && s[l].flowID == f;
      assert s[l] in t;
    }
    if HasFlow(t, f) {
      var k :| 0 <= k < |t| && t[k].flowID == f;
      assert t[k] in t && t[k] in s;
    }
  }

  /** All buckets together report the change of every flow. */
  lemma AllBuckets(prev: seq<Item>, cur: seq<Item>, hash: nat -> nat, n: nat, rs: seq<seq<Item>>)
    requires n > 0 && Flows(prev) && Flows(cur) && DeltaOf(prev, cur, hash, n, rs) && |rs| == n
    ensures IsDelta(prev, cur, Flatten(rs))
  {
    hide ZeroEntries;
    AllZeros(prev, cur, hash, n, rs);
    BucketsTogether(prev, cur, hash, n, rs, n);
    assert rs[..n] == rs;
    forall f: nat | Change(prev, cur, f) > 0
      ensures Reported(Flatten(rs), f)
    {
      assert hash(f) % n < n;
    }
  }

  /** The order in which flows arrive does not matter. */
  lemma FlowsPermuted(s: seq<Item>, s': seq<Item>)
    requires Flows(s) && multiset(s) == multiset(s')
    ensures Flows(s') && forall f :: SizeOf(s', f) == SizeOf(s, f) && (HasFlow(s', f) <==> HasFlow(s, f))
  {
    forall i, j | 0 <= i < j < |s'|
      ensures s'[i].flowID != s'[j].flowID
    {
      KeyOnce(s, s', (x: Item) => x.flowID, i, j);
    }
    forall k | 0 <= k < |s'|
      ensures s'[k] in s
    {
      assert s'[k] in multiset(s);
    }
    forall f: nat
      ensures SizeOf(s', f) == SizeOf(s, f) && (HasFlow(s', f) <==> HasFlow(s, f))
    {
      SameSize(s, s', f);
      if HasFlow(s, f) {
        SameFlow(s, s', f);
      } else if HasFlow(s', f) {
        SameFlow(s', s, f);
      }
    }
  }

  lemma SameFlow(s: seq<Item>, s': seq<Item>, f: nat)
    requires multiset(s) == multiset(s') && HasFlow(s, f)
    ensures HasFlow(s', f)
  {
    var k :| 0 <= k < |s| && s[k].flowID == f;
    assert s[k] in multiset(s');
  }

  lemma SameSize(s: seq<Item>, s': seq<Item>, f: nat)
    requires Flows(s) && Flows(s') && multiset(s) == multiset(s')
    ensures SizeOf(s', f) == SizeOf(s, f)
  {
    if HasFlow(s', f) {
      SameFlow(s', s, f);
    }
    if HasFlow(s, f) {
      SameFlow(s, s', f);
      var k :| 0 <= k < |s| && s[k].flowID == f;
      SizeOfFlow(s, k);
      assert s[k] in multiset(s');
      var l :| 0 <= l < |s'| && s'[l] == s[k];
      SizeOfFlow(s', l);
    }
  }

  // ----- how full the buckets get

  ghost function Hashed(hash: nat -> nat, n: nat, b: nat): (f: Item -> nat)
    requires n > 0
  {
    (x: Item) => if hash(x.flowID) % n == b then 1 else 0
  }

  lemma {:induction false} InBucketLength(s: seq<Item>, hash: nat -> nat, n: nat, b: nat)
    requires n > 0
    ensures |InBucket(s, hash, n, b)| == Sum(s, Hashed(hash, n, b))
    decreases |s|
  {
    if s == [] {
    } else {
      InBucketLength(s[..|s| - 1], hash, n, b);
    }
  }

  /** How many flows of a list hash to bucket b does not depend on their order, and only grows with the list. */
  lemma LoadPermuted(s: seq<Item>, s': seq<Item>, hash: nat -> nat, n: nat, b: nat)
    requires n > 0 && multiset(s) == multiset(s')
    ensures |InBucket(s', hash, n, b)| == |InBucket(s, hash, n, b)|
  {
    InBucketLength(s, hash, n, b);
    InBucketLength(s', hash, n, b);
    SumPermuted(s, s', Hashed(hash, n, b));
  }

  lemma LoadGrows(s: seq<Item>, i: nat, hash: nat -> nat, n: nat, b: nat)
    requires n > 0 && i <= |s|
    ensures |InBucket(s[..i], hash, n, b)| <= |InBucket(s, hash, n, b)|
  {
    InBucketLength(s[..i], hash, n, b);
    InBucketLength(s, hash, n, b);
    SumConcat(s[..i], s[i..], Hashed(hash, n, b));
    assert s == s[..i] + s[i..];
  }

  /** The flows of both epochs that hash to bucket b. */
  ghost function Load(prev: seq<Item>, cur: seq<Item>, hash: nat -> nat, n: nat, b: nat): nat
    requires n > 0
  {
    |InBucket(prev, hash, n, b)| + |InBucket(cur, hash, n, b)|
  }

  ghost function Overfull(prev: seq<Item>, cur: seq<Item>, hash: nat -> nat, n: nat): set<nat>
    requires n > 0
  {
    set b: nat | b < n && Load(prev, cur, hash, n, b) > 16
  }

  /** Every bucket fits, before and after spilling, and the spill area has room for all that spill. */
  ghost predicate Fits(prev: seq<Item>, cur: seq<Item>, hash: nat -> nat, n: nat, maxnumBucket: nat)
    requires n > 0
  {
    && (forall b: nat :: b < n ==> |InBucket(prev, hash, n, b)| <= 16)
    && (forall b: nat :: b < n ==> Load(prev, cur, hash, n, b) <= 32)
    && |Overfull(prev, cur, hash, n)| <= maxnumBucket
  }

  lemma FitsPermuted(prev: seq<Item>, cur: seq<Item>, prev': seq<Item>, cur': seq<Item>, hash: nat -> nat, n: nat,
          maxnumBucket: nat)
    requires n > 0 && multiset(prev) == multiset(prev') && multiset(cur) == multiset(cur')
    ensures Fits(prev, cur, hash, n, maxnumBucket) ==> Fits(prev', cur', hash, n, maxnumBucket)
  {
    hide InBucket;
    forall b: nat
      ensures |InBucket(prev', hash, n, b)| == |InBucket(prev, hash, n, b)|
      ensures Load(prev', cur', hash, n, b) == Load(prev, cur, hash, n, b)
    {
      LoadPermuted(prev, prev', hash, n, b);
      LoadPermuted(cur, cur', hash, n, b);
    }
    assert Overfull(prev, cur, hash, n) == Overfull(prev', cur', hash, n) by {
      hide Load;
    }
  }

  ghost function HashedBelow(hash: nat -> nat, n: nat, m: nat): (f: Item -> nat)
    requires n > 0
  {
    (x: Item) => if hash(x.flowID) % n < m then 1 else 0
  }

  lemma {:induction false} BelowStep(s: seq<Item>, hash: nat -> nat, n: nat, m: nat)
    requires n > 0
    ensures Sum(s, HashedBelow(hash, n, m + 1)) == Sum(s, HashedBelow(hash, n, m)) + |InBucket(s, hash, n, m)|
    decreases |s|
  {
    if s == [] {
    } else {
      BelowStep(s[..|s| - 1], hash, n, m);
    }
  }

  /** The buckets together hold every flow once. */
  lemma {:induction false} FlattenLength(prev: seq<Item>, cur: seq<Item>, hash: nat -> nat, n: nat, rs: seq<seq<Item>>,
          m: nat)
    requires n > 0 && m <= |rs| && forall b :: 0 <= b < |rs| ==> |rs[b]| == Load(prev, cur, hash, n, b)
    ensures |Flatten(rs[..m])| == Sum(prev, HashedBelow(hash, n, m)) + Sum(cur, HashedBelow(hash, n, m))
    decreases m
  {
    if m == 0 {
      SumConstant(prev, HashedBelow(hash, n, 0), 0);
      SumConstant(cur, HashedBelow(hash, n, 0), 0);
    } else {
      FlattenLength(prev, cur, hash, n, rs, m - 1);
      BelowStep(prev, hash, n, m - 1);
      BelowStep(cur, hash, n, m - 1);
      assert rs[..m][..m - 1] == rs[..m - 1];
    }
  }

  lemma FlattenTotal(prev: seq<Item>, cur: seq<Item>, hash: nat -> nat, n: nat, rs: seq<seq<Item>>)
    requires n > 0 && |rs| == n && forall b :: 0 <= b < n ==> |rs[b]| == Load(prev, cur, hash, n, b)
    ensures |Flatten(rs)| == |prev| + |cur|
    ensures forall m :: 0 <= m < n ==> |Flatten(rs[..m])| + |rs[m]| <= |Flatten(rs)|
  {
    FlattenLength(prev, cur, hash, n, rs, n);
    SumConstant(prev, HashedBelow(hash, n, n), 1);
    SumConstant(cur, HashedBelow(hash, n, n), 1);
    assert rs[..n] == rs;
    forall m | 0 <= m < n
      ensures |Flatten(rs[..m])| + |rs[m]| <= |Flatten(rs)|
    {
      FlattenGrows(rs, m);
    }
  }

  lemma {:induction false} FlattenGrows(rs: seq<seq<Item>>, m: nat)
    requires m < |rs|
    ensures Flatten(rs[..m + 1]) == Flatten(rs[..m]) + rs[m] && |Flatten(rs[..m + 1])| <= |Flatten(rs)|
    decreases |rs|
  {
    assert rs[..m + 1][..m] == rs[..m];
    if m + 1 == |rs| {
      assert rs[..m + 1] == rs;
    } else {
      var rs' := rs[..|rs| - 1];
      FlattenGrows(rs', m);
      assert rs'[..m + 1] == rs[..m + 1];
    }
  }
}

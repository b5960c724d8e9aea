/**
  Sort, scan, sort: how a table is updated without revealing which cells are touched.
  Records sorted by key are scanned once; the last record of a key gets the join of all
  values with that key, and the others are marked as dummies, which a second sort moves
  behind the table.
 */
module GroupScan {
  import opened Rearrangements
  import opened SortingNetworks

  datatype Rec<V> = Rec(key: nat, val: V)

  predicate GreaterKey<V>(x: Rec<V>, y: Rec<V>) {
    x.key > y.key
  }

  lemma GreaterKeyOrder<V(!new)>()
    ensures StrictWeakOrder<Rec<V>>(GreaterKey)
  {}

  ghost predicate SortedByKey<V>(s: seq<Rec<V>>) {
    forall i, j :: 0 <= i < j < |s| ==> s[i].key <= s[j].key
  }

  /** The join of two values is the maximum in everything that is observed of a value. */
  ghost predicate IsJoin<V(!new)>(join: (V, V) -> V, obs: (V, nat) -> nat) {
    forall a, b, j :: obs(join(a, b), j) == if obs(a, j) < obs(b, j) then obs(b, j) else obs(a, j)
  }

  /** v is the largest j-th observation of the values with the given key. */
  ghost predicate Best<V>(s: seq<Rec<V>>, key: nat, obs: (V, nat) -> nat, j: nat, v: nat) {
    && (exists k :: 0 <= k < |s| && s[k].key == key && obs(s[k].val, j) == v)
    && (forall k :: 0 <= k < |s| && s[k].key == key ==> obs(s[k].val, j) <= v)
  }

  // ----- the scan

  /** The running join within a group of equal keys. */
  function RunJoin<V>(s: seq<Rec<V>>, k: nat, join: (V, V) -> V): V
    requires k < |s|
    decreases k, s, join
  {
    if k == 0 || s[k].key > s[k - 1].key then s[k].val else join(s[k].val, RunJoin(s, k - 1, join))
  }

  /** Only the last record of a group keeps its key. */
  function EndKey<V>(s: seq<Rec<V>>, k: nat, dummy: nat): nat
    requires k < |s|
  {
    if k == |s| - 1 || s[k + 1].key > s[k].key then s[k].key else dummy
  }

  /** The records after the scan. */
  function Scanned<V>(s: seq<Rec<V>>, join: (V, V) -> V, dummy: nat): (r: seq<Rec<V>>)
    ensures |r| == |s| && forall k :: 0 <= k < |s| ==> r[k] == Rec(EndKey(s, k, dummy), RunJoin(s, k, join))
  {
    seq(|s|, k requires 0 <= k < |s| => Rec(EndKey(s, k, dummy), RunJoin(s, k, join)))
  }

  /** Keeps x at the start of a group and the join inside it: both x and the running value become the result. */
  function MaxSet<V>(x: V, tmp: V, cond: bool, join: (V, V) -> V): V {
    if cond then x else join(x, tmp)
  }

  /** r is s with off .. off + n scanned. */
  ghost predicate ScannedFrom<V>(s: seq<Rec<V>>, r: seq<Rec<V>>, off: nat, n: nat, join: (V, V) -> V, dummy: nat) {
    && off + n <= |s| == |r|
    && r[off..off + n] == Scanned(s[off..off + n], join, dummy)
    && r[..off] == s[..off] && r[off + n..] == s[off + n..]
  }

  lemma RunJoinStep<V>(s: seq<Rec<V>>, i: nat, join: (V, V) -> V, tmp: V)
    requires i < |s| && (i > 0 ==> tmp == RunJoin(s, i - 1, join))
    ensures MaxSet(s[i].val, tmp, i == 0 || s[i].key > s[i - 1].key, join) == RunJoin(s, i, join)
  {}

  lemma EndKeyStep<V>(s: seq<Rec<V>>, i: nat, dummy: nat)
    requires i < |s|
    ensures EndKey(s, i, dummy) == if i == |s| - 1 then s[i].key else OMove(s[i].key, dummy, s[i + 1].key > s[i].key)
  {}

  /** One pass over the n records at off. */
  method Scan<V>(dump: array<Rec<V>>, off: nat, n: nat, join: (V, V) -> V, dummy: nat)
    requires 0 < n && off + n <= dump.Length
    modifies dump
    ensures ScannedFrom(old(dump[..]), dump[..], off, n, join, dummy)
  {
    hide Scanned;
    ghost var s, all := dump[off..off + n], dump[..];
    var tmp := dump[off].val;
    var cond := true;
    var i := 0;
    while i < n - 1
      invariant 0 <= i <= n - 1
      invariant cond == (i == 0 || s[i].key > s[i - 1].key)
      invariant i > 0 ==> tmp == RunJoin(s, i - 1, join)
      invariant forall k :: 0 <= k < i ==> dump[off + k] == Rec(EndKey(s, k, dummy), RunJoin(s, k, join))
      invariant forall k :: 0 <= k < dump.Length && !(off <= k < off + i) ==> dump[k] == all[k]
    {
      hide RunJoin, MaxSet, EndKey;
      EndKeyStep(s, i, dummy);
      RunJoinStep(s, i, join, tmp);
      tmp := MaxSet(dump[off + i].val, tmp, cond, join);
      cond := dump[off + i + 1].key > dump[off + i].key;
      dump[off + i] := Rec(OMove(dump[off + i].key, dummy, cond), tmp);
      i := i + 1;
    }
    hide RunJoin, MaxSet, EndKey, ScannedFrom;
    RunJoinStep(s, n - 1, join, tmp);
    tmp := MaxSet(dump[off + n - 1].val, tmp, cond, join);
    EndKeyStep(s, n - 1, dummy);
    dump[off + n - 1] := Rec(dump[off + n - 1].key, tmp);
    ScanAssembled(all, dump[..], off, n, join, dummy);
  }

  lemma ScanAssembled<V>(s: seq<Rec<V>>, r: seq<Rec<V>>, off: nat, n: nat, join: (V, V) -> V, dummy: nat)
    requires off + n <= |s| == |r|
    requires var t := s[off..off + n];
             forall k :: 0 <= k < n ==> r[off + k] == Rec(EndKey(t, k, dummy), RunJoin(t, k, join))
    requires forall k :: 0 <= k < |s| && !(off <= k < off + n) ==> r[k] == s[k]
    ensures ScannedFrom(s, r, off, n, join, dummy)
  {
    hide EndKey, RunJoin;
    var t, mid := s[off..off + n], r[off..off + n];
    forall k | 0 <= k < n
      ensures mid[k] == Rec(EndKey(t, k, dummy), RunJoin(t, k, join))
    {
      assert mid[k] == r[off + k];
    }
    assert mid == Scanned(t, join, dummy);
    assert r[..off] == s[..off] && r[off + n..] == s[off + n..];
  }

  /** The running join is the best of the group so far. */
  lemma {:induction false} RunJoinBest<V(!new)>(s: seq<Rec<V>>, k: nat, join: (V, V) -> V, obs: (V, nat) -> nat, j: nat)
    requires SortedByKey(s) && IsJoin(join, obs) && k < |s|
    ensures Best(s[..k + 1], s[k].key, obs, j, obs(RunJoin(s, k, join), j))
    decreases k
  {
    var t := s[..k + 1];
    assert t[k] == s[k];
    if k > 0 && s[k].key == s[k - 1].key {
      RunJoinBest(s, k - 1, join, obs, j);
      var u := s[..k];
      var v := obs(RunJoin(s, k - 1, join), j);
      var m :| 0 <= m < |u| && u[m].key == s[k].key && obs(u[m].val, j) == v;
      assert t[m] == u[m];
      assert forall l :: 0 <= l < k ==> t[l] == u[l];
    } else if k > 0 {
      assert s[k - 1].key <= s[k].key;
    }
  }

  /** Every key but the dummy has one record in r, holding the best of its values in s. */
  ghost predicate Condensed<V(!new)>(s: seq<Rec<V>>, r: seq<Rec<V>>, obs: (V, nat) -> nat, dummy: nat) {
    && (forall k, j: nat :: 0 <= k < |r| && r[k].key != dummy ==> Best(s, r[k].key, obs, j, obs(r[k].val, j)))
    && (forall k :: 0 <= k < |s| && s[k].key != dummy ==> HasKey(r, s[k].key))
    && (forall k, l :: 0 <= k < l < |r| && r[k].key == r[l].key ==> r[k].key == dummy)
  }

  ghost predicate HasKey<V>(r: seq<Rec<V>>, key: nat) {
    exists k :: 0 <= k < |r| && r[k].key == key
  }

  lemma ScanCondenses<V(!new)>(s: seq<Rec<V>>, join: (V, V) -> V, obs: (V, nat) -> nat, dummy: nat)
    requires SortedByKey(s) && IsJoin(join, obs)
    ensures Condensed(s, Scanned(s, join, dummy), obs, dummy)
  {
    hide RunJoin, IsJoin, Best, Scanned, EndKey;
    var r := Scanned(s, join, dummy);
    forall k, j: nat | 0 <= k < |r| && r[k].key != dummy
      ensures Best(s, r[k].key, obs, j, obs(r[k].val, j))
    {
      EndKeyEnds(s, k, dummy);
      LastOfGroup(s, k, join, obs, j);
    }
    forall k | 0 <= k < |s| && s[k].key != dummy
      ensures HasKey(r, s[k].key)
    {
      var l := GroupEnd(s, k, dummy);
      assert r[l].key == s[k].key;
    }
    forall k, l | 0 <= k < l < |r| && r[k].key == r[l].key
      ensures r[k].key == dummy
    {
      if r[k].key != dummy {
        EndKeyEnds(s, k, dummy);
        EndKeyEnds(s, l, dummy);
        OneEnd(s, k, l);
      }
    }
  }

  /** A record that keeps its key ends its group. */
  lemma EndKeyEnds<V>(s: seq<Rec<V>>, k: nat, dummy: nat)
    requires k < |s| && EndKey(s, k, dummy) != dummy
    ensures EndKey(s, k, dummy) == s[k].key && (k < |s| - 1 ==> s[k + 1].key > s[k].key)
  {}

  /** Two records that end groups have different keys. */
  lemma OneEnd<V>(s: seq<Rec<V>>, k: nat, l: nat)
    requires SortedByKey(s) && k < l < |s|
    requires s[k + 1].key > s[k].key
    ensures s[k].key < s[l].key
  {}

  /** The last record of a group. */
  lemma {:induction false} GroupEnd<V>(s: seq<Rec<V>>, k: nat, dummy: nat) returns (l: nat)
    requires SortedByKey(s) && k < |s|
    ensures l < |s| && s[l].key == s[k].key == EndKey(s, l, dummy)
    decreases |s| - k
  {
    l := k;
    if k < |s| - 1 && s[k + 1].key == s[k].key {
      l := GroupEnd(s, k + 1, dummy);
    }
  }

  lemma LastOfGroup<V(!new)>(s: seq<Rec<V>>, k: nat, join: (V, V) -> V, obs: (V, nat) -> nat, j: nat)
    requires SortedByKey(s) && IsJoin(join, obs) && k < |s| && (k == |s| - 1 || s[k + 1].key > s[k].key)
    ensures Best(s, s[k].key, obs, j, obs(RunJoin(s, k, join), j))
  {
    RunJoinBest(s, k, join, obs, j);
    var t := s[..k + 1];
    var m :| 0 <= m < |t| && t[m].key == s[k].key && obs(t[m].val, j) == obs(RunJoin(s, k, join), j);
    assert s[m] == t[m];
    forall l | 0 <= l < |s| && s[l].key == s[k].key
      ensures obs(s[l].val, j) <= obs(RunJoin(s, k, join), j)
    {
      if l <= k {
        assert t[l] == s[l];
      }
    }
  }

  // ----- the two sorts

  /** What a key's best value is does not depend on the order of the records. */
  lemma BestPermuted<V>(s: seq<Rec<V>>, s': seq<Rec<V>>, key: nat, obs: (V, nat) -> nat, j: nat, v: nat)
    requires multiset(s) == multiset(s') && Best(s, key, obs, j, v)
    ensures Best(s', key, obs, j, v)
  {
    var k :| 0 <= k < |s| && s[k].key == key && obs(s[k].val, j) == v;
    assert s[k] in multiset(s');
    forall l | 0 <= l < |s'| && s'[l].key == key
      ensures obs(s'[l].val, j) <= v
    {
      assert s'[l] in multiset(s);
    }
  }

  lemma SourcePermuted<V(!new)>(s: seq<Rec<V>>, s': seq<Rec<V>>, r: seq<Rec<V>>, obs: (V, nat) -> nat, dummy: nat)
    requires multiset(s) == multiset(s') && Condensed(s, r, obs, dummy)
    ensures Condensed(s', r, obs, dummy)
  {
    forall k, j: nat | 0 <= k < |r| && r[k].key != dummy
      ensures Best(s', r[k].key, obs, j, obs(r[k].val, j))
    {
      BestPermuted(s, s', r[k].key, obs, j, obs(r[k].val, j));
    }
    forall k | 0 <= k < |s'| && s'[k].key != dummy
      ensures HasKey(r, s'[k].key)
    {
      assert s'[k] in multiset(s);
    }
  }

  lemma ResultPermuted<V(!new)>(s: seq<Rec<V>>, r: seq<Rec<V>>, r': seq<Rec<V>>, obs: (V, nat) -> nat, dummy: nat)
    requires multiset(r) == multiset(r') && Condensed(s, r, obs, dummy)
    ensures Condensed(s, r', obs, dummy)
  {
    forall k | 0 <= k < |r'|
      ensures r'[k] in r
    {
      assert r'[k] in multiset(r);
    }
    forall k | 0 <= k < |s| && s[k].key != dummy
      ensures HasKey(r', s[k].key)
    {
      KeyPermuted(r, r', s[k].key);
    }
    forall k, l | 0 <= k < l < |r'| && r'[k].key == r'[l].key
      ensures r'[k].key == dummy
    {
      if r'[k].key != dummy {
        KeyOnce(r, r', (x: Rec<V>) => x.key, k, l);
      }
    }
  }

  lemma KeyPermuted<V>(r: seq<Rec<V>>, r': seq<Rec<V>>, key: nat)
    requires multiset(r) == multiset(r') && HasKey(r, key)
    ensures HasKey(r', key)
  {
    var k :| 0 <= k < |r| && r[k].key == key;
    assert r[k] in multiset(r');
  }

  /** Sorting a range by key leaves the rest alone. */
  lemma SortedRange<V>(s: seq<Rec<V>>, r: seq<Rec<V>>, off: nat, n: nat)
    requires SortedFrom(s, r, off, n, GreaterKey, true)
    ensures off + n <= |s| == |r| && SortedByKey(r[off..off + n]) &&
            multiset(s[off..off + n]) == multiset(r[off..off + n])
    ensures r[..off] == s[..off] && r[off + n..] == s[off + n..]
  {
    var a := r[off..off + n];
    forall i, j | 0 <= i < j < |a|
      ensures a[i].key <= a[j].key
    {
      assert !GreaterKey(r[off + i], r[off + j]);
    }
  }

  /** The keys 0 .. m of a sorted condensed table stand at their own positions, and dummies behind. */
  lemma {:induction false} KeysInPlace<V(!new)>(r: seq<Rec<V>>, m: nat, dummy: nat, p: nat)
    requires SortedByKey(r) && m <= dummy
    requires forall k :: 0 <= k < |r| ==> r[k].key < m || r[k].key == dummy
    requires forall k, l :: 0 <= k < l < |r| && r[k].key == r[l].key ==> r[k].key == dummy
    requires forall c :: 0 <= c < m ==> HasKey(r, c)
    requires p <= m
    ensures p <= |r| && forall k :: 0 <= k < p ==> r[k].key == k
    decreases p
  {
    if p == 0 {
    } else {
      KeysInPlace(r, m, dummy, p - 1);
      assert HasKey(r, p - 1);
      var k :| 0 <= k < |r| && r[k].key == p - 1;
      if p > 1 {
        assert r[p - 2].key == p - 2;
      }
    }
  }

  /** Condensed keys below m, sorted, take at most m places. */
  lemma {:induction false} KeysAtLeast<V(!new)>(r: seq<Rec<V>>, m: nat, dummy: nat, k: nat)
    requires SortedByKey(r) && m <= dummy && k < |r|
    requires forall x, y :: 0 <= x < y < |r| && r[x].key == r[y].key ==> r[x].key == dummy
    requires r[k].key < dummy
    ensures k <= r[k].key
    decreases k
  {
    if k == 0 {
    } else {
      KeysAtLeast(r, m, dummy, k - 1);
    }
  }

  /** Records that are not dummies come before those that are. */
  lemma DummiesLast<V(!new)>(a: seq<Rec<V>>, s: seq<Rec<V>>, n: nat, dummy: nat)
    requires multiset(a) == multiset(s) && SortedByKey(s) && n <= |a|
    requires forall k :: 0 <= k < n ==> a[k].key < dummy
    requires forall k :: n <= k < |a| ==> a[k].key == dummy
    ensures |s| == |a|
    ensures forall k :: 0 <= k < n ==> s[k].key < dummy
    ensures forall k :: n <= k < |s| ==> s[k].key == dummy
  {
    SameLength(a, s);
    var f := (x: Rec<V>) => if x.key < dummy then 1 else 0;
    SumPermuted(a, s, f);
    SumSplitAt(a, f, n);
    forall k | 0 <= k < |s|
      ensures s[k].key <= dummy
    {
      assert s[k] in multiset(a);
    }
    var b := FirstDummy(s, dummy, 0);
    SumSplitAt(s, f, b);
  }

  lemma SumSplitAt<T>(s: seq<T>, f: T -> nat, n: nat)
    requires n <= |s| && (forall k :: 0 <= k < n ==> f(s[k]) == 1) && (forall k :: n <= k < |s| ==> f(s[k]) == 0)
    ensures Sum(s, f) == n
  {
    assert s == s[..n] + s[n..];
    SumConcat(s[..n], s[n..], f);
    SumConstant(s[..n], f, 1);
    SumConstant(s[n..], f, 0);
  }

  lemma {:induction false} FirstDummy<V>(s: seq<Rec<V>>, dummy: nat, k: nat) returns (b: nat)
    requires SortedByKey(s) && k <= |s| && (forall i :: 0 <= i < k ==> s[i].key < dummy)
    requires forall i :: 0 <= i < |s| ==> s[i].key <= dummy
    ensures b <= |s| && (forall i :: 0 <= i < b ==> s[i].key < dummy) &&
            (forall i :: b <= i < |s| ==> s[i].key == dummy)
    decreases |s| - k
  {
    if k == |s| || s[k].key == dummy {
      b := k;
    } else {
      b := FirstDummy(s, dummy, k + 1);
    }
  }

  // ----- the table after both sorts

  /** Dummies on both sides do not matter. */
  lemma CondensedPadded<V(!new)>(s: seq<Rec<V>>, r: seq<Rec<V>>, pad: seq<Rec<V>>, obs: (V, nat) -> nat, dummy: nat)
    requires Condensed(s, r, obs, dummy) && forall k :: 0 <= k < |pad| ==> pad[k].key == dummy
    ensures Condensed(s + pad, r + pad, obs, dummy)
  {
    forall k, j: nat | 0 <= k < |r + pad| && (r + pad)[k].key != dummy
      ensures Best(s + pad, (r + pad)[k].key, obs, j, obs((r + pad)[k].val, j))
    {
      BestPadded(s, pad, r[k].key, obs, j, obs(r[k].val, j), dummy);
    }
    forall k | 0 <= k < |s + pad| && (s + pad)[k].key != dummy
      ensures HasKey(r + pad, (s + pad)[k].key)
    {
      assert HasKey(r, s[k].key);
      var l :| 0 <= l < |r| && r[l].key == s[k].key;
      assert (r + pad)[l].key == s[k].key;
    }
  }

  lemma BestPadded<V>(s: seq<Rec<V>>, pad: seq<Rec<V>>, key: nat, obs: (V, nat) -> nat, j: nat, v: nat, dummy: nat)
    requires Best(s, key, obs, j, v) && key != dummy && forall k :: 0 <= k < |pad| ==> pad[k].key == dummy
    ensures Best(s + pad, key, obs, j, v)
  {
    var k :| 0 <= k < |s| && s[k].key == key && obs(s[k].val, j) == v;
    assert (s + pad)[k] == s[k];
  }

  /** The keys of a table of m cells, each present, and dummies. */
  ghost predicate Covers<V>(a: seq<Rec<V>>, m: nat, dummy: nat) {
    && m <= dummy
    && (forall k :: 0 <= k < |a| ==> a[k].key < m || a[k].key == dummy)
    && (forall c :: 0 <= c < m ==> HasKey(a, c))
  }

  /** Sorted and condensed, cell i of the table holds the best of all values with key i. */
  lemma TableInPlace<V(!new)>(a: seq<Rec<V>>, r: seq<Rec<V>>, m: nat, dummy: nat, obs: (V, nat) -> nat)
    requires Condensed(a, r, obs, dummy) && SortedByKey(r) && Covers(a, m, dummy)
    ensures m <= |r| && forall i, j: nat :: 0 <= i < m ==> r[i].key == i && Best(a, i, obs, j, obs(r[i].val, j))
  {
    forall k | 0 <= k < |r|
      ensures r[k].key < m || r[k].key == dummy
    {
      if r[k].key != dummy {
        assert Best(a, r[k].key, obs, 0, obs(r[k].val, 0));
      }
    }
    forall c | 0 <= c < m
      ensures HasKey(r, c)
    {
      assert HasKey(a, c);
      var k :| 0 <= k < |a| && a[k].key == c;
    }
    KeysInPlace(r, m, dummy, m);
  }
}

/**
  The change of every flow between two epochs: what it is, the in-place difference of two
  lists, and the direct version over maps.
 */
module FlowDelta {
  import opened Rearrangements
  import opened SortingNetworks
  import opened Items

  const DUMMY_ITEM := Item(DUMMY_FLOW, 0)

  ghost predicate HasFlow(s: seq<Item>, f: nat) {
    exists k :: 0 <= k < |s| && s[k].flowID == f
  }

  /** The size of a flow in a list, zero if it is missing. */
  ghost function SizeOf(s: seq<Item>, f: nat): nat {
    if HasFlow(s, f) then
      var k :| 0 <= k < |s| && s[k].flowID == f;
      s[k].size
    else 0
  }

  /** Flows appear once, and none is the dummy. */
  ghost predicate Flows(s: seq<Item>) {
    && (forall i, j :: 0 <= i < j < |s| ==> s[i].flowID != s[j].flowID)
    && (forall k :: 0 <= k < |s| ==> s[k].flowID != DUMMY_FLOW)
  }

  /** Sizes fit a signed 32-bit integer, so that they can be subtracted. */
  ghost predicate Signed(s: seq<Item>) {
    forall k :: 0 <= k < |s| ==> s[k].size < 0x8000_0000
  }

  /** A 32-bit word read as a signed integer. */
  function AsInt(x: nat): int {
    if x < 0x8000_0000 then x else x - 0x1_0000_0000
  }

  /** The distance of two words read as signed integers. */
  function SignedDiff(a: nat, b: nat): (d: nat)
    ensures a < 0x8000_0000 && b < 0x8000_0000 ==> d == AbsDiff(a, b) < 0x8000_0000
  {
    var d := AsInt(a) - AsInt(b);
    if d < 0 then -d else d
  }

  lemma SizeOfFlow(s: seq<Item>, k: nat)
    requires Flows(s) && k < |s|
    ensures HasFlow(s, s[k].flowID) && SizeOf(s, s[k].flowID) == s[k].size
  {}

  function AbsDiff(a: nat, b: nat): nat {
    if a < b then b - a else a - b
  }

  /** How much a flow changed. */
  ghost function Change(prev: seq<Item>, cur: seq<Item>, f: nat): nat {
    AbsDiff(SizeOf(cur, f), SizeOf(prev, f))
  }

  /** The positive entries of r are the flows that changed, each once, with their changes. */
  ghost predicate IsDelta(prev: seq<Item>, cur: seq<Item>, r: seq<Item>) {
    && (forall k :: 0 <= k < |r| && r[k].size > 0 ==> r[k].size == Change(prev, cur, r[k].flowID))
    && (forall f :: Change(prev, cur, f) > 0 ==> Reported(r, f))
    && (forall k, l :: 0 <= k < l < |r| && r[k].size > 0 && r[l].size > 0 ==> r[k].flowID != r[l].flowID)
    && ZeroEntries(prev, cur, r)
  }

  /** An entry of size zero is the dummy, or a flow of size zero that only one of the epochs lists. */
  ghost predicate ZeroEntries(prev: seq<Item>, cur: seq<Item>, r: seq<Item>) {
    forall k :: 0 <= k < |r| && r[k].size == 0 ==>
      r[k].flowID == DUMMY_FLOW || HasFlow(prev, r[k].flowID) != HasFlow(cur, r[k].flowID)
  }

  ghost predicate Reported(r: seq<Item>, f: nat) {
    exists k :: 0 <= k < |r| && r[k].size > 0 && r[k].flowID == f
  }

  // ----- the difference in place

  /** What becomes of an entry of the first list: its difference with its match, or a dummy when that is below gamm. */
  ghost function DeltaEntry(x: Item, cur: seq<Item>, gamm: nat): Item {
    if HasFlow(cur, x.flowID) then
      var d := AbsDiff(x.size, SizeOf(cur, x.flowID));
      if d < gamm then DUMMY_ITEM else Item(x.flowID, d)
    else x
  }

  /** What becomes of an entry of the second list: matched entries become dummies. */
  ghost function RestEntry(x: Item, prev: seq<Item>): Item {
    if HasFlow(prev, x.flowID) then DUMMY_ITEM else x
  }

  /** Both lists after the difference. */
  ghost function DeltaLists(prev: seq<Item>, cur: seq<Item>, gamm: nat): (r: seq<Item>)
    ensures |r| == |prev| + |cur|
  {
    seq(|prev|, j requires 0 <= j < |prev| => DeltaEntry(prev[j], cur, gamm)) +
    seq(|cur|, i requires 0 <= i < |cur| => RestEntry(cur[i], prev))
  }

  lemma NoneHasFlow(s: seq<Item>, f: nat)
    requires s == []
    ensures !HasFlow(s, f)
  {}

  lemma HasFlowStep(s: seq<Item>, i: nat, f: nat)
    requires i < |s|
    ensures HasFlow(s[..i + 1], f) <==> HasFlow(s[..i], f) || s[i].flowID == f
  {
    var t, u := s[..i], s[..i + 1];
    assert forall k :: 0 <= k < i ==> t[k] == u[k];
    assert u[i] == s[i];
  }

  lemma SizeOfStep(s: seq<Item>, i: nat, f: nat)
    requires i < |s| && Flows(s)
    ensures SizeOf(s[..i + 1], f) == if s[i].flowID == f then s[i].size else SizeOf(s[..i], f)
  {
    var t, u := s[..i], s[..i + 1];
    HasFlowStep(s, i, f);
    assert u[i] == s[i];
    if s[i].flowID == f {
      SizeOfFlow(u, i);
    } else if HasFlow(t, f) {
      var k :| 0 <= k < |t| && t[k].flowID == f;
      SizeOfFlow(t, k);
      assert u[k] == t[k];
      SizeOfFlow(u, k);
    }
  }

  /** One more entry of the second list: it changes the entry it matches and no other. */
  lemma DeltaEntryStep(x: Item, cur: seq<Item>, i: nat, gamm: nat)
    requires Flows(cur) && i < |cur| && x.flowID != DUMMY_FLOW
    ensures var y := DeltaEntry(x, cur[..i], gamm);
            && (y.flowID == cur[i].flowID <==> x.flowID == cur[i].flowID)
            && DeltaEntry(x, cur[..i + 1], gamm) ==
               if y.flowID == cur[i].flowID then
                 var d := AbsDiff(y.size, cur[i].size); if d < gamm then DUMMY_ITEM else Item(y.flowID, d)
               else y
  {
    HasFlowStep(cur, i, x.flowID);
    SizeOfStep(cur, i, x.flowID);
    if HasFlow(cur[..i], x.flowID) {
      var k :| 0 <= k < i && cur[..i][k].flowID == x.flowID;
      assert cur[k].flowID == x.flowID;
    }
  }

  /** Entries keep a size that fits a signed integer. */
  lemma DeltaEntrySigned(x: Item, cur: seq<Item>, gamm: nat)
    requires x.size < 0x8000_0000 && Signed(cur)
    ensures DeltaEntry(x, cur, gamm).size < 0x8000_0000
  {
    SizeOfSigned(cur, x.flowID);
  }

  lemma SizeOfSigned(s: seq<Item>, f: nat)
    requires Signed(s)
    ensures SizeOf(s, f) < 0x8000_0000
  {}

  lemma SignedTake(s: seq<Item>, i: nat)
    requires Signed(s) && i <= |s|
    ensures Signed(s[..i])
  {}

  lemma NoFlow(gamm: nat)
    ensures forall x :: DeltaEntry(x, [], gamm) == x
  {}

  /**
    The difference of two lists in place: list1 is size1 items at l1 and list2 size2 items
    at l2.
   */
  method ODelta(L: array<Item>, l1: nat, size1: nat, l2: nat, size2: nat, gamm: nat)
    requires l1 + size1 <= l2 && l2 + size2 <= L.Length
    requires Flows(L[l1..l1 + size1]) && Flows(L[l2..l2 + size2])
    requires Signed(L[l1..l1 + size1]) && Signed(L[l2..l2 + size2])
    modifies L
    ensures L[l1..l1 + size1] + L[l2..l2 + size2] == DeltaLists(old(L[l1..l1 + size1]), old(L[l2..l2 + size2]), gamm)
    ensures forall k :: l2 <= k < l2 + size2 ==>
              L[k] == if HasFlow(old(L[l1..l1 + size1]), old(L[k]).flowID) then Item(DUMMY_FLOW, 0) else old(L[k])
    ensures forall k :: 0 <= k < L.Length && !(l1 <= k < l1 + size1) && !(l2 <= k < l2 + size2) ==> L[k] == old(L[k])
  {
    hide HasFlow, DeltaEntry, RestEntry, Flows, Signed;
    ghost var all, prev, cur := L[..], L[l1..l1 + size1], L[l2..l2 + size2];
    NoFlow(gamm);
    var Match := new bool[size2](_ => false);
    var i := 0;
    while i < size2
      invariant 0 <= i <= size2
      invariant forall k :: 0 <= k < L.Length && !(l1 <= k < l1 + size1) ==> L[k] == all[k]
      invariant forall j :: l1 <= j < l1 + size1 ==> L[j] == DeltaEntry(prev[j - l1], cur[..i], gamm)
      invariant forall x :: 0 <= x < i ==> Match[x] == HasFlow(prev, cur[x].flowID)
      invariant forall x :: i <= x < size2 ==> !Match[x]
    {
      MatchOne(L, l1, size1, l2 + i, gamm, Match, i, prev, cur);
      i := i + 1;
    }
    assert cur[..size2] == cur;
    DropMatched(L, l1, size1, l2, size2, Match, prev, cur);
    DeltaAssembled(L[l1..l1 + size1], L[l2..l2 + size2], prev, cur, gamm);
    forall k | l2 <= k < l2 + size2
      ensures L[k] == if HasFlow(prev, all[k].flowID) then Item(DUMMY_FLOW, 0) else all[k]
    {
      RestOf(all[k], prev);
      assert cur[k - l2] == all[k];
    }
  }

  lemma RestOf(x: Item, prev: seq<Item>)
    ensures RestEntry(x, prev) == if HasFlow(prev, x.flowID) then Item(DUMMY_FLOW, 0) else x
  {}

  lemma DeltaAssembled(list1: seq<Item>, list2: seq<Item>, prev: seq<Item>, cur: seq<Item>, gamm: nat)
    requires |list1| == |prev| && forall j :: 0 <= j < |prev| ==> list1[j] == DeltaEntry(prev[j], cur, gamm)
    requires |list2| == |cur| && forall i :: 0 <= i < |cur| ==> list2[i] == RestEntry(cur[i], prev)
    ensures list1 + list2 == DeltaLists(prev, cur, gamm)
  {}

  /** Matched entries of the second list become dummies. */
  method DropMatched(L: array<Item>, l1: nat, size1: nat, l2: nat, size2: nat, Match: array<bool>,
          ghost prev: seq<Item>, ghost cur: seq<Item>)
    requires l1 + size1 <= l2 && l2 + size2 <= L.Length && Match.Length == size2 == |cur| && L[l2..l2 + size2] == cur
    requires forall x :: 0 <= x < size2 ==> Match[x] == HasFlow(prev, cur[x].flowID)
    modifies L
    ensures forall k :: 0 <= k < L.Length && !(l2 <= k < l2 + size2) ==> L[k] == old(L[k])
    ensures forall x :: l2 <= x < l2 + size2 ==> L[x] == RestEntry(cur[x - l2], prev)
  {
    var i := 0;
    while i < size2
      invariant 0 <= i <= size2
      invariant forall k :: 0 <= k < L.Length && !(l2 <= k < l2 + i) ==> L[k] == old(L[k])
      invariant forall x :: l2 <= x < l2 + i ==> L[x] == RestEntry(cur[x - l2], prev)
    {
      assert L[l2 + i] == L[l2..l2 + size2][i] == cur[i];
      L[l2 + i] := OMove(DUMMY_ITEM, L[l2 + i], Match[i]);
      i := i + 1;
    }
  }

  /** Entry p of the second list against all of the first. */
  method MatchOne(L: array<Item>, l1: nat, size1: nat, p: nat, gamm: nat, Match: array<bool>, i: nat,
          ghost prev: seq<Item>, ghost cur: seq<Item>)
    requires l1 + size1 <= p < L.Length && i < Match.Length == |cur| && |prev| == size1 && L[p] == cur[i]
    requires Flows(prev) && Flows(cur) && Signed(prev) && Signed(cur) && !Match[i]
    requires forall j :: l1 <= j < l1 + size1 ==> L[j] == DeltaEntry(prev[j - l1], cur[..i], gamm)
    modifies L, Match
    ensures forall k :: 0 <= k < L.Length && !(l1 <= k < l1 + size1) ==> L[k] == old(L[k])
    ensures forall j :: l1 <= j < l1 + size1 ==> L[j] == DeltaEntry(prev[j - l1], cur[..i + 1], gamm)
    ensures forall x ::
              0 <= x < Match.Length ==> Match[x] == if x == i then HasFlow(prev, cur[i].flowID) else old(Match[x])
  {
    hide DeltaEntry, HasFlow;
    ghost var all := L[..];
    NoneHasFlow(prev[..0], cur[i].flowID);
    var j := 0;
    while j < size1
      invariant 0 <= j <= size1
      invariant forall k :: 0 <= k < L.Length && !(l1 <= k < l1 + j) ==> L[k] == all[k]
      invariant forall x :: l1 <= x < l1 + j ==> L[x] == DeltaEntry(prev[x - l1], cur[..i + 1], gamm)
      invariant Match[i] == HasFlow(prev[..j], cur[i].flowID)
      invariant forall x :: 0 <= x < Match.Length && x != i ==> Match[x] == old(Match[x])
    {
      DeltaEntryStep(prev[j], cur, i, gamm);
      SignedTake(cur, i);
      DeltaEntrySigned(prev[j], cur[..i], gamm);
      HasFlowStep(prev, j, cur[i].flowID);
      var isMatch := L[l1 + j].flowID == L[p].flowID;
      var size := OMove(SignedDiff(L[l1 + j].size, L[p].size), L[l1 + j].size, isMatch);
      L[l1 + j] := Item(L[l1 + j].flowID, size);
      L[l1 + j] := OMove(DUMMY_ITEM, L[l1 + j], isMatch && L[l1 + j].size < gamm);
      Match[i] := OMove(isMatch, Match[i], isMatch);
      j := j + 1;
    }
    assert prev[..size1] == prev;
  }

  // ----- the difference is the change

  /** With gamm one, the two lists after the difference report the change of every flow. */
  lemma DeltaIsDelta(prev: seq<Item>, cur: seq<Item>)
    requires Flows(prev) && Flows(cur)
    ensures IsDelta(prev, cur, DeltaLists(prev, cur, 1))
  {
    var r, n := DeltaLists(prev, cur, 1), |prev|;
    forall k | 0 <= k < |r| && r[k].size > 0
      ensures r[k].size == Change(prev, cur, r[k].flowID)
    {
      if k < n {
        SizeOfFlow(prev, k);
      } else {
        SizeOfFlow(cur, k - n);
      }
    }
    DeltaOnce(prev, cur);
    DeltaZeros(prev, cur);
    forall f: nat | Change(prev, cur, f) > 0
      ensures Reported(r, f)
    {
      if HasFlow(prev, f) {
        var k :| 0 <= k < n && prev[k].flowID == f;
        SizeOfFlow(prev, k);
        assert r[k] == DeltaEntry(prev[k], cur, 1);
      } else {
        var k :| 0 <= k < |cur| && cur[k].flowID == f;
        SizeOfFlow(cur, k);
        assert r[n + k] == RestEntry(cur[k], prev);
      }
    }
  }

  /** No flow is reported twice. */
  lemma DeltaOnce(prev: seq<Item>, cur: seq<Item>)
    requires Flows(prev) && Flows(cur)
    ensures var r := DeltaLists(prev, cur, 1);
            forall k, l :: 0 <= k < l < |r| && r[k].size > 0 && r[l].size > 0 ==> r[k].flowID != r[l].flowID
  {
    var r, n := DeltaLists(prev, cur, 1), |prev|;
    hide SizeOf, Flows;
    forall k | 0 <= k < |r| && r[k].size > 0
      ensures r[k].flowID == (if k < n then prev[k].flowID else cur[k - n].flowID)
      ensures k >= n ==> !HasFlow(prev, r[k].flowID)
    {}
    forall k, l | 0 <= k < l < |r| && r[k].size > 0 && r[l].size > 0
      ensures r[k].flowID != r[l].flowID
    {
      if k < n <= l {
        SizeOfFlow(prev, k);
      } else if l < n {
        FlowsDiffer(prev, k, l);
      } else {
        FlowsDiffer(cur, k - n, l - n);
      }
    }
  }

  lemma DeltaZeros(prev: seq<Item>, cur: seq<Item>)
    requires Flows(prev) && Flows(cur)
    ensures ZeroEntries(prev, cur, DeltaLists(prev, cur, 1))
  {
    hide SizeOf, Flows;
    var r, n := DeltaLists(prev, cur, 1), |prev|;
    forall k | 0 <= k < |r| && r[k].size == 0
      ensures r[k].flowID == DUMMY_FLOW || HasFlow(prev, r[k].flowID) != HasFlow(cur, r[k].flowID)
    {
      if k < n {
        SizeOfFlow(prev, k);
      } else {
        SizeOfFlow(cur, k - n);
      }
    }
  }

  lemma FlowsDiffer(s: seq<Item>, k: nat, l: nat)
    requires Flows(s) && k < l < |s|
    ensures s[k].flowID != s[l].flowID
  {}

  /** The order of the report does not matter. */
  lemma DeltaPermuted(prev: seq<Item>, cur: seq<Item>, r: seq<Item>, r': seq<Item>)
    requires IsDelta(prev, cur, r) && multiset(r) == multiset(r')
    ensures IsDelta(prev, cur, r')
  {
    forall k | 0 <= k < |r'|
      ensures r'[k] in r
    {
      assert r'[k] in multiset(r);
    }
    forall f: nat | Change(prev, cur, f) > 0
      ensures Reported(r', f)
    {
      assert Reported(r, f);
      var k :| 0 <= k < |r| && r[k].size > 0 && r[k].flowID == f;
      assert r[k] in multiset(r');
    }
    forall k, l | 0 <= k < l < |r'| && r'[k].size > 0 && r'[l].size > 0
      ensures r'[k].flowID != r'[l].flowID
    {
      KeyOnce(r, r', (x: Item) => if x.size > 0 then x.flowID + 1 else 0, k, l);
    }
  }

  // ----- the direct version over maps

  ghost predicate StatMap(s: seq<Item>, m: map<nat, nat>) {
    && (forall f :: f in m <==> HasFlow(s, f))
    && (forall f :: f in m ==> m[f] == SizeOf(s, f))
  }

  method GetStatMap(pdata: seq<Item>) returns (result_map: map<nat, nat>)
    requires Flows(pdata)
    ensures StatMap(pdata, result_map)
  {
    result_map := map[];
    var i := 0;
    while i < |pdata|
      invariant 0 <= i <= |pdata| && StatMap(pdata[..i], result_map)
    {
      forall f
        ensures HasFlow(pdata[..i + 1], f) <==> HasFlow(pdata[..i], f) || pdata[i].flowID == f
        ensures SizeOf(pdata[..i + 1], f) == if pdata[i].flowID == f then pdata[i].size else SizeOf(pdata[..i], f)
      {
        HasFlowStep(pdata, i, f);
        SizeOfStep(pdata, i, f);
      }
      result_map := result_map[pdata[i].flowID := pdata[i].size];
      i := i + 1;
    }
    assert pdata[..|pdata|] == pdata;
  }

  /** The changes as a map, and how many of them are positive. */
  method HeavyChangeMap(prev: seq<Item>, cur: seq<Item>) returns (changes: map<nat, nat>, count: nat)
    requires Flows(prev) && Flows(cur) && Signed(prev) && Signed(cur)
    ensures forall f :: f in changes <==> HasFlow(prev, f) || HasFlow(cur, f)
    ensures forall f :: f in changes ==> changes[f] == Change(prev, cur, f)
    ensures count == |set f | f in changes && changes[f] > 0|
  {
    var prev_statistics := GetStatMap(prev);
    var cur_statistics := GetStatMap(cur);
    changes := prev_statistics;
    var rest := cur_statistics.Keys;
    while rest != {}
      invariant rest <= cur_statistics.Keys
      invariant forall f :: f in changes <==> f in prev_statistics || (f in cur_statistics && f !in rest)
      invariant forall f :: f in changes ==>
                  changes[f] == if f in cur_statistics && f !in rest then Change(prev, cur, f) else SizeOf(prev, f)
      decreases |rest|
    {
      var f :| f in rest;
      SizeOfSigned(prev, f);
      SizeOfSigned(cur, f);
      changes := changes[f := SignedDiff(if f in changes then changes[f] else 0, cur_statistics[f])];
      rest := rest - {f};
    }
    count := CountPositive(changes);
  }

  method CountPositive(changes: map<nat, nat>) returns (count: nat)
    ensures count == |set f | f in changes && changes[f] > 0|
  {
    count := 0;
    var rest := changes.Keys;
    ghost var seen: set<nat> := {};
    while rest != {}
      invariant rest <= changes.Keys && seen == set f | f in changes && f !in rest && changes[f] > 0
      invariant count == |seen|
      decreases |rest|
    {
      var f :| f in rest;
      rest := rest - {f};
      if changes[f] > 0 {
        count := count + 1;
        seen := seen + {f};
      }
    }
    assert seen == set f | f in changes && changes[f] > 0;
  }

  /** The positive entries of a report are as many as the flows that changed. */
  lemma ReportCount(prev: seq<Item>, cur: seq<Item>, r: seq<Item>, changes: map<nat, nat>)
    requires IsDelta(prev, cur, r)
    requires forall f :: f in changes <==> HasFlow(prev, f) || HasFlow(cur, f)
    requires forall f :: f in changes ==> changes[f] == Change(prev, cur, f)
    ensures Sum(r, Positive()) == |set f | f in changes && changes[f] > 0|
  {
    PositiveFlows(r);
    var a, b := set k | 0 <= k < |r| && r[k].size > 0 :: r[k].flowID, set f | f in changes && changes[f] > 0;
    forall f
      ensures f in a <==> f in b
    {
      if f in b {
        assert Reported(r, f);
      }
    }
    assert a == b;
  }

  ghost function Positive(): (f: Item -> nat) {
    (x: Item) => if x.size > 0 then 1 else 0
  }

  lemma {:induction false} PositiveFlows(r: seq<Item>)
    requires forall k, l :: 0 <= k < l < |r| && r[k].size > 0 && r[l].size > 0 ==> r[k].flowID != r[l].flowID
    ensures Sum(r, Positive()) == |set k | 0 <= k < |r| && r[k].size > 0 :: r[k].flowID|
    decreases |r|
  {
    var a := set k | 0 <= k < |r| && r[k].size > 0 :: r[k].flowID;
    if r == [] {
      assert a == {};
    } else {
      var n := |r| - 1;
      var r' := r[..n];
      PositiveFlows(r');
      var a' := set k | 0 <= k < |r'| && r'[k].size > 0 :: r'[k].flowID;
      assert forall k :: 0 <= k < n ==> r'[k] == r[k];
      if r[n].size > 0 {
        assert a == a' + {r[n].flowID};
      } else {
        assert a == a';
      }
    }
  }
}

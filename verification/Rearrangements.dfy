/** Sequences that hold the same elements in another order. */
module Rearrangements {

  function RemoveAt<T>(s: seq<T>, i: nat): seq<T>
    requires i < |s|
  {
    s[..i] + s[i + 1..]
  }

  lemma RemoveAtMultiset<T>(s: seq<T>, i: nat)
    requires i < |s|
    ensures multiset(RemoveAt(s, i)) == multiset(s) - multiset{s[i]}
    ensures multiset(s) == multiset(RemoveAt(s, i)) + multiset{s[i]}
  {
    assert s == s[..i] + [s[i]] + s[i + 1..];
  }

  lemma SameElements<T>(a: seq<T>, b: seq<T>) returns (i: nat)
    requires multiset(a) == multiset(b) && |a| > 0
    ensures i < |b| && b[i] == a[|a| - 1]
    ensures multiset(RemoveAt(a, |a| - 1)) == multiset(RemoveAt(b, i))
  {
    assert a[|a| - 1] in multiset(b);
    i :| 0 <= i < |b| && b[i] == a[|a| - 1];
    RemoveAtMultiset(a, |a| - 1);
    RemoveAtMultiset(b, i);
  }

  lemma SameLength<T>(a: seq<T>, b: seq<T>)
    requires multiset(a) == multiset(b)
    ensures |a| == |b|
  {
    assert |multiset(a)| == |multiset(b)|;
  }

  ghost predicate Distinct<T(!new)>(s: seq<T>) {
    forall x, y :: 0 <= x < y < |s| ==> s[x] != s[y]
  }

  lemma OccursTwice<T>(s: seq<T>, x: nat, y: nat)
    requires x < y < |s| && s[x] == s[y]
    ensures multiset(s)[s[x]] >= 2
  {
    assert s == s[..y] + s[y..];
    assert s[..y][x] == s[x] && s[y..][0] == s[x];
    assert s[x] in multiset(s[..y]) && s[x] in multiset(s[y..]);
  }

  lemma OccursOnce<T>(s: seq<T>, k: nat)
    requires k < |s| && forall x :: 0 <= x < |s| && x != k ==> s[x] != s[k]
    ensures multiset(s)[s[k]] == 1
  {
    RemoveAtMultiset(s, k);
    var r := RemoveAt(s, k);
    forall x | 0 <= x < |r|
      ensures r[x] != s[k]
    {
      assert r[x] == if x < k then s[x] else s[x + 1];
    }
    assert s[k] !in multiset(r);
    assert s[k] in multiset(s);
  }

  lemma RearrangedDistinct<T(!new)>(a: seq<T>, b: seq<T>)
    requires multiset(a) == multiset(b) && Distinct(b)
    ensures Distinct(a)
  {
    forall x, y | 0 <= x < y < |a|
      ensures a[x] != a[y]
    {
      assert a[x] in multiset(b);
      var k :| 0 <= k < |b| && b[k] == a[x];
      OccursOnce(b, k);
      if a[x] == a[y] {
        OccursTwice(a, x, y);
      }
    }
  }

  /** A key that only one element of r has is had by only one element of a rearrangement of r. */
  lemma KeyOnce<T(!new)>(r: seq<T>, r': seq<T>, key: T -> nat, k: nat, l: nat)
    requires multiset(r) == multiset(r') && k < l < |r'|
    requires forall x, y :: 0 <= x < y < |r| && key(r[x]) == key(r[y]) ==> key(r[x]) != key(r'[k])
    ensures key(r'[k]) != key(r'[l])
  {
    assert r'[k] in multiset(r) && r'[l] in multiset(r);
    var x :| 0 <= x < |r| && r[x] == r'[k];
    var y :| 0 <= y < |r| && r[y] == r'[l];
    if key(r'[k]) == key(r'[l]) {
      assert x == y;
      OccursOnce(r, x);
      OccursTwice(r', k, l);
    }
  }

  // ----- weighing a sequence

  /** The total weight. */
  ghost function Sum<T>(s: seq<T>, f: T -> nat): nat
    decreases |s|, f
  {
    if s == [] then 0 else Sum(s[..|s| - 1], f) + f(s[|s| - 1])
  }

  lemma SumTake<T>(s: seq<T>, i: nat, f: T -> nat)
    requires i < |s|
    ensures Sum(s[..i + 1], f) == Sum(s[..i], f) + f(s[i])
  {
    assert s[..i + 1][..i] == s[..i];
  }

  lemma {:induction false} SumConcat<T>(a: seq<T>, b: seq<T>, f: T -> nat)
    ensures Sum(a + b, f) == Sum(a, f) + Sum(b, f)
    decreases |b|
  {
    if b == [] {
      assert a + b == a;
    } else {
      var b' := b[..|b| - 1];
      assert (a + b)[..|a + b| - 1] == a + b';
      SumConcat(a, b', f);
    }
  }

  /** Replacing one slot exchanges its weight for the new one. */
  lemma {:induction false} SumUpdate<T>(s: seq<T>, i: nat, b: T, f: T -> nat)
    requires i < |s|
    ensures Sum(s[i := b], f) + f(s[i]) == Sum(s, f) + f(b)
    decreases |s|
  {
    var n := |s| - 1;
    if i == n {
      assert s[i := b][..n] == s[..n];
    } else {
      SumUpdate(s[..n], i, b, f);
      assert s[i := b][..n] == s[..n][i := b];
    }
  }

  lemma SumRemove<T>(s: seq<T>, i: nat, f: T -> nat)
    requires i < |s|
    ensures Sum(s, f) == Sum(RemoveAt(s, i), f) + f(s[i])
  {
    hide Sum;
    var a, b := s[..i], s[i + 1..];
    SumConcat(a, b, f);
    SumTake(s, i, f);
    SumConcat(s[..i + 1], b, f);
    assert s[..i + 1] + b == s;
    assert RemoveAt(s, i) == a + b;
  }

  lemma {:induction false} SumPermuted<T>(a: seq<T>, b: seq<T>, f: T -> nat)
    requires multiset(a) == multiset(b)
    ensures Sum(a, f) == Sum(b, f)
    decreases |a|
  {
    SameLength(a, b);
    if a == [] {
    } else {
      var i := SameElements(a, b);
      SumPermuted(RemoveAt(a, |a| - 1), RemoveAt(b, i), f);
      SumRemove(a, |a| - 1, f);
      SumRemove(b, i, f);
    }
  }

  lemma {:induction false} SumHas<T>(s: seq<T>, i: nat, f: T -> nat)
    requires i < |s|
    ensures Sum(s, f) >= f(s[i])
    decreases |s|
  {
    var n := |s| - 1;
    if i == n {
    } else {
      SumHas(s[..n], i, f);
    }
  }

  lemma {:induction false} SumConstant<T>(s: seq<T>, f: T -> nat, c: nat)
    requires c <= 1 && forall k :: 0 <= k < |s| ==> f(s[k]) == c
    ensures Sum(s, f) == if c == 1 then |s| else 0
    decreases |s|
  {
    if s == [] {
    } else {
      SumConstant(s[..|s| - 1], f, c);
    }
  }

  /** Weights that agree on every element agree on the whole. */
  lemma {:induction false} SumAgrees<T>(s: seq<T>, f: T -> nat, g: T -> nat)
    requires forall k :: 0 <= k < |s| ==> f(s[k]) == g(s[k])
    ensures Sum(s, f) == Sum(s, g)
    decreases |s|
  {
    if s == [] {
    } else {
      SumAgrees(s[..|s| - 1], f, g);
    }
  }
}

/**
  The queue of messages between the enclave and its host: a doubly linked list that grows
  and shrinks at both ends.  Operations run one at a time.
 */
module MessageQueue {

  const ENOUGH_BAR: nat := 20

  class Message {
    var next: Message?
    var prev: Message?

    constructor ()
      ensures next == null && prev == null
    {
      next, prev := null, null;
    }
  }

  /** One operation on a double-ended sequence. */
  datatype Operation = PushBack(msg: Message) | PushFront(msg: Message) | PopFront | PopBack

  function Applied(s: seq<Message>, op: Operation): seq<Message> {
    match op
    case PushBack(m) => s + [m]
    case PushFront(m) => [m] + s
    case PopFront => if s == [] then [] else s[1..]
    case PopBack => if s == [] then [] else s[..|s| - 1]
  }

  /** What the operation hands out. */
  function Result(s: seq<Message>, op: Operation): Message? {
    match op
    case PopFront => if s == [] then null else s[0]
    case PopBack => if s == [] then null else s[|s| - 1]
    case _ => null
  }

  /** The neighbours of a queued message. */
  function Behind(s: seq<Message>, i: nat): Message?
    requires i < |s|
  {
    if i + 1 < |s| then s[i + 1] else null
  }

  function Before(s: seq<Message>, i: nat): Message?
    requires i < |s|
  {
    if i > 0 then s[i - 1] else null
  }

  lemma Neighbours(s: seq<Message>, i: nat)
    requires i < |s|
    ensures Behind(s, i) == (if i + 1 < |s| then s[i + 1] else null) && Before(s, i) == if i > 0 then s[i - 1] else null
  {}

  class Queue {
    var top: Message?
    var bottom: Message?
    var nMsg: int

    /** The queued messages from front to back. */
    ghost var nodes: seq<Message>

    /** prev leads from front to back, next from back to front. */
    ghost predicate Valid()
      reads this, nodes
    {
      && nMsg == |nodes|
      && (forall i, j :: 0 <= i < j < |nodes| ==> nodes[i] != nodes[j])
      && (if nodes == [] then top == null && bottom == null
          else top == nodes[0] && bottom == nodes[|nodes| - 1])
      && (forall i :: 0 <= i < |nodes| ==> nodes[i].prev == Behind(nodes, i))
      && (forall i :: 0 <= i < |nodes| ==> nodes[i].next == Before(nodes, i))
    }

    constructor ()
      ensures Valid() && nodes == []
    {
      top, bottom, nMsg, nodes := null, null, 0, [];
    }

    predicate IsEmptyQueue()
      requires Valid()
      reads this, nodes
      ensures IsEmptyQueue() <==> nodes == []
    {
      top == null
    }

    predicate IsEnoughQueue()
      requires Valid()
      reads this, nodes
      ensures IsEnoughQueue() <==> |nodes| >= ENOUGH_BAR
    {
      nMsg >= ENOUGH_BAR
    }

    method PushBack(new_msg: Message)
      requires Valid() && new_msg !in nodes
      modifies this, nodes, new_msg
      ensures Valid() && nodes == old(nodes) + [new_msg]
    {
      hide Behind, Before;
      new_msg.prev := null;
      new_msg.next := null;
      if bottom == null {
        bottom := new_msg;
        top := new_msg;
      } else {
        bottom.prev := new_msg;
        new_msg.next := bottom;
        bottom := new_msg;
      }
      nMsg := nMsg + 1;
      ghost var s := nodes;
      nodes := nodes + [new_msg];
      forall i | 0 <= i < |nodes|
        ensures nodes[i].prev == Behind(nodes, i) && nodes[i].next == Before(nodes, i)
      {
        Neighbours(nodes, i);
        if i < |s| {
          Neighbours(s, i);
          assert nodes[i] == s[i] && (i < |s| - 1 ==> s[i] != s[|s| - 1]);
        }
      }
    }

    method PushFront(new_msg: Message)
      requires Valid() && new_msg !in nodes
      modifies this, nodes, new_msg
      ensures Valid() && nodes == [new_msg] + old(nodes)
    {
      hide Behind, Before;
      new_msg.prev := null;
      new_msg.next := null;
      if top == null {
        top := new_msg;
        bottom := new_msg;
      } else {
        top.next := new_msg;
        new_msg.prev := top;
        top := new_msg;
      }
      nMsg := nMsg + 1;
      ghost var s := nodes;
      nodes := [new_msg] + nodes;
      forall i | 0 <= i < |nodes|
        ensures nodes[i].prev == Behind(nodes, i) && nodes[i].next == Before(nodes, i)
      {
        Neighbours(nodes, i);
        if i > 0 {
          Neighbours(s, i - 1);
          assert nodes[i] == s[i - 1] && (i > 1 ==> s[0] != s[i - 1]);
        }
      }
    }

    method PopFront() returns (msg: Message?)
      requires Valid()
      modifies this, nodes
      ensures Valid()
      ensures old(nodes) == [] ==> msg == null && nodes == []
      ensures old(nodes) != [] ==> msg == old(nodes)[0] && nodes == old(nodes)[1..]
      ensures msg != null ==> msg.prev == null && msg.next == null && msg !in nodes
    {
      hide Behind, Before;
      if top == null {
        return null;
      }
      ghost var s := nodes;
      msg := top;
      Neighbours(s, 0);
      assert msg == s[0] && msg.prev == Behind(s, 0);
      if msg.prev != null {
        msg.prev.next := null;
      }
      top := msg.prev;
      if top == null {
        bottom := null;
      }
      nMsg := nMsg - 1;
      nodes := nodes[1..];
      msg.prev := null;
      msg.next := null;
      forall i | 0 <= i < |nodes|
        ensures nodes[i].prev == Behind(nodes, i) && nodes[i].next == Before(nodes, i)
      {
        Neighbours(nodes, i);
        Neighbours(s, i + 1);
        assert nodes[i] == s[i + 1] && s[0] != s[i + 1] && (i > 0 ==> s[1] != s[i + 1]);
      }
    }

    method PopBack() returns (msg: Message?)
      requires Valid()
      modifies this, nodes
      ensures Valid()
      ensures old(nodes) == [] ==> msg == null && nodes == []
      ensures old(nodes) != [] ==>
                var n := |old(nodes)| - 1;
                msg == old(nodes)[n] && nodes == old(nodes)[..n]
      ensures msg != null ==> msg.prev == null && msg.next == null && msg !in nodes
    {
      hide Behind, Before;
      if bottom == null {
        return null;
      }
      ghost var s, n := nodes, |nodes| - 1;
      msg := bottom;
      Neighbours(s, n);
      assert msg == s[n] && msg.next == Before(s, n);
      if msg.next != null {
        msg.next.prev := null;
      }
      bottom := msg.next;
      if bottom == null {
        top := null;
      }
      nMsg := nMsg - 1;
      nodes := nodes[..n];
      msg.prev := null;
      msg.next := null;
      forall i | 0 <= i < |nodes|
        ensures nodes[i].prev == Behind(nodes, i) && nodes[i].next == Before(nodes, i)
      {
        Neighbours(nodes, i);
        Neighbours(s, i);
        assert nodes[i] == s[i] && s[i] != s[n] && (i < n - 1 ==> s[i] != s[n - 1]);
      }
    }

    /** Following prev from the top lists the messages from front to back. */
    ghost function FromTop(k: nat): (m: Message?)
      requires Valid()
      reads this, nodes
      ensures m == if k < |nodes| then nodes[k] else null
      decreases k
    {
      if k == 0 then top
      else
        var m := FromTop(k - 1);
        if m == null then null else m.prev
    }

    /** Following next from the bottom lists them from back to front. */
    ghost function FromBottom(k: nat): (m: Message?)
      requires Valid()
      reads this, nodes
      ensures m == if k < |nodes| then nodes[|nodes| - 1 - k] else null
      decreases k
    {
      if k == 0 then bottom
      else
        var m := FromBottom(k - 1);
        if m == null then null else m.next
    }

    method Perform(op: Operation) returns (msg: Message?)
      requires Valid() && (op.PushBack? || op.PushFront? ==> op.msg !in nodes)
      modifies this, nodes, if op.PushBack? || op.PushFront? then {op.msg} else {}
      ensures Valid() && nodes == Applied(old(nodes), op) && msg == Result(old(nodes), op)
    {
      msg := null;
      match op
      case PushBack(m) => PushBack(m);
      case PushFront(m) => PushFront(m);
      case PopFront => msg := PopFront();
      case PopBack => msg := PopBack();
    }
  }

  // ----- whole runs

  function AppliedAll(s: seq<Message>, ops: seq<Operation>): seq<Message>
    decreases |ops|, s
  {
    if ops == [] then s else Applied(AppliedAll(s, ops[..|ops| - 1]), ops[|ops| - 1])
  }

  /** No message is pushed while it is queued. */
  predicate Allowed(s: seq<Message>, ops: seq<Operation>)
    decreases |ops|, s
  {
    ops == [] ||
    var n := |ops| - 1;
    && Allowed(s, ops[..n])
    && (ops[n].PushBack? || ops[n].PushFront? ==> ops[n].msg !in AppliedAll(s, ops[..n]))
  }

  function Pushed(ops: seq<Operation>): set<Message> {
    set op | op in ops && (op.PushBack? || op.PushFront?) :: op.msg
  }

  /** Any run of operations treats the queue as a double-ended sequence. */
  method PerformAll(q: Queue, ops: seq<Operation>) returns (results: seq<Message?>)
    requires q.Valid() && Allowed(q.nodes, ops)
    modifies q, q.nodes, Pushed(ops)
    ensures q.Valid() && q.nodes == AppliedAll(old(q.nodes), ops) && |results| == |ops|
    ensures forall k :: 0 <= k < |ops| ==> results[k] == Result(AppliedAll(old(q.nodes), ops[..k]), ops[k])
  {
    hide Allowed, AppliedAll, Pushed, Applied, Result, Queue.Valid;
    results := [];
    ghost var s := q.nodes;
    var i := 0;
    AppliedStart(s, ops);
    while i < |ops|
      invariant 0 <= i <= |ops| && |results| == i
      invariant q.Valid() && q.nodes == AppliedAll(s, ops[..i]) &&
                (forall m :: m in q.nodes ==> m in s || m in Pushed(ops))
      invariant forall k :: 0 <= k < i ==> results[k] == Result(AppliedAll(s, ops[..k]), ops[k])
    {
      AppliedStep(s, ops, i);
      assert ops[i].PushBack? || ops[i].PushFront? ==> ops[i].msg in Pushed(ops);
      var msg := q.Perform(ops[i]);
      results := results + [msg];
      i := i + 1;
    }
    assert ops[..|ops|] == ops;
  }

  lemma AppliedStart(s: seq<Message>, ops: seq<Operation>)
    ensures AppliedAll(s, ops[..0]) == s
  {}

  lemma AppliedStep(s: seq<Message>, ops: seq<Operation>, i: nat)
    requires Allowed(s, ops) && i < |ops|
    requires forall m :: m in AppliedAll(s, ops[..i]) ==> m in s || m in Pushed(ops)
    ensures AppliedAll(s, ops[..i + 1]) == Applied(AppliedAll(s, ops[..i]), ops[i])
    ensures ops[i].PushBack? || ops[i].PushFront? ==>
              ops[i].msg in Pushed(ops) && ops[i].msg !in AppliedAll(s, ops[..i])
    ensures forall m :: m in AppliedAll(s, ops[..i + 1]) ==> m in s || m in Pushed(ops)
  {
    AllowedPrefix(s, ops, i + 1);
    assert ops[..i + 1][..i] == ops[..i];
    assert ops[i] in ops;
    if ops[i].PushBack? || ops[i].PushFront? {
      assert ops[i].msg in Pushed(ops);
    }
  }

  lemma {:induction false} AllowedPrefix(s: seq<Message>, ops: seq<Operation>, i: nat)
    requires Allowed(s, ops) && i <= |ops|
    ensures Allowed(s, ops[..i])
    decreases |ops|
  {
    if i == |ops| {
      assert ops[..i] == ops;
    } else {
      AllowedPrefix(s, ops[..|ops| - 1], i);
      assert ops[..|ops| - 1][..i] == ops[..i];
    }
  }

  // ----- what runs hand out

  function PushBacks(ms: seq<Message>): (ops: seq<Operation>)
    ensures |ops| == |ms| && forall k :: 0 <= k < |ms| ==> ops[k] == Operation.PushBack(ms[k])
  {
    seq(|ms|, k requires 0 <= k < |ms| => Operation.PushBack(ms[k]))
  }

  function PushFronts(ms: seq<Message>): (ops: seq<Operation>)
    ensures |ops| == |ms| && forall k :: 0 <= k < |ms| ==> ops[k] == Operation.PushFront(ms[k])
  {
    seq(|ms|, k requires 0 <= k < |ms| => Operation.PushFront(ms[k]))
  }

  function Pops(n: nat, op: Operation): (ops: seq<Operation>)
    ensures |ops| == n && forall k :: 0 <= k < n ==> ops[k] == op
  {
    seq(n, _ => op)
  }

  /** What the operations of a run hand out, starting from the messages s. */
  ghost function Results(s: seq<Message>, ops: seq<Operation>): (r: seq<Message?>)
    ensures |r| == |ops| && forall k :: 0 <= k < |ops| ==> r[k] == Result(AppliedAll(s, ops[..k]), ops[k])
  {
    seq(|ops|, k requires 0 <= k < |ops| => Result(AppliedAll(s, ops[..k]), ops[k]))
  }

  lemma {:induction false} AppliedConcat(s: seq<Message>, a: seq<Operation>, b: seq<Operation>)
    ensures AppliedAll(s, a + b) == AppliedAll(AppliedAll(s, a), b)
    decreases |b|
  {
    if b == [] {
      assert a + b == a;
    } else {
      var n := |b| - 1;
      AppliedConcat(s, a, b[..n]);
      assert (a + b)[..|a + b| - 1] == a + b[..n];
    }
  }

  lemma {:induction false} ResultsConcat(s: seq<Message>, a: seq<Operation>, b: seq<Operation>)
    ensures Results(s, a + b) == Results(s, a) + Results(AppliedAll(s, a), b)
  {
    hide AppliedAll, Result;
    var r := Results(s, a + b);
    forall k | 0 <= k < |a + b|
      ensures r[k] == (Results(s, a) + Results(AppliedAll(s, a), b))[k]
    {
      if k < |a| {
        assert (a + b)[..k] == a[..k];
      } else {
        assert (a + b)[..k] == a + b[..k - |a|];
        AppliedConcat(s, a, b[..k - |a|]);
      }
    }
  }

  lemma {:induction false} PushedBacks(s: seq<Message>, ms: seq<Message>)
    ensures AppliedAll(s, PushBacks(ms)) == s + ms
    decreases |ms|
  {
    if ms == [] {
    } else {
      var n := |ms| - 1;
      PushedBacks(s, ms[..n]);
      assert PushBacks(ms)[..n] == PushBacks(ms[..n]);
    }
  }

  function Reversed(ms: seq<Message>): (r: seq<Message>)
    ensures |r| == |ms|
  {
    seq(|ms|, k requires 0 <= k < |ms| => ms[|ms| - 1 - k])
  }

  lemma {:induction false} PushedFronts(s: seq<Message>, ms: seq<Message>)
    ensures AppliedAll(s, PushFronts(ms)) == Reversed(ms) + s
    decreases |ms|
  {
    if ms == [] {
    } else {
      var n := |ms| - 1;
      PushedFronts(s, ms[..n]);
      assert PushFronts(ms)[..n] == PushFronts(ms[..n]);
      assert Reversed(ms) == [ms[n]] + Reversed(ms[..n]);
    }
  }

  lemma {:induction false} PoppedFronts(s: seq<Message>, n: nat)
    requires n <= |s|
    ensures AppliedAll(s, Pops(n, Operation.PopFront)) == s[n..]
    decreases n
  {
    if n == 0 {
    } else {
      PoppedFronts(s, n - 1);
      assert Pops(n, Operation.PopFront)[..n - 1] == Pops(n - 1, Operation.PopFront);
    }
  }

  lemma {:induction false} PoppedBacks(s: seq<Message>, n: nat)
    requires n <= |s|
    ensures AppliedAll(s, Pops(n, Operation.PopBack)) == s[..|s| - n]
    decreases n
  {
    if n == 0 {
    } else {
      PoppedBacks(s, n - 1);
      assert Pops(n, Operation.PopBack)[..n - 1] == Pops(n - 1, Operation.PopBack);
    }
  }

  /** Popping from the front hands out the messages in order. */
  lemma {:induction false} FrontResults(s: seq<Message>, n: nat)
    requires n <= |s|
    ensures Results(s, Pops(n, Operation.PopFront)) == s[..n]
  {
    hide AppliedAll;
    forall k | 0 <= k < n
      ensures Results(s, Pops(n, Operation.PopFront))[k] == s[k]
    {
      PoppedFronts(s, k);
      assert Pops(n, Operation.PopFront)[..k] == Pops(k, Operation.PopFront);
    }
  }

  /** Popping from the back hands them out in reverse. */
  lemma {:induction false} BackResults(s: seq<Message>, n: nat)
    requires n <= |s|
    ensures Results(s, Pops(n, Operation.PopBack)) == Reversed(s[|s| - n..])
  {
    hide AppliedAll;
    forall k | 0 <= k < n
      ensures Results(s, Pops(n, Operation.PopBack))[k] == s[|s| - 1 - k]
    {
      PoppedBacks(s, k);
      assert Pops(n, Operation.PopBack)[..k] == Pops(k, Operation.PopBack);
    }
  }

  lemma {:induction false} ResultsAfter(s: seq<Message>, a: seq<Operation>, b: seq<Operation>)
    ensures AppliedAll(s, a + b) == AppliedAll(AppliedAll(s, a), b)
    ensures Results(s, a + b)[|a|..] == Results(AppliedAll(s, a), b)
  {
    hide AppliedAll, Result;
    AppliedConcat(s, a, b);
    ResultsConcat(s, a, b);
  }

  /**
    First in, first out: messages pushed at the back of a queue that holds s come out at the
    front in the order they went in, after those of s, and the rest stays.
   */
  lemma {:induction false} FirstInFirstOut(s: seq<Message>, ms: seq<Message>, n: nat)
    requires n <= |s| + |ms|
    ensures var ops := PushBacks(ms) + Pops(n, Operation.PopFront);
            AppliedAll(s, ops) == (s + ms)[n..] && Results(s, ops)[|ms|..] == (s + ms)[..n]
  {
    hide AppliedAll, Results;
    PushedBacks(s, ms);
    ResultsAfter(s, PushBacks(ms), Pops(n, Operation.PopFront));
    PoppedFronts(s + ms, n);
    FrontResults(s + ms, n);
  }

  /** Last in, first out at the back: they come out in reverse, and s is as before. */
  lemma {:induction false} LastInFirstOut(s: seq<Message>, ms: seq<Message>)
    ensures var ops := PushBacks(ms) + Pops(|ms|, Operation.PopBack);
            AppliedAll(s, ops) == s && Results(s, ops)[|ms|..] == Reversed(ms)
  {
    hide AppliedAll, Results;
    PushedBacks(s, ms);
    ResultsAfter(s, PushBacks(ms), Pops(|ms|, Operation.PopBack));
    PoppedBacks(s + ms, |ms|);
    BackResults(s + ms, |ms|);
    assert (s + ms)[..|s|] == s && (s + ms)[|s|..] == ms;
  }

  /** Messages pushed at the front come out there in reverse. */
  lemma {:induction false} FrontStack(s: seq<Message>, ms: seq<Message>)
    ensures var ops := PushFronts(ms) + Pops(|ms|, Operation.PopFront);
            AppliedAll(s, ops) == s && Results(s, ops)[|ms|..] == Reversed(ms)
  {
    hide AppliedAll, Results;
    var t := Reversed(ms) + s;
    PushedFronts(s, ms);
    ResultsAfter(s, PushFronts(ms), Pops(|ms|, Operation.PopFront));
    PoppedFronts(t, |ms|);
    FrontResults(t, |ms|);
    assert t[|ms|..] == s && t[..|ms|] == Reversed(ms);
  }

  /** At the back they come out in the order they went in, after those of s. */
  lemma {:induction false} FrontQueue(s: seq<Message>, ms: seq<Message>)
    ensures var ops := PushFronts(ms) + Pops(|s| + |ms|, Operation.PopBack);
            AppliedAll(s, ops) == [] && Results(s, ops)[|ms|..] == Reversed(s) + ms
  {
    hide *;
    var t := Reversed(ms) + s;
    PushedFronts(s, ms);
    ResultsAfter(s, PushFronts(ms), Pops(|s| + |ms|, Operation.PopBack));
    PoppedAllBack(t, |s| + |ms|);
    ReversedBack(s, ms);
  }

  lemma {:induction false} PoppedAllBack(s: seq<Message>, n: nat)
    requires n == |s|
    ensures AppliedAll(s, Pops(n, Operation.PopBack)) == [] && Results(s, Pops(n, Operation.PopBack)) == Reversed(s)
  {
    hide AppliedAll, Results, Reversed;
    PoppedBacks(s, n);
    BackResults(s, n);
    assert s[0..] == s;
  }

  lemma {:induction false} ReversedBack(s: seq<Message>, ms: seq<Message>)
    ensures Reversed(Reversed(ms) + s) == Reversed(s) + ms
  {}
}

/**
  Nothing is lost in mixing: rotating, every row and every stage of the mixing functions of
  SpookyHash V2 is a bijection of the state, with its inverse spelled out.
 */
module SpookyInverse {
  import opened SpookyCore
  import opened SpookyRotation

  // ----- words

  function Sub(x: bv64, y: bv64): bv64 {
    x - y
  }

  lemma AddBack(x: bv64, y: bv64)
    ensures Sub(Add(x, y), y) == x == Add(Sub(x, y), y)
  {
    assert Sub(x + y, y) == x;
    assert Add(x - y, y) == x;
  }

  lemma XorBack(x: bv64, y: bv64)
    ensures Xor(Xor(x, y), y) == x
  {}

  // ----- long messages

  function MixRowBack(t: Vars, d: bv64, rot: bv7): Vars
    requires 0 < rot < 64
  {
    var x := Rot64(t.s11, 64 - rot);
    Vars(Sub(x, d), t.s0, Xor(t.s1, t.s9), t.s2, t.s3, t.s4, t.s5, t.s6, t.s7, t.s8, t.s9, Xor(Sub(t.s10, t.s0), x))
  }

  lemma MixRowInverse(s: Vars, d: bv64, rot: bv7)
    requires 0 < rot < 64
    ensures MixRowBack(MixRow(s, d, rot), d, rot) == s == MixRow(MixRowBack(s, d, rot), d, rot)
  {
    hide Rot64, Add, Sub, Xor;
    var x, y := Add(s.s0, d), Rot64(s.s11, 64 - rot);
    RotBack(x, rot);
    RotBack(s.s11, 64 - rot);
    AddBack(s.s0, d);
    AddBack(y, d);
    AddBack(Xor(s.s11, x), s.s1);
    AddBack(s.s10, s.s0);
    XorBack(s.s11, x);
    XorBack(Sub(s.s10, s.s0), y);
    XorBack(s.s2, s.s10);
    XorBack(s.s1, s.s9);
  }

  /** Takes back the first n rows of mixing. */
  function MixRowsBack(t: Vars, data: Block, n: nat): Vars
    requires n <= 12
    decreases n, t, data
  {
    if n == 0 then t else MixRowsBack(MixRowBack(t, data[n - 1], MixRotation(n - 1)), data, n - 1)
  }

  lemma {:induction false} MixRowsInverse(s: Vars, data: Block, n: nat)
    requires n <= 12
    ensures MixRowsBack(MixRows(s, data, n), data, n) == s == MixRows(MixRowsBack(s, data, n), data, n)
    decreases n
  {
    hide MixRow, MixRowBack, MixRotation;
    if n == 0 {
    } else {
      var d, rot := data[n - 1], MixRotation(n - 1);
      MixRowInverse(MixRows(s, data, n - 1), d, rot);
      MixRowInverse(s, d, rot);
      MixRowsInverse(s, data, n - 1);
      MixRowsInverse(MixRowBack(s, d, rot), data, n - 1);
    }
  }

  /** Mixing in a block is a bijection of the state. */
  lemma MixInverse(s: Vars, data: Block)
    ensures MixRowsBack(MixOf(s, data), data, 12) == s == MixOf(MixRowsBack(s, data, 12), data)
  {
    hide MixRows, MixRowsBack;
    MixRowsInverse(s, data, 12);
  }

  function EndRowBack(t: Vars, rot: bv7): Vars
    requires 0 < rot < 64
  {
    var x := Rot64(t.s0, 64 - rot);
    Vars(t.s11, x, Xor(t.s1, t.s10), t.s2, t.s3, t.s4, t.s5, t.s6, t.s7, t.s8, t.s9, Sub(t.s10, x))
  }

  lemma EndRowInverse(s: Vars, rot: bv7)
    requires 0 < rot < 64
    ensures EndRowBack(EndRow(s, rot), rot) == s == EndRow(EndRowBack(s, rot), rot)
  {
    hide Rot64, Add, Sub, Xor;
    RotBack(s.s1, rot);
    RotBack(s.s0, 64 - rot);
    AddBack(s.s11, s.s1);
    AddBack(s.s10, Rot64(s.s0, 64 - rot));
    XorBack(s.s2, Add(s.s11, s.s1));
    XorBack(s.s1, s.s10);
  }

  function EndRowsBack(t: Vars, n: nat): Vars
    requires n <= 12
    decreases n, t
  {
    if n == 0 then t else EndRowsBack(EndRowBack(t, EndRotation(n - 1)), n - 1)
  }

  lemma {:induction false} EndRowsInverse(s: Vars, n: nat)
    requires n <= 12
    ensures EndRowsBack(EndRows(s, n), n) == s == EndRows(EndRowsBack(s, n), n)
    decreases n
  {
    hide EndRow, EndRowBack, EndRotation;
    if n == 0 {
    } else {
      var rot := EndRotation(n - 1);
      EndRowInverse(EndRows(s, n - 1), rot);
      EndRowInverse(s, rot);
      EndRowsInverse(s, n - 1);
      EndRowsInverse(EndRowBack(s, rot), n - 1);
    }
  }

  function EndPartialBack(t: Vars): Vars {
    EndRowsBack(t, 12)
  }

  lemma EndPartialInverse(s: Vars)
    ensures EndPartialBack(EndPartialOf(s)) == s == EndPartialOf(EndPartialBack(s))
  {
    hide EndRows, EndRowsBack;
    EndRowsInverse(s, 12);
  }

  function SubBlock(t: Vars, data: Block): Vars {
    Vars(Sub(t.s0, data[0]), Sub(t.s1, data[1]), Sub(t.s2, data[2]), Sub(t.s3, data[3]), Sub(t.s4, data[4]),
         Sub(t.s5, data[5]), Sub(t.s6, data[6]), Sub(t.s7, data[7]), Sub(t.s8, data[8]), Sub(t.s9, data[9]),
         Sub(t.s10, data[10]), Sub(t.s11, data[11]))
  }

  lemma AddBlockInverse(s: Vars, data: Block)
    ensures SubBlock(AddBlock(s, data), data) == s == AddBlock(SubBlock(s, data), data)
  {
    hide Add, Sub;
    AddBack(s.s0, data[0]); AddBack(s.s1, data[1]); AddBack(s.s2, data[2]); AddBack(s.s3, data[3]);
    AddBack(s.s4, data[4]); AddBack(s.s5, data[5]); AddBack(s.s6, data[6]); AddBack(s.s7, data[7]);
    AddBack(s.s8, data[8]); AddBack(s.s9, data[9]); AddBack(s.s10, data[10]); AddBack(s.s11, data[11]);
  }

  function EndBack(t: Vars, data: Block): Vars {
    SubBlock(EndPartialBack(EndPartialBack(EndPartialBack(t))), data)
  }

  /** The final mixing is a bijection of the state. */
  lemma EndInverse(s: Vars, data: Block)
    ensures EndBack(EndOf(s, data), data) == s == EndOf(EndBack(s, data), data)
  {
    hide EndPartialOf, EndPartialBack, AddBlock, SubBlock;
    var a, b := AddBlock(s, data), EndPartialBack(s);
    AddBlockInverse(s, data);
    EndPartialInverse(a);
    EndPartialInverse(EndPartialOf(a));
    EndPartialInverse(EndPartialOf(EndPartialOf(a)));
    EndPartialInverse(s);
    EndPartialInverse(b);
    EndPartialInverse(EndPartialBack(b));
    AddBlockInverse(EndPartialBack(EndPartialBack(b)), data);
  }

  // ----- short messages

  function ShortMixRowBack(t: Quad, rot: bv7): Quad
    requires 0 < rot < 64
  {
    Quad(Xor(t.d, t.b), t.a, Rot64(Sub(t.b, t.c), 64 - rot), t.c)
  }

  lemma ShortMixRowInverse(s: Quad, rot: bv7)
    requires 0 < rot < 64
    ensures ShortMixRowBack(ShortMixRow(s, rot), rot) == s == ShortMixRow(ShortMixRowBack(s, rot), rot)
  {
    hide Rot64, Add, Sub, Xor;
    RotBack(s.c, rot);
    RotBack(Sub(s.b, s.c), 64 - rot);
    AddBack(Rot64(s.c, rot), s.d);
    AddBack(s.b, s.c);
    XorBack(s.a, Add(Rot64(s.c, rot), s.d));
    XorBack(s.d, s.b);
  }

  function ShortMixRowsBack(t: Quad, n: nat): Quad
    requires n <= 12
    decreases n, t
  {
    if n == 0 then t else ShortMixRowsBack(ShortMixRowBack(t, ShortMixRotation(n - 1)), n - 1)
  }

  lemma {:induction false} ShortMixRowsInverse(s: Quad, n: nat)
    requires n <= 12
    ensures ShortMixRowsBack(ShortMixRows(s, n), n) == s == ShortMixRows(ShortMixRowsBack(s, n), n)
    decreases n
  {
    hide ShortMixRow, ShortMixRowBack, ShortMixRotation;
    if n == 0 {
    } else {
      var rot := ShortMixRotation(n - 1);
      ShortMixRowInverse(ShortMixRows(s, n - 1), rot);
      ShortMixRowInverse(s, rot);
      ShortMixRowsInverse(s, n - 1);
      ShortMixRowsInverse(ShortMixRowBack(s, rot), n - 1);
    }
  }

  /** The short mixing is a bijection of the state. */
  lemma ShortMixInverse(s: Quad)
    ensures ShortMixRowsBack(ShortMixOf(s), 12) == s == ShortMixOf(ShortMixRowsBack(s, 12))
  {
    hide ShortMixRows, ShortMixRowsBack;
    ShortMixRowsInverse(s, 12);
  }

  function ShortEndRowBack(t: Quad, rot: bv7): Quad
    requires 0 < rot < 64
  {
    var c := Rot64(t.b, 64 - rot);
    Quad(t.d, t.a, c, Xor(Sub(t.c, t.b), c))
  }

  lemma ShortEndRowInverse(s: Quad, rot: bv7)
    requires 0 < rot < 64
    ensures ShortEndRowBack(ShortEndRow(s, rot), rot) == s == ShortEndRow(ShortEndRowBack(s, rot), rot)
  {
    hide Rot64, Add, Sub, Xor;
    RotBack(s.c, rot);
    RotBack(s.b, 64 - rot);
    AddBack(Xor(s.d, s.c), Rot64(s.c, rot));
    AddBack(s.c, s.b);
    XorBack(s.d, s.c);
    XorBack(Sub(s.c, s.b), Rot64(s.b, 64 - rot));
  }

  function ShortEndRowsBack(t: Quad, n: nat): Quad
    requires n <= 11
    decreases n, t
  {
    if n == 0 then t else ShortEndRowsBack(ShortEndRowBack(t, ShortEndRotation(n - 1)), n - 1)
  }

  lemma {:induction false} ShortEndRowsInverse(s: Quad, n: nat)
    requires n <= 11
    ensures ShortEndRowsBack(ShortEndRows(s, n), n) == s == ShortEndRows(ShortEndRowsBack(s, n), n)
    decreases n
  {
    hide ShortEndRow, ShortEndRowBack, ShortEndRotation;
    if n == 0 {
    } else {
      var rot := ShortEndRotation(n - 1);
      ShortEndRowInverse(ShortEndRows(s, n - 1), rot);
      ShortEndRowInverse(s, rot);
      ShortEndRowsInverse(s, n - 1);
      ShortEndRowsInverse(ShortEndRowBack(s, rot), n - 1);
    }
  }

  function ShortEndBack(t: Quad): Quad {
    ShortEndRowsBack(Quad(t.d, t.a, t.b, t.c), 11)
  }

  /** The short final mixing is a bijection of the state. */
  lemma ShortEndInverse(s: Quad)
    ensures ShortEndBack(ShortEndOf(s)) == s == ShortEndOf(ShortEndBack(s))
  {
    hide ShortEndRows, ShortEndRowsBack;
    ShortEndRowsInverse(s, 11);
    ShortEndRowsInverse(Quad(s.d, s.a, s.b, s.c), 11);
  }

  // ----- whole messages

  lemma {:induction false} MixBlocksInjective(s: Vars, t: Vars, m: seq<byte>, n: nat)
    requires Size(n) <= |m| && MixBlocks(s, m, n) == MixBlocks(t, m, n)
    ensures s == t
    decreases n
  {
    hide MixOf, MixRowsBack, Words;
    if n == 0 {
    } else {
      var data := Words(m[Size(n - 1)..Size(n)]);
      MixInverse(MixBlocks(s, m, n - 1), data);
      MixInverse(MixBlocks(t, m, n - 1), data);
      MixBlocksInjective(s, t, m, n - 1);
    }
  }

  /** Whatever a long message, different seeds leave different states. */
  lemma LongKeepsSeeds(m: seq<byte>, n: nat, last: Block, a: bv64, b: bv64, a': bv64, b': bv64)
    requires Size(n) <= |m|
    requires EndOf(MixBlocks(Start(a, b), m, n), last) == EndOf(MixBlocks(Start(a', b'), m, n), last)
    ensures a == a' && b == b'
  {
    hide EndOf, EndBack, MixBlocks;
    EndInverse(MixBlocks(Start(a, b), m, n), last);
    EndInverse(MixBlocks(Start(a', b'), m, n), last);
    MixBlocksInjective(Start(a, b), Start(a', b'), m, n);
  }

  lemma AddSame(x: bv64, y: bv64, z: bv64)
    requires Add(x, z) == Add(y, z)
    ensures x == y
  {
    hide Add, Sub;
    AddBack(x, z);
    AddBack(y, z);
  }

  lemma ShortHalfInjective(s: Quad, t: Quad, m: seq<byte>, w: nat)
    requires 8 * w + 16 <= |m| && ShortHalf(s, m, w) == ShortHalf(t, m, w)
    ensures s == t
  {
    hide ShortMixOf, ShortMixRowsBack, Word, Add;
    var x, y := Word(m, w), Word(m, w + 1);
    ShortMixInverse(Quad(s.a, s.b, Add(s.c, x), Add(s.d, y)));
    ShortMixInverse(Quad(t.a, t.b, Add(t.c, x), Add(t.d, y)));
    AddSame(s.c, t.c, x);
    AddSame(s.d, t.d, y);
  }

  lemma ShortSetInjective(s: Quad, t: Quad, m: seq<byte>, w: nat)
    requires 8 * w + 32 <= |m| && ShortSet(s, m, w) == ShortSet(t, m, w)
    ensures s == t
  {
    hide ShortHalf, Word, Add;
    var u, v := ShortHalf(s, m, w), ShortHalf(t, m, w);
    AddSame(u.a, v.a, Word(m, w + 2));
    AddSame(u.b, v.b, Word(m, w + 3));
    ShortHalfInjective(s, t, m, w);
  }

  lemma {:induction false} ShortSetsInjective(s: Quad, t: Quad, m: seq<byte>, n: nat)
    requires 32 * n <= |m| && ShortSets(s, m, n) == ShortSets(t, m, n)
    ensures s == t
    decreases n
  {
    hide ShortSet;
    if n == 0 {
    } else {
      ShortSetInjective(ShortSets(s, m, n - 1), ShortSets(t, m, n - 1), m, 4 * (n - 1));
      ShortSetsInjective(s, t, m, n - 1);
    }
  }

  lemma ShortTailInjective(s: Quad, t: Quad, m: seq<byte>, p: nat)
    requires p <= |m| < p + 16 && ShortTail(s, m, p) == ShortTail(t, m, p)
    ensures s == t
  {
    hide TailWords, LengthWord, Add;
    var l := LengthWord(|m|);
    var (x, y) := TailWords(m, p);
    AddSame(s.c, t.c, x);
    AddSame(Add(s.d, l), Add(t.d, l), y);
    AddSame(s.d, t.d, l);
  }

  /** Whatever a short message, different seeds leave different states. */
  lemma ShortKeepsSeeds(m: seq<byte>, a: bv64, b: bv64, a': bv64, b': bv64)
    requires ShortEndOf(ShortState(m, a, b)) == ShortEndOf(ShortState(m, a', b'))
    ensures a == a' && b == b'
  {
    hide ShortEndOf, ShortEndBack, ShortSets, ShortHalf, ShortTail;
    ShortEndInverse(ShortState(m, a, b));
    ShortEndInverse(ShortState(m, a', b'));
    var n, s, t := |m| / 32, Quad(a, b, SC_CONST, SC_CONST), Quad(a', b', SC_CONST, SC_CONST);
    var u, v := ShortSets(s, m, n), ShortSets(t, m, n);
    if |m| % 32 >= 16 {
      ShortTailInjective(ShortHalf(u, m, 4 * n), ShortHalf(v, m, 4 * n), m, 32 * n + 16);
      ShortHalfInjective(u, v, m, 4 * n);
    } else {
      ShortTailInjective(u, v, m, 32 * n);
    }
    ShortSetsInjective(s, t, m, n);
  }
}

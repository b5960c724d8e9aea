/**
  The mixing of the SpookyHash V2 hash on 64-bit words, row by row.  Every line of the
  header's mixing functions does the same to the next words, so a row works on the first
  words of a state and turns the state by one word.
 */
module SpookyCore {

  type byte = bv8

  const NUM_VARS: nat := 12
  const BLOCK_SIZE: nat := 96
  const BUF_SIZE: nat := 192
  const SC_CONST: bv64 := 0xdeadbeefdeadbeef

  // ----- words

  /** Addition that wraps around. */
  function Add(x: bv64, y: bv64): bv64 {
    x + y
  }

  function Xor(x: bv64, y: bv64): bv64 {
    x ^ y
  }

  function Rot64(x: bv64, k: bv7): bv64
    requires 0 < k < 64
  {
    (x << k) | (x >> (64 - k))
  }

  /** A byte in place i of a little-endian word. */
  function Placed(b: byte, i: nat): bv64
    requires i < 8
  {
    match i
    case 0 => b as bv64
    case 1 => (b as bv64) << 8
    case 2 => (b as bv64) << 16
    case 3 => (b as bv64) << 24
    case 4 => (b as bv64) << 32
    case 5 => (b as bv64) << 40
    case 6 => (b as bv64) << 48
    case _ => (b as bv64) << 56
  }

  /** The bytes bs[p..p + n] as the low bytes of a word. */
  function Bytes(bs: seq<byte>, p: nat, n: nat): bv64
    requires p + n <= |bs| && n <= 8
    decreases n, p, bs
  {
    if n == 0 then 0 else Add(Bytes(bs, p, n - 1), Placed(bs[p + n - 1], n - 1))
  }

  /** A little-endian word of a message. */
  function Word(bs: seq<byte>, i: nat): bv64
    requires 8 * i + 8 <= |bs|
  {
    Bytes(bs, 8 * i, 8)
  }

  // ----- long messages

  /** The internal state: twelve words. */
  datatype Vars = Vars(s0: bv64, s1: bv64, s2: bv64, s3: bv64, s4: bv64, s5: bv64, s6: bv64, s7: bv64, s8: bv64,
                       s9: bv64, s10: bv64, s11: bv64)

  /** A block of data: twelve words. */
  type Block = s: seq<bv64> | |s| == 12 witness [0, 0, 0, 0, 0, 0, 0, 0, 0, 0, 0, 0]

  function Words(block: seq<byte>): Block
    requires |block| == BLOCK_SIZE
  {
    seq(12, i requires 0 <= i < 12 => Word(block, i))
  }

  /** How far row k of the mixing rotates. */
  function MixRotation(k: nat): (r: bv7)
    requires k < 12
    ensures 0 < r < 64
  {
    match k
    case 0 => 11
    case 1 => 32
    case 2 => 43
    case 3 => 31
    case 4 => 17
    case 5 => 28
    case 6 => 39
    case 7 => 57
    case 8 => 55
    case 9 => 54
    case 10 => 22
    case _ => 46
  }

  /** One row of mixing, with one word of data. */
  function MixRow(s: Vars, d: bv64, rot: bv7): Vars
    requires 0 < rot < 64
  {
    var x := Add(s.s0, d);
    Vars(s.s1, Xor(s.s2, s.s10), s.s3, s.s4, s.s5, s.s6, s.s7, s.s8, s.s9, s.s10, Add(Xor(s.s11, x), s.s1),
         Rot64(x, rot))
  }

  /** The first n rows. */
  function MixRows(s: Vars, data: Block, n: nat): Vars
    requires n <= 12
    decreases n, s, data
  {
    if n == 0 then s else MixRow(MixRows(s, data, n - 1), data[n - 1], MixRotation(n - 1))
  }

  lemma NoRows(s: Vars, data: Block)
    ensures MixRows(s, data, 0) == s
  {}

  /** Mixes one block into the state. */
  function MixOf(s: Vars, data: Block): Vars {
    MixRows(s, data, 12)
  }

  /** How far row k of the final mixing rotates. */
  function EndRotation(k: nat): (r: bv7)
    requires k < 12
    ensures 0 < r < 64
  {
    match k
    case 0 => 44
    case 1 => 15
    case 2 => 34
    case 3 => 21
    case 4 => 38
    case 5 => 33
    case 6 => 10
    case 7 => 13
    case 8 => 38
    case 9 => 53
    case 10 => 42
    case _ => 54
  }

  function EndRow(s: Vars, rot: bv7): Vars
    requires 0 < rot < 64
  {
    var x := Add(s.s11, s.s1);
    Vars(Rot64(s.s1, rot), Xor(s.s2, x), s.s3, s.s4, s.s5, s.s6, s.s7, s.s8, s.s9, s.s10, x, s.s0)
  }

  function EndRows(s: Vars, n: nat): Vars
    requires n <= 12
    decreases n, s
  {
    if n == 0 then s else EndRow(EndRows(s, n - 1), EndRotation(n - 1))
  }

  lemma NoEndRows(s: Vars)
    ensures EndRows(s, 0) == s
  {}

  /** Mixes the words of the state together. */
  function EndPartialOf(s: Vars): Vars {
    EndRows(s, 12)
  }

  function AddBlock(s: Vars, data: Block): Vars {
    Vars(Add(s.s0, data[0]), Add(s.s1, data[1]), Add(s.s2, data[2]), Add(s.s3, data[3]), Add(s.s4, data[4]),
         Add(s.s5, data[5]), Add(s.s6, data[6]), Add(s.s7, data[7]), Add(s.s8, data[8]), Add(s.s9, data[9]),
         Add(s.s10, data[10]), Add(s.s11, data[11]))
  }

  /** Mixes in the last block; the first two words are the hash. */
  function EndOf(s: Vars, data: Block): Vars {
    EndPartialOf(EndPartialOf(EndPartialOf(AddBlock(s, data))))
  }

  /** The seeds and the constant, repeated. */
  function Start(seed1: bv64, seed2: bv64): Vars {
    Vars(seed1, seed2, SC_CONST, seed1, seed2, SC_CONST, seed1, seed2, SC_CONST, seed1, seed2, SC_CONST)
  }

  // ----- short messages

  datatype Quad = Quad(a: bv64, b: bv64, c: bv64, d: bv64)

  /** How far row k of the short mixing rotates. */
  function ShortMixRotation(k: nat): (r: bv7)
    requires k < 12
    ensures 0 < r < 64
  {
    match k
    case 0 => 50
    case 1 => 52
    case 2 => 30
    case 3 => 41
    case 4 => 54
    case 5 => 48
    case 6 => 38
    case 7 => 37
    case 8 => 62
    case 9 => 34
    case 10 => 5
    case _ => 36
  }

  function ShortMixRow(s: Quad, rot: bv7): Quad
    requires 0 < rot < 64
  {
    var c := Add(Rot64(s.c, rot), s.d);
    Quad(s.b, c, s.d, Xor(s.a, c))
  }

  function ShortMixRows(s: Quad, n: nat): Quad
    requires n <= 12
    decreases n, s
  {
    if n == 0 then s else ShortMixRow(ShortMixRows(s, n - 1), ShortMixRotation(n - 1))
  }

  function ShortMixOf(s: Quad): Quad {
    ShortMixRows(s, 12)
  }

  /** How far row k of the short final mixing rotates. */
  function ShortEndRotation(k: nat): (r: bv7)
    requires k < 11
    ensures 0 < r < 64
  {
    match k
    case 0 => 15
    case 1 => 52
    case 2 => 26
    case 3 => 51
    case 4 => 28
    case 5 => 9
    case 6 => 47
    case 7 => 54
    case 8 => 32
    case 9 => 25
    case _ => 63
  }

  function ShortEndRow(s: Quad, rot: bv7): Quad
    requires 0 < rot < 64
  {
    var c := Rot64(s.c, rot);
    Quad(s.b, c, Add(Xor(s.d, s.c), c), s.a)
  }

  function ShortEndRows(s: Quad, n: nat): Quad
    requires n <= 11
    decreases n, s
  {
    if n == 0 then s else ShortEndRow(ShortEndRows(s, n - 1), ShortEndRotation(n - 1))
  }

  lemma NoShortRows(s: Quad)
    ensures ShortMixRows(s, 0) == s == ShortEndRows(s, 0)
  {}

  /** Eleven rows leave the state one turn short of where it started. */
  function ShortEndOf(s: Quad): Quad {
    var t := ShortEndRows(s, 11);
    Quad(t.b, t.c, t.d, t.a)
  }

  /** Two words into c and d, and mixing. */
  function ShortHalf(s: Quad, m: seq<byte>, w: nat): Quad
    requires 8 * w + 16 <= |m|
  {
    ShortMixOf(Quad(s.a, s.b, Add(s.c, Word(m, w)), Add(s.d, Word(m, w + 1))))
  }

  /** A complete set of 32 bytes. */
  function ShortSet(s: Quad, m: seq<byte>, w: nat): Quad
    requires 8 * w + 32 <= |m|
  {
    var t := ShortHalf(s, m, w);
    Quad(Add(t.a, Word(m, w + 2)), Add(t.b, Word(m, w + 3)), t.c, t.d)
  }

  function ByteOf(n: nat): byte
    requires n < 256
  {
    n as bv8
  }

  /** The message length in the top byte. */
  function LengthWord(n: nat): bv64 {
    (ByteOf(n % 256) as bv64) << 56
  }

  /** The words that the last 0..15 bytes at p make. */
  function TailWords(m: seq<byte>, p: nat): (bv64, bv64)
    requires p <= |m| < p + 16
  {
    var r := |m| - p;
    if r == 0 then (SC_CONST, SC_CONST)
    else if r < 8 then (Bytes(m, p, r), 0)
    else (Bytes(m, p, 8), Bytes(m, p + 8, r - 8))
  }

  /** Adds the last bytes and the length. */
  function ShortTail(s: Quad, m: seq<byte>, p: nat): Quad
    requires p <= |m| < p + 16
  {
    var (x, y) := TailWords(m, p);
    Quad(s.a, s.b, Add(s.c, x), Add(Add(s.d, LengthWord(|m|)), y))
  }

  /** The first n complete sets. */
  function ShortSets(s: Quad, m: seq<byte>, n: nat): Quad
    requires 32 * n <= |m|
    decreases n, s, m
  {
    if n == 0 then s else ShortSet(ShortSets(s, m, n - 1), m, 4 * (n - 1))
  }

  /** The state a short message leaves before the final mixing. */
  function ShortState(m: seq<byte>, seed1: bv64, seed2: bv64): Quad {
    var n := |m| / 32;
    var s := ShortSets(Quad(seed1, seed2, SC_CONST, SC_CONST), m, n);
    if |m| % 32 >= 16 then ShortTail(ShortHalf(s, m, 4 * n), m, 32 * n + 16) else ShortTail(s, m, 32 * n)
  }

  /** The hash of a message of fewer than BUF_SIZE bytes. */
  function ShortOf(m: seq<byte>, seed1: bv64, seed2: bv64): (bv64, bv64) {
    var e := ShortEndOf(ShortState(m, seed1, seed2));
    (e.a, e.b)
  }

  // ----- any message

  /** The bytes of n blocks. */
  function Size(n: nat): nat {
    96 * n
  }

  /** Mixes a block of bytes into the state. */
  function MixBlock(s: Vars, block: seq<byte>): Vars
    requires |block| == BLOCK_SIZE
  {
    MixOf(s, Words(block))
  }

  /** The first n blocks of a message mixed into the state. */
  function MixBlocks(s: Vars, m: seq<byte>, n: nat): Vars
    requires Size(n) <= |m|
    decreases n, s, m
  {
    if n == 0 then s else MixBlock(MixBlocks(s, m, n - 1), m[Size(n - 1)..Size(n)])
  }

  /** The last partial block: zeros, and its length in the last byte. */
  function Padded(rest: seq<byte>): (r: seq<byte>)
    requires |rest| < BLOCK_SIZE
    ensures |r| == BLOCK_SIZE
  {
    rest + seq(BLOCK_SIZE - 1 - |rest|, _ => 0) + [ByteOf(|rest|)]
  }

  /** The hash from the state after all whole blocks and the bytes that are left. */
  function Finish(s: Vars, rest: seq<byte>): (bv64, bv64)
    requires |rest| < BLOCK_SIZE
  {
    var e := EndOf(s, Words(Padded(rest)));
    (e.s0, e.s1)
  }

  /** The hash of a message under two seeds. */
  function HashOf(m: seq<byte>, seed1: bv64, seed2: bv64): (bv64, bv64) {
    if |m| < BUF_SIZE then ShortOf(m, seed1, seed2)
    else
      var n := |m| / BLOCK_SIZE;
      Finish(MixBlocks(Start(seed1, seed2), m, n), m[Size(n)..])
  }

  /** Blocks already mixed do not depend on what follows them. */
  lemma {:induction false} MixBlocksPrefix(s: Vars, m: seq<byte>, more: seq<byte>, n: nat)
    requires Size(n) <= |m|
    ensures MixBlocks(s, m + more, n) == MixBlocks(s, m, n)
    decreases n
  {
    hide MixBlock;
    if n == 0 {
    } else {
      MixBlocksPrefix(s, m, more, n - 1);
      assert (m + more)[Size(n - 1)..Size(n)] == m[Size(n - 1)..Size(n)];
    }
  }

  /** Mixing n blocks and then k blocks of what follows mixes n + k blocks. */
  lemma {:induction false} MixBlocksMore(s: Vars, m: seq<byte>, n: nat, k: nat)
    requires Size(n + k) <= |m|
    ensures MixBlocks(s, m, n + k) == MixBlocks(MixBlocks(s, m, n), m[Size(n)..], k)
    decreases k
  {
    hide MixBlock;
    if k == 0 {
    } else {
      MixBlocksMore(s, m, n, k - 1);
      assert m[Size(n)..][Size(k - 1)..Size(k)] == m[Size(n + k - 1)..Size(n + k)];
    }
  }
}

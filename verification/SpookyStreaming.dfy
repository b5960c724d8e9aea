/**
  SpookyHash: hashing a whole message in one call, and hashing it piece by piece through a
  buffer of unhashed data.  However a message is cut, both give the same hash.
 */
module SpookyStreaming {
  import opened SpookyCore
  import opened SpookyMixing
  import opened Memory

  // ----- one call

  /** Adding the top byte first and the bytes below it then adds them all. */
  lemma TopByte(x: bv64, m: seq<byte>, p: nat, n: nat)
    requires p + n < |m| && n < 8
    ensures Add(Add(x, Placed(m[p + n], n)), Bytes(m, p, n)) == Add(x, Bytes(m, p, n + 1))
  {
    hide Add, Placed;
    AddSwap(x, Placed(m[p + n], n), Bytes(m, p, n));
  }

  lemma AddSwap(x: bv64, y: bv64, z: bv64)
    ensures Add(Add(x, y), z) == Add(x, Add(z, y))
  {
    assert Add(x + y, z) == Add(x, z + y);
  }

  lemma AddNothing(x: bv64, m: seq<byte>, p: nat)
    requires p <= |m|
    ensures Add(x, Bytes(m, p, 0)) == x == Add(x, 0)
  {}

  /** The last bytes from p on, the top one first, into a word whose lower bytes follow. */
  method HighBytes(message: seq<byte>, p: nat, n: nat, x: bv64) returns (y: bv64)
    requires 4 <= n < 8 && p + n <= |message|
    ensures Add(y, Bytes(message, p, 4)) == Add(x, Bytes(message, p, n))
  {
    hide Add, Bytes;
    y := x;
    if n == 7 {
      TopByte(y, message, p, 6);
      y := Add(y, (message[p + 6] as bv64) << 48);
    }
    if n >= 6 {
      TopByte(y, message, p, 5);
      y := Add(y, (message[p + 5] as bv64) << 40);
    }
    if n >= 5 {
      TopByte(y, message, p, 4);
      y := Add(y, (message[p + 4] as bv64) << 32);
    }
  }

  method LowBytes(message: seq<byte>, p: nat, n: nat, x: bv64) returns (y: bv64)
    requires n < 4 && p + n <= |message|
    ensures y == Add(x, Bytes(message, p, n))
  {
    hide Add, Bytes;
    y := x;
    if n == 3 {
      TopByte(y, message, p, 2);
      y := Add(y, (message[p + 2] as bv64) << 16);
    }
    if n >= 2 {
      TopByte(y, message, p, 1);
      y := Add(y, (message[p + 1] as bv64) << 8);
    }
    if n >= 1 {
      TopByte(y, message, p, 0);
      y := Add(y, message[p] as bv64);
    }
    AddNothing(y, message, p);
  }

  /** The last 0..15 bytes, and the length. */
  method Tail(message: seq<byte>, p: nat, ghost a: bv64, ghost b: bv64, c0: bv64, d0: bv64) returns (c: bv64, d: bv64)
    requires p <= |message| < p + 16
    ensures Quad(a, b, c, d) == ShortTail(Quad(a, b, c0, d0), message, p)
  {
    hide Add, Bytes;
    var remainder := |message| - p;
    c, d := c0, Add(d0, LengthWord(|message|));
    AddNothing(d, message, p);
    if remainder >= 12 {
      d := HighBytes(message, p + 8, remainder - 8, d);
      d := Add(d, Bytes(message, p + 8, 4));
      c := Add(c, Bytes(message, p, 8));
    } else if remainder >= 8 {
      d := LowBytes(message, p + 8, remainder - 8, d);
      c := Add(c, Bytes(message, p, 8));
    } else if remainder >= 4 {
      c := HighBytes(message, p, remainder, c);
      c := Add(c, Bytes(message, p, 4));
    } else if remainder >= 1 {
      c := LowBytes(message, p, remainder, c);
    } else {
      c := Add(c, SC_CONST);
      d := Add(d, SC_CONST);
    }
  }

  /** All complete sets of 32 bytes, and 16 more bytes if they are there. */
  method Sets(message: seq<byte>, seed1: bv64, seed2: bv64) returns (a: bv64, b: bv64, c: bv64, d: bv64, p: nat)
    requires |message| > 15
    ensures var n := |message| / 32; var s := ShortSets(Quad(seed1, seed2, SC_CONST, SC_CONST), message, n);
            if |message| % 32 >= 16 then p == 32 * n + 16 && Quad(a, b, c, d) == ShortHalf(s, message, 4 * n)
            else p == 32 * n && Quad(a, b, c, d) == s
  {
    hide ShortMixOf, Add, Word;
    var length := |message|;
    var end := length / 32 * 32;
    a, b, c, d, p := seed1, seed2, SC_CONST, SC_CONST, 0;
    while p < end
      invariant 0 <= p <= end && p % 32 == 0
      invariant Quad(a, b, c, d) == ShortSets(Quad(seed1, seed2, SC_CONST, SC_CONST), message, p / 32)
    {
      c := Add(c, Word(message, p / 8));
      d := Add(d, Word(message, p / 8 + 1));
      a, b, c, d := ShortMix(a, b, c, d);
      a := Add(a, Word(message, p / 8 + 2));
      b := Add(b, Word(message, p / 8 + 3));
      p := p + 32;
    }
    if length % 32 >= 16 {
      c := Add(c, Word(message, p / 8));
      d := Add(d, Word(message, p / 8 + 1));
      a, b, c, d := ShortMix(a, b, c, d);
      p := p + 16;
    }
  }

  /** The hash of a short message. */
  method Short(message: seq<byte>, seed1: bv64, seed2: bv64) returns (hash1: bv64, hash2: bv64)
    ensures (hash1, hash2) == ShortOf(message, seed1, seed2)
  {
    hide ShortHalf, ShortEndOf, ShortTail;
    var a, b, c, d := seed1, seed2, SC_CONST, SC_CONST;
    var p := 0;
    if |message| > 15 {
      a, b, c, d, p := Sets(message, a, b);
    }
    c, d := Tail(message, p, a, b, c, d);
    a, b, c, d := ShortEnd(a, b, c, d);
    hash1, hash2 := a, b;
  }

  /** The last partial block, filled with zeros and its length. */
  method LastBlock(rest: seq<byte>) returns (buf: seq<byte>)
    requires |rest| < BLOCK_SIZE
    ensures buf == Padded(rest)
  {
    hide ByteOf;
    buf := rest + seq(BLOCK_SIZE - |rest|, _ => 0);
    buf := buf[BLOCK_SIZE - 1 := ByteOf(|rest|)];
  }

  /** The whole hash in one call. */
  method Hash128(message: seq<byte>, seed1: bv64, seed2: bv64) returns (hash1: bv64, hash2: bv64)
    ensures (hash1, hash2) == HashOf(message, seed1, seed2)
  {
    hide MixOf, EndOf, Start, Padded, ShortOf, Words;
    var length := |message|;
    if length < BUF_SIZE {
      hash1, hash2 := Short(message, seed1, seed2);
      return;
    }
    var h := Start(seed1, seed2);
    var p := 0;
    var end := length / BLOCK_SIZE * BLOCK_SIZE;
    while p < end
      invariant 0 <= p <= end && p % BLOCK_SIZE == 0
      invariant h == MixBlocks(Start(seed1, seed2), message, p / BLOCK_SIZE)
    {
      h := Mix(Words(message[p..p + BLOCK_SIZE]), h);
      p := p + BLOCK_SIZE;
    }
    var buf := LastBlock(message[end..]);
    h := End(Words(buf), h);
    hash1, hash2 := h.s0, h.s1;
  }

  // ----- piece by piece

  function Loaded(state: seq<bv64>): Vars
    requires |state| == NUM_VARS
  {
    Vars(state[0], state[1], state[2], state[3], state[4], state[5], state[6], state[7], state[8], state[9], state[10],
         state[11])
  }

  function Stored(h: Vars): (state: seq<bv64>)
    ensures |state| == NUM_VARS && Loaded(state) == h
  {
    [h.s0, h.s1, h.s2, h.s3, h.s4, h.s5, h.s6, h.s7, h.s8, h.s9, h.s10, h.s11]
  }

  /** The streaming state is at the end of this message: n of its blocks are mixed in, the rest is buffered. */
  ghost predicate At(message: seq<byte>, seed1: bv64, seed2: bv64, n: nat, state: seq<bv64>, buffered: seq<byte>) {
    && |state| == NUM_VARS && |buffered| < BUF_SIZE
    && (|message| < BUF_SIZE ==> buffered == message && n == 0 && state[0] == seed1 && state[1] == seed2)
    && (|message| >= BUF_SIZE ==>
          && Size(n) <= |message| && buffered == message[Size(n)..]
          && Loaded(state) == MixBlocks(Start(seed1, seed2), message, n))
  }

  /** The state the mixing starts from. */
  function Resume(length: nat, state: seq<bv64>): Vars
    requires |state| == NUM_VARS
  {
    if length < BUF_SIZE then Start(state[0], state[1]) else Loaded(state)
  }

  lemma Resumed(message: seq<byte>, seed1: bv64, seed2: bv64, n: nat, state: seq<bv64>, buffered: seq<byte>)
    requires At(message, seed1, seed2, n, state, buffered)
    ensures Size(n) <= |message| && buffered == message[Size(n)..]
    ensures Resume(|message|, state) == MixBlocks(Start(seed1, seed2), message, n)
  {}

  /** A piece that fits is buffered. */
  lemma PieceBuffered(message: seq<byte>, seed1: bv64, seed2: bv64, n: nat, state: seq<bv64>, buffered: seq<byte>,
          piece: seq<byte>)
    requires At(message, seed1, seed2, n, state, buffered) && |buffered| + |piece| < BUF_SIZE
    ensures At(message + piece, seed1, seed2, n, state, buffered + piece)
  {
    hide MixBlock, Start, Loaded;
    if |message| >= BUF_SIZE {
      MixBlocksPrefix(Start(seed1, seed2), message, piece, n);
      assert (message + piece)[Size(n)..] == message[Size(n)..] + piece;
    } else {
      assert |message + piece| < BUF_SIZE;
    }
  }

  /** A longer one is mixed in by whole blocks, taken from the buffer and then from the piece. */
  lemma PieceMixed(message: seq<byte>, seed1: bv64, seed2: bv64, n: nat, state: seq<bv64>, buffered: seq<byte>,
          piece: seq<byte>, k: nat, state': seq<bv64>)
    requires At(message, seed1, seed2, n, state, buffered) && |buffered| + |piece| >= BUF_SIZE
    requires |buffered + piece| - BLOCK_SIZE < Size(k) <= |buffered + piece|
    requires |state'| == NUM_VARS && Loaded(state') == MixBlocks(Resume(|message|, state), buffered + piece, k)
    ensures At(message + piece, seed1, seed2, n + k, state', (buffered + piece)[Size(k)..])
  {
    hide MixBlock, Start, Loaded;
    Resumed(message, seed1, seed2, n, state, buffered);
    var s, whole := Start(seed1, seed2), message + piece;
    assert whole[Size(n)..] == buffered + piece;
    MixBlocksPrefix(s, message, piece, n);
    MixBlocksMore(s, whole, n, k);
    assert (buffered + piece)[Size(k)..] == whole[Size(n + k)..];
  }

  /** The hash of a long message from the state and what is buffered. */
  lemma Finished(message: seq<byte>, seed1: bv64, seed2: bv64, n: nat, state: seq<bv64>,
          buffered: seq<byte>)
    requires At(message, seed1, seed2, n, state, buffered) && |message| >= BUF_SIZE
    ensures |buffered| < BLOCK_SIZE ==> HashOf(message, seed1, seed2) == Finish(Loaded(state), buffered)
    ensures |buffered| >= BLOCK_SIZE ==>
              HashOf(message, seed1, seed2) ==
                Finish(MixBlock(Loaded(state), buffered[..BLOCK_SIZE]), buffered[BLOCK_SIZE..])
  {
    hide MixBlock, Start, Padded, Finish, Loaded;
    if |buffered| < BLOCK_SIZE {
      assert |message| / BLOCK_SIZE == n;
    } else {
      assert |message| / BLOCK_SIZE == n + 1;
      assert buffered[..BLOCK_SIZE] == message[Size(n)..Size(n + 1)];
      assert buffered[BLOCK_SIZE..] == message[Size(n + 1)..];
    }
  }

  class SpookyHash {
    var m_data: array<byte>
    var m_state: array<bv64>
    var m_length: nat
    var m_remainder: nat

    /** The pieces so far, the seeds, and how many blocks are mixed in. */
    ghost var message: seq<byte>
    ghost var seed1: bv64
    ghost var seed2: bv64
    ghost var mixed: nat

    ghost predicate Valid()
      reads this, m_data, m_state
    {
      && m_data.Length == BUF_SIZE && m_state.Length == NUM_VARS
      && m_length == |message| && m_remainder < BUF_SIZE
      && At(message, seed1, seed2, mixed, m_state[..], m_data[..m_remainder])
    }

    constructor ()
      ensures fresh(m_data) && fresh(m_state) && Valid() && message == []
    {
      m_data, m_state := new byte[BUF_SIZE](_ => 0), new bv64[NUM_VARS](_ => 0);
      m_length, m_remainder, message, seed1, seed2, mixed := 0, 0, [], 0, 0, 0;
    }

    method Init(s1: bv64, s2: bv64)
      requires Valid()
      modifies this, m_state
      ensures Valid() && message == [] && seed1 == s1 && seed2 == s2 && m_data == old(m_data) && m_state == old(m_state)
    {
      m_length := 0;
      m_remainder := 0;
      m_state[0] := s1;
      m_state[1] := s2;
      message, seed1, seed2, mixed := [], s1, s2, 0;
    }

    /** A piece too short to mix is stuffed away. */
    method Keep(piece: seq<byte>)
      requires Valid() && m_remainder + |piece| < BUF_SIZE
      modifies this, m_data
      ensures Valid() && message == old(message) + piece && seed1 == old(seed1) && seed2 == old(seed2)
      ensures m_data == old(m_data) && m_state == old(m_state)
    {
      hide At;
      ghost var buffered := m_data[..m_remainder];
      Memcpy(m_data, m_remainder, piece);
      PieceBuffered(message, seed1, seed2, mixed, m_state[..], buffered, piece);
      m_length := |piece| + m_length;
      m_remainder := |piece| + m_remainder;
      message := message + piece;
      assert m_data[..m_remainder] == buffered + piece;
    }

    /** What is stuffed away is completed from the piece and mixed in. */
    method UseBuffer(piece: seq<byte>, h0: Vars) returns (h: Vars, p: nat, ghost k: nat)
      requires m_data.Length == BUF_SIZE && m_remainder < BUF_SIZE <= m_remainder + |piece|
      modifies m_data
      ensures p <= |piece| && m_remainder + p == Size(k)
      ensures h == MixBlocks(h0, old(m_data[..m_remainder]) + piece, k)
    {
      hide MixOf, Words;
      h, p, k := h0, 0, 0;
      if m_remainder != 0 {
        ghost var whole := m_data[..m_remainder] + piece;
        var prefix := BUF_SIZE - m_remainder;
        Memcpy(m_data, m_remainder, piece[..prefix]);
        assert m_data[..] == whole[..BUF_SIZE];
        h := Mix(Words(m_data[..BLOCK_SIZE]), h);
        h := Mix(Words(m_data[BLOCK_SIZE..]), h);
        TwoBlocks(h0, whole);
        p, k := prefix, 2;
      }
    }

    /** Mixes in the whole blocks of the piece between p and end. */
    static method MixPiece(h0: Vars, piece: seq<byte>, p0: nat, end: nat, ghost start: Vars,
        ghost buffered: seq<byte>, ghost k0: nat)
        returns (h: Vars, ghost k: nat)
      requires p0 <= end <= |piece| && (end - p0) % BLOCK_SIZE == 0
      requires |buffered| + p0 == Size(k0) && h0 == MixBlocks(start, buffered + piece, k0)
      ensures |buffered| + end == Size(k) && h == MixBlocks(start, buffered + piece, k)
    {
      hide MixOf, Words;
      h, k := h0, k0;
      var p := p0;
      while p < end
        invariant p0 <= p <= end && (end - p) % BLOCK_SIZE == 0
        invariant |buffered| + p == Size(k) && h == MixBlocks(start, buffered + piece, k)
      {
        assert (buffered + piece)[Size(k)..Size(k + 1)] == piece[p..p + BLOCK_SIZE];
        h := Mix(Words(piece[p..p + BLOCK_SIZE]), h);
        p := p + BLOCK_SIZE;
        k := k + 1;
      }
    }

    /** The last few bytes and the variables are stuffed away. */
    method StuffAway(rest: seq<byte>, h: Vars)
      requires |rest| <= m_data.Length && m_state.Length == NUM_VARS
      modifies this`m_remainder, m_data, m_state
      ensures m_remainder == |rest| && m_data[..m_remainder] == rest && m_state[..] == Stored(h)
    {
      hide Stored;
      m_remainder := |rest|;
      Memcpy(m_data, 0, rest);
      Memcpy(m_state, 0, Stored(h));
    }

    /** All whole blocks of what is stuffed away and the piece are mixed in. */
    method MixWhole(piece: seq<byte>, h0: Vars) returns (h: Vars, end: nat, ghost k: nat)
      requires m_data.Length == BUF_SIZE && m_remainder < BUF_SIZE <= m_remainder + |piece|
      modifies m_data
      ensures end <= |piece| < end + BLOCK_SIZE && m_remainder + end == Size(k)
      ensures h == MixBlocks(h0, old(m_data[..m_remainder]) + piece, k)
    {
      hide MixBlocks;
      ghost var buffered := m_data[..m_remainder];
      var p;
      h, p, k := UseBuffer(piece, h0);
      var length := |piece| - p;
      end := p + length / BLOCK_SIZE * BLOCK_SIZE;
      h, k := MixPiece(h, piece, p, end, h0, buffered, k);
    }

    /** A piece long enough is mixed in. */
    method MixIn(piece: seq<byte>)
      requires Valid() && m_remainder + |piece| >= BUF_SIZE
      modifies this, m_data, m_state
      ensures Valid() && message == old(message) + piece && seed1 == old(seed1) && seed2 == old(seed2)
      ensures m_data == old(m_data) && m_state == old(m_state)
    {
      hide At, Resume, MixBlocks, Loaded, Stored;
      ghost var buffered, state := m_data[..m_remainder], m_state[..];
      var h, end, k := MixWhole(piece, Resume(m_length, m_state[..]));
      PieceMixed(message, seed1, seed2, mixed, state, buffered, piece, k, Stored(h));
      m_length := |piece| + m_length;
      message, mixed := message + piece, mixed + k;
      assert piece[end..] == (buffered + piece)[Size(k)..];
      StuffAway(piece[end..], h);
    }

    /** Adds a piece to the message. */
    method Update(piece: seq<byte>)
      requires Valid() && m_length + |piece| < 0x1_0000_0000_0000_0000
      modifies this, m_data, m_state
      ensures Valid() && message == old(message) + piece && seed1 == old(seed1) && seed2 == old(seed2)
      ensures m_data == old(m_data) && m_state == old(m_state)
    {
      if |piece| + m_remainder < BUF_SIZE {
        Keep(piece);
      } else {
        MixIn(piece);
      }
    }

    /** Fills the block at data with zeros behind its first bytes, and puts their number last. */
    method Pad(data: nat, remainder: nat)
      requires data + BLOCK_SIZE <= m_data.Length && remainder < BLOCK_SIZE
      modifies m_data
      ensures m_data[data..data + BLOCK_SIZE] == Padded(old(m_data[data..data + remainder]))
      ensures m_data[..data + remainder] == old(m_data[..data + remainder])
    {
      hide ByteOf;
      Memcpy(m_data, data + remainder, seq(BLOCK_SIZE - remainder, _ => 0));
      m_data[data + BLOCK_SIZE - 1] := ByteOf(remainder);
    }

    /**
      The hash of all pieces so far.  Only buffer bytes beyond the unhashed data change, so
      further pieces can follow.
     */
    method Final() returns (hash1: bv64, hash2: bv64)
      requires Valid()
      modifies m_data
      ensures Valid() && m_data[..m_remainder] == old(m_data[..m_remainder])
      ensures (hash1, hash2) == HashOf(message, seed1, seed2)
    {
      hide MixOf, EndOf, Start, Padded, ShortOf, Words, Loaded, MixBlocks;
      ghost var buffered := m_data[..m_remainder];
      if m_length < BUF_SIZE {
        hash1, hash2 := Short(m_data[..m_length], m_state[0], m_state[1]);
        return;
      }
      Finished(message, seed1, seed2, mixed, m_state[..], buffered);
      var h := Loaded(m_state[..]);
      var data := 0;
      var remainder := m_remainder;
      assert buffered[0..] == buffered;
      if remainder >= BLOCK_SIZE {
        assert m_data[..BLOCK_SIZE] == buffered[..BLOCK_SIZE];
        h := Mix(Words(m_data[..BLOCK_SIZE]), h);
        data := BLOCK_SIZE;
        remainder := remainder - BLOCK_SIZE;
      }
      assert m_data[data..data + remainder] == buffered[data..];
      Pad(data, remainder);
      assert m_data[..m_remainder] == buffered;
      h := End(Words(m_data[data..data + BLOCK_SIZE]), h);
      hash1, hash2 := h.s0, h.s1;
    }
  }

  lemma TwoBlocks(start: Vars, whole: seq<byte>)
    requires |whole| >= BUF_SIZE
    ensures MixBlocks(start, whole, 2) ==
              MixBlock(MixBlock(start, whole[..BUF_SIZE][..BLOCK_SIZE]), whole[..BUF_SIZE][BLOCK_SIZE..])
  {
    hide MixBlock;
    assert whole[..BUF_SIZE][..BLOCK_SIZE] == whole[0..BLOCK_SIZE];
    assert whole[..BUF_SIZE][BLOCK_SIZE..] == whole[BLOCK_SIZE..Size(2)];
    assert MixBlocks(start, whole, 1) == MixBlock(MixBlocks(start, whole, 0), whole[0..BLOCK_SIZE]);
  }

  // ----- any way of cutting a message

  function Concat(pieces: seq<seq<byte>>): seq<byte>
    decreases |pieces|
  {
    if pieces == [] then [] else Concat(pieces[..|pieces| - 1]) + pieces[|pieces| - 1]
  }

  /** However a message is cut into pieces, streaming them gives the hash of the whole. */
  method HashPieces(pieces: seq<seq<byte>>, seed1: bv64, seed2: bv64) returns (hash1: bv64, hash2: bv64)
    requires |Concat(pieces)| < 0x1_0000_0000_0000_0000
    ensures (hash1, hash2) == HashOf(Concat(pieces), seed1, seed2)
  {
    var spooky := new SpookyHash();
    spooky.Init(seed1, seed2);
    var i := 0;
    assert pieces[..|pieces|] == pieces;
    while i < |pieces|
      invariant 0 <= i <= |pieces| && spooky.Valid() && fresh(spooky) && fresh(spooky.m_data) && fresh(spooky.m_state)
      invariant spooky.message == Concat(pieces[..i]) && spooky.seed1 == seed1 && spooky.seed2 == seed2
    {
      ConcatStep(pieces, i);
      spooky.Update(pieces[i]);
      i := i + 1;
    }
    hash1, hash2 := spooky.Final();
  }

  lemma ConcatStep(pieces: seq<seq<byte>>, i: nat)
    requires i < |pieces|
    ensures Concat(pieces[..i + 1]) == Concat(pieces[..i]) + pieces[i]
    ensures |Concat(pieces[..i + 1])| <= |Concat(pieces)|
    decreases |pieces| - i
  {
    assert pieces[..i + 1][..i] == pieces[..i];
    if i + 1 < |pieces| {
      ConcatStep(pieces, i + 1);
    } else {
      assert pieces[..i + 1] == pieces;
    }
  }
}

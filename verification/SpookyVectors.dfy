/**
  Hashes of particular messages, word for word, so that no rotation, no constant and no
  stage of SpookyHash V2 can change unnoticed.
 */
module SpookyVectors {
  import opened SpookyCore

  // ----- words

  /** n bytes in which every word is its number, counted from one. */
  function Numbered(n: nat): (m: seq<byte>)
    requires n <= 200
    ensures |m| == n
  {
    seq(n, j requires 0 <= j < n => if j % 8 == 0 then ByteOf(j / 8 + 1) else 0)
  }

  /** Four more bytes of a word. */
  lemma FourBytes(bs: seq<byte>, p: nat, n: nat, b0: byte, b1: byte, b2: byte, b3: byte)
    requires n <= 4 && p + n + 4 <= |bs|
    requires bs[p + n] == b0 && bs[p + n + 1] == b1 && bs[p + n + 2] == b2 && bs[p + n + 3] == b3
    ensures Bytes(bs, p, n + 4) == Add(Add(Add(Add(Bytes(bs, p, n), Placed(b0, n)), Placed(b1, n + 1)),
                                           Placed(b2, n + 2)), Placed(b3, n + 3))
  {
    hide Add, Placed;
    assert Bytes(bs, p, n + 1) == Add(Bytes(bs, p, n), Placed(b0, n));
    assert Bytes(bs, p, n + 2) == Add(Bytes(bs, p, n + 1), Placed(b1, n + 1));
    assert Bytes(bs, p, n + 3) == Add(Bytes(bs, p, n + 2), Placed(b2, n + 2));
  }

  lemma NoBytes(bs: seq<byte>, p: nat)
    requires p <= |bs|
    ensures Bytes(bs, p, 0) == 0
  {}

  /** A word of which all bytes but the lowest are zero. */
  lemma LowByte(bs: seq<byte>, p: nat)
    requires p + 8 <= |bs| && forall j :: p < j < p + 8 ==> bs[j] == 0
    ensures Bytes(bs, p, 8) == bs[p] as bv64
  {
    hide Bytes;
    NoBytes(bs, p);
    FourBytes(bs, p, 0, bs[p], 0, 0, 0);
    assert Bytes(bs, p, 4) == bs[p] as bv64;
    FourBytes(bs, p, 4, 0, 0, 0, 0);
  }

  /** A word of which all bytes but the highest are zero, and that is 8. */
  lemma TopByteOnly(bs: seq<byte>, p: nat)
    requires p + 8 <= |bs| && (forall j :: p <= j < p + 7 ==> bs[j] == 0) && bs[p + 7] == 8
    ensures Bytes(bs, p, 8) == 0x0800000000000000
  {
    hide Bytes;
    NoBytes(bs, p);
    FourBytes(bs, p, 0, 0, 0, 0, 0);
    assert Bytes(bs, p, 4) == 0;
    FourBytes(bs, p, 4, 0, 0, 0, 8);
  }

  lemma NumberByte(w: nat)
    requires w < 25
    ensures Numbered(200)[8 * w] == ByteOf(w + 1)
  {}

  lemma NumberedBlock(q: nat)
    requires q < 2
    ensures var data := Words(Numbered(200)[Size(q)..Size(q + 1)]);
            forall i :: 0 <= i < 12 ==> data[i] == ByteOf(12 * q + i + 1) as bv64
  {
    hide Bytes, ByteOf;
    var block := Numbered(200)[Size(q)..Size(q + 1)];
    forall i | 0 <= i < 12
      ensures Words(block)[i] == ByteOf(12 * q + i + 1) as bv64
    {
      NumberByte(12 * q + i);
      LowByte(block, 8 * i);
    }
  }

  /** The number of words is written as a byte, and so is the length of the last block. */
  lemma SmallBytes()
    ensures ByteOf(1) == 1 && ByteOf(2) == 2 && ByteOf(3) == 3 && ByteOf(4) == 4 && ByteOf(5) == 5 && ByteOf(6) == 6
    ensures ByteOf(7) == 7 && ByteOf(8) == 8 && ByteOf(9) == 9 && ByteOf(10) == 10 && ByteOf(11) == 11
    ensures ByteOf(12) == 12
    ensures ByteOf(13) == 13 && ByteOf(14) == 14 && ByteOf(15) == 15 && ByteOf(16) == 16 && ByteOf(17) == 17
    ensures ByteOf(18) == 18 && ByteOf(19) == 19 && ByteOf(20) == 20 && ByteOf(21) == 21 && ByteOf(22) == 22
    ensures ByteOf(23) == 23 && ByteOf(24) == 24 && ByteOf(25) == 25 && ByteOf(95) == 95
  {}

  lemma FirstBlock()
    ensures Counts(Words(Numbered(200)[Size(0)..Size(1)]), 1)
  {
    hide Words, Numbered, ByteOf;
    SmallBytes();
    NumberedBlock(0);
  }

  lemma SecondBlock()
    ensures Counts(Words(Numbered(200)[Size(1)..Size(2)]), 13)
  {
    hide Words, Numbered, ByteOf;
    SmallBytes();
    NumberedBlock(1);
  }

  // ----- rows

  /** Twelve words that count on from n. */
  predicate Counts(data: Block, n: bv64) {
    && data[0] == n && data[1] == n + 1 && data[2] == n + 2 && data[3] == n + 3
    && data[4] == n + 4 && data[5] == n + 5 && data[6] == n + 6 && data[7] == n + 7
    && data[8] == n + 8 && data[9] == n + 9 && data[10] == n + 10 && data[11] == n + 11
  }

  lemma FourMixRows(s: Vars, data: Block, k: nat, d0: bv64, d1: bv64, d2: bv64, d3: bv64)
    requires k <= 8 && data[k] == d0 && data[k + 1] == d1 && data[k + 2] == d2 && data[k + 3] == d3
    ensures MixRows(s, data, k + 4) ==
              MixRow(MixRow(MixRow(MixRow(MixRows(s, data, k), d0, MixRotation(k)), d1, MixRotation(k + 1)),
                            d2, MixRotation(k + 2)), d3, MixRotation(k + 3))
  {
    hide MixRow, MixRotation;
    assert MixRows(s, data, k + 2) == MixRow(MixRows(s, data, k + 1), d1, MixRotation(k + 1));
    assert MixRows(s, data, k + 3) == MixRow(MixRows(s, data, k + 2), d2, MixRotation(k + 2));
  }

  lemma FourEndRows(s: Vars, k: nat)
    requires k <= 8
    ensures EndRows(s, k + 4) == EndRow(EndRow(EndRow(EndRow(EndRows(s, k), EndRotation(k)), EndRotation(k + 1)),
                                               EndRotation(k + 2)), EndRotation(k + 3))
  {
    hide EndRow, EndRotation;
    assert EndRows(s, k + 2) == EndRow(EndRows(s, k + 1), EndRotation(k + 1));
    assert EndRows(s, k + 3) == EndRow(EndRows(s, k + 2), EndRotation(k + 2));
  }

  lemma FourShortMixRows(s: Quad, k: nat)
    requires k <= 8
    ensures ShortMixRows(s, k + 4) ==
              ShortMixRow(ShortMixRow(ShortMixRow(ShortMixRow(ShortMixRows(s, k), ShortMixRotation(k)),
                                                  ShortMixRotation(k + 1)), ShortMixRotation(k + 2)),
                          ShortMixRotation(k + 3))
  {
    hide ShortMixRow, ShortMixRotation;
    assert ShortMixRows(s, k + 2) == ShortMixRow(ShortMixRows(s, k + 1), ShortMixRotation(k + 1));
    assert ShortMixRows(s, k + 3) == ShortMixRow(ShortMixRows(s, k + 2), ShortMixRotation(k + 2));
  }

  lemma FourShortEndRows(s: Quad, k: nat)
    requires k <= 7
    ensures ShortEndRows(s, k + 4) ==
              ShortEndRow(ShortEndRow(ShortEndRow(ShortEndRow(ShortEndRows(s, k), ShortEndRotation(k)),
                                                  ShortEndRotation(k + 1)), ShortEndRotation(k + 2)),
                          ShortEndRotation(k + 3))
  {
    hide ShortEndRow, ShortEndRotation;
    assert ShortEndRows(s, k + 2) == ShortEndRow(ShortEndRows(s, k + 1), ShortEndRotation(k + 1));
    assert ShortEndRows(s, k + 3) == ShortEndRow(ShortEndRows(s, k + 2), ShortEndRotation(k + 2));
  }

  lemma LastShortEndRows(s: Quad)
    ensures ShortEndRows(s, 11) ==
              ShortEndRow(ShortEndRow(ShortEndRow(ShortEndRows(s, 8), ShortEndRotation(8)), ShortEndRotation(9)),
                          ShortEndRotation(10))
  {
    hide ShortEndRow, ShortEndRotation;
    assert ShortEndRows(s, 10) == ShortEndRow(ShortEndRows(s, 9), ShortEndRotation(9));
  }

  // ----- a long message

  const START :=
    Vars(1, 2, 0xdeadbeefdeadbeef, 1, 2, 0xdeadbeefdeadbeef, 1, 2, 0xdeadbeefdeadbeef, 1, 2, 0xdeadbeefdeadbeef)

  const MIXED_ONE :=
    Vars(0x7c4241974bfb20df, 0x07ce316ecf3f3be0, 0x9207f70a92088efa, 0x95f224cb15f1d4c0, 0xb031757a90100d67,
         0x6a2ac004fa29b7f3, 0x0052711764c8050b, 0x65e1efe1d2c0082a, 0xa2efff789556ee2e, 0xba954cb57264463e,
         0x7ad7a4a69568c32c, 0x6db46ed31443831b)

  const MIXED_TWO :=
    Vars(0x279911c23f774e73, 0x71e014d3708a5c7a, 0xdcfd16e6472413a1, 0x31301af30d30bafb, 0x65efdfa0b49dc3ce,
         0x8588aa09fdfd9347, 0x69daccd4aa0e7854, 0x4cc769ee940ea209, 0xd90bcf1f22efeb91, 0xc5c5b8694b3edbd8,
         0x7125e2b598b50d1f, 0x5f7d9540c2576ebe)

  const ADDED :=
    Vars(0x279911c23f774e8c, 0x71e014d3708a5c7a, 0xdcfd16e6472413a1, 0x31301af30d30bafb, 0x65efdfa0b49dc3ce,
         0x8588aa09fdfd9347, 0x69daccd4aa0e7854, 0x4cc769ee940ea209, 0xd90bcf1f22efeb91, 0xc5c5b8694b3edbd8,
         0x7125e2b598b50d1f, 0x677d9540c2576ebe)

  const END_ONE :=
    Vars(0xa1a9cf3d10007761, 0x168a9afee0290a10, 0x02b7dfa7fa1399f8, 0x6775ed2678155bdd, 0xa750dad5b72fab5d,
         0xe71a631cf2fe74d5, 0xe247f315ed6fe329, 0x864f38092a768c9f, 0x2ceb54bee6ac0942, 0x8a053af4b4e0a1a3,
         0xd75be19b5973def6, 0x3709ebd6dbfaab51)

  const END_TWO :=
    Vars(0xa0ba7ad3f34140bc, 0xf28c0d77c61c3379, 0x3bc23f3c7746f505, 0x95703cbee49b97f4, 0xfbc3eef4b8865600,
         0xebad4b34c907e2c0, 0xdb2f09451e1b8ad8, 0x848629fd6e65a971, 0x17cf0e5bb486d06f, 0x1926676253325178,
         0xdad5cb8611c9d550, 0x959439696e223822)

  const END_THREE :=
    Vars(0xa4749b6d214eeea0, 0xc5c52e5e1e6b9c6a, 0xbbd62b8879ceed00, 0x99048377b87c2fff, 0x7bb0da2508578218,
         0x317ae3ec850a5a95, 0x73853805b5e39f5f, 0x4672c100af7f7623, 0x5a5df0b85015e849, 0x86f140340d035dcb,
         0x40e149668c925965, 0xae0f4b49f6d96590)

  lemma FirstBlockMixed(data: Block)
    requires Counts(data, 1)
    ensures MixOf(START, data) == MIXED_ONE
  {
    hide MixRows;
    NoRows(START, data);
    FourMixRows(START, data, 0, 1, 2, 3, 4);
    assert MixRows(START, data, 4) == Vars(0xdeadbeefdeadcef3, 0x63f6c33463f6c331, 1, 2, 0xdeadbeefdeadbeef, 1, 2,
                                           0xdeadbeefdeadbeef, 0xdeadbeefdeadcef1, 0xbd5b7ddbbd5b7dde,
                                           0x9207f70a92088efa, 0xef56df796f56df77);
    FourMixRows(START, data, 4, 5, 6, 7, 8);
    assert MixRows(START, data, 8) == Vars(0x6e9ccb954ebdb388, 0x6a2ac004fa29b7f2, 2, 0xdeadbeefdeadbeef,
                                           0xdeadbeefdeadcef1, 0xbd5b7ddbbd5b7dde, 0x9207f70a92088efa,
                                           0x95f224cb15f1d4c0, 0xb031757a90100d67, 0x6a2ac004fa29b7f3,
                                           0x0052711764c8050b, 0x952be449962be3a9);
    FourMixRows(START, data, 8, 9, 10, 11, 12);
  }

  lemma SecondBlockMixed(data: Block)
    requires Counts(data, 13)
    ensures MixOf(MIXED_ONE, data) == MIXED_TWO
  {
    hide MixRows;
    NoRows(MIXED_ONE, data);
    FourMixRows(MIXED_ONE, data, 0, 13, 14, 15, 16);
    assert MixRows(MIXED_ONE, data, 4) == Vars(0x4ea3aba78d88a885, 0xde0f6cbec19d3051, 0x0052711764c8050b,
                                               0x65e1efe1d2c0082a, 0xa2efff789556ee2e, 0xba954cb57264463e,
                                               0x7ad7a4a69568c32c, 0x19c460b32ef7dfd7, 0xfe92dedd1d98a5e2,
                                               0xb425acba3bb487a2, 0xdcfd16e6472413a1, 0x1d830593c61b223c);
    FourMixRows(MIXED_ONE, data, 4, 17, 18, 19, 20);
    assert MixRows(MIXED_ONE, data, 8) == Vars(0xc70020d821cb2de0, 0x3f1de6bc8f99d579, 0x7ad7a4a69568c32c,
                                               0x19c460b32ef7dfd7, 0xfe92dedd1d98a5e2, 0xb425acba3bb487a2,
                                               0xdcfd16e6472413a1, 0x31301af30d30bafb, 0x65efdfa0b49dc3ce,
                                               0x8588aa09fdfd9347, 0x69daccd4aa0e7854, 0xcaa9a3ea25bfe165);
    FourMixRows(MIXED_ONE, data, 8, 21, 22, 23, 24);
  }

  lemma EndOnce()
    ensures EndPartialOf(ADDED) == END_ONE
  {
    hide EndRows;
    NoEndRows(ADDED);
    FourEndRows(ADDED, 0);
    assert EndRows(ADDED, 4) == Vars(0x98a1b8e2e51487d4, 0x873f75ae07ee0abf, 0x69daccd4aa0e7854, 0x4cc769ee940ea209,
                                     0xd90bcf1f22efeb91, 0xc5c5b8694b3edbd8, 0x7125e2b598b50d1f, 0xd95daa1432e1cb38,
                                     0x2d39ceb4b53d2725, 0xc1d17b65b95ad4e6, 0x02b7dfa7fa1399f8, 0xe03677787027511e);
    FourEndRows(ADDED, 4);
    assert EndRows(ADDED, 8) == Vars(0x35807a0233e887c2, 0x27824b7ca65138f1, 0x7125e2b598b50d1f, 0xd95daa1432e1cb38,
                                     0x2d39ceb4b53d2725, 0xc1d17b65b95ad4e6, 0x02b7dfa7fa1399f8, 0x6775ed2678155bdd,
                                     0xa750dad5b72fab5d, 0xe71a631cf2fe74d5, 0xe247f315ed6fe329, 0x5eccec8c842553ae);
    FourEndRows(ADDED, 8);
  }

  lemma EndTwice()
    ensures EndPartialOf(END_ONE) == END_TWO
  {
    hide EndRows;
    NoEndRows(END_ONE);
    FourEndRows(END_ONE, 0);
    assert EndRows(END_ONE, 4) == Vars(0x848c1f49ae91e123, 0xdcd85c2085b881d0, 0xe247f315ed6fe329, 0x864f38092a768c9f,
                                       0x2ceb54bee6ac0942, 0x8a053af4b4e0a1a3, 0xd75be19b5973def6, 0x4d9486d5bc23b561,
                                       0xf0cd28af5630a3fa, 0x2859c6f1d7d5e629, 0x3bc23f3c7746f505, 0xb897e09e5ee31624);
    FourEndRows(END_ONE, 4);
    assert EndRows(END_ONE, 8) == Vars(0xc3f145f57d7058e8, 0x512a33b1aafb2b7b, 0xd75be19b5973def6, 0x4d9486d5bc23b561,
                                       0xf0cd28af5630a3fa, 0x2859c6f1d7d5e629, 0x3bc23f3c7746f505, 0x95703cbee49b97f4,
                                       0xfbc3eef4b8865600, 0xebad4b34c907e2c0, 0xdb2f09451e1b8ad8, 0x335bf64bc36a7df6);
    FourEndRows(END_ONE, 8);
  }

  lemma EndThrice()
    ensures EndPartialOf(END_TWO) == END_THREE
  {
    hide EndRows;
    NoEndRows(END_TWO);
    FourEndRows(END_TWO, 0);
    assert EndRows(END_TWO, 4) == Vars(0x39854ff261efdcf1, 0x507b60bcb0c90fc0, 0xdb2f09451e1b8ad8, 0x848629fd6e65a971,
                                       0x17cf0e5bb486d06f, 0x1926676253325178, 0xdad5cb8611c9d550, 0x882046e1343e6b9b,
                                       0x549cf4b136b9df5a, 0x8524673892f9c50f, 0xbbd62b8879ceed00, 0x488922bb07b3203f);
    FourEndRows(END_TWO, 4);
    assert EndRows(END_TWO, 8) == Vars(0xbdb6e631915f44d6, 0x6aa35f67e6d1ce27, 0xdad5cb8611c9d550, 0x882046e1343e6b9b,
                                       0x549cf4b136b9df5a, 0x8524673892f9c50f, 0xbbd62b8879ceed00, 0x99048377b87c2fff,
                                       0x7bb0da2508578218, 0x317ae3ec850a5a95, 0x73853805b5e39f5f, 0xdbcf6198c8ada7fc);
    FourEndRows(END_TWO, 8);
  }

  /** The last block: the number 25 in eight bytes, zeros, and how many bytes there were. */
  lemma LastBlock(block: seq<byte>)
    requires block == Padded(Numbered(200)[192..])
    ensures Words(block) == [25, 0, 0, 0, 0, 0, 0, 0, 0, 0, 0, 0x0800000000000000]
  {
    hide Bytes;
    NumberByte(24);
    LowByte(block, 0);
    forall i | 1 <= i < 11
      ensures Words(block)[i] == 0
    {
      LowByte(block, 8 * i);
    }
    TopByteOnly(block, 88);
  }

  /** 200 bytes under the seeds 1 and 2: two blocks and eight bytes. */
  lemma HashOfTwoHundred()
    ensures HashOf(Numbered(200), 1, 2) == (0xa4749b6d214eeea0, 0xc5c52e5e1e6b9c6a)
  {
    hide MixOf, EndPartialOf, Words, Padded, ByteOf, Numbered, Counts;
    var m, start := Numbered(200), Start(1, 2);
    FirstBlock();
    SecondBlock();
    FirstBlockMixed(Words(m[Size(0)..Size(1)]));
    SecondBlockMixed(Words(m[Size(1)..Size(2)]));
    assert MixBlocks(start, m, 1) == MixBlock(start, m[Size(0)..Size(1)]);
    LastBlock(Padded(m[Size(2)..]));
    EndOnce();
    EndTwice();
    EndThrice();
  }

  // ----- short messages

  lemma EndOfOne(s: Quad)
    requires s == Quad(0, 0, 0xdeadbeefdeadbef0, 0xe2adbeefdeadbeef)
    ensures ShortEndOf(s) == Quad(0xda1bf81db640f023, 0x9bdbd1f5c5efad25, 0xe284531ca8431d2b, 0x45fb6dc3faa9678e)
  {
    hide ShortEndRows;
    NoShortRows(s);
    FourShortEndRows(s, 0);
    assert ShortEndRows(s, 4) == Quad(0x5753999bec4b269b, 0x6cb350ea038e098c, 0x221e001121d7ec4c, 0xf751b77ef56df786);
    FourShortEndRows(s, 4);
    assert ShortEndRows(s, 8) == Quad(0x3a8f45558c6e9944, 0x758829e3632f5d45, 0xa8431d2be284531c, 0xda6c692db7f797ce);
    LastShortEndRows(s);
  }

  lemma EndOfTwo(s: Quad)
    requires s == Quad(0, 0, 0xdeadbeefdeadbef1, 0xe2adbeefdeadbeef)
    ensures ShortEndOf(s) == Quad(0xcd8dc1c9fdae4807, 0xa9ef7e0c7ad14a32, 0xf2ee60e8411d06ad, 0x6116ec0fa46af19a)
  {
    hide ShortEndRows;
    NoShortRows(s);
    FourShortEndRows(s, 0);
    assert ShortEndRows(s, 4) == Quad(0x57539b9c084ae69b, 0x6ceb506a138ee98e, 0x2265fd9115d80c59, 0xf741b77ef56df78e);
    FourShortEndRows(s, 4);
    assert ShortEndRows(s, 8) == Quad(0x0f7c5ab4dd8799a7, 0x477a3fd1867f9224, 0x411d06adf2ee60e8, 0x03976ae5b8b761cd);
    LastShortEndRows(s);
  }

  lemma EndOfFifteen(s: Quad)
    requires s == Quad(0, 0, 0xe6b4c4f4e2b0c0f0, 0xedbcccfceab8c8f8)
    ensures ShortEndOf(s) == Quad(0x9482c21e4a1cdf2c, 0x037dad4921655357, 0x24cec4f3b6bd655e, 0x757cd74f32fcdc33)
  {
    hide ShortEndRows;
    NoShortRows(s);
    FourShortEndRows(s, 0);
    assert ShortEndRows(s, 4) == Quad(0x1ffa1c0da48ea546, 0x457a1d1b6cad18ad, 0x675339e9301af4a2, 0xb626d82796068807);
    FourShortEndRows(s, 4);
    assert ShortEndRows(s, 8) == Quad(0xcde6b557df5745bf, 0x47ff6f164371ca72, 0xb6bd655e24cec4f3, 0xef223199236086c8);
    LastShortEndRows(s);
  }

  lemma EndOfEmpty(s: Quad)
    requires s == Quad(0, 0, 0xbd5b7ddfbd5b7dde, 0xbd5b7ddfbd5b7dde)
    ensures ShortEndOf(s) == Quad(0x232706fc6bf50919, 0x8b72ee65b4e851c7, 0x88d8e9628fb694ae, 0x015c99660e766a98)
  {
    hide ShortEndRows;
    NoShortRows(s);
    FourShortEndRows(s, 0);
    assert ShortEndRows(s, 4) == Quad(0xaea72d368aa72f36, 0xe6c2c397d711a393, 0xcd5fe7e761aec608, 0xeadbeefdeadbeef5);
    FourShortEndRows(s, 4);
    assert ShortEndRows(s, 8) == Quad(0x7fc43892673f149d, 0x2e05ea919f195a9c, 0x8fb694ae88d8e962, 0x3deaf630964ef73b);
    LastShortEndRows(s);
  }

  lemma FirstHalfMixed(s: Quad)
    requires s == Quad(1, 2, 0xdeadbeefdeadbef0, 0xdeadbeefdeadbef1)
    ensures ShortMixOf(s) == Quad(0x0f2b1183f921efdf, 0xf106951b8b00819c, 0x89ee5233a32f180a, 0x9aca41d12068f154)
  {
    hide ShortMixRows;
    NoShortRows(s);
    FourShortMixRows(s, 0);
    assert ShortMixRows(s, 4) == Quad(0x802a72ec800772ec, 0x30a452dd78b350dd, 0x5a5b4b4a5a6a4b4b, 0xf92b765fb1d8745c);
    FourShortMixRows(s, 4);
    assert ShortMixRows(s, 8) == Quad(0x0a402c670c9b7488, 0x15b1c2538d19f4e6, 0xc642215588f47a66, 0xd534bb5af7d1d93c);
    FourShortMixRows(s, 8);
  }

  lemma SecondHalfMixed(s: Quad)
    requires s == Quad(0x0f2b1183f921efe2, 0xf106951b8b0081a0, 0x89ee5233a32f180f, 0x9aca41d12068f15a)
    ensures ShortMixOf(s) == Quad(0x4af9fe90bcdf8b4b, 0x712c93d2392b8393, 0x2b8f52f5e3de0f5a, 0xd25d60df7a1840d7)
  {
    hide ShortMixRows;
    NoShortRows(s);
    FourShortMixRows(s, 0);
    assert ShortMixRows(s, 4) == Quad(0x5cd156336330f725, 0xf80b87aaa16af57f, 0xa7d93fb90a078933, 0xf1c6a3070c426dfc);
    FourShortMixRows(s, 4);
    assert ShortMixRows(s, 8) == Quad(0x955b855f3645a9a8, 0x6625244ed76a1749, 0xabeb1c09ccc14676, 0xb67be562ebd13274);
    FourShortMixRows(s, 8);
  }

  lemma EndOfSet(s: Quad)
    requires s == Quad(0x4af9fe90bcdf8b4b, 0x712c93d2392b8393, 0x2b8f52f5e3de0f61, 0x0f5d60df7a1840df)
    ensures ShortEndOf(s) == Quad(0x0dc1fe5ffa6c0626, 0x01606b173d7c5a3c, 0xa7cbca8b6d956864, 0xef2c2014d95e632e)
  {
    hide ShortEndRows;
    NoShortRows(s);
    FourShortEndRows(s, 0);
    assert ShortEndRows(s, 4) == Quad(0x6d7d0e18f37446fd, 0x6560cdd1d512cee2, 0x1621991f337fa84d, 0x585ce4d2419a176e);
    FourShortEndRows(s, 4);
    assert ShortEndRows(s, 8) == Quad(0x83664bdc8d69a372, 0xe81d9008b7c8585a, 0x6d956864a7cbca8b, 0x6af0a4888fb16883);
    LastShortEndRows(s);
  }

  lemma SmallState(m: seq<byte>)
    requires |m| < 16
    ensures ShortState(m, 0, 0) == ShortTail(Quad(0, 0, SC_CONST, SC_CONST), m, 0)
  {
    hide ShortTail;
  }

  /** No bytes at all. */
  lemma HashOfNothing()
    ensures HashOf([], 0, 0) == (0x232706fc6bf50919, 0x8b72ee65b4e851c7)
  {
    hide ShortEndOf, ShortState;
    SmallState([]);
    EndOfEmpty(ShortState([], 0, 0));
  }

  /** The four-byte flow id 1. */
  lemma HashOfOne()
    ensures HashOf([1, 0, 0, 0], 0, 0) == (0xda1bf81db640f023, 0x9bdbd1f5c5efad25)
  {
    hide ShortEndOf, ShortState, Bytes;
    SmallState([1, 0, 0, 0]);
    NoBytes([1, 0, 0, 0], 0);
    FourBytes([1, 0, 0, 0], 0, 0, 1, 0, 0, 0);
    EndOfOne(ShortState([1, 0, 0, 0], 0, 0));
  }

  /** The four-byte flow id 2. */
  lemma HashOfTwo()
    ensures HashOf([2, 0, 0, 0], 0, 0) == (0xcd8dc1c9fdae4807, 0xa9ef7e0c7ad14a32)
  {
    hide ShortEndOf, ShortState, Bytes;
    SmallState([2, 0, 0, 0]);
    NoBytes([2, 0, 0, 0], 0);
    FourBytes([2, 0, 0, 0], 0, 0, 2, 0, 0, 0);
    EndOfTwo(ShortState([2, 0, 0, 0], 0, 0));
  }

  const FIFTEEN: seq<byte> := [1, 2, 3, 4, 5, 6, 7, 8, 9, 10, 11, 12, 13, 14, 15]

  lemma EightOfFifteen()
    ensures Bytes(FIFTEEN, 0, 8) == 0x0807060504030201
  {}

  lemma RestOfFifteen()
    ensures Bytes(FIFTEEN, 8, 7) == 0x0f0e0d0c0b0a09
  {}

  /** Fifteen different bytes. */
  lemma HashOfFifteen()
    ensures HashOf(FIFTEEN, 0, 0) == (0x9482c21e4a1cdf2c, 0x037dad4921655357)
  {
    hide ShortEndOf, ShortState, Bytes;
    SmallState(FIFTEEN);
    EightOfFifteen();
    RestOfFifteen();
    EndOfFifteen(ShortState(FIFTEEN, 0, 0));
  }

  lemma NumberedWord(w: nat)
    requires w < 7
    ensures Word(Numbered(61), w) == ByteOf(w + 1) as bv64
  {
    hide Bytes, ByteOf;
    LowByte(Numbered(61), 8 * w);
  }

  lemma NumberedWords()
    ensures var m := Numbered(61);
            && Word(m, 0) == 1 && Word(m, 1) == 2 && Word(m, 2) == 3 && Word(m, 3) == 4
            && Word(m, 4) == 5 && Word(m, 5) == 6 && Word(m, 6) == 7
  {
    hide Word, Numbered;
    NumberedWord(0);
    NumberedWord(1);
    NumberedWord(2);
    NumberedWord(3);
    NumberedWord(4);
    NumberedWord(5);
    NumberedWord(6);
  }

  /** The complete set, and the half set after it. */
  lemma SetsMixed(m: seq<byte>)
    requires m == Numbered(61)
    ensures ShortHalf(ShortSets(Quad(1, 2, SC_CONST, SC_CONST), m, 1), m, 4) ==
              Quad(0x4af9fe90bcdf8b4b, 0x712c93d2392b8393, 0x2b8f52f5e3de0f5a, 0xd25d60df7a1840d7)
  {
    hide ShortMixOf, Word, Numbered;
    var s := Quad(1, 2, SC_CONST, SC_CONST);
    NumberedWords();
    FirstHalfMixed(Quad(1, 2, 0xdeadbeefdeadbef0, 0xdeadbeefdeadbef1));
    assert ShortHalf(s, m, 0) == Quad(0x0f2b1183f921efdf, 0xf106951b8b00819c, 0x89ee5233a32f180a, 0x9aca41d12068f154);
    var t := Quad(0x0f2b1183f921efe2, 0xf106951b8b0081a0, 0x89ee5233a32f180a, 0x9aca41d12068f154);
    assert ShortSets(s, m, 0) == s && ShortSet(s, m, 0) == t;
    SecondHalfMixed(Quad(0x0f2b1183f921efe2, 0xf106951b8b0081a0, 0x89ee5233a32f180f, 0x9aca41d12068f15a));
  }

  lemma FifthByte(bs: seq<byte>, p: nat, b4: byte)
    requires p + 5 <= |bs| && bs[p + 4] == b4
    ensures Bytes(bs, p, 5) == Add(Bytes(bs, p, 4), Placed(b4, 4))
  {
    hide Add, Placed;
  }

  /** The last 13 bytes, and the length. */
  lemma LastBytes(m: seq<byte>)
    requires m == Numbered(61)
    ensures TailWords(m, 48) == (7, 8) && LengthWord(61) == 0x3d00000000000000
  {
    hide Bytes;
    LowByte(m, 48);
    NoBytes(m, 56);
    FourBytes(m, 56, 0, 8, 0, 0, 0);
    FifthByte(m, 56, 0);
  }

  lemma StateOfSet()
    ensures ShortState(Numbered(61), 1, 2) ==
              Quad(0x4af9fe90bcdf8b4b, 0x712c93d2392b8393, 0x2b8f52f5e3de0f61, 0x0f5d60df7a1840df)
  {
    hide ShortHalf, ShortSets, TailWords, LengthWord, Numbered;
    SetsMixed(Numbered(61));
    LastBytes(Numbered(61));
  }

  /** The longest short message. */
  lemma LongestLength()
    ensures LengthWord(191) == 0xbf00000000000000
  {}

  /** 61 bytes under the seeds 1 and 2: a complete set, half a set and 13 bytes. */
  lemma HashOfSixtyOne()
    ensures HashOf(Numbered(61), 1, 2) == (0x0dc1fe5ffa6c0626, 0x01606b173d7c5a3c)
  {
    hide ShortEndOf, ShortState, Numbered;
    StateOfSet();
    EndOfSet(ShortState(Numbered(61), 1, 2));
  }
}

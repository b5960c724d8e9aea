/**
  The mixing functions of the SpookyHash V2 header, line by line, and the hash of short
  messages.  The source passes the words of the state by reference, a state is handed in
  and handed back here.
 */
module SpookyMixing {
  import opened SpookyCore

  // ----- long messages

  /** A line of the mixing is a row. */
  lemma MixLine(x0: bv64, x1: bv64, x2: bv64, x3: bv64, x4: bv64, x5: bv64, x6: bv64,
          x7: bv64, x8: bv64, x9: bv64, x10: bv64, x11: bv64, s: Vars, data: Block, k: nat)
    requires k < 12 && MixRows(s, data, k) == Vars(x0, x1, x2, x3, x4, x5, x6, x7, x8, x9, x10, x11)
    ensures var x := Add(x0, data[k]);
            MixRows(s, data, k + 1) == Vars(x1, Xor(x2, x10), x3, x4, x5, x6, x7, x8, x9, x10, Add(Xor(x11, x), x1),
                                            Rot64(x, MixRotation(k)))
  {
    hide Rot64, Add, Xor, MixRotation;
  }

  method Mix(data: Block, h: Vars) returns (s: Vars)
    ensures s == MixOf(h, data)
  {
    hide Rot64, Add, Xor, MixRow, MixRows;
    var Vars(s0, s1, s2, s3, s4, s5, s6, s7, s8, s9, s10, s11) := h;
    NoRows(h, data);
    MixLine(s0, s1, s2, s3, s4, s5, s6, s7, s8, s9, s10, s11, h, data, 0);
    s0 := Add(s0, data[0]); s2 := Xor(s2, s10); s11 := Xor(s11, s0); s0 := Rot64(s0, 11); s11 := Add(s11, s1);
    MixLine(s1, s2, s3, s4, s5, s6, s7, s8, s9, s10, s11, s0, h, data, 1);
    s1 := Add(s1, data[1]); s3 := Xor(s3, s11); s0 := Xor(s0, s1); s1 := Rot64(s1, 32); s0 := Add(s0, s2);
    MixLine(s2, s3, s4, s5, s6, s7, s8, s9, s10, s11, s0, s1, h, data, 2);
    s2 := Add(s2, data[2]); s4 := Xor(s4, s0); s1 := Xor(s1, s2); s2 := Rot64(s2, 43); s1 := Add(s1, s3);
    MixLine(s3, s4, s5, s6, s7, s8, s9, s10, s11, s0, s1, s2, h, data, 3);
    s3 := Add(s3, data[3]); s5 := Xor(s5, s1); s2 := Xor(s2, s3); s3 := Rot64(s3, 31); s2 := Add(s2, s4);
    MixLine(s4, s5, s6, s7, s8, s9, s10, s11, s0, s1, s2, s3, h, data, 4);
    s4 := Add(s4, data[4]); s6 := Xor(s6, s2); s3 := Xor(s3, s4); s4 := Rot64(s4, 17); s3 := Add(s3, s5);
    MixLine(s5, s6, s7, s8, s9, s10, s11, s0, s1, s2, s3, s4, h, data, 5);
    s5 := Add(s5, data[5]); s7 := Xor(s7, s3); s4 := Xor(s4, s5); s5 := Rot64(s5, 28); s4 := Add(s4, s6);
    MixLine(s6, s7, s8, s9, s10, s11, s0, s1, s2, s3, s4, s5, h, data, 6);
    s6 := Add(s6, data[6]); s8 := Xor(s8, s4); s5 := Xor(s5, s6); s6 := Rot64(s6, 39); s5 := Add(s5, s7);
    MixLine(s7, s8, s9, s10, s11, s0, s1, s2, s3, s4, s5, s6, h, data, 7);
    s7 := Add(s7, data[7]); s9 := Xor(s9, s5); s6 := Xor(s6, s7); s7 := Rot64(s7, 57); s6 := Add(s6, s8);
    MixLine(s8, s9, s10, s11, s0, s1, s2, s3, s4, s5, s6, s7, h, data, 8);
    s8 := Add(s8, data[8]); s10 := Xor(s10, s6); s7 := Xor(s7, s8); s8 := Rot64(s8, 55); s7 := Add(s7, s9);
    MixLine(s9, s10, s11, s0, s1, s2, s3, s4, s5, s6, s7, s8, h, data, 9);
    s9 := Add(s9, data[9]); s11 := Xor(s11, s7); s8 := Xor(s8, s9); s9 := Rot64(s9, 54); s8 := Add(s8, s10);
    MixLine(s10, s11, s0, s1, s2, s3, s4, s5, s6, s7, s8, s9, h, data, 10);
    s10 := Add(s10, data[10]); s0 := Xor(s0, s8); s9 := Xor(s9, s10); s10 := Rot64(s10, 22); s9 := Add(s9, s11);
    MixLine(s11, s0, s1, s2, s3, s4, s5, s6, s7, s8, s9, s10, h, data, 11);
    s11 := Add(s11, data[11]); s1 := Xor(s1, s9); s10 := Xor(s10, s11); s11 := Rot64(s11, 46); s10 := Add(s10, s0);
    s := Vars(s0, s1, s2, s3, s4, s5, s6, s7, s8, s9, s10, s11);
  }

  lemma EndLine(x0: bv64, x1: bv64, x2: bv64, x3: bv64, x4: bv64, x5: bv64, x6: bv64,
          x7: bv64, x8: bv64, x9: bv64, x10: bv64, x11: bv64, s: Vars, k: nat)
    requires k < 12 && EndRows(s, k) == Vars(x0, x1, x2, x3, x4, x5, x6, x7, x8, x9, x10, x11)
    ensures var x := Add(x11, x1);
            EndRows(s, k + 1) == Vars(Rot64(x1, EndRotation(k)), Xor(x2, x), x3, x4, x5, x6, x7, x8, x9, x10, x, x0)
  {
    hide Rot64, Add, Xor, EndRotation;
  }

  method EndPartial(h: Vars) returns (s: Vars)
    ensures s == EndPartialOf(h)
  {
    hide Rot64, Add, Xor, EndRow, EndRows;
    var Vars(s0, s1, s2, s3, s4, s5, s6, s7, s8, s9, s10, s11) := h;
    NoEndRows(h);
    EndLine(s0, s1, s2, s3, s4, s5, s6, s7, s8, s9, s10, s11, h, 0);
    s11 := Add(s11, s1); s2 := Xor(s2, s11); s1 := Rot64(s1, 44);
    EndLine(s1, s2, s3, s4, s5, s6, s7, s8, s9, s10, s11, s0, h, 1);
    s0 := Add(s0, s2); s3 := Xor(s3, s0); s2 := Rot64(s2, 15);
    EndLine(s2, s3, s4, s5, s6, s7, s8, s9, s10, s11, s0, s1, h, 2);
    s1 := Add(s1, s3); s4 := Xor(s4, s1); s3 := Rot64(s3, 34);
    EndLine(s3, s4, s5, s6, s7, s8, s9, s10, s11, s0, s1, s2, h, 3);
    s2 := Add(s2, s4); s5 := Xor(s5, s2); s4 := Rot64(s4, 21);
    EndLine(s4, s5, s6, s7, s8, s9, s10, s11, s0, s1, s2, s3, h, 4);
    s3 := Add(s3, s5); s6 := Xor(s6, s3); s5 := Rot64(s5, 38);
    EndLine(s5, s6, s7, s8, s9, s10, s11, s0, s1, s2, s3, s4, h, 5);
    s4 := Add(s4, s6); s7 := Xor(s7, s4); s6 := Rot64(s6, 33);
    EndLine(s6, s7, s8, s9, s10, s11, s0, s1, s2, s3, s4, s5, h, 6);
    s5 := Add(s5, s7); s8 := Xor(s8, s5); s7 := Rot64(s7, 10);
    EndLine(s7, s8, s9, s10, s11, s0, s1, s2, s3, s4, s5, s6, h, 7);
    s6 := Add(s6, s8); s9 := Xor(s9, s6); s8 := Rot64(s8, 13);
    EndLine(s8, s9, s10, s11, s0, s1, s2, s3, s4, s5, s6, s7, h, 8);
    s7 := Add(s7, s9); s10 := Xor(s10, s7); s9 := Rot64(s9, 38);
    EndLine(s9, s10, s11, s0, s1, s2, s3, s4, s5, s6, s7, s8, h, 9);
    s8 := Add(s8, s10); s11 := Xor(s11, s8); s10 := Rot64(s10, 53);
    EndLine(s10, s11, s0, s1, s2, s3, s4, s5, s6, s7, s8, s9, h, 10);
    s9 := Add(s9, s11); s0 := Xor(s0, s9); s11 := Rot64(s11, 42);
    EndLine(s11, s0, s1, s2, s3, s4, s5, s6, s7, s8, s9, s10, h, 11);
    s10 := Add(s10, s0); s1 := Xor(s1, s10); s0 := Rot64(s0, 54);
    s := Vars(s0, s1, s2, s3, s4, s5, s6, s7, s8, s9, s10, s11);
  }

  method End(data: Block, h: Vars) returns (s: Vars)
    ensures s == EndOf(h, data)
  {
    hide Add, EndPartialOf;
    var Vars(s0, s1, s2, s3, s4, s5, s6, s7, s8, s9, s10, s11) := h;
    s0 := Add(s0, data[0]); s1 := Add(s1, data[1]); s2 := Add(s2, data[2]); s3 := Add(s3, data[3]);
    s4 := Add(s4, data[4]); s5 := Add(s5, data[5]); s6 := Add(s6, data[6]); s7 := Add(s7, data[7]);
    s8 := Add(s8, data[8]); s9 := Add(s9, data[9]); s10 := Add(s10, data[10]); s11 := Add(s11, data[11]);
    s := EndPartial(Vars(s0, s1, s2, s3, s4, s5, s6, s7, s8, s9, s10, s11));
    s := EndPartial(s);
    s := EndPartial(s);
  }

  // ----- short messages

  lemma ShortMixLine(x0: bv64, x1: bv64, x2: bv64, x3: bv64, s: Quad, k: nat)
    requires k < 12 && ShortMixRows(s, k) == Quad(x0, x1, x2, x3)
    ensures var x := Add(Rot64(x2, ShortMixRotation(k)), x3);
            ShortMixRows(s, k + 1) == Quad(x1, x, x3, Xor(x0, x))
  {
    hide Rot64, Add, Xor, ShortMixRotation;
  }

  method ShortMix(a: bv64, b: bv64, c: bv64, d: bv64) returns (h0: bv64, h1: bv64, h2: bv64, h3: bv64)
    ensures Quad(h0, h1, h2, h3) == ShortMixOf(Quad(a, b, c, d))
  {
    hide Rot64, Add, Xor, ShortMixRow, ShortMixRows;
    ghost var s := Quad(a, b, c, d);
    NoShortRows(s);
    h0, h1, h2, h3 := a, b, c, d;
    ShortMixLine(h0, h1, h2, h3, s, 0);
    h2 := Rot64(h2, 50); h2 := Add(h2, h3); h0 := Xor(h0, h2);
    ShortMixLine(h1, h2, h3, h0, s, 1);
    h3 := Rot64(h3, 52); h3 := Add(h3, h0); h1 := Xor(h1, h3);
    ShortMixLine(h2, h3, h0, h1, s, 2);
    h0 := Rot64(h0, 30); h0 := Add(h0, h1); h2 := Xor(h2, h0);
    ShortMixLine(h3, h0, h1, h2, s, 3);
    h1 := Rot64(h1, 41); h1 := Add(h1, h2); h3 := Xor(h3, h1);
    ShortMixLine(h0, h1, h2, h3, s, 4);
    h2 := Rot64(h2, 54); h2 := Add(h2, h3); h0 := Xor(h0, h2);
    ShortMixLine(h1, h2, h3, h0, s, 5);
    h3 := Rot64(h3, 48); h3 := Add(h3, h0); h1 := Xor(h1, h3);
    ShortMixLine(h2, h3, h0, h1, s, 6);
    h0 := Rot64(h0, 38); h0 := Add(h0, h1); h2 := Xor(h2, h0);
    ShortMixLine(h3, h0, h1, h2, s, 7);
    h1 := Rot64(h1, 37); h1 := Add(h1, h2); h3 := Xor(h3, h1);
    ShortMixLine(h0, h1, h2, h3, s, 8);
    h2 := Rot64(h2, 62); h2 := Add(h2, h3); h0 := Xor(h0, h2);
    ShortMixLine(h1, h2, h3, h0, s, 9);
    h3 := Rot64(h3, 34); h3 := Add(h3, h0); h1 := Xor(h1, h3);
    ShortMixLine(h2, h3, h0, h1, s, 10);
    h0 := Rot64(h0, 5); h0 := Add(h0, h1); h2 := Xor(h2, h0);
    ShortMixLine(h3, h0, h1, h2, s, 11);
    h1 := Rot64(h1, 36); h1 := Add(h1, h2); h3 := Xor(h3, h1);
  }

  lemma ShortEndLine(x0: bv64, x1: bv64, x2: bv64, x3: bv64, s: Quad, k: nat)
    requires k < 11 && ShortEndRows(s, k) == Quad(x0, x1, x2, x3)
    ensures var x := Rot64(x2, ShortEndRotation(k));
            ShortEndRows(s, k + 1) == Quad(x1, x, Add(Xor(x3, x2), x), x0)
  {
    hide Rot64, Add, Xor, ShortEndRotation;
  }

  method ShortEnd(a: bv64, b: bv64, c: bv64, d: bv64) returns (h0: bv64, h1: bv64, h2: bv64, h3: bv64)
    ensures Quad(h0, h1, h2, h3) == ShortEndOf(Quad(a, b, c, d))
  {
    hide Rot64, Add, Xor, ShortEndRow, ShortEndRows;
    ghost var s := Quad(a, b, c, d);
    NoShortRows(s);
    h0, h1, h2, h3 := a, b, c, d;
    ShortEndLine(h0, h1, h2, h3, s, 0);
    h3 := Xor(h3, h2); h2 := Rot64(h2, 15); h3 := Add(h3, h2);
    ShortEndLine(h1, h2, h3, h0, s, 1);
    h0 := Xor(h0, h3); h3 := Rot64(h3, 52); h0 := Add(h0, h3);
    ShortEndLine(h2, h3, h0, h1, s, 2);
    h1 := Xor(h1, h0); h0 := Rot64(h0, 26); h1 := Add(h1, h0);
    ShortEndLine(h3, h0, h1, h2, s, 3);
    h2 := Xor(h2, h1); h1 := Rot64(h1, 51); h2 := Add(h2, h1);
    ShortEndLine(h0, h1, h2, h3, s, 4);
    h3 := Xor(h3, h2); h2 := Rot64(h2, 28); h3 := Add(h3, h2);
    ShortEndLine(h1, h2, h3, h0, s, 5);
    h0 := Xor(h0, h3); h3 := Rot64(h3, 9); h0 := Add(h0, h3);
    ShortEndLine(h2, h3, h0, h1, s, 6);
    h1 := Xor(h1, h0); h0 := Rot64(h0, 47); h1 := Add(h1, h0);
    ShortEndLine(h3, h0, h1, h2, s, 7);
    h2 := Xor(h2, h1); h1 := Rot64(h1, 54); h2 := Add(h2, h1);
    ShortEndLine(h0, h1, h2, h3, s, 8);
    h3 := Xor(h3, h2); h2 := Rot64(h2, 32); h3 := Add(h3, h2);
    ShortEndLine(h1, h2, h3, h0, s, 9);
    h0 := Xor(h0, h3); h3 := Rot64(h3, 25); h0 := Add(h0, h3);
    ShortEndLine(h2, h3, h0, h1, s, 10);
    h1 := Xor(h1, h0); h0 := Rot64(h0, 63); h1 := Add(h1, h0);
  }
}

/**
  Rotating a word by k bits is rotating it by one bit k times, so rotating on to 64 bits
  gives it back.
 */
module SpookyRotation {
  import opened SpookyCore

  function Shl(x: bv64, k: bv7): bv64
    requires k <= 64
  {
    x << k
  }

  function Shr(x: bv64, k: bv7): bv64
    requires k <= 64
  {
    x >> k
  }

  function Or(x: bv64, y: bv64): bv64 {
    x | y
  }

  lemma LeftMore(x: bv64, k: bv7)
    requires 0 < k < 63
    ensures Shl(x, k + 1) == Shl(Shl(x, k), 1)
  {
    assert x << (k + 1) == (x << k) << 1 by {
      if k < 16 {} else if k < 32 {} else if k < 48 {} else {}
    }
  }

  lemma RightMore(x: bv64, k: bv7)
    requires 0 < k < 63
    ensures Shr(x, 64 - k) == Shr(Shr(x, 63 - k), 1)
  {
    assert x >> (64 - k) == (x >> (63 - k)) >> 1 by {
      if k < 16 {} else if k < 32 {} else if k < 48 {} else {}
    }
  }

  /** The bit shifted out at the top is the one that comes in at the bottom. */
  lemma TopBit(x: bv64, k: bv7)
    requires 0 < k < 63
    ensures Shr(Shl(x, k), 63) == Shr(x, 63 - k) & 1
  {}

  lemma RotParts(x: bv64, k: bv7)
    requires 0 < k < 64
    ensures Rot64(x, k) == Or(Shl(x, k), Shr(x, 64 - k))
  {
    assert Rot64(x, k) == Or(x << k, x >> (64 - k));
  }

  lemma RotOnce(a: bv64, y: bv64)
    requires Shr(a, 63) == y & 1
    ensures Rot64(Or(a, Shr(y, 1)), 1) == Or(Shl(a, 1), y)
  {}

  lemma RotStep(x: bv64, k: bv7)
    requires 0 < k < 63
    ensures Rot64(x, k + 1) == Rot64(Rot64(x, k), 1)
  {
    hide Rot64, Shl, Shr, Or;
    RotParts(x, k);
    RotParts(x, k + 1);
    LeftMore(x, k);
    RightMore(x, k);
    TopBit(x, k);
    RotOnce(Shl(x, k), Shr(x, 63 - k));
  }

  /** Rotated by one bit, k times. */
  function Turned(x: bv64, k: bv7): bv64
    decreases k, x
  {
    if k == 0 then x else Rot64(Turned(x, k - 1), 1)
  }

  /** Rotating by k bits is rotating by one bit k times. */
  lemma {:induction false} RotIsTurned(x: bv64, k: bv7)
    requires 0 < k < 64
    ensures Rot64(x, k) == Turned(x, k)
    decreases k
  {
    hide Rot64;
    if k == 1 {
      assert Turned(x, 0) == x;
    } else {
      RotIsTurned(x, k - 1);
      RotStep(x, k - 1);
    }
  }

  lemma {:induction false} TurnedMore(x: bv64, j: bv7, k: bv7)
    requires j <= 64 && k <= 64 - j
    ensures Turned(Turned(x, j), k) == Turned(x, j + k)
    decreases k
  {
    hide Rot64;
    if k == 0 {
    } else {
      TurnedMore(x, j, k - 1);
      assert j + k != 0 && j + k - 1 == j + (k - 1);
    }
  }

  lemma OneRound(x: bv64)
    ensures Rot64(Rot64(x, 63), 1) == x
  {}

  /** Rotating on to 64 bits gives the word back. */
  lemma RotBack(x: bv64, k: bv7)
    requires 0 < k < 64
    ensures Rot64(Rot64(x, k), 64 - k) == x
  {
    hide Rot64;
    RotIsTurned(x, k);
    RotIsTurned(Rot64(x, k), 64 - k);
    TurnedMore(x, k, 64 - k);
    RotIsTurned(x, 63);
    OneRound(x);
  }
}

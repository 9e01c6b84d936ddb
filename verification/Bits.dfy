/** Bit operations on natural numbers, by halving. */
module Bits {
  import opened Machine

  function Pow2(n: nat): (p: nat)
    ensures p >= 1
  {
    if n == 0 then 1 else 2 * Pow2(n - 1)
  }

  function Xor(a: nat, b: nat): nat {
    if a == 0 && b == 0 then 0 else 2 * Xor(a / 2, b / 2) + (a % 2 + b % 2) % 2
  }

  function And(a: nat, b: nat): nat {
    if a == 0 || b == 0 then 0 else 2 * And(a / 2, b / 2) + (if a % 2 == 1 && b % 2 == 1 then 1 else 0)
  }

  /** a shifted right by k bits. */
  function Shr(a: nat, k: nat): nat {
    if k == 0 then a else Shr(a / 2, k - 1)
  }

  /** The low k bits of a. */
  function Low(a: nat, k: nat): (r: nat)
    ensures r < Pow2(k)
  {
    if k == 0 then 0 else 2 * Low(a / 2, k - 1) + a % 2
  }

  lemma Doubled(q: nat, m: nat)
    ensures q * (2 * m) == 2 * (q * m)
  {}

  /** Shifting divides, and the bits shifted out are the remainder. */
  lemma {:induction false} ShiftSplits(a: nat, k: nat)
    ensures a == Shr(a, k) * Pow2(k) + Low(a, k)
  {
    if k > 0 {
      ShiftSplits(a / 2, k - 1);
      Doubled(Shr(a / 2, k - 1), Pow2(k - 1));
    }
  }

  lemma {:induction false} XorShr(a: nat, b: nat, k: nat)
    ensures Shr(Xor(a, b), k) == Xor(Shr(a, k), Shr(b, k))
  {
    if k > 0 {
      XorShr(a / 2, b / 2, k - 1);
      assert Xor(a, b) / 2 == Xor(a / 2, b / 2);
    }
  }

  lemma {:induction false} XorZero(a: nat, b: nat)
    ensures Xor(a, b) == 0 <==> a == b
  {
    if a != 0 || b != 0 { XorZero(a / 2, b / 2); }
  }

  lemma {:induction false} ShrZero(a: nat, k: nat)
    ensures Shr(a, k) == 0 <==> a < Pow2(k)
  {
    if k > 0 { ShrZero(a / 2, k - 1); }
  }

  /** An exclusive or is small exactly when the high parts agree. */
  lemma XorHigh(a: nat, b: nat, k: nat)
    ensures Xor(a, b) >= Pow2(k) <==> Shr(a, k) != Shr(b, k)
  {
    XorShr(a, b, k);
    XorZero(Shr(a, k), Shr(b, k));
    ShrZero(Xor(a, b), k);
  }

  /** A mask of k ones keeps the low k bits. */
  lemma {:induction false} AndMask(a: nat, k: nat)
    ensures And(a, Pow2(k) - 1) == Low(a, k)
  {
    if k > 0 {
      AndMask(a / 2, k - 1);
      assert (Pow2(k) - 1) / 2 == Pow2(k - 1) - 1 && (Pow2(k) - 1) % 2 == 1;
      if a == 0 { LowZero(k); }
    }
  }

  lemma {:induction false} LowZero(k: nat)
    ensures Low(0, k) == 0
  {
    if k > 0 { LowZero(k - 1); }
  }

  lemma Pow2Values()
    ensures Pow2(4) == 16 && Pow2(8) == 0x100 && Pow2(15) == 0x8000 && Pow2(24) == 0x100_0000
      && Pow2(32) == 0x1_0000_0000
  {
    assert Pow2(8) == 16 * Pow2(4);
    assert Pow2(12) == 16 * Pow2(8);
    assert Pow2(16) == 16 * Pow2(12);
    assert Pow2(20) == 16 * Pow2(16);
    assert Pow2(24) == 16 * Pow2(20);
    assert Pow2(28) == 16 * Pow2(24);
    assert Pow2(32) == 16 * Pow2(28);
  }

  /** The high byte of a 32-bit number, and the low 24 and low 15 bits, by division. */
  lemma HighByte(a: nat)
    ensures Shr(a, 24) == a / 0x100_0000 && Low(a, 24) == a % 0x100_0000 && Low(a, 15) == a % 0x8000
  {
    hide Shr;
    hide Low;
    hide Pow2;
    Pow2Values();
    ShiftSplits(a, 24);
    ShiftSplits(a, 15);
    DivModUnique(a, Shr(a, 24), 0x100_0000, Low(a, 24));
    DivModUnique(a, Shr(a, 15), 0x8000, Low(a, 15));
  }

  /** Two numbers differ above bit 24 exactly when their exclusive or reaches 2^24. */
  lemma XorTop(a: nat, b: nat)
    ensures Xor(a, b) >= 0x100_0000 <==> a / 0x100_0000 != b / 0x100_0000
  {
    Pow2Values();
    XorHigh(a, b, 24);
    HighByte(a);
    HighByte(b);
  }

  lemma MaskBottom(a: nat)
    ensures And(a, 0x7FFF) == a % 0x8000
  {
    Pow2Values();
    AndMask(a, 15);
    HighByte(a);
  }
}

/** Slot codes: a slot gives the high bits of a number, and extra bits the rest. The slots' ranges tile the numbers. */
module Slots {
  import opened Machine
  import opened Bits

  /** Where the ranges of slots begin, each right after the one before. */
  ghost predicate Tiles(base: nat -> nat, bits: nat -> nat) {
    forall n: nat :: base(n + 1) == base(n) + Pow2(bits(n))
  }

  lemma {:induction false} Rising(base: nat -> nat, bits: nat -> nat, m: nat, n: nat)
    requires Tiles(base, bits) && m <= n
    ensures base(m) + (n - m) <= base(n)
  {
    if m < n {
      Rising(base, bits, m, n - 1);
      assert base(n) == base(n - 1) + Pow2(bits(n - 1));
    }
  }

  /** The slot whose range holds x, looking from slot n on. */
  ghost function SlotFrom(base: nat -> nat, bits: nat -> nat, x: nat, n: nat): (slot: nat)
    requires Tiles(base, bits) && base(n) <= x
    ensures n <= slot && base(slot) <= x < base(slot) + Pow2(bits(slot))
    decreases x - base(n)
  {
    assert base(n + 1) == base(n) + Pow2(bits(n));
    if x < base(n + 1) then n else SlotFrom(base, bits, x, n + 1)
  }

  /** No number has two slots. */
  lemma OneSlot(base: nat -> nat, bits: nat -> nat, x: nat, m: nat, n: nat)
    requires Tiles(base, bits)
    requires base(m) <= x < base(m) + Pow2(bits(m)) && base(n) <= x < base(n) + Pow2(bits(n))
    ensures m == n
  {
    assert base(m + 1) == base(m) + Pow2(bits(m)) && base(n + 1) == base(n) + Pow2(bits(n));
    if m < n {
      Rising(base, bits, m + 1, n);
    } else if n < m {
      Rising(base, bits, n + 1, m);
    }
  }

  // Lengths.

  function LengthBits(n: nat): nat { if n < 8 then 0 else n / 4 - 1 }

  function LengthBase(n: nat): nat {
    if n < 8 then n + 2 else (4 + n % 4) * Pow2(n / 4 - 1) + 2
  }

  lemma LengthsTile()
    ensures Tiles(LengthBase, LengthBits) && LengthBase(0) == 2
  {
    forall n: nat ensures LengthBase(n + 1) == LengthBase(n) + Pow2(LengthBits(n)) {
      LengthNext(n);
    }
  }

  lemma LengthNext(n: nat)
    ensures LengthBase(n + 1) == LengthBase(n) + Pow2(LengthBits(n))
  {
    if n >= 8 {
      LengthNextLarge(n, n / 4, n % 4);
    } else if n == 7 {
      assert Pow2(1) == 2;
    }
  }

  lemma LengthNextLarge(n: nat, k: nat, r: nat)
    requires n == 4 * k + r && 2 <= k && r < 4
    ensures LengthBase(n + 1) == LengthBase(n) + Pow2(LengthBits(n))
  {
    DivModUnique(n, k, 4, r);
    if r < 3 {
      DivModUnique(n + 1, k, 4, r + 1);
      Times(4 + r, Pow2(k - 1));
    } else {
      DivModUnique(n + 1, k + 1, 4, 0);
      assert Pow2(k) == 2 * Pow2(k - 1);
    }
  }

  lemma Times(a: int, p: int)
    ensures (a + 1) * p == a * p + p
  {}

  // Offsets.

  function OffsetBits(slot: nat): nat { if slot < 4 then 0 else slot / 2 - 1 }

  function OffsetBase(slot: nat): nat {
    if slot < 4 then slot + 1 else (2 + slot % 2) * Pow2(slot / 2 - 1) + 1
  }

  lemma OffsetsTile()
    ensures Tiles(OffsetBase, OffsetBits) && OffsetBase(0) == 1
  {
    forall n: nat ensures OffsetBase(n + 1) == OffsetBase(n) + Pow2(OffsetBits(n)) {
      OffsetNext(n);
    }
  }

  lemma OffsetNext(n: nat)
    ensures OffsetBase(n + 1) == OffsetBase(n) + Pow2(OffsetBits(n))
  {
    if n >= 4 {
      OffsetNextLarge(n, n / 2, n % 2);
    } else if n == 3 {
      assert Pow2(1) == 2;
    }
  }

  lemma OffsetNextLarge(n: nat, k: nat, r: nat)
    requires n == 2 * k + r && 2 <= k && r < 2
    ensures OffsetBase(n + 1) == OffsetBase(n) + Pow2(OffsetBits(n))
  {
    DivModUnique(n, k, 2, r);
    if r == 0 {
      DivModUnique(n + 1, k, 2, 1);
      Times(2, Pow2(k - 1));
    } else {
      DivModUnique(n + 1, k + 1, 2, 0);
      assert Pow2(k) == 2 * Pow2(k - 1);
    }
  }

  /** The slot of a length, and of an offset. */
  ghost function LengthSlot(length: nat): (slot: nat)
    requires length >= 2
    ensures LengthBase(slot) <= length < LengthBase(slot) + Pow2(LengthBits(slot))
  {
    LengthsTile();
    SlotFrom(LengthBase, LengthBits, length, 0)
  }

  ghost function OffsetSlot(offset: nat): (slot: nat)
    requires offset >= 1
    ensures OffsetBase(slot) <= offset < OffsetBase(slot) + Pow2(OffsetBits(slot))
  {
    OffsetsTile();
    SlotFrom(OffsetBase, OffsetBits, offset, 0)
  }

  /** Slots and extra bits are one-to-one with lengths, and with offsets; larger slots mean larger numbers. */
  lemma LengthCoding(slot: nat, extra: nat)
    requires extra < Pow2(LengthBits(slot))
    ensures LengthSlot(LengthBase(slot) + extra) == slot && LengthBase(slot) + extra >= 2
    ensures LengthBase(slot) + extra < LengthBase(slot + 1)
  {
    LengthsTile();
    Rising(LengthBase, LengthBits, 0, slot);
    OneSlot(LengthBase, LengthBits, LengthBase(slot) + extra, slot, LengthSlot(LengthBase(slot) + extra));
    LengthNext(slot);
  }

  lemma OffsetCoding(slot: nat, extra: nat)
    requires extra < Pow2(OffsetBits(slot))
    ensures OffsetSlot(OffsetBase(slot) + extra) == slot && OffsetBase(slot) + extra >= 1
    ensures OffsetBase(slot) + extra < OffsetBase(slot + 1)
  {
    OffsetsTile();
    Rising(OffsetBase, OffsetBits, 0, slot);
    OneSlot(OffsetBase, OffsetBits, OffsetBase(slot) + extra, slot, OffsetSlot(OffsetBase(slot) + extra));
    OffsetNext(slot);
  }

  // What a slot says.

  lemma TopDigits(x: nat, k: nat, lo: nat, hi: nat)
    requires lo * Pow2(k) <= x < hi * Pow2(k)
    ensures lo <= x / Pow2(k) < hi && x == x / Pow2(k) * Pow2(k) + x % Pow2(k)
  {
    hide Pow2;
    var p, q := Pow2(k), x / Pow2(k);
    assert x == q * p + x % p;
    if q < lo { Gap(q, lo, p); assert false; }
    if hi <= q { Ordered(hi, q, p); assert false; }
  }

  lemma Ordered(a: int, b: int, m: nat)
    requires a <= b
    ensures a * m <= b * m
  {}

  /** A length, counted from 2, has its three highest bits in its slot and the k bits below them as extra bits. */
  lemma LengthSlotTop(x: nat, k: nat)
    requires Pow2(k + 2) <= x < Pow2(k + 3)
    ensures var slot := LengthSlot(x + 2);
      && slot == 4 * k + x / Pow2(k) && LengthBits(slot) == k && x + 2 - LengthBase(slot) == x % Pow2(k)
  {
    hide Pow2;
    hide LengthBase;
    hide LengthBits;
    Powers(k);
    TopDigits(x, k, 4, 8);
    var t := x / Pow2(k);
    LengthSlotParts(k, t);
    LengthCoding(4 * k + t, x % Pow2(k));
  }

  lemma Powers(k: nat)
    ensures Pow2(k + 1) == 2 * Pow2(k) && Pow2(k + 2) == 4 * Pow2(k) && Pow2(k + 3) == 8 * Pow2(k)
  {}

  lemma LengthSlotParts(k: nat, t: nat)
    requires 4 <= t < 8
    ensures LengthBits(4 * k + t) == k && LengthBase(4 * k + t) == t * Pow2(k) + 2
  {
    hide Pow2;
    DivModUnique(4 * k + t, k + 1, 4, t - 4);
    if k == 0 { PowerOfNone(); }
  }

  lemma PowerOfNone()
    ensures Pow2(0) == 1
  {}

  lemma OffsetSlotParts(k: nat, t: nat)
    requires 2 <= t < 4
    ensures OffsetBits(2 * k + t) == k && OffsetBase(2 * k + t) == t * Pow2(k) + 1
  {
    hide Pow2;
    DivModUnique(2 * k + t, k + 1, 2, t - 2);
    if k == 0 { PowerOfNone(); }
  }

  /** An offset, counted from 1, has its two highest bits in its slot and the k bits below them as extra bits. */
  lemma OffsetSlotTop(x: nat, k: nat)
    requires Pow2(k + 1) <= x < Pow2(k + 2)
    ensures var slot := OffsetSlot(x + 1);
      && slot == 2 * k + x / Pow2(k) && OffsetBits(slot) == k && x + 1 - OffsetBase(slot) == x % Pow2(k)
  {
    hide Pow2;
    hide OffsetBase;
    hide OffsetBits;
    Powers(k);
    TopDigits(x, k, 2, 4);
    var t := x / Pow2(k);
    OffsetSlotParts(k, t);
    OffsetCoding(2 * k + t, x % Pow2(k));
  }

  /** The smallest ones are their own slots. */
  lemma SmallSlots(x: nat)
    ensures x < 4 ==> LengthSlot(x + 2) == x && LengthBits(x) == 0
    ensures x < 2 ==> OffsetSlot(x + 1) == x && OffsetBits(x) == 0
  {
    assert Pow2(0) == 1;
    if x < 4 { LengthCoding(x, 0); }
    if x < 2 { OffsetCoding(x, 0); }
  }
}

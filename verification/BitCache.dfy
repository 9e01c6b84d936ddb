/** The low bits of a machine word as the most recent bits of a bit string. */
module BitCache {
  import opened Machine
  import opened Bits
  import opened BitStrings

  const WORD := 64

  /** The value a 64-bit signed integer holds after an operation whose exact result is x. */
  function Signed64(x: int): int {
    var u := x % 0x1_0000_0000_0000_0000;
    if u < 0x8000_0000_0000_0000 then u else u - 0x1_0000_0000_0000_0000
  }

  /** The number with the bits of s below the number high. */
  function Above(high: int, s: seq<Bit>): int {
    high * Pow2(|s|) + Num(s)
  }

  /** The low bits of v are the string s; `high` is what stands above them. */
  ghost predicate Holds(v: int, s: seq<Bit>, high: int) {
    v == Above(high, s)
  }

  lemma WordSize()
    ensures Pow2(WORD) == 0x1_0000_0000_0000_0000
  {
    Pow2Values();
    Pow2Add(32, 32);
  }

  lemma Regroup(h: int, p: int, n: int, q: int)
    ensures (h * p + n) * q == h * (p * q) + n * q
  {
    assert (h * p + n) * q == (h * p) * q + n * q;
    assert (h * p) * q == h * (p * q);
  }

  /** The bits of a and then of b below high. */
  lemma AboveConcat(high: int, a: seq<Bit>, b: seq<Bit>)
    ensures Above(high, a + b) == Above(high, a) * Pow2(|b|) + Num(b)
  {
    hide Num;
    hide Pow2;
    var p, q := Pow2(|a|), Pow2(|b|);
    NumConcat(a, b);
    Pow2Add(|a|, |b|);
    assert |a + b| == |a| + |b|;
    AboveParts(high, a + b, p * q, Num(a) * q + Num(b));
    Combine(high, p, Num(a), q, Num(b));
  }

  lemma AboveParts(high: int, s: seq<Bit>, p: int, n: int)
    requires Pow2(|s|) == p && Num(s) == n
    ensures Above(high, s) == high * p + n
  {}

  lemma Combine(h: int, p: int, n: int, q: int, m: int)
    ensures h * (p * q) + (n * q + m) == (h * p + n) * q + m
  {
    Regroup(h, p, n, q);
  }

  /** Cutting a 64-bit word off keeps up to 64 low bits. */
  lemma HoldsWrapped(x: int, s: seq<Bit>, high: int) returns (high': int)
    requires Holds(x, s, high) && |s| <= WORD
    ensures Holds(Signed64(x), s, high')
  {
    WordSize();
    var word := 0x1_0000_0000_0000_0000;
    var m := if x % word < 0x8000_0000_0000_0000 then x / word else x / word + 1;
    assert Signed64(x) == x - m * word;
    Pow2Add(WORD - |s|, |s|);
    high' := Lowered(x, high, Pow2(|s|), Num(s), m, Pow2(WORD - |s|));
  }

  lemma Lowered(x: int, high: int, p: int, n: int, m: int, k: int) returns (high': int)
    requires x == high * p + n
    ensures x - m * (k * p) == high' * p + n
  {
    high' := high - m * k;
    assert m * (k * p) == (m * k) * p;
    assert high' * p == high * p - (m * k) * p;
  }

  /** Forgetting the oldest bits. */
  lemma HoldsSuffix(v: int, a: seq<Bit>, b: seq<Bit>, high: int) returns (high': int)
    requires Holds(v, a + b, high)
    ensures Holds(v, b, high')
  {
    AboveConcat(high, a, b);
    high' := Above(high, a);
  }

  /** Shifting a byte in at the low end. */
  lemma HoldsByte(v: int, s: seq<Bit>, high: int, c: byte)
    requires Holds(v, s, high)
    ensures Holds(v * 0x100 + c, s + ToBits(c, 8), high)
  {
    ByteValue(c);
    Pow2Values();
    AboveConcat(high, s, ToBits(c, 8));
  }

  /** Shifting the last bits out at the low end. */
  lemma HoldsShifted(v: int, a: seq<Bit>, b: seq<Bit>, high: int)
    requires Holds(v, a + b, high)
    ensures Holds(v / Pow2(|b|), a, high)
  {
    hide Above;
    hide Pow2;
    hide Num;
    AboveConcat(high, a, b);
    DivModUnique(v, Above(high, a), Pow2(|b|), Num(b));
  }

  /** Taking a field of bits out of the middle. */
  lemma HoldsField(v: int, a: seq<Bit>, m: seq<Bit>, b: seq<Bit>, high: int)
    requires Holds(v, a + m + b, high)
    ensures v / Pow2(|b|) % Pow2(|m|) == Num(m)
  {
    hide Above;
    hide Pow2;
    hide Num;
    HoldsShifted(v, a + m, b, high);
    AboveConcat(high, a, m);
    DivModUnique(v / Pow2(|b|), Above(high, a), Pow2(|m|), Num(m));
  }
}

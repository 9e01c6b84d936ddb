/** Fixed-width machine integers, written out over unbounded integers. */
module Machine {
  const TWO_16 := 0x1_0000
  const TWO_31 := 0x8000_0000
  const TWO_32 := 0x1_0000_0000

  datatype Option<+T> = None | Some(value: T)

  function Min(a: int, b: int): int { if a < b then a else b }

  type byte = x: int | 0 <= x < 0x100
  type uint16 = x: int | 0 <= x < 0x1_0000
  type uint32 = x: int | 0 <= x < 0x1_0000_0000
  type int32 = x: int | -0x8000_0000 <= x < 0x8000_0000

  /** The low 16 bits of x. */
  function Wrap16(x: int): uint16 { x % 0x1_0000 }

  lemma Wrap16Sub(x: int, y: int)
    ensures Wrap16(Wrap16(x) - y) == Wrap16(x - y)
  {}

  lemma Wrap16Add(x: int, y: int)
    ensures Wrap16(Wrap16(x) + y) == Wrap16(x + y)
  {}

  lemma Wrap16Small(x: int)
    requires 0 <= x < 0x1_0000
    ensures Wrap16(x) == x
  {}

  /** The low 8 bits of x. */
  function Wrap8(x: int): byte { x % 0x100 }

  /** The low 8 bits of x, read in two's complement. */
  function Signed8(x: int): int {
    var u := Wrap8(x);
    if u < 0x80 then u else u - 0x100
  }

  /** The low 32 bits of x, read without a sign. */
  function Wrap32(x: int): uint32 { x % 0x1_0000_0000 }

  /** The low 32 bits of x, read in two's complement. */
  function Signed32(x: int): int32 {
    var u := Wrap32(x);
    if u < 0x8000_0000 then u else u - 0x1_0000_0000
  }

  /** n zero bytes. */
  function Zeros(n: nat): (s: seq<byte>)
    ensures |s| == n && forall i :: 0 <= i < n ==> s[i] == 0
  {
    seq(n, _ => 0)
  }

  /** A number with a positive modulus has one quotient and one remainder. */
  lemma DivModUnique(x: int, q: int, m: int, r: int)
    requires x == q * m + r && 0 <= r < m
    ensures x / m == q && x % m == r
  {
    var q', r' := x / m, x % m;
    assert x == q' * m + r' by { assert x == m * q' + r'; }
    if q < q' {
      Gap(q, q', m);
      assert false;
    } else if q' < q {
      Gap(q', q, m);
      assert false;
    }
  }

  lemma Gap(a: int, b: int, m: int)
    requires a < b && m >= 1
    ensures a * m + m <= b * m
  {
    assert (b - a - 1) * m >= 0;
    assert b * m == a * m + m + (b - a - 1) * m;
  }

  lemma ModAtMost(x: nat, m: nat)
    requires m > 0
    ensures x % m <= x
  {}
}

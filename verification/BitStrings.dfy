/** Strings of bits and the numbers they spell, the first bit the highest. */
module BitStrings {
  import opened Machine
  import opened Bits

  type Bit = b: int | 0 <= b <= 1

  function Num(s: seq<Bit>): (r: nat)
    ensures r < Pow2(|s|)
  {
    if s == [] then 0 else 2 * Num(s[..|s| - 1]) + s[|s| - 1]
  }

  /** The low n bits of x. */
  function ToBits(x: nat, n: nat): (s: seq<Bit>)
    ensures |s| == n
  {
    if n == 0 then [] else ToBits(x / 2, n - 1) + [x % 2]
  }

  function DataBits(data: seq<byte>): (s: seq<Bit>)
    ensures |s| == 8 * |data|
  {
    if data == [] then [] else ToBits(data[0], 8) + DataBits(data[1..])
  }

  lemma {:induction false} NumToBits(x: nat, n: nat)
    requires x < Pow2(n)
    ensures Num(ToBits(x, n)) == x
  {
    if n > 0 {
      NumToBits(x / 2, n - 1);
      assert ToBits(x, n)[..n - 1] == ToBits(x / 2, n - 1);
    }
  }

  lemma {:induction false} ToBitsNum(s: seq<Bit>)
    ensures ToBits(Num(s), |s|) == s
  {
    if s != [] {
      ToBitsNum(s[..|s| - 1]);
      assert s == s[..|s| - 1] + [s[|s| - 1]];
    }
  }

  lemma ByteValue(c: byte)
    ensures Num(ToBits(c, 8)) == c
  {
    Pow2Values();
    NumToBits(c, 8);
  }

  lemma {:induction false} Pow2Add(m: nat, n: nat)
    ensures Pow2(m + n) == Pow2(m) * Pow2(n)
  {
    if n > 0 {
      Pow2Add(m, n - 1);
      Doubled(Pow2(m), Pow2(n - 1));
    }
  }

  lemma {:induction false} NumConcat(a: seq<Bit>, b: seq<Bit>)
    ensures Num(a + b) == Num(a) * Pow2(|b|) + Num(b)
  {
    if b == [] {
      assert a + b == a;
    } else {
      var b' := b[..|b| - 1];
      assert (a + b)[..|a + b| - 1] == a + b';
      NumConcat(a, b');
      Doubled(Num(a), Pow2(|b'|));
      var p := Num(a) * Pow2(|b'|);
      assert Num(a + b) == 2 * (p + Num(b')) + b[|b| - 1];
      assert Num(a) * Pow2(|b|) == 2 * p;
    }
  }

  lemma ShrDivides(a: nat, k: nat)
    ensures Shr(a, k) == a / Pow2(k)
  {
    hide Shr;
    hide Pow2;
    ShiftSplits(a, k);
    DivModUnique(a, Shr(a, k), Pow2(k), Low(a, k));
  }

  /** Reading back the bits of a number. */
  lemma ReadsNumber(x: nat, k: nat, rest: seq<Bit>)
    requires x < Pow2(k)
    ensures var ahead := ToBits(x, k) + rest;
      k <= |ahead| && Num(ahead[..k]) == x && ahead[k..] == rest
  {
    NumToBits(x, k);
    assert (ToBits(x, k) + rest)[..k] == ToBits(x, k);
  }
}

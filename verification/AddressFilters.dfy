/** The filters that turn relative branch addresses back from absolute ones: x86 and ARM. */
module AddressFilters {
  import opened Machine

  const FILE_SIZE := 0x100_0000

  function Le32(s: seq<byte>): uint32
    requires |s| == 4
  {
    s[0] as int + 0x100 * s[1] as int + 0x1_0000 * s[2] as int + 0x100_0000 * s[3] as int
  }

  function PutLe32(x: uint32): (s: seq<byte>)
    ensures |s| == 4
  {
    [x % 0x100, x / 0x100 % 0x100, x / 0x1_0000 % 0x100, x / 0x100_0000]
  }

  lemma LeBack(s: seq<byte>)
    requires |s| == 4
    ensures PutLe32(Le32(s)) == s
  {
    var x := Le32(s) as int;
    DivModUnique(x, s[1] as int + 0x100 * s[2] as int + 0x1_0000 * s[3] as int, 0x100, s[0]);
    DivModUnique(x / 0x100, s[2] as int + 0x100 * s[3] as int, 0x100, s[1]);
    DivModUnique(x, s[2] as int + 0x100 * s[3] as int, 0x1_0000, s[0] as int + 0x100 * s[1] as int);
    DivModUnique(s[2] as int + 0x100 * s[3] as int, s[3], 0x100, s[2]);
    DivModUnique(x, s[3], 0x100_0000, s[0] as int + 0x100 * s[1] as int + 0x1_0000 * s[2] as int);
  }

  lemma PutBack(x: uint32)
    ensures Le32(PutLe32(x)) == x
  {
    var q, r, t := x / 0x100, x / 0x1_0000, x / 0x100_0000;
    assert x == q * 0x100 + x % 0x100;
    DivModUnique(q, r, 0x100, q - r * 0x100);
    DivModUnique(r, t, 0x100, r - t * 0x100);
  }

  /** The remainder that takes the sign of x. */
  function Rem(x: int, m: nat): int
    requires m > 0
  {
    if x >= 0 then x % m else -((-x) % m)
  }

  /** What decoding does to one address at a position. */
  function Relative(addr: int32, off: int32): int32 {
    if addr < 0 then
      if Signed32(addr as int + off) >= 0 then Signed32(addr as int + FILE_SIZE) else addr
    else if addr < FILE_SIZE then Signed32(addr as int - off)
    else addr
  }

  /** The position as a distance to turn by. */
  function TurnBy(off: int32): int { if off == -0x8000_0000 then 0x8000_0000 else off }

  /** The encoder's side: turn the range from -off to FILE_SIZE the other way. */
  function Restored(addr: int32, off: int32): int32 {
    var o := TurnBy(off);
    if -o <= addr < FILE_SIZE - o then Signed32(addr as int + o)
    else if FILE_SIZE - o <= addr < FILE_SIZE then Signed32(addr as int - FILE_SIZE)
    else addr
  }

  /** Positions at which decoding loses nothing. */
  predicate Reversible(off: int32) { off >= 0 || off == -0x8000_0000 }

  lemma SignedSmall(x: int)
    requires -0x8000_0000 <= x < 0x8000_0000
    ensures Signed32(x) == x
  {}

  lemma SignedOver(x: int)
    requires 0x8000_0000 <= x < 0x1_8000_0000
    ensures Signed32(x) == x - 0x1_0000_0000 && Signed32(x - 0x2_0000_0000) == x - 0x1_0000_0000
  {
    assert Wrap32(x) == if x < 0x1_0000_0000 then x else x - 0x1_0000_0000;
    assert x - 0x2_0000_0000 == Wrap32(x) + (if x < 0x1_0000_0000 then -2 else -1) * 0x1_0000_0000;
  }

  /** Decoding and encoding of one address, where nothing wraps. */
  lemma Turns(addr: int32, off: int32)
    requires off >= 0
    ensures Relative(addr, off) == if 0 <= addr < FILE_SIZE then addr - off
      else if -off <= addr < 0 then addr + FILE_SIZE else addr
    ensures Restored(addr, off) ==
      if -off <= addr < FILE_SIZE - off then addr + off
        else if FILE_SIZE - off <= addr < FILE_SIZE then addr - FILE_SIZE else addr
  {
    hide Signed32;
    if addr < 0 {
      SignedSmall(addr as int + off);
      SignedSmall(addr as int + FILE_SIZE);
    } else if addr < FILE_SIZE {
      SignedSmall(addr as int - off);
    }
    if -off <= addr < FILE_SIZE - off {
      SignedSmall(addr as int + off);
    } else if FILE_SIZE - off <= addr < FILE_SIZE {
      SignedSmall(addr as int - FILE_SIZE);
    }
  }

  /** The same half a round away, where every negative address turns. */
  lemma TurnsHalf(addr: int32)
    ensures Relative(addr, -0x8000_0000) == if 0 <= addr < FILE_SIZE then addr - 0x8000_0000
      else if addr < 0 then addr + FILE_SIZE else addr
    ensures Restored(addr, -0x8000_0000) ==
      if addr < FILE_SIZE - 0x8000_0000 then addr + 0x8000_0000 else if addr < FILE_SIZE then addr - FILE_SIZE else addr
  {
    hide Signed32;
    if addr < 0 {
      SignedOver(addr as int + 0x1_8000_0000);
      SignedSmall(addr as int + FILE_SIZE);
      SignedSmall(addr as int + 0x8000_0000);
    } else if addr < FILE_SIZE {
      SignedOver(addr as int + 0x8000_0000);
    }
    if FILE_SIZE - 0x8000_0000 <= addr < FILE_SIZE {
      SignedSmall(addr as int - FILE_SIZE);
    }
  }

  lemma AddressBack(addr: int32, off: int32)
    requires Reversible(off)
    ensures Restored(Relative(addr, off), off) == addr && Relative(Restored(addr, off), off) == addr
  {
    hide Relative;
    hide Restored;
    if off >= 0 {
      Turns(addr, off);
      Turns(Relative(addr, off), off);
      Turns(Restored(addr, off), off);
    } else {
      TurnsHalf(addr);
      TurnsHalf(Relative(addr, off));
      TurnsHalf(Restored(addr, off));
    }
  }

  /** Decoding addresses is one-to-one at a position exactly when the position is not negative
      (or the least number there is, which turns like its opposite). */
  lemma OneToOne(off: int32)
    ensures (forall x: int32, y: int32 :: Relative(x, off) == Relative(y, off) ==> x == y) <==> Reversible(off)
  {
    if Reversible(off) {
      forall x: int32, y: int32 | Relative(x, off) == Relative(y, off) ensures x == y {
        AddressBack(x, off);
        AddressBack(y, off);
      }
    } else {
      var m := -off;
      var x: int32 := if m <= 0x8000_0000 - FILE_SIZE then FILE_SIZE - 1 else 0;
      var y: int32 := x as int + m;
      assert Relative(x, off) == y && Relative(y, off) == y && x != y;
    }
  }

  /** The walk over the buffer: an opcode is followed by an address, which is changed and stepped over. */
  function E8(c: byte, v5: bool, buf: seq<byte>, off: int32, decode: bool): (r: seq<byte>)
    ensures |r| == |buf| && (buf != [] ==> r[0] == buf[0])
    decreases |buf|
  {
    if |buf| < 5 then buf
    else
      var off := Signed32(off as int + 1);
      if buf[0] != 0xe8 && buf[0] != c then
        [buf[0]] + E8(c, v5, buf[1..], off, decode)
      else
        var off := if v5 then Rem(off, FILE_SIZE) else off;
        [buf[0]] + Moved(buf[1..5], off, decode) + E8(c, v5, buf[5..], Signed32(off as int + 4), decode)
  }

  function Moved(field: seq<byte>, off: int32, decode: bool): (r: seq<byte>)
    requires |field| == 4
    ensures |r| == 4
  {
    var addr := Signed32(Le32(field));
    PutLe32(Wrap32(if decode then Relative(addr, off) else Restored(addr, off)))
  }

  lemma SignedBack(x: int32)
    ensures Signed32(Wrap32(x)) == x
  {}

  lemma UnsignedBack(x: uint32)
    ensures Wrap32(Signed32(x)) == x
  {}

  lemma MovedBack(field: seq<byte>, off: int32, decode: bool)
    requires |field| == 4 && Reversible(off)
    ensures Moved(Moved(field, off, decode), off, !decode) == field
  {
    hide Le32;
    hide PutLe32;
    hide Wrap32;
    hide Signed32;
    hide Relative;
    hide Restored;
    var addr := Signed32(Le32(field));
    var moved := if decode then Relative(addr, off) else Restored(addr, off);
    AddressBack(addr, off);
    PutBack(Wrap32(moved));
    SignedBack(moved);
    UnsignedBack(Le32(field));
    LeBack(field);
  }

  /** Whether the first byte opens an address. */
  predicate Opens(c: byte, buf: seq<byte>) {
    |buf| >= 5 && (buf[0] == 0xe8 || buf[0] == c)
  }

  lemma E8Skips(c: byte, v5: bool, buf: seq<byte>, off: int32, decode: bool)
    requires |buf| >= 5 && !Opens(c, buf)
    ensures E8(c, v5, buf, off, decode) == [buf[0]] + E8(c, v5, buf[1..], Signed32(off as int + 1), decode)
  {}

  function Position(v5: bool, off: int32): int32 {
    var next := Signed32(off as int + 1);
    if v5 then Rem(next, FILE_SIZE) else next
  }

  lemma E8Moves(c: byte, v5: bool, buf: seq<byte>, off: int32, decode: bool)
    requires Opens(c, buf)
    ensures var o := Position(v5, off);
      E8(c, v5, buf, off, decode) ==
        [buf[0]] + Moved(buf[1..5], o, decode) + E8(c, v5, buf[5..], Signed32(o as int + 4), decode)
  {}

  /** The first of the positions that a walk from off may visit, and how far they may reach: no opcode lies in the last
      four bytes. */
  function FirstPlace(off: int32): int { off as int + 1 }

  function LastPlace(off: int32, length: nat): int { off as int + length - 4 }

  /** All positions that any buffer of this length may visit are such that decoding loses nothing: there are none, or
      they begin at 0 or later and end at 2^31 or before, or there is one, at a multiple of the file size. */
  predicate Lossless(v5: bool, off: int32, length: nat) {
    || length < 5
    || (0 <= FirstPlace(off) && LastPlace(off, length) <= 0x8000_0000)
    || (v5 && length == 5 && FirstPlace(off) % FILE_SIZE == 0)
  }

  lemma LosslessStep(v5: bool, off: int32, length: nat)
    requires Lossless(v5, off, length) && length >= 5
    ensures Reversible(Position(v5, off)) && Lossless(v5, Signed32(off as int + 1), length - 1)
    ensures Lossless(v5, Signed32(Position(v5, off) as int + 4), length - 5)
  {
    hide Signed32;
    var q := off as int + 1;
    if q < 0x8000_0000 {
      SignedSmall(q);
      if q < 0 {
        DivModUnique(-q, -q / FILE_SIZE, FILE_SIZE, 0);
      } else if length >= 10 {
        SignedSmall(Position(v5, off) as int + 4);
      }
    } else {
      SignedLarge(q);
    }
  }

  lemma SignedLarge(q: int)
    requires q == 0x8000_0000
    ensures Signed32(q) == -0x8000_0000 && Rem(Signed32(q), FILE_SIZE) == 0
  {}

  /** Decoding undoes encoding and encoding undoes decoding, for all buffers, whenever no position loses anything. */
  lemma {:induction false} E8Back(c: byte, v5: bool, buf: seq<byte>, off: int32, decode: bool)
    requires Lossless(v5, off, |buf|)
    ensures E8(c, v5, E8(c, v5, buf, off, decode), off, !decode) == buf
    decreases |buf|
  {
    hide Moved;
    hide E8;
    hide Signed32;
    hide Lossless;
    hide Position;
    var r := E8(c, v5, buf, off, decode);
    if |buf| < 5 {
      E8Short(c, v5, buf, off, decode);
      E8Short(c, v5, r, off, !decode);
    } else {
      LosslessStep(v5, off, |buf|);
      assert r[0] == buf[0];
      if !Opens(c, buf) {
        var next := Signed32(off as int + 1);
        E8Skips(c, v5, buf, off, decode);
        E8Skips(c, v5, r, off, !decode);
        assert r[1..] == E8(c, v5, buf[1..], next, decode);
        E8Back(c, v5, buf[1..], next, decode);
        assert buf == [buf[0]] + buf[1..];
      } else {
        var o := Position(v5, off);
        var next := Signed32(o as int + 4);
        E8Moves(c, v5, buf, off, decode);
        E8Moves(c, v5, r, off, !decode);
        assert r[1..5] == Moved(buf[1..5], o, decode);
        assert r[5..] == E8(c, v5, buf[5..], next, decode);
        MovedBack(buf[1..5], o, decode);
        E8Back(c, v5, buf[5..], next, decode);
        assert buf == [buf[0]] + buf[1..5] + buf[5..];
      }
    }
  }

  /** A byte that opens no address, and n of them. */
  function Filler(c: byte): byte { if c == 0 then 1 else 0 }

  function Padding(c: byte, n: nat): (s: seq<byte>)
    ensures |s| == n && forall k :: 0 <= k < n ==> s[k] == Filler(c)
  {
    seq(n, _ => Filler(c))
  }

  /** One address, at place i of a buffer of fillers. */
  function OneAddress(c: byte, i: nat, field: seq<byte>, length: nat): (s: seq<byte>)
    requires |field| == 4 && i + 5 <= length
    ensures |s| == length
  {
    Padding(c, i) + [0xe8] + field + Padding(c, length - i - 5)
  }

  /** The walk reaches the address, at the position that lies as far on. */
  lemma {:induction false} AddressReached(c: byte, v5: bool, i: nat, field: seq<byte>, length: nat, off: int32)
    requires |field| == 4 && i + 5 <= length
    ensures var o := Position(v5, Signed32(off as int + i));
      E8(c, v5, OneAddress(c, i, field, length), off, true)
        == Padding(c, i) + [0xe8] + Moved(field, o, true)
          + E8(c, v5, Padding(c, length - i - 5), Signed32(o as int + 4), true)
    decreases i
  {
    hide Moved;
    hide E8;
    hide Signed32;
    hide Position;
    var buf := OneAddress(c, i, field, length);
    if i == 0 {
      SignedSmall(off as int);
      assert buf[1..5] == field && buf[5..] == Padding(c, length - 5);
      E8Moves(c, v5, buf, off, true);
    } else {
      var next := Signed32(off as int + 1);
      assert buf[1..] == OneAddress(c, i - 1, field, length - 1);
      E8Skips(c, v5, buf, off, true);
      SignedTwice(off as int + 1, i - 1);
      AddressReached(c, v5, i - 1, field, length - 1, next);
      assert Padding(c, i) == [buf[0]] + Padding(c, i - 1);
    }
  }

  lemma SignedTwice(x: int, n: int)
    ensures Signed32(Signed32(x) as int + n) == Signed32(x + n)
  {}

  /** Where a position is visited that loses something, some two buffers decode to the same. */
  lemma AddressesLost(c: byte, v5: bool, off: int32, length: nat, i: nat) returns (a: seq<byte>, b: seq<byte>)
    requires i + 5 <= length && !Reversible(Position(v5, Signed32(off as int + i)))
    ensures |a| == |b| == length && a != b && E8(c, v5, a, off, true) == E8(c, v5, b, off, true)
  {
    hide E8;
    hide Signed32;
    hide Position;
    hide Relative;
    var o := Position(v5, Signed32(off as int + i));
    OneToOne(o);
    var x: int32, y: int32 :| Relative(x, o) == Relative(y, o) && x != y;
    var f, g := PutLe32(Wrap32(x)), PutLe32(Wrap32(y));
    PutBack(Wrap32(x));
    PutBack(Wrap32(y));
    SignedBack(x);
    SignedBack(y);
    a, b := OneAddress(c, i, f, length), OneAddress(c, i, g, length);
    assert a[i + 1..i + 5] == f && b[i + 1..i + 5] == g;
    AddressReached(c, v5, i, f, length, off);
    AddressReached(c, v5, i, g, length, off);
  }

  lemma RemNegative(x: int, m: nat)
    requires x < 0 && m > 0
    ensures Rem(x, m) <= 0 && (Rem(x, m) == 0 <==> x % m == 0) && Rem(x, m) + m > 0
  {
    var k, r := -x / m, -x % m;
    assert -x == k * m + r;
    if r == 0 {
      assert x == -k * m + 0;
      DivModUnique(x, -k, m, 0);
    } else {
      assert x == (-k - 1) * m + (m - r);
      DivModUnique(x, -k - 1, m, m - r);
    }
  }

  /** A position below zero loses something, unless it is a multiple of the file size and reduced by it. */
  lemma NegativeLoses(v5: bool, off: int32)
    requires -0x8000_0000 <= FirstPlace(off) < 0 && !(v5 && FirstPlace(off) % FILE_SIZE == 0)
    ensures !Reversible(Position(v5, off))
  {
    hide Signed32;
    hide Rem;
    SignedSmall(FirstPlace(off));
    RemNegative(FirstPlace(off), FILE_SIZE);
  }

  /** Some position that may be visited loses something. */
  lemma LossyPlace(v5: bool, off: int32, length: nat) returns (i: nat)
    requires !Lossless(v5, off, length)
    ensures i + 5 <= length && !Reversible(Position(v5, Signed32(off as int + i)))
  {
    hide Position;
    hide Reversible;
    var q := FirstPlace(off);
    if q >= 0 {
      // The number that is one more than 2^31 reads as one more than the least number there is.
      i := 0x8000_0001 - q;
      Wraps(off as int + i);
      NegativeLoses(v5, -0x8000_0000);
    } else if v5 && q % FILE_SIZE == 0 {
      i := 1;
      SignedSmall(off as int + 1);
      DivModUnique(q + 1, q / FILE_SIZE, FILE_SIZE, 1);
      NegativeLoses(v5, off as int + 1);
    } else {
      i := 0;
      SignedSmall(off as int);
      NegativeLoses(v5, off);
    }
  }

  lemma Wraps(x: int)
    requires x == 0x8000_0000
    ensures Signed32(x) == -0x8000_0000
  {}

  /** Decoding buffers of a length from a position is one-to-one exactly when no position that may be visited loses
      anything. */
  lemma BuffersOneToOne(c: byte, v5: bool, off: int32, length: nat)
    ensures (forall a: seq<byte>, b: seq<byte> ::
      |a| == |b| == length && E8(c, v5, a, off, true) == E8(c, v5, b, off, true) ==> a == b)
      <==> Lossless(v5, off, length)
  {
    hide E8;
    hide Lossless;
    if Lossless(v5, off, length) {
      forall a: seq<byte>, b: seq<byte> | |a| == |b| == length && E8(c, v5, a, off, true) == E8(c, v5, b, off, true)
        ensures a == b {
        E8Back(c, v5, a, off, true);
        E8Back(c, v5, b, off, true);
      }
    } else {
      var i := LossyPlace(v5, off, length);
      var a, b := AddressesLost(c, v5, off, length, i);
    }
  }

  lemma E8Short(c: byte, v5: bool, buf: seq<byte>, off: int32, decode: bool)
    requires |buf| < 5
    ensures E8(c, v5, buf, off, decode) == buf
  {}

  /** The buffer with a piece replaced. */
  function Patched(s: seq<byte>, at: nat, piece: seq<byte>): (r: seq<byte>)
    requires at + |piece| <= |s|
    ensures |r| == |s|
  {
    s[..at] + piece + s[at + |piece|..]
  }

  lemma PatchedParts(s: seq<byte>, at: nat, piece: seq<byte>)
    requires at + |piece| <= |s|
    ensures Patched(s, at, piece)[..at + |piece|] == s[..at] + piece
    ensures Patched(s, at, piece)[at + |piece|..] == s[at + |piece|..]
  {}

  /** A part of a buffer that a patch does not reach. */
  lemma PatchedElsewhere(s: seq<byte>, at: nat, piece: seq<byte>, a: nat, b: nat)
    requires at + |piece| <= |s| && a <= b <= |s| && (b <= at || at + |piece| <= a)
    ensures Patched(s, at, piece)[a..b] == s[a..b]
  {}

  lemma PatchedHere(s: seq<byte>, at: nat, piece: seq<byte>)
    requires at + |piece| <= |s|
    ensures Patched(s, at, piece)[at..at + |piece|] == piece
  {}

  /** Moving on in a buffer. */
  lemma SliceOn(s: seq<byte>, b: nat, n: nat, k: nat)
    requires b + n + k <= |s|
    ensures s[b..][n..n + k] == s[b + n..b + n + k] && s[b..][n..] == s[b + n..] && s[..b] + s[b..][..n] == s[..b + n]
    ensures n > 0 ==> s[b..][0] == s[b]
  {}

  /** Change the address at a place of the buffer. */
  method DecodeAddress(buf: array<byte>, at: nat, off: int32)
    requires at + 4 <= buf.Length
    modifies buf
    ensures buf[..] == Patched(old(buf[..]), at, Moved(old(buf[..])[at..at + 4], off, true))
  {
    hide Le32;
    hide PutLe32;
    hide Wrap32;
    hide Signed32;
    var field := buf[at..at + 4];
    assert field == buf[..][at..at + 4];
    var addr := Signed32(Le32(field));
    SignedWraps(addr as int + FILE_SIZE);
    SignedWraps(addr as int - off);
    if addr < 0 {
      if Signed32(addr as int + off) >= 0 {
        PutLe32At(buf, at, Wrap32(addr as int + FILE_SIZE));
        return;
      }
    } else if addr < FILE_SIZE {
      PutLe32At(buf, at, Wrap32(addr as int - off));
      return;
    }
    UnsignedBack(Le32(field));
    LeBack(field);
    assert buf[..] == Patched(buf[..], at, field);
  }

  lemma SignedWraps(x: int)
    ensures Wrap32(Signed32(x)) == Wrap32(x)
  {}

  lemma E8SkipsAt(c: byte, v5: bool, s: seq<byte>, b: nat, off: int32)
    requires b + 5 <= |s| && !Opens(c, s[b..])
    ensures s[..b] + E8(c, v5, s[b..], off, true) == s[..b + 1] + E8(c, v5, s[b + 1..], Signed32(off as int + 1), true)
  {
    hide E8;
    hide Signed32;
    E8Skips(c, v5, s[b..], off, true);
    SliceOn(s, b, 1, 0);
  }

  lemma E8MovesAt(c: byte, v5: bool, s: seq<byte>, b: nat, off: int32)
    requires b + 5 <= |s| && Opens(c, s[b..])
    ensures var o := Position(v5, off);
      var t := Patched(s, b + 1, Moved(s[b + 1..b + 5], o, true));
      s[..b] + E8(c, v5, s[b..], off, true) == t[..b + 5] + E8(c, v5, t[b + 5..], Signed32(o as int + 4), true)
  {
    hide E8;
    hide Moved;
    hide Signed32;
    hide Patched;
    var o := Position(v5, off);
    var piece := Moved(s[b + 1..b + 5], o, true);
    E8Moves(c, v5, s[b..], off, true);
    SliceOn(s, b, 1, 4);
    SliceOn(s, b, 5, 0);
    PatchedParts(s, b + 1, piece);
    var later := E8(c, v5, s[b + 5..], Signed32(o as int + 4), true);
    assert s[..b] + ([s[b]] + piece + later) == s[..b + 1] + piece + later;
  }

  method FilterE8(c: byte, v5: bool, buf: array<byte>, offset: int)
    modifies buf
    ensures buf[..] == E8(c, v5, old(buf[..]), Signed32(offset), true)
  {
    hide Signed32;
    hide Moved;
    hide E8;
    hide Rem;
    hide Patched;
    hide Opens;
    var off: int32 := Signed32(offset);
    var b := 0;
    ghost var all, s := E8(c, v5, buf[..], off, true), buf[..];
    while buf.Length - b >= 5
      invariant 0 <= b <= buf.Length && s == buf[..]
      invariant all == s[..b] + E8(c, v5, s[b..], off, true)
    {
      var ch := buf[b];
      OpensWith(c, s[b..]);
      if ch != 0xe8 && ch != c {
        E8SkipsAt(c, v5, s, b, off);
        off := Signed32(off as int + 1);
        b := b + 1;
        continue;
      }
      E8MovesAt(c, v5, s, b, off);
      off := Signed32(off as int + 1);
      if v5 {
        off := Rem(off, FILE_SIZE);
      }
      DecodeAddress(buf, b + 1, off);
      s := buf[..];
      off := Signed32(off as int + 4);
      b := b + 5;
    }
    E8Short(c, v5, s[b..], off, true);
  }

  lemma OpensWith(c: byte, s: seq<byte>)
    requires |s| >= 5
    ensures Opens(c, s) <==> s[0] == 0xe8 || s[0] == c
  {}

  method PutLe32At(buf: array<byte>, at: nat, x: uint32)
    requires at + 4 <= buf.Length
    modifies buf
    ensures buf[..] == Patched(old(buf[..]), at, PutLe32(x))
  {
    var s := PutLe32(x);
    buf[at], buf[at + 1], buf[at + 2], buf[at + 3] := s[0], s[1], s[2], s[3];
  }

  /** Three bytes as a number, the lowest first. */
  function Le24(s: seq<byte>): (n: nat)
    requires |s| == 3
    ensures n < 0x100_0000
  {
    s[0] as int + 0x100 * s[1] as int + 0x1_0000 * s[2] as int
  }

  /** The low 24 bits of x, the lowest byte first. */
  function PutLe24(x: int): (s: seq<byte>)
    ensures |s| == 3
  {
    [x % 0x100, x / 0x100 % 0x100, x / 0x1_0000 % 0x100]
  }

  lemma PutLe24Back(x: int)
    ensures Le24(PutLe24(x)) == x % 0x100_0000
  {
    var a, b, c, h := x % 0x100, x / 0x100 % 0x100, x / 0x1_0000 % 0x100, x / 0x100_0000;
    DivModUnique(x, h, 0x100_0000, a + 0x100 * b + 0x1_0000 * c);
  }

  lemma Le24Back(s: seq<byte>, x: int)
    requires |s| == 3 && x % 0x100_0000 == Le24(s)
    ensures PutLe24(x) == s
  {
    var h := x / 0x100_0000;
    DivModUnique(x, s[1] as int + 0x100 * s[2] as int + 0x1_0000 * h, 0x100, s[0]);
    DivModUnique(x / 0x100, s[2] as int + 0x100 * h, 0x100, s[1]);
    DivModUnique(x, s[2] as int + 0x100 * h, 0x1_0000, s[0] as int + 0x100 * s[1] as int);
    DivModUnique(s[2] as int + 0x100 * h, h, 0x100, s[2]);
  }

  /** The low 64 bits of x. */
  function Wrap64(x: int): nat { x % 0x1_0000_0000_0000_0000 }

  /** The position of an instruction, counted in instructions. */
  function ArmPlace(offset: int, i: nat): nat { Wrap64(Wrap64(offset) + i) / 4 }

  /** Turn the address of a branch-and-link instruction by its place. */
  function ArmMoved(field: seq<byte>, place: nat, decode: bool): (r: seq<byte>)
    requires |field| == 3
    ensures |r| == 3
  {
    PutLe24(if decode then Le24(field) - place else Le24(field) + place)
  }

  lemma ArmMovedBack(field: seq<byte>, place: nat, decode: bool)
    requires |field| == 3
    ensures ArmMoved(ArmMoved(field, place, decode), place, !decode) == field
  {
    hide Le24;
    hide PutLe24;
    var x := if decode then Le24(field) - place else Le24(field) + place;
    PutLe24Back(x);
    var y := if decode then x % 0x100_0000 + place else x % 0x100_0000 - place;
    var h := x / 0x100_0000;
    DivModUnique(y, -h, 0x100_0000, Le24(field));
    Le24Back(field, y);
  }

  /** The walk over the instructions. */
  function Arm(buf: seq<byte>, offset: int, i: nat, decode: bool): (r: seq<byte>)
    ensures |r| == |buf|
    decreases |buf|
  {
    if |buf| <= 3 then buf
    else
      (if buf[3] == 0xeb then ArmMoved(buf[..3], ArmPlace(offset, i), decode) else buf[..3])
      + [buf[3]] + Arm(buf[4..], offset, i + 4, decode)
  }

  /** Decoding undoes encoding and encoding undoes decoding, for all buffers at all offsets. */
  lemma {:induction false} ArmBack(buf: seq<byte>, offset: int, i: nat, decode: bool)
    ensures Arm(Arm(buf, offset, i, decode), offset, i, !decode) == buf
    decreases |buf|
  {
    hide ArmMoved;
    hide ArmPlace;
    if |buf| > 3 {
      var r := Arm(buf, offset, i, decode);
      ArmMovedBack(buf[..3], ArmPlace(offset, i), decode);
      ArmBack(buf[4..], offset, i + 4, decode);
      assert r[4..] == Arm(buf[4..], offset, i + 4, decode);
      assert r[..3] == if buf[3] == 0xeb then ArmMoved(buf[..3], ArmPlace(offset, i), decode) else buf[..3];
      assert buf == buf[..3] + [buf[3]] + buf[4..];
    }
  }

  /** Cutting to 64 bits on the way does not change the low 24. */
  lemma Put24Wrapped(x: int)
    ensures PutLe24(Wrap64(x)) == PutLe24(x)
  {
    hide PutLe24;
    var w, h := Wrap64(x), x / 0x1_0000_0000_0000_0000;
    DivModUnique(w, x / 0x100_0000 - h * 0x100_0000_0000, 0x100_0000, x % 0x100_0000);
    PutLe24Back(x);
    PutLe24Back(w);
    Le24Back(PutLe24(x), w);
  }

  lemma ArmStep(s: seq<byte>, offset: int, i: nat)
    requires |s| > 3
    ensures Arm(s, offset, i, true) ==
      (if s[3] == 0xeb then ArmMoved(s[0..3], ArmPlace(offset, i), true) else s[0..3]) + [s[3]]
        + Arm(s[4..], offset, i + 4, true)
  {}

  lemma ArmShort(s: seq<byte>, offset: int, i: nat)
    requires |s| <= 3
    ensures Arm(s, offset, i, true) == s
  {}

  /** One instruction of the walk, in place. */
  lemma ArmAt(s: seq<byte>, offset: int, i: nat)
    requires i + 3 < |s|
    ensures var t := if s[i + 3] == 0xeb then Patched(s, i, ArmMoved(s[i..i + 3], ArmPlace(offset, i), true)) else s;
      s[..i] + Arm(s[i..], offset, i, true) == t[..i + 4] + Arm(t[i + 4..], offset, i + 4, true)
  {
    hide ArmMoved;
    hide ArmPlace;
    hide Arm;
    hide Patched;
    ArmStep(s[i..], offset, i);
    SliceOn(s, i, 0, 3);
    SliceOn(s, i, 4, 0);
    var piece := if s[i + 3] == 0xeb then ArmMoved(s[i..i + 3], ArmPlace(offset, i), true) else s[i..i + 3];
    var t := Patched(s, i, piece);
    if s[i + 3] != 0xeb {
      PatchedSame(s, i, 3);
    }
    PatchedParts(s, i, piece);
    Onward(t, i, piece, s[i + 3]);
    assert t[i + 3..] == s[i + 3..];
    assert t[i + 4..] == t[i + 3..][1..] && s[i + 4..] == s[i + 3..][1..];
    var later := Arm(s[i + 4..], offset, i + 4, true);
    assert s[..i] + (piece + [s[i + 3]] + later) == s[..i] + piece + [s[i + 3]] + later;
  }

  lemma PatchedSame(s: seq<byte>, i: nat, n: nat)
    requires i + n <= |s|
    ensures Patched(s, i, s[i..i + n]) == s
  {}

  lemma Onward(t: seq<byte>, i: nat, piece: seq<byte>, next: byte)
    requires i + |piece| < |t| && t[i + |piece|..][0] == next
    ensures t[..i + |piece| + 1] == t[..i + |piece|] + [next]
  {}

  method FilterArm(buf: array<byte>, offset: int)
    modifies buf
    ensures buf[..] == Arm(old(buf[..]), offset, 0, true)
  {
    hide ArmMoved;
    hide ArmPlace;
    hide Arm;
    hide Patched;
    var i := 0;
    ghost var all, s := Arm(buf[..], offset, 0, true), buf[..];
    while buf.Length - i > 3
      invariant 0 <= i <= buf.Length && s == buf[..]
      invariant all == s[..i] + Arm(s[i..], offset, i, true)
    {
      ArmAt(s, offset, i);
      if buf[i + 3] == 0xeb {
        TurnArm(buf, i, ArmPlace(offset, i));
        s := buf[..];
      }
      i := i + 4;
    }
    ArmShort(s[i..], offset, i);
  }

  method TurnArm(buf: array<byte>, i: nat, place: nat)
    requires i + 3 <= buf.Length
    modifies buf
    ensures buf[..] == Patched(old(buf[..]), i, ArmMoved(old(buf[..])[i..i + 3], place, true))
  {
    hide PutLe24;
    hide Wrap64;
    assert buf[..][i..i + 3] == [buf[i], buf[i + 1], buf[i + 2]];
    var n: int := buf[i];
    n := n + buf[i + 1] as int * 0x100;
    n := n + buf[i + 2] as int * 0x1_0000;
    n := n - place;
    Put24Wrapped(n);
    var s := PutLe24(Wrap64(n));
    buf[i], buf[i + 1], buf[i + 2] := s[0], s[1], s[2];
  }
}

/** The Itanium filter: three instructions in each 16 bytes, with 20-bit addresses that share bytes with other
    fields. */
module ItaniumFilter {
  import opened Machine
  import opened Bits
  import opened BitStrings
  import opened AddressFilters

  const BYTE_MASK: seq<nat> := [4, 4, 6, 6, 0, 0, 7, 7, 4, 4, 0, 0, 4, 4, 0, 0]
  const FIELD := 0x10_0000

  /** Bits pos to pos + count of the buffer, the lowest first. */
  function GetBits(buf: seq<byte>, pos: nat, count: nat): nat
    requires pos / 8 + 4 <= |buf|
  {
    Field(Le32(buf[pos / 8..pos / 8 + 4]), pos % 8, count)
  }

  /** count bits of n, from bit k on. */
  function Field(n: nat, k: nat, count: nat): nat {
    Shr(n, k) % Pow2(count)
  }

  /** The same with those bits replaced. */
  function WithField(n: uint32, k: nat, count: nat, bits: nat): int {
    n as int - Field(n, k, count) * Pow2(k) + (bits % Pow2(count)) * Pow2(k)
  }

  /** Whether a template has a branch in slot i, by its row of the table. */
  predicate Selected(template: byte, i: nat) {
    var row := template as int % 32 - 16;
    row >= 0 && Bit(BYTE_MASK[row], i) == 1
  }

  function Bit(mask: nat, i: nat): (b: nat)
    ensures b < 2
  {
    Shr(mask, i) % 2
  }

  /** A number in three parts: below p, a field of 20 bits, and above. */
  function Bottom(n: nat, p: nat): (r: nat)
    requires p > 0
    ensures r < p
  {
    n % p
  }

  function Middle(n: nat, p: nat): (r: nat)
    requires p > 0
    ensures r < FIELD
  {
    n / p % FIELD
  }

  function Top(n: nat, p: nat): nat
    requires p > 0
  {
    n / (p * FIELD)
  }

  function Joined(low: nat, p: nat, f: nat, high: nat): nat {
    low + p * f + p * FIELD * high
  }

  function TurnedField(f: nat, place: int, decode: bool): (r: nat)
    ensures r < FIELD
  {
    (if decode then f - place else f + place) % FIELD
  }

  /** n with its field turned by a place. */
  function TurnedNumber(n: nat, p: nat, place: int, decode: bool): nat
    requires p > 0
  {
    Joined(Bottom(n, p), p, TurnedField(Middle(n, p), place, decode), Top(n, p))
  }

  /** The turned address field of slot i, in its three bytes: i + 2 bits are not part of the field at either end. */
  function Turned(s: seq<byte>, i: nat, place: int, decode: bool): (r: seq<byte>)
    requires |s| == 3 && i <= 2
    ensures |r| == 3
  {
    PutLe24(TurnedNumber(Le24(s), Pow2(i + 2), place, decode))
  }

  /** A slot is changed when its template selects it and its opcode bits, in the next byte, say it is a call. */
  function Slot(template: byte, s: seq<byte>, next: byte, i: nat, place: int, decode: bool): (r: seq<byte>)
    requires |s| == 3 && i <= 2
    ensures |r| == 3
  {
    if Selected(template, i) && next / Pow2(i + 2) % 16 == 5 then Turned(s, i, place, decode) else s
  }

  /** One bundle of 16 bytes. */
  function Bundle(b: seq<byte>, place: int, decode: bool): (r: seq<byte>)
    requires |b| == 16
    ensures |r| == 16
  {
    b[..2] + Slot(b[0], b[2..5], b[5], 0, place, decode)
    + b[5..7] + Slot(b[0], b[7..10], b[10], 1, place, decode)
    + b[10..12] + Slot(b[0], b[12..15], b[15], 2, place, decode) + b[15..]
  }

  /** The walk over the bundles; the last 21 bytes or fewer are left alone. */
  function Itanium(buf: seq<byte>, place: uint32, decode: bool): (r: seq<byte>)
    ensures |r| == |buf|
    decreases |buf|
  {
    if |buf| <= 21 then buf
    else Bundle(buf[..16], place, decode) + Itanium(buf[16..], Wrap32(place as int + 1), decode)
  }

  lemma Slots()
    ensures Pow2(0) == 1 && Pow2(1) == 2 && Pow2(2) == 4 && Pow2(3) == 8 && Pow2(4) == 16
  {}

  /** Turning a number back within its range. */
  lemma TurnBack(f: int, place: int, m: int)
    requires 0 <= f < m
    ensures ((f - place) % m + place) % m == f && ((f + place) % m - place) % m == f
  {
    Residue(f - place, place, m, f);
    Residue(f + place, -place, m, f);
  }

  lemma Residue(x: int, y: int, m: int, f: int)
    requires 0 <= f < m && x + y == f
    ensures (x % m + y) % m == f
  {
    var q := x / m;
    assert x % m == x - q * m;
    assert x % m + y == (-q) * m + f;
    DivModUnique(x % m + y, -q, m, f);
  }

  /** Taking apart what was put together. */
  lemma Apart(low: nat, p: nat, f: nat, high: nat)
    requires low < p && f < FIELD
    ensures var n := Joined(low, p, f, high); Bottom(n, p) == low && Middle(n, p) == f && Top(n, p) == high
  {
    var n := Joined(low, p, f, high);
    assert n == (f + FIELD * high) * p + low;
    DivModUnique(n, f + FIELD * high, p, low);
    DivModUnique(f + FIELD * high, high, FIELD, f);
    assert p * f + low < p * FIELD by { Gap(f, FIELD, p); }
    assert n == high * (p * FIELD) + (low + p * f);
    assert 0 <= p * f;
    DivModUnique(n, high, p * FIELD, low + p * f);
  }

  /** A number is made of its parts. */
  lemma Whole(n: nat, p: nat)
    requires p > 0
    ensures n == Joined(Bottom(n, p), p, Middle(n, p), Top(n, p))
  {
    var q := n / p;
    assert n == q * p + n % p;
    assert q == (q / FIELD) * FIELD + q % FIELD;
    var f, h, low := q % FIELD, q / FIELD, n % p;
    assert q * p == p * FIELD * h + p * f;
    assert h >= 0;
    Apart(low, p, f, h);
  }

  /** A part of 24 bits stays one when its field changes. */
  lemma JoinedFits(n: nat, p: nat, low: nat, f: nat)
    requires n < 0x100_0000 && (p == 4 || p == 8 || p == 16) && low < p && f < FIELD
    ensures Joined(low, p, f, Top(n, p)) < 0x100_0000
  {}

  lemma TurnedNumberBack(n: nat, p: nat, place: int, decode: bool)
    requires n < 0x100_0000 && (p == 4 || p == 8 || p == 16)
    ensures TurnedNumber(n, p, place, decode) < 0x100_0000
    ensures TurnedNumber(TurnedNumber(n, p, place, decode), p, place, !decode) == n
  {
    hide Joined;
    hide Bottom;
    hide Middle;
    hide Top;
    hide TurnedField;
    var f := Middle(n, p);
    var f' := TurnedField(f, place, decode);
    JoinedFits(n, p, Bottom(n, p), f');
    Apart(Bottom(n, p), p, f', Top(n, p));
    TurnedFieldBack(f, place, decode);
    Whole(n, p);
  }

  lemma TurnedFieldBack(f: nat, place: int, decode: bool)
    requires f < FIELD
    ensures TurnedField(TurnedField(f, place, decode), place, !decode) == f
  {
    TurnBack(f, place, FIELD);
  }

  lemma TurnedBack(s: seq<byte>, i: nat, place: int, decode: bool)
    requires |s| == 3 && i <= 2
    ensures Turned(Turned(s, i, place, decode), i, place, !decode) == s
  {
    hide Le24;
    hide PutLe24;
    hide Pow2;
    hide TurnedNumber;
    Slots();
    var n, p := Le24(s), Pow2(i + 2);
    var n' := TurnedNumber(n, p, place, decode);
    TurnedNumberBack(n, p, place, decode);
    PutLe24Back(n');
    Small24(n');
    Small24(n);
    Le24Back(s, n);
  }

  lemma Small24(n: int)
    requires 0 <= n < 0x100_0000
    ensures n % 0x100_0000 == n
  {}

  lemma SlotBack(template: byte, s: seq<byte>, next: byte, i: nat, place: int, decode: bool)
    requires |s| == 3 && i <= 2
    ensures Slot(template, Slot(template, s, next, i, place, decode), next, i, place, !decode) == s
  {
    hide Turned;
    hide Selected;
    TurnedBack(s, i, place, decode);
  }

  /** The parts of a bundle. */
  lemma BundleParts(b: seq<byte>, place: int, decode: bool)
    requires |b| == 16
    ensures var r := Bundle(b, place, decode);
      && r[..2] == b[..2] && r[5..7] == b[5..7] && r[10..12] == b[10..12] && r[15..] == b[15..]
      && r[2..5] == Slot(b[0], b[2..5], b[5], 0, place, decode)
      && r[7..10] == Slot(b[0], b[7..10], b[10], 1, place, decode)
      && r[12..15] == Slot(b[0], b[12..15], b[15], 2, place, decode)
  {
    hide Slot;
  }

  lemma HeadsAgree(r: seq<byte>, b: seq<byte>)
    requires |r| == |b| == 16
    requires r[..2] == b[..2] && r[5..7] == b[5..7] && r[10..12] == b[10..12] && r[15..] == b[15..]
    ensures r[0] == b[0] && r[5] == b[5] && r[10] == b[10] && r[15] == b[15]
  {
    assert r[0] == r[..2][0] && r[5] == r[5..7][0] && r[10] == r[10..12][0] && r[15] == r[15..][0];
  }

  lemma BundleBack(b: seq<byte>, place: int, decode: bool)
    requires |b| == 16
    ensures Bundle(Bundle(b, place, decode), place, !decode) == b
  {
    hide Slot;
    BundleParts(b, place, decode);
    HeadsAgree(Bundle(b, place, decode), b);
    SlotBack(b[0], b[2..5], b[5], 0, place, decode);
    SlotBack(b[0], b[7..10], b[10], 1, place, decode);
    SlotBack(b[0], b[12..15], b[15], 2, place, decode);
    assert b == b[..2] + b[2..5] + b[5..7] + b[7..10] + b[10..12] + b[12..15] + b[15..];
  }

  /** Decoding undoes encoding and encoding undoes decoding, for all buffers at all offsets. */
  lemma {:induction false} ItaniumBack(buf: seq<byte>, place: uint32, decode: bool)
    ensures Itanium(Itanium(buf, place, decode), place, !decode) == buf
    decreases |buf|
  {
    hide Bundle;
    if |buf| > 21 {
      var r := Itanium(buf, place, decode);
      BundleBack(buf[..16], place, decode);
      ItaniumBack(buf[16..], Wrap32(place as int + 1), decode);
      assert r[..16] == Bundle(buf[..16], place, decode);
      assert r[16..] == Itanium(buf[16..], Wrap32(place as int + 1), decode);
      assert buf == buf[..16] + buf[16..];
    }
  }

  /** Adding whole multiples above a field does not change it. */
  lemma HighIgnored(n: nat, h: nat, p: nat, m: nat, c: nat)
    requires p > 0 && m > 0
    ensures (n + p * m * c * h) / p % m == n / p % m
  {
    var q, x := n / p, m * c * h;
    assert p * m * c * h == p * x by { assert p * m * c * h == p * (m * c * h); }
    assert n + p * x == (q + x) * p + n % p by { assert n == q * p + n % p; assert (q + x) * p == q * p + x * p; }
    DivModUnique(n + p * x, q + x, p, n % p);
    var y := c * h;
    assert x == y * m by { assert m * c * h == m * (c * h); }
    assert q + x == (q / m + y) * m + q % m by {
      assert q == q / m * m + q % m;
      assert (q / m + y) * m == q / m * m + y * m;
    }
    DivModUnique(q + x, q / m + y, m, q % m);
  }

  /** The address field and opcode bits of slot i, read and written as bits of 32-bit words. */
  lemma WordField(w: seq<byte>, i: nat, n: nat)
    requires |w| == 4 && i <= 2
    ensures var p, x := Pow2(i + 2), Le24(w[..3]);
      && Field(Le32(w), i + 2, 20) == Middle(x, p)
      && Field(Le32(w), i + 2, 4) == w[0] / p % 16
  {
    hide Shr;
    hide Pow2;
    Slots();
    Pow2Values();
    Pow20();
    var p, x, word := Pow2(i + 2), Le24(w[..3]), Le32(w) as int;
    ShrDivides(word, i + 2);
    var c := if i == 0 then 4 else if i == 1 then 2 else 1;
    var top, rest := w[3] as int, w[1] as int + 0x100 * w[2] as int + 0x1_0000 * w[3] as int;
    assert word == x + 0x100_0000 * top && word == w[0] as int + 0x100 * rest;
    HighIgnored(x, top, p, FIELD, c);
    HighIgnored(w[0], rest, p, 16, c);
  }

  lemma Pow20()
    ensures Pow2(20) == FIELD
  {
    assert Pow2(10) == 0x400;
    assert Pow2(20) == 0x400 * Pow2(10);
  }

  /** Replacing the field in the word turns the three bytes and keeps the fourth. */
  lemma WordTurned(w: seq<byte>, i: nat, place: uint32, n: uint32)
    requires |w| == 4 && i <= 2 && n == Wrap32(Middle(Le24(w[..3]), Pow2(i + 2)) as int - place)
    ensures 0 <= WithField(Le32(w), i + 2, 20, n) < 0x1_0000_0000
    ensures PutLe32(WithField(Le32(w), i + 2, 20, n)) == Turned(w[..3], i, place, true) + [w[3]]
  {
    hide Shr;
    hide Pow2;
    hide Middle;
    hide Bottom;
    hide Top;
    hide Field;
    hide PutLe24;
    hide PutLe32;
    hide Joined;
    Slots();
    Pow20();
    var p, x := Pow2(i + 2), Le24(w[..3]);
    var f' := TurnedField(Middle(x, p), place, true);
    WordField(w, i, n);
    Whole(x, p);
    TurnedNumberBack(x, p, place, true);
    WrappedField(Middle(x, p) as int - place);
    WithFieldIs(Bottom(x, p), p, Middle(x, p), f', Top(x, p), w[3]);
    PutBoth(TurnedNumber(x, p, place, true), w[3]);
  }

  lemma WrappedField(x: int)
    ensures Wrap32(x) % FIELD == x % FIELD
  {
    var w, q := Wrap32(x) as int, x / 0x1_0000_0000;
    DivModUnique(w, x / FIELD - 0x1000 * q, FIELD, x % FIELD);
  }

  lemma WithFieldIs(low: nat, p: nat, f: nat, f': nat, high: nat, top: nat)
    ensures Joined(low, p, f, high) + 0x100_0000 * top - f * p + f' * p == Joined(low, p, f', high) + 0x100_0000 * top
  {}

  lemma PutBoth(y: nat, top: byte)
    requires y < 0x100_0000
    ensures y + 0x100_0000 * top as int < 0x1_0000_0000
    ensures PutLe32(y + 0x100_0000 * top as int) == PutLe24(y) + [top]
  {
    var x := y + 0x100_0000 * top as int;
    DivModUnique(x, y / 0x100 + 0x1_0000 * top as int, 0x100, y % 0x100);
    DivModUnique(x, y / 0x1_0000 + 0x100 * top as int, 0x1_0000, y % 0x1_0000);
    DivModUnique(x, top, 0x100_0000, y);
    DivModUnique(y / 0x100 + 0x1_0000 * top as int, y / 0x1_0000 + 0x100 * top as int, 0x100, y / 0x100 % 0x100);
  }

  /** Slot i of the bundle at a place of the buffer, decoded. */
  function SlotAt(s: seq<byte>, at: nat, i: nat, place: int): (r: seq<byte>)
    requires at + 16 <= |s| && i <= 2
    ensures |r| == 3
  {
    var from := at + 5 * i + 2;
    Slot(s[at], s[from..from + 3], s[from + 3], i, place, true)
  }

  lemma SlotPlaces(i: nat)
    requires i <= 2
    ensures var pos := i * 41 + 18;
      pos / 8 == 5 * i + 2 && pos % 8 == i + 2 && (pos + 24) / 8 == 5 * i + 5 && (pos + 24) % 8 == i + 2
  {}

  /** Put bits into the buffer from bit pos on, counted from a place. */
  method SetBits(buf: array<byte>, at: nat, pos: nat, count: nat, bits: nat)
    requires at + pos / 8 + 4 <= buf.Length
    requires 0 <= WithField(Le32(buf[..][at + pos / 8..at + pos / 8 + 4]), pos % 8, count, bits) < 0x1_0000_0000
    modifies buf
    ensures buf[..] == Patched(old(buf[..]), at + pos / 8,
                               old(PutLe32(WithField(Le32(buf[..][at + pos / 8..at + pos / 8 + 4]), pos % 8, count,
                                                     bits))))
  {
    hide Le32;
    hide WithField;
    var k := at + pos / 8;
    assert buf[k..k + 4] == buf[..][k..k + 4];
    var n := Le32(buf[k..k + 4]);
    PutLe32At(buf, k, WithField(n, pos % 8, count, bits));
  }

  /** Turn the address of slot i, which the template selects, when the slot holds a call. */
  method TurnSlot(buf: array<byte>, at: nat, i: nat, fileOffset: uint32)
    requires at + 22 <= buf.Length && i <= 2 && Selected(buf[at], i)
    modifies buf
    ensures buf[..] == Patched(old(buf[..]), at + 5 * i + 2, SlotAt(old(buf[..]), at, i, fileOffset))
  {
    hide Le32;
    hide PutLe32;
    hide WithField;
    hide Field;
    hide Pow2;
    hide Selected;
    hide Turned;
    hide Middle;
    ghost var s, from := buf[..], at + 5 * i + 2;
    ghost var w, w' := s[from..from + 4], s[from + 3..from + 7];
    var pos := i * 41 + 18;
    SlotPlaces(i);
    Words(s, from);
    WordField(w', i, 0);
    assert buf[at..][(pos + 24) / 8..(pos + 24) / 8 + 4] == w';
    if GetBits(buf[at..], pos + 24, 4) == 5 {
      assert buf[at..][pos / 8..pos / 8 + 4] == w;
      var n := GetBits(buf[at..], pos, 20);
      WordField(w, i, n);
      var bits := Wrap32(n as int - fileOffset);
      WordTurned(w, i, fileOffset, bits);
      SetBits(buf, at, pos, 20, bits);
      PatchShorter(s, from, Turned(w[..3], i, fileOffset, true), w[3]);
    } else {
      assert buf[..] == Patched(s, from, s[from..from + 3]);
    }
  }

  lemma Words(s: seq<byte>, from: nat)
    requires from + 7 <= |s|
    ensures s[from..from + 4][..3] == s[from..from + 3]
      && s[from..from + 4][3] == s[from + 3] == s[from + 3..from + 7][0]
  {}

  lemma PatchShorter(s: seq<byte>, from: nat, piece: seq<byte>, last: byte)
    requires from + |piece| < |s| && s[from + |piece|] == last
    ensures Patched(s, from, piece + [last]) == Patched(s, from, piece)
  {}

  /** The first i slots of a bundle decoded, one after another. */
  function Partial(s: seq<byte>, at: nat, i: nat, place: int): (r: seq<byte>)
    requires at + 16 <= |s| && i <= 3
    ensures |r| == |s|
  {
    if i == 0 then s
    else
      var before := Partial(s, at, i - 1, place);
      Patched(before, at + 5 * i - 3, SlotAt(before, at, i - 1, place))
  }

  /** The slots before do not touch what slot i depends on. */
  lemma {:induction false} PartialSame(s: seq<byte>, at: nat, i: nat, place: int)
    requires at + 16 <= |s| && i <= 2
    ensures SlotAt(Partial(s, at, i, place), at, i, place) == SlotAt(s, at, i, place)
      && Partial(s, at, i, place)[at] == s[at]
  {
    hide Slot;
    var from, r := at + 5 * i + 2, Partial(s, at, i, place);
    PartialUntouched(s, at, i, place, at, at + 1);
    PartialUntouched(s, at, i, place, from, from + 3);
    PartialUntouched(s, at, i, place, from + 3, from + 4);
    assert r[at] == r[at..at + 1][0] && r[from + 3] == r[from + 3..from + 4][0];
  }

  lemma {:induction false} PartialUntouched(s: seq<byte>, at: nat, i: nat, place: int, a: nat, b: nat)
    requires at + 16 <= |s| && i <= 3 && a <= b <= |s|
      && forall k: nat | k < i :: b <= at + 5 * k + 2 || at + 5 * k + 5 <= a
    ensures Partial(s, at, i, place)[a..b] == s[a..b]
    decreases i
  {
    hide Patched;
    hide SlotAt;
    if i > 0 {
      var before := Partial(s, at, i - 1, place);
      PartialUntouched(s, at, i - 1, place, a, b);
      var last := i - 1;
      assert b <= at + 5 * last + 2 || at + 5 * last + 5 <= a;
      PatchedElsewhere(before, at + 5 * i - 3, SlotAt(before, at, i - 1, place), a, b);
    }
  }

  /** After its three slots a bundle is decoded. */
  lemma BundleMade(s: seq<byte>, at: nat, place: int)
    requires at + 16 <= |s|
    ensures Partial(s, at, 3, place) == Patched(s, at, Bundle(s[at..at + 16], place, true))
  {
    hide Slot;
    hide Partial;
    hide Patched;
    hide Bundle;
    var b, t := s[at..at + 16], Partial(s, at, 3, place);
    PartialUntouched(s, at, 3, place, 0, at + 2);
    PartialUntouched(s, at, 3, place, at + 5, at + 7);
    PartialUntouched(s, at, 3, place, at + 10, at + 12);
    PartialUntouched(s, at, 3, place, at + 15, |s|);
    PartialSlots(s, at, place);
    SubSlice(s, at, 2, 5);
    SubSlice(s, at, 5, 7);
    SubSlice(s, at, 7, 10);
    SubSlice(s, at, 10, 12);
    SubSlice(s, at, 12, 15);
    assert s[at + 5] == b[5] && s[at + 10] == b[10] && s[at + 15] == b[15] && s[at] == b[0];
    var u := Patched(s, at, Bundle(b, place, true));
    BundleParts(b, place, true);
    PatchedHere(s, at, Bundle(b, place, true));
    SubSlice(u, at, 2, 5);
    SubSlice(u, at, 5, 7);
    SubSlice(u, at, 7, 10);
    SubSlice(u, at, 10, 12);
    SubSlice(u, at, 12, 15);
    SubSlice(u, at, 0, 2);
    SubSlice(u, at, 15, 16);
    PatchedEnds(s, at, Bundle(b, place, true));
    SamePieces(t, u, at);
  }

  lemma SubSlice(s: seq<byte>, at: nat, a: nat, b: nat)
    requires at + 16 <= |s| && a <= b <= 16
    ensures s[at..at + 16][a..b] == s[at + a..at + b]
  {
    var x, y := s[at..at + 16][a..b], s[at + a..at + b];
    assert |x| == |y| && forall k :: 0 <= k < |x| ==> x[k] == y[k];
  }

  lemma EndParts(s: seq<byte>, at: nat)
    requires at + 16 <= |s|
    ensures s[..at + 2] == s[0..at] + s[at..at + 16][..2]
    ensures s[at + 15..] == s[at..at + 16][15..] + s[at + 16..]
  {}

  lemma PatchedEnds(s: seq<byte>, at: nat, r: seq<byte>)
    requires |r| == 16 && at + 16 <= |s| && r[..2] == s[at..at + 16][..2] && r[15..] == s[at..at + 16][15..]
    ensures Patched(s, at, r)[..at + 2] == s[..at + 2] && Patched(s, at, r)[at + 15..] == s[at + 15..]
  {
    hide Patched;
    var t := Patched(s, at, r);
    PatchedParts(s, at, r);
    PatchedHere(s, at, r);
    PatchedElsewhere(s, at, r, 0, at);
    EndParts(s, at);
    EndParts(t, at);
  }

  lemma SamePieces(t: seq<byte>, u: seq<byte>, at: nat)
    requires |t| == |u| && at + 16 <= |t| && t[..at + 2] == u[..at + 2] && t[at + 15..] == u[at + 15..]
    requires t[at + 2..at + 5] == u[at + 2..at + 5] && t[at + 5..at + 7] == u[at + 5..at + 7]
    requires t[at + 7..at + 10] == u[at + 7..at + 10] && t[at + 10..at + 12] == u[at + 10..at + 12]
    requires t[at + 12..at + 15] == u[at + 12..at + 15]
    ensures t == u
  {
    assert t
      == t[..at + 2] + t[at + 2..at + 5] + t[at + 5..at + 7] + t[at + 7..at + 10] + t[at + 10..at + 12]
        + t[at + 12..at + 15] + t[at + 15..];
    assert u
      == u[..at + 2] + u[at + 2..at + 5] + u[at + 5..at + 7] + u[at + 7..at + 10] + u[at + 10..at + 12]
        + u[at + 12..at + 15] + u[at + 15..];
  }

  lemma PartialSlots(s: seq<byte>, at: nat, place: int)
    requires at + 16 <= |s|
    ensures var t := Partial(s, at, 3, place);
      && t[at + 2..at + 5] == SlotAt(s, at, 0, place) && t[at + 7..at + 10] == SlotAt(s, at, 1, place)
      && t[at + 12..at + 15] == SlotAt(s, at, 2, place)
  {
    hide Patched;
    hide SlotAt;
    var s1, s2 := Partial(s, at, 1, place), Partial(s, at, 2, place);
    PartialSame(s, at, 0, place);
    PartialSame(s, at, 1, place);
    PartialSame(s, at, 2, place);
    PatchedHere(s, at + 2, SlotAt(s, at, 0, place));
    PatchedHere(s1, at + 7, SlotAt(s1, at, 1, place));
    PatchedHere(s2, at + 12, SlotAt(s2, at, 2, place));
    PatchedElsewhere(s1, at + 7, SlotAt(s1, at, 1, place), at + 2, at + 5);
    PatchedElsewhere(s2, at + 12, SlotAt(s2, at, 2, place), at + 2, at + 5);
    PatchedElsewhere(s2, at + 12, SlotAt(s2, at, 2, place), at + 7, at + 10);
  }

  /** A slot that the template does not select stays. */
  lemma SlotStays(s: seq<byte>, at: nat, i: nat, place: int)
    requires at + 16 <= |s| && i <= 2 && !Selected(s[at], i)
    ensures Patched(s, at + 5 * i + 2, SlotAt(s, at, i, place)) == s
  {}

  /** Decode the three slots of the bundle at a place. */
  method DecodeBundle(buf: array<byte>, at: nat, fileOffset: uint32)
    requires at + 22 <= buf.Length
    modifies buf
    ensures buf[..] == Patched(old(buf[..]), at, Bundle(old(buf[..])[at..at + 16], fileOffset, true))
  {
    hide Slot;
    hide SlotAt;
    hide Bundle;
    hide Patched;
    hide Pow2;
    ghost var s, t := buf[..], buf[..];
    BundleMade(s, at, fileOffset);
    var c := buf[at] as int % 32 - 16;
    var mask := if c >= 0 then BYTE_MASK[c] else 0;
    for i := 0 to 3
      invariant t == buf[..] == Partial(s, at, i, fileOffset)
    {
      PartialSame(s, at, i, fileOffset);
      if Bit(mask, i) == 0 {
        SlotStays(t, at, i, fileOffset);
        continue;
      }
      TurnSlot(buf, at, i, fileOffset);
      t := buf[..];
    }
  }

  method FilterItanium(buf: array<byte>, offset: int)
    modifies buf
    ensures buf[..] == Itanium(old(buf[..]), Wrap32(offset) / 16, true)
  {
    hide Bundle;
    hide Itanium;
    hide Patched;
    hide Wrap32;
    var fileOffset: uint32 := Wrap32(offset) / 16;
    var b := 0;
    ghost var all, s := Itanium(buf[..], fileOffset, true), buf[..];
    while buf.Length - b > 21
      invariant 0 <= b <= buf.Length && s == buf[..]
      invariant all == s[..b] + Itanium(s[b..], fileOffset, true)
    {
      ItaniumAt(s, b, fileOffset);
      DecodeBundle(buf, b, fileOffset);
      s := buf[..];
      fileOffset := Wrap32(fileOffset as int + 1);
      b := b + 16;
    }
    ItaniumShort(s[b..], fileOffset);
  }

  lemma ItaniumShort(s: seq<byte>, place: uint32)
    requires |s| <= 21
    ensures Itanium(s, place, true) == s
  {}

  lemma ItaniumAt(s: seq<byte>, b: nat, place: uint32)
    requires b + 21 < |s|
    ensures var t := Patched(s, b, Bundle(s[b..b + 16], place, true));
      s[..b] + Itanium(s[b..], place, true) == t[..b + 16] + Itanium(t[b + 16..], Wrap32(place as int + 1), true)
  {
    hide Bundle;
    hide Patched;
    SliceOn(s, b, 0, 16);
    SliceOn(s, b, 16, 0);
    PatchedParts(s, b, Bundle(s[b..b + 16], place, true));
  }
}

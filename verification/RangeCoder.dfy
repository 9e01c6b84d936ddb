/** The carryless range coder: decoding undoes the matching encoder. */
module RangeCoding {
  import opened Machine
  import opened Bits
  import opened ByteSources

  const BOTTOM := 0x8000
  const TOP := 0x100_0000

  /** A symbol's share of a scale: the counts from lowCount up to, but not including, highCount. */
  datatype Interval = Interval(lowCount: nat, highCount: nat, scale: nat)

  predicate Proper(s: Interval) {
    s.lowCount < s.highCount <= s.scale <= 0x8000
  }

  predicate AllProper(symbols: seq<Interval>) {
    forall i :: 0 <= i < |symbols| ==> Proper(symbols[i])
  }

  /** The interval [low, low + rnge) is not empty and lies within 32 bits; it reaches 2^32 only from high up. */
  predicate Sane(low: uint32, rnge: uint32) {
    1 <= rnge && low as int + rnge <= TWO_32 && (low as int + rnge == TWO_32 ==> low >= TOP)
  }

  predicate Ready(low: uint32, rnge: uint32) {
    Sane(low, rnge) && rnge >= BOTTOM
  }

  /** The two ends of the range, as 32-bit numbers, have different top bytes. */
  predicate TopsDiffer(low: uint32, rnge: uint32) {
    Xor(low, Wrap32(low as int + rnge)) >= TOP
  }

  predicate Done(low: uint32, rnge: uint32) {
    TopsDiffer(low, rnge) && rnge >= BOTTOM
  }

  /** The range that is kept when a byte is shifted out: all of it, or what is left up to a multiple of 2^15. */
  function Kept(low: uint32, rnge: uint32): nat {
    if TopsDiffer(low, rnge) then And(Wrap32(-(low as int)), BOTTOM - 1) else rnge
  }

  lemma TopsDifferMeans(low: uint32, rnge: uint32)
    requires Sane(low, rnge)
    ensures TopsDiffer(low, rnge) <==> low / TOP != (low as int + rnge) / TOP
  {
    hide Xor;
    hide Wrap32;
    var sum := low as int + rnge;
    XorTop(low, Wrap32(sum));
    if sum < TWO_32 {
      SmallStays(sum);
    } else {
      WholeTurns(0, 1);
      SmallStays(0);
      DivModUnique(sum, 256, TOP, 0);
    }
  }

  /** The range that was cut ends at the next multiple of 2^24. */
  lemma CutEnds(low: uint32, rnge: uint32)
    requires Sane(low, rnge) && TopsDiffer(low, rnge) && rnge < BOTTOM
    ensures Kept(low, rnge) == TOP - low % TOP && 1 <= Kept(low, rnge) <= rnge
  {
    TopsDifferMeans(low, rnge);
    MaskBottom(Wrap32(-(low as int)));
    CutValue(low, low / TOP, TOP - low % TOP);
  }

  lemma CutValue(low: uint32, q: int, d: int)
    requires low as int == (q + 1) * TOP - d && 1 <= d <= TOP && 0 <= q < 256
    ensures Wrap32(-(low as int)) == (255 - q) * TOP + d || (q == 255 && d == TOP) || low == 0
    ensures d < BOTTOM ==> Wrap32(-(low as int)) % BOTTOM == d
  {}

  /** Dropping the top byte of a 32-bit number while shifting it up. */
  lemma ShiftedLow(low: uint32)
    ensures Wrap32(low as int * 256) == low % TOP * 256
  {
    var q, l := low / TOP, low % TOP;
    assert low as int * 256 == q * TWO_32 + l * 256;
  }

  /** Shifting out a byte keeps the range sane and inside the old one. */
  lemma ShiftSane(low: uint32, rnge: uint32)
    requires Sane(low, rnge) && !Done(low, rnge)
    ensures var k := Kept(low, rnge);
      && 1 <= k <= rnge && low % TOP + k <= TOP && k * 256 < TWO_32
      && Wrap32(low as int * 256) == low % TOP * 256 && Sane(Wrap32(low as int * 256), k * 256)
      && Remaining(Wrap32(low as int * 256), k * 256) < Remaining(low, rnge)
  {
    ShiftedLow(low);
    TopsDifferMeans(low, rnge);
    if TopsDiffer(low, rnge) {
      CutEnds(low, rnge);
    }
  }

  /** What bounds the number of bytes shifted out, whatever the input holds. */
  function Remaining(low: uint32, rnge: uint32): nat {
    (if low as int + rnge == TWO_32 then 0 else TWO_32) + (TWO_32 - rnge)
  }

  function Byte3(low: uint32): byte { low / TOP }

  /** The bytes shifted out until the range is wide enough again, and the range then. */
  datatype Settled = Settled(bytes: seq<byte>, low: uint32, rnge: uint32)

  function Settle(low: uint32, rnge: uint32): (r: Settled)
    requires Sane(low, rnge)
    ensures Ready(r.low, r.rnge)
    decreases Remaining(low, rnge)
  {
    if Done(low, rnge) then Settled([], low, rnge)
    else
      ShiftSane(low, rnge);
      var rest := Settle(Wrap32(low as int * 256), Kept(low, rnge) * 256);
      rest.(bytes := [Byte3(low)] + rest.bytes)
  }

  /** The range is wide enough when it has 2^15 places and its ends differ in their top bytes. Otherwise the top byte of
      the low end is shifted out; if the ends differ in it, the range first ends where the top byte changes. */
  lemma SettleFirst(low: uint32, rnge: uint32)
    requires Sane(low, rnge)
    ensures var apart := low / 0x100_0000 != (low as int + rnge) / 0x100_0000;
      if apart && rnge >= 0x8000 then Settle(low, rnge) == Settled([], low, rnge)
      else
        var kept := if apart then 0x100_0000 - low % 0x100_0000 else rnge;
        && 0 <= kept * 256 < 0x1_0000_0000 && Sane(low % 0x100_0000 * 256, kept * 256)
        && var t := Settle(low % 0x100_0000 * 256, kept * 256);
        Settle(low, rnge) == Settled([low / 0x100_0000] + t.bytes, t.low, t.rnge)
  {
    hide Xor;
    hide Wrap32;
    hide Sane;
    TopsDifferMeans(low, rnge);
    if !Done(low, rnge) {
      ShiftSane(low, rnge);
      if TopsDiffer(low, rnge) {
        CutEnds(low, rnge);
      }
    }
  }

  /** The part of the range that a symbol gets. */
  function NarrowLow(low: uint32, rnge: uint32, s: Interval): uint32
    requires Proper(s)
  {
    Wrap32(low + rnge / s.scale * s.lowCount)
  }

  function NarrowRange(rnge: uint32, s: Interval): uint32
    requires Proper(s)
  {
    Wrap32(rnge / s.scale * (s.highCount - s.lowCount))
  }

  lemma Times(a: nat, b: nat, c: nat)
    requires b <= c
    ensures a * b <= a * c && a * (c - b) == a * c - a * b
  {}

  lemma UnitPositive(rnge: nat, scale: nat)
    requires 1 <= scale <= rnge
    ensures 1 <= rnge / scale && rnge / scale * scale <= rnge
  {
    assert rnge == scale * (rnge / scale) + rnge % scale;
  }

  /** Nothing wraps when a ready range is narrowed, and the result is sane. */
  lemma NarrowSane(low: uint32, rnge: uint32, s: Interval)
    requires Ready(low, rnge) && Proper(s)
    ensures var unit := rnge / s.scale;
      && 1 <= unit && unit * s.scale <= rnge && unit * s.highCount <= rnge
      && NarrowLow(low, rnge, s) == low + unit * s.lowCount
      && NarrowRange(rnge, s) == unit * s.highCount - unit * s.lowCount
      && Sane(NarrowLow(low, rnge, s), NarrowRange(rnge, s))
  {
    var unit := rnge / s.scale;
    UnitPositive(rnge, s.scale);
    NarrowUnit(unit, s);
    Times(unit, s.lowCount, s.highCount);
  }

  lemma NarrowUnit(unit: nat, s: Interval)
    requires 1 <= unit && Proper(s)
    ensures 0 <= unit * s.lowCount < unit * s.highCount <= unit * s.scale
  {
    Times(unit, s.highCount, s.scale);
    Times(unit, s.lowCount, s.highCount);
    Times(unit, 1, s.highCount - s.lowCount);
  }

  /** The first four bytes of a sequence as a number, the first one highest. */
  function Big32(b: seq<byte>): uint32
    requires |b| >= 4
  {
    b[0] as int * TOP + b[1] as int * 0x1_0000 + b[2] as int * 0x100 + b[3]
  }

  function LowBytes(low: uint32): seq<byte> {
    [Byte3(low), (low as int) / 0x1_0000 % 0x100, (low as int) / 0x100 % 0x100, low as int % 0x100]
  }

  /** The encoder that matches the decoder: it narrows the same way, emits what the decoder shifts in, and ends with its
      low end. */
  function Encode(low: uint32, rnge: uint32, symbols: seq<Interval>): (r: seq<byte>)
    requires Ready(low, rnge) && AllProper(symbols)
    ensures |r| >= 4
    decreases |symbols|
  {
    if symbols == [] then LowBytes(low)
    else
      NarrowSane(low, rnge, symbols[0]);
      var t := Settle(NarrowLow(low, rnge, symbols[0]), NarrowRange(rnge, symbols[0]));
      t.bytes + Encode(t.low, t.rnge, symbols[1..])
  }

  ghost predicate Inside(code: uint32, low: uint32, rnge: uint32) {
    low <= code < low as int + rnge
  }

  lemma NarrowInside(code: uint32, low: uint32, rnge: uint32, s: Interval)
    requires Ready(low, rnge) && Proper(s) && Inside(code, NarrowLow(low, rnge, s), NarrowRange(rnge, s))
    ensures Inside(code, low, rnge)
  {
    NarrowSane(low, rnge, s);
  }

  lemma LowInside(low: uint32, rnge: uint32)
    requires Sane(low, rnge)
    ensures Inside(low, low, rnge)
  {}

  lemma LowBytesValue(low: uint32)
    ensures Big32(LowBytes(low)) == low
  {
    var q := low / 0x100;
    assert low / 0x1_0000 == q / 0x100 && low / TOP == q / 0x100 / 0x100;
  }

  /** If what follows lies in the shifted range, the byte before it puts the whole in the range itself. */
  lemma ShiftInside(low: uint32, rnge: uint32, rest: seq<byte>)
    requires Sane(low, rnge) && !Done(low, rnge) && |rest| >= 4
    requires Inside(Big32(rest), Wrap32(low as int * 256), Wrap32(Kept(low, rnge) * 256))
    ensures Inside(Big32([Byte3(low)] + rest), low, rnge)
  {
    ShiftSane(low, rnge);
    var v := rest[0] as int * 0x1_0000 + rest[1] as int * 0x100 + rest[2];
    assert Big32(rest) == v * 0x100 + rest[3];
    assert low % TOP <= v < low % TOP + Kept(low, rnge);
    assert Big32([Byte3(low)] + rest) == low / TOP * TOP + v;
  }

  lemma {:induction false} SettleInside(low: uint32, rnge: uint32, rest: seq<byte>)
    requires Sane(low, rnge) && |rest| >= 4
    requires var t := Settle(low, rnge); Inside(Big32(rest), t.low, t.rnge)
    ensures Inside(Big32(Settle(low, rnge).bytes + rest), low, rnge)
    decreases Remaining(low, rnge)
  {
    hide Inside;
    hide Done;
    hide Kept;
    hide Big32;
    var t := Settle(low, rnge);
    if Done(low, rnge) {
      assert t.bytes + rest == rest;
    } else {
      ShiftSane(low, rnge);
      var low', rnge' := Wrap32(low as int * 256), Kept(low, rnge) * 256;
      var t' := Settle(low', rnge');
      SettleInside(low', rnge', rest);
      ShiftInside(low, rnge, t'.bytes + rest);
      assert t.bytes + rest == [Byte3(low)] + (t'.bytes + rest);
    }
  }

  /** Everything the encoder writes, read as a number, lies in the range it started from. */
  lemma {:induction false} EncodeInside(low: uint32, rnge: uint32, symbols: seq<Interval>)
    requires Ready(low, rnge) && AllProper(symbols)
    ensures Inside(Big32(Encode(low, rnge, symbols)), low, rnge)
    decreases |symbols|
  {
    hide Big32;
    hide Inside;
    hide LowBytes;
    hide Settle;
    hide NarrowLow;
    hide NarrowRange;
    if symbols == [] {
      LowBytesValue(low);
      LowInside(low, rnge);
    } else {
      var s := symbols[0];
      NarrowSane(low, rnge, s);
      var t := Settle(NarrowLow(low, rnge, s), NarrowRange(rnge, s));
      EncodeInside(t.low, t.rnge, symbols[1..]);
      SettleInside(NarrowLow(low, rnge, s), NarrowRange(rnge, s), Encode(t.low, t.rnge, symbols[1..]));
      NarrowInside(Big32(Encode(low, rnge, symbols)), low, rnge, s);
    }
  }

  /** The decoder's registers, and the bytes it has still to read. */
  datatype Decoder = Decoder(code: uint32, low: uint32, rnge: uint32, input: seq<byte>)

  /** Read bytes until the range is wide enough; None when they run out. */
  function DecodeSettle(d: Decoder): (r: Option<Decoder>)
    requires Sane(d.low, d.rnge)
    ensures r.Some? ==> Ready(r.value.low, r.value.rnge)
    decreases Remaining(d.low, d.rnge)
  {
    if Done(d.low, d.rnge) then Some(d)
    else if d.input == [] then None
    else
      ShiftSane(d.low, d.rnge);
      DecodeSettle(Decoder(Wrap32(d.code as int * 256 + d.input[0]), Wrap32(d.low as int * 256),
                           Kept(d.low, d.rnge) * 256, d.input[1..]))
  }

  /** The count that the code stands for on a scale. */
  function Count(d: Decoder, scale: nat): nat
    requires 1 <= scale <= d.rnge
  {
    UnitPositive(d.rnge, scale);
    Wrap32(d.code as int - d.low) / (d.rnge / scale)
  }

  /** Take the symbol with this interval. */
  function DecodeStep(d: Decoder, s: Interval): (r: Option<Decoder>)
    requires Ready(d.low, d.rnge) && Proper(s)
    ensures r.Some? ==> Ready(r.value.low, r.value.rnge)
  {
    NarrowSane(d.low, d.rnge, s);
    DecodeSettle(Decoder(d.code, NarrowLow(d.low, d.rnge, s), NarrowRange(d.rnge, s), d.input))
  }

  /** Every count falls into its symbol's interval, and the input never runs out. */
  ghost predicate DecodesAs(d: Decoder, symbols: seq<Interval>)
    requires Ready(d.low, d.rnge) && AllProper(symbols)
    decreases |symbols|
  {
    symbols == [] ||
    (var s := symbols[0];
     && s.lowCount <= Count(d, s.scale) < s.highCount
     && DecodeStep(d, s).Some? && DecodesAs(DecodeStep(d, s).value, symbols[1..]))
  }

  lemma ShiftCode(x: seq<byte>)
    requires |x| >= 5
    ensures Wrap32(Big32(x) as int * 256 + x[4]) == Big32(x[1..])
  {
    assert Big32(x) as int * 256 + x[4] == x[0] as int * TWO_32 + Big32(x[1..]);
  }

  /** The decoder shifts in exactly what the encoder shifted out. */
  lemma {:induction false} SettleTogether(low: uint32, rnge: uint32, rest: seq<byte>, extra: seq<byte>)
    requires Sane(low, rnge) && |rest| >= 4
    ensures var t := Settle(low, rnge); var all := t.bytes + rest;
      DecodeSettle(Decoder(Big32(all), low, rnge, all[4..] + extra))
        == Some(Decoder(Big32(rest), t.low, t.rnge, rest[4..] + extra))
    decreases Remaining(low, rnge)
  {
    hide Big32;
    hide Done;
    hide Kept;
    var t := Settle(low, rnge);
    var all := t.bytes + rest;
    if Done(low, rnge) {
      assert all == rest;
    } else {
      ShiftSane(low, rnge);
      var low', rnge' := Wrap32(low as int * 256), Kept(low, rnge) * 256;
      SettleTogether(low', rnge', rest, extra);
      var all' := Settle(low', rnge').bytes + rest;
      assert all == [Byte3(low)] + all' && all[1..] == all';
      ShiftCode(all);
      assert (all[4..] + extra)[0] == all[4] && (all[4..] + extra)[1..] == all'[4..] + extra;
    }
  }

  lemma CountOf(d: Decoder, scale: nat)
    requires 1 <= scale <= d.rnge && d.low <= d.code
    ensures 1 <= d.rnge / scale && Count(d, scale) == (d.code - d.low) / (d.rnge / scale)
  {
    UnitPositive(d.rnge, scale);
  }

  lemma InsideMeans(code: uint32, low: uint32, rnge: uint32)
    requires Inside(code, low, rnge)
    ensures low <= code < low as int + rnge
  {}

  lemma CodeShare(d: Decoder, s: Interval)
    requires Ready(d.low, d.rnge) && Proper(s)
    requires Inside(d.code, NarrowLow(d.low, d.rnge, s), NarrowRange(d.rnge, s))
    ensures 1 <= s.scale <= d.rnge && d.low <= d.code
    ensures var unit := d.rnge / s.scale; 1 <= unit && unit * s.lowCount <= d.code - d.low < unit * s.highCount
  {
    hide Sane;
    hide Inside;
    hide NarrowLow;
    hide NarrowRange;
    NarrowSane(d.low, d.rnge, s);
    InsideMeans(d.code, NarrowLow(d.low, d.rnge, s), NarrowRange(d.rnge, s));
    assert 0 <= d.rnge / s.scale * s.lowCount;
  }

  lemma CountInInterval(d: Decoder, s: Interval)
    requires Ready(d.low, d.rnge) && Proper(s)
    requires Inside(d.code, NarrowLow(d.low, d.rnge, s), NarrowRange(d.rnge, s))
    ensures s.lowCount <= Count(d, s.scale) < s.highCount
  {
    hide *;
    CodeShare(d, s);
    CountOf(d, s.scale);
    DivBetween(d.code - d.low, d.rnge / s.scale, s.lowCount, s.highCount);
  }

  lemma DivBetween(x: nat, unit: nat, lo: nat, hi: nat)
    requires 1 <= unit && unit * lo <= x < unit * hi
    ensures lo <= x / unit < hi
  {
    var q := x / unit;
    assert x == unit * q + x % unit;
    if q < lo { Times(unit, q + 1, lo); assert false; }
    if hi <= q { Times(unit, hi, q); assert false; }
  }

  /** Decoding from where the encoder started finds every symbol, whatever follows its output. */
  lemma {:induction false} DecodesEncoded(low: uint32, rnge: uint32, symbols: seq<Interval>, extra: seq<byte>)
    requires Ready(low, rnge) && AllProper(symbols)
    ensures var out := Encode(low, rnge, symbols);
      DecodesAs(Decoder(Big32(out), low, rnge, out[4..] + extra), symbols)
    decreases |symbols|
  {
    hide Big32;
    hide Inside;
    hide Settle;
    hide DecodeSettle;
    hide NarrowLow;
    hide NarrowRange;
    if symbols != [] {
      var s := symbols[0];
      NarrowSane(low, rnge, s);
      var low', rnge' := NarrowLow(low, rnge, s), NarrowRange(rnge, s);
      var t := Settle(low', rnge');
      var rest := Encode(t.low, t.rnge, symbols[1..]);
      DecodesEncoded(t.low, t.rnge, symbols[1..], extra);
      EncodeInside(t.low, t.rnge, symbols[1..]);
      SettleInside(low', rnge', rest);
      SettleTogether(low', rnge', rest, extra);
      CountInInterval(Decoder(Big32(t.bytes + rest), low, rnge, (t.bytes + rest)[4..] + extra), s);
    }
  }

  const FULL: uint32 := 0xFFFF_FFFF

  /** A coder that starts afresh decodes whatever the matching encoder wrote. */
  lemma RoundTrip(symbols: seq<Interval>, extra: seq<byte>)
    requires AllProper(symbols)
    ensures var out := Encode(0, FULL, symbols);
      DecodesAs(Decoder(Big32(out), 0, FULL, out[4..] + extra), symbols)
  {
    DecodesEncoded(0, FULL, symbols, extra);
  }

  class RangeCoder {
    const br: ByteSource
    var code: uint32
    var low: uint32
    var rnge: uint32

    ghost function State(): Decoder
      reads this, br
    {
      Decoder(code, low, rnge, br.data)
    }

    constructor (br: ByteSource)
      ensures this.br == br
    {
      this.br := br;
      code, low, rnge := 0, 0, 0;
    }

    /** Start on the first four bytes, whatever the registers held. */
    method Init() returns (ok: bool)
      modifies this, br
      ensures ok <==> |old(br.data)| >= 4
      ensures ok ==> State() == Decoder(Big32(old(br.data)), 0, FULL, old(br.data)[4..])
    {
      low := 0;
      rnge := FULL;
      ghost var data := br.data;
      ghost var code0 := code;
      for i := 0 to 4
        invariant |data| >= i && br.data == data[i..] && low == 0 && rnge == FULL
        invariant code == Wrap32(FirstBytes(data, i) + code0 as int * [1, 0x100, 0x1_0000, TOP, TWO_32][i])
      {
        var c := br.ReadByte();
        if c == None {
          return false;
        }
        ShiftIn(FirstBytes(data, i) + code0 as int * [1, 0x100, 0x1_0000, TOP, TWO_32][i], c.value);
        code := Wrap32(code as int * 0x100 + c.value);
      }
      AllShiftedOut(data, code0);
      return true;
    }

    method CurrentCount(scale: uint32) returns (count: uint32)
      requires 1 <= scale <= rnge
      modifies `rnge
      ensures rnge == old(rnge) / scale && count == Count(old(State()), scale)
    {
      UnitPositive(rnge, scale);
      ghost var d := State();
      rnge := rnge / scale;
      DivWithin(Wrap32(code as int - low), rnge);
      count := Wrap32(code as int - low) / rnge;
    }

    /** Read bytes until the range is wide enough. */
    method Normalize() returns (ok: bool)
      requires Sane(low, rnge)
      modifies this, br
      ensures DecodeSettle(old(State())) == if ok then Some(State()) else None
      ensures ok ==> Ready(low, rnge)
    {
      hide Xor;
      hide And;
      hide Sane;
      hide Remaining;
      hide Wrap32;
      while true
        invariant Sane(low, rnge) && DecodeSettle(State()) == DecodeSettle(old(State()))
        decreases Remaining(low, rnge)
      {
        ghost var d := State();
        if Xor(low, Wrap32(low as int + rnge)) >= TOP {
          if rnge >= BOTTOM {
            return true;
          }
          ShiftSane(low, rnge);
          rnge := And(Wrap32(-(low as int)), BOTTOM - 1);
        }
        ShiftSane(d.low, d.rnge);
        assert !Done(d.low, d.rnge) && rnge == Kept(d.low, d.rnge);
        var c := br.ReadByte();
        if c == None {
          return false;
        }
        code := Wrap32(code as int * 0x100 + c.value);
        SmallStays(rnge as int * 0x100);
        rnge := Wrap32(rnge as int * 0x100);
        low := Wrap32(low as int * 0x100);
      }
    }

    /** Take the symbol with counts from lowCount to highCount, after CurrentCount has divided the range. */
    method Decode(lowCount: uint32, highCount: uint32, ghost before: Decoder, ghost scale: nat) returns (ok: bool)
      requires Proper(Interval(lowCount, highCount, scale)) && Ready(before.low, before.rnge)
      requires State() == before.(rnge := before.rnge / scale)
      modifies this, br
      ensures DecodeStep(before, Interval(lowCount, highCount, scale)) == if ok then Some(State()) else None
    {
      NarrowSane(before.low, before.rnge, Interval(lowCount, highCount, scale));
      low := Wrap32(low as int + rnge * lowCount);
      rnge := Wrap32(rnge * (highCount - lowCount));
      ok := Normalize();
    }
  }

  function FirstBytes(data: seq<byte>, i: nat): nat
    requires i <= 4 && i <= |data|
  {
    if i == 0 then 0 else FirstBytes(data, i - 1) * 0x100 + data[i - 1]
  }

  lemma ShiftIn(x: int, c: byte)
    ensures Wrap32(Wrap32(x) as int * 0x100 + c) == Wrap32(x * 0x100 + c)
  {
    var k := x / TWO_32;
    assert x == k * TWO_32 + Wrap32(x);
    WholeTurns(Wrap32(x) as int * 0x100 + c, k * 0x100);
  }

  lemma WholeTurns(x: int, k: int)
    ensures Wrap32(x + k * TWO_32) == Wrap32(x)
  {}

  lemma AllShiftedOut(data: seq<byte>, code0: uint32)
    requires |data| >= 4
    ensures Wrap32(FirstBytes(data, 4) + code0 as int * TWO_32) == Big32(data)
  {
    assert FirstBytes(data, 1) == data[0];
    assert FirstBytes(data, 2) == FirstBytes(data, 1) * 0x100 + data[1];
    assert FirstBytes(data, 3) == FirstBytes(data, 2) * 0x100 + data[2];
    WholeTurns(FirstBytes(data, 4), code0);
  }

  lemma SmallStays(x: nat)
    requires x < TWO_32
    ensures Wrap32(x) == x
  {}

  lemma DivWithin(x: uint32, m: nat)
    requires m >= 1
    ensures 0 <= x / m < TWO_32
  {
    assert x == m * (x / m) + x % m;
  }
}

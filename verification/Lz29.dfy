/** The tokens of a RAR 3.0 block: what their bits mean, and how they are written. */
module Lz29 {
  import opened Machine
  import opened Bits
  import opened BitStrings
  import opened Canonical
  import opened DecodeReaders
  import opened Decodings
  import opened LzRuns
  import opened LzTables

  const MAIN_SIZE := 299
  const OFFSET_SIZE := 60
  const LOW_SIZE := 17
  const LENGTH_SIZE := 28

  ghost predicate Sized(c: Codes) {
    |c.main| == MAIN_SIZE && |c.offset| == OFFSET_SIZE && |c.low| == LOW_SIZE && |c.length| == LENGTH_SIZE
  }

  /** The latest offsets and the last length; the last lowest four bits of an offset, and how often they are still to be
      repeated. */
  datatype Past = Past(offset: Offsets, length: nat, low: nat, repeats: nat)

  /** Why the reading of a block stops short of a full window. */
  datatype End = BlockEnd | BlockAndFileEnd | FileEnd | FilterAsked(data: seq<byte>) | NoData | BadCode

  /** The lowest four bits of an offset: those of the last one again, or a symbol. */
  function ReadLow(c: Codes, past: Past, ahead: seq<Bit>): (p: Part<(nat, nat, nat)>)
    ensures p.Part? ==> |p.rest| <= |ahead|
  {
    if past.repeats > 0 then Part((past.low, past.low, past.repeats - 1), ahead)
    else
      match ReadSymbol(c.low, ahead)
      case Part(n, rest) => Part(if n == 16 then (past.low, past.low, 15) else (n, n, 0), rest)
      case Ends => Ends
      case Misses => Misses
  }

  /** The extra bits of an offset; the lowest four are apart when there are that many. */
  function ReadOffsetExtra(c: Codes, past: Past, k: nat, ahead: seq<Bit>): (p: Part<(nat, nat, nat)>)
    ensures p.Part? ==> |p.rest| <= |ahead|
  {
    match ReadExtra(ahead, if k >= 4 then k - 4 else k)
    case Part(n, rest) =>
      if k < 4 then Part((n, past.low, past.repeats), rest)
      else
        (match ReadLow(c, past, rest)
         case Part(l, rest') => Part((16 * n + l.0, l.1, l.2), rest')
         case Ends => Ends
         case Misses => Misses)
    case _ => Ends
  }

  /** An offset, and what is remembered of its lowest bits. */
  function ReadOffset(c: Codes, past: Past, ahead: seq<Bit>): (p: Part<(nat, nat, nat)>)
    requires |c.offset| == OFFSET_SIZE
    ensures p.Part? ==> |p.rest| <= |ahead|
  {
    match ReadSymbol(c.offset, ahead)
    case Part(slot, rest) =>
      (match ReadOffsetExtra(c, past, OFFSET_BITS[slot], rest)
       case Part(e, rest') => Part((OFFSET_BASE[slot] + 1 + e.0, e.1, e.2), rest')
       case Ends => Ends
       case Misses => Misses)
    case Ends => Ends
    case Misses => Misses
  }

  /** A match at a new offset, its length in slot i: what is remembered after it. */
  function ReadNew(c: Codes, past: Past, i: nat, ahead: seq<Bit>): (p: Part<Past>)
    requires |c.offset| == OFFSET_SIZE && i < LENGTH_SIZE
    ensures p.Part? ==> |p.rest| <= |ahead|
  {
    match ReadSlot(LENGTH_BASE, LENGTH_BITS, i, ahead)
    case Part(length, rest) =>
      (match ReadOffset(c, past, rest)
       case Part(o, rest') => Part(Past(Pushed(past.offset, o.0), length + 3 + Bonus(o.0), o.1, o.2), rest')
       case Ends => Ends
       case Misses => Misses)
    case Ends => Ends
    case Misses => Misses
  }

  /** A match at an offset used before. */
  function ReadRecent(c: Codes, past: Past, i: nat, ahead: seq<Bit>): (p: Part<Past>)
    requires |c.length| == LENGTH_SIZE && i < 4
    ensures p.Part? ==> |p.rest| <= |ahead|
  {
    match ReadSymbol(c.length, ahead)
    case Part(slot, rest) =>
      (match ReadSlot(LENGTH_BASE, LENGTH_BITS, slot, rest)
       case Part(length, rest') => Part(past.(offset := Fronted(past.offset, i), length := length + 2), rest')
       case Ends => Ends
       case Misses => Misses)
    case Ends => Ends
    case Misses => Misses
  }

  /** A match of two bytes nearby. */
  function ReadShort(past: Past, i: nat, ahead: seq<Bit>): (p: Part<Past>)
    requires i < 8
    ensures p.Part? ==> |p.rest| <= |ahead|
  {
    match ReadSlot(SHORT_BASE, SHORT_BITS, i, ahead)
    case Part(n, rest) => Part(past.(offset := Pushed(past.offset, n + 1), length := 2), rest)
    case Ends => Ends
    case Misses => Misses
  }

  /** What ends with the block. */
  function ReadMark(ahead: seq<Bit>): Part<End> {
    if |ahead| == 0 then Ends
    else if ahead[0] == 1 then Part(BlockEnd, ahead[1..])
    else if |ahead| == 1 then Ends
    else Part(if ahead[1] == 1 then BlockAndFileEnd else FileEnd, ahead[2..])
  }

  /** Bytes before what was read. */
  function WithBytes(b: seq<byte>, p: Part<seq<byte>>): Part<seq<byte>> {
    match p
    case Part(data, rest) => Part(b + data, rest)
    case Ends => Ends
    case Misses => Misses
  }

  lemma WithBytesTwice(a: seq<byte>, b: seq<byte>, p: Part<seq<byte>>)
    ensures WithBytes(a, WithBytes(b, p)) == WithBytes(a + b, p)
  {
    if p.Part? {
      assert a + (b + p.value) == a + b + p.value;
    }
  }

  lemma WithNone(p: Part<seq<byte>>)
    ensures WithBytes([], p) == p
  {
    if p.Part? {
      assert [] + p.value == p.value;
    }
  }

  /** Whole bytes. */
  function ReadBytes(ahead: seq<Bit>, n: nat): (p: Part<seq<byte>>)
    ensures p.Part? ==> |p.value| == n && ahead == DataBits(p.value) + p.rest
  {
    if n == 0 then Part([], ahead)
    else if |ahead| < 8 then Ends
    else
      ByteAhead(ahead);
      var others := ReadBytes(ahead[8..], n - 1);
      ByteBefore(Num(ahead[..8]), others, ahead, ahead[8..]);
      WithBytes([Num(ahead[..8])], others)
  }

  lemma ByteBefore(b: byte, p: Part<seq<byte>>, ahead: seq<Bit>, rest: seq<Bit>)
    requires ahead == ToBits(b, 8) + rest && (p.Part? ==> rest == DataBits(p.value) + p.rest)
    ensures var r := WithBytes([b], p);
      r.Part? ==> p.Part? && |r.value| == 1 + |p.value| && ahead == DataBits(r.value) + r.rest
  {
    hide ToBits;
    if p.Part? {
      assert ([b] + p.value)[1..] == p.value;
      assert ToBits(b, 8) + (DataBits(p.value) + p.rest) == ToBits(b, 8) + DataBits(p.value) + p.rest;
    }
  }

  lemma ByteAhead(ahead: seq<Bit>)
    requires |ahead| >= 8
    ensures Num(ahead[..8]) < 0x100 && ahead == ToBits(Num(ahead[..8]), 8) + ahead[8..]
  {
    hide Num;
    Pow2Values();
    assert Num(ahead[..8]) < Pow2(|ahead[..8]|);
    ToBitsNum(ahead[..8]);
  }

  /** The number of bytes of a filter's description after the first. */
  function ReadDataSize(flags: nat, ahead: seq<Bit>): Part<nat> {
    if flags % 8 == 6 then
      match ReadExtra(ahead, 8)
      case Part(n, rest) => Part(n + 7, rest)
      case Ends => Ends
      case Misses => Misses
    else if flags % 8 == 7 then ReadExtra(ahead, 16)
    else Part(flags % 8 + 1, ahead)
  }

  /** A filter's description: flags, and as many bytes as they or the number after them say. */
  function ReadFilterData(ahead: seq<Bit>): Part<seq<byte>> {
    match ReadBytes(ahead, 1)
    case Part(flags, rest) =>
      (match ReadDataSize(flags[0], rest)
       case Part(n, rest') =>
         (match ReadBytes(rest', n)
          case Part(data, rest'') => Part(flags + data, rest'')
          case Ends => Ends
          case Misses => Misses)
       case Ends => Ends
       case Misses => Misses)
    case Ends => Ends
    case Misses => Misses
  }

  /** A match, or nothing that can be read. */
  function MatchOf(m: Part<Past>, past: Past, ahead: seq<Bit>): Outcome<Past, End> {
    match m
    case Part(past', rest) => Act(Match(past'.length, past'.offset[0]), past', rest)
    case Ends => Halt(NoData, past, ahead)
    case Misses => Halt(BadCode, past, ahead)
  }

  /** What the next bits of a block say. */
  function Step(c: Codes, past: Past, ahead: seq<Bit>): Outcome<Past, End>
    requires Sized(c)
  {
    match ReadSymbol(c.main, ahead)
    case Ends => Halt(NoData, past, ahead)
    case Misses => Halt(BadCode, past, ahead)
    case Part(sym, rest) =>
      if sym < 256 then Act(Literally(sym), past, rest)
      else if sym == 256 then
        (match ReadMark(rest)
         case Part(end, rest') => Halt(end, past, rest')
         case _ => Halt(NoData, past, ahead))
      else if sym == 257 then
        (match ReadFilterData(rest)
         case Part(data, rest') => Halt(FilterAsked(data), past, rest')
         case _ => Halt(NoData, past, ahead))
      else if sym == 258 then Act(Match(past.length, past.offset[0]), past, rest)
      else if sym < 263 then MatchOf(ReadRecent(c, past, sym - 259, rest), past, ahead)
      else if sym < 271 then MatchOf(ReadShort(past, sym - 263, rest), past, ahead)
      else MatchOf(ReadNew(c, past, sym - 271, rest), past, ahead)
  }

  lemma StepShrinks(c: Codes, past: Past, ahead: seq<Bit>)
    requires Sized(c)
    ensures Step(c, past, ahead).Act? ==> |Step(c, past, ahead).rest| < |ahead|
  {
    hide ReadSymbol;
    hide ReadRecent;
    hide ReadShort;
    hide ReadNew;
  }

  /** The steps of a block. */
  ghost function Steps(c: Codes): (step: (Past, seq<Bit>) -> Outcome<Past, End>)
    requires Sized(c)
    ensures Shrinks(step)
  {
    forall past: Past, ahead: seq<Bit> ensures Step(c, past, ahead).Act? ==> |Step(c, past, ahead).rest| < |ahead| {
      StepShrinks(c, past, ahead);
    }
    (past: Past, ahead: seq<Bit>) => Step(c, past, ahead)
  }

  /** How much longer a match at a new offset is than its slot says: 3, one more from offset 0x2000 on, and another from
      0x40000 on. */
  ghost predicate FarLaw(offset: nat, extra: int) {
    if offset < 0x2000 then extra == 3 else if offset < 0x4_0000 then extra == 4 else extra == 5
  }

  /** The number in slot i, as the 28 slots for lengths give it. */
  function SlotLength(i: nat, ahead: seq<Bit>): Part<nat>
    requires i < 28
  {
    ReadSlot(LENGTH_BASE, LENGTH_BITS, i, ahead)
  }

  /** What the symbols of matches mean: 259 to 262 take an offset used before and a length counted from 2, 263 to 270
      are two bytes nearby, and the others are at new offsets. */
  lemma MatchLengths(c: Codes, past: Past, ahead: seq<Bit>)
    requires Sized(c)
    ensures var sym, o := ReadSymbol(c.main, ahead), Step(c, past, ahead);
      o.Act? && sym.value >= 259 ==>
        && o.action.Match? && o.action == Match(o.past.length, o.past.offset[0])
        && if sym.value >= 271 then
             && SlotLength(sym.value - 271, sym.rest).Part?
             && FarLaw(o.action.offset, o.action.length - SlotLength(sym.value - 271, sym.rest).value)
           else if sym.value >= 263 then o.action.length == 2 && o.past.offset[1] == past.offset[0]
           else
             var slot := ReadSymbol(c.length, sym.rest);
             && slot.Part? && SlotLength(slot.value, slot.rest).Part?
             && o.action == Match(SlotLength(slot.value, slot.rest).value + 2, past.offset[sym.value - 259])
  {
    hide ReadSymbol;
    hide ReadOffset;
    hide ReadSlot;
  }

  // What every run keeps.

  const MAX_MATCH := 260
  const MAX_OFFSET := 0x40_0000

  ghost predicate Settled(past: Past) {
    && past.low < 16 && past.repeats <= 15 && past.length <= MAX_MATCH
    && forall i :: 0 <= i < 4 ==> past.offset[i] <= MAX_OFFSET
  }

  ghost predicate Bounded(e: Event) {
    e.Literal? || (e.Copy? && 0 <= e.length <= MAX_MATCH && 0 <= e.offset <= MAX_OFFSET)
  }

  lemma ExtraBounds(c: Codes, past: Past, k: nat, ahead: seq<Bit>)
    requires Sized(c) && past.low < 16 && past.repeats <= 15
    ensures var p := ReadOffsetExtra(c, past, k, ahead);
      p.Part? ==> p.value.0 < Pow2(k) && p.value.1 < 16 && p.value.2 <= 15
  {
    hide ReadSymbol;
    hide Num;
    if k >= 4 {
      assert Pow2(k) == 4 * Pow2(k - 2) && Pow2(k - 2) == 4 * Pow2(k - 4);
      var high := ReadExtra(ahead, k - 4);
      if high.Part? { assert high.value < Pow2(|ahead[..k - 4]|); }
    } else {
      var all := ReadExtra(ahead, k);
      if all.Part? { assert all.value < Pow2(|ahead[..k]|); }
    }
  }

  /** An offset that can be read is one from its slot. */
  lemma OffsetParts(c: Codes, past: Past, ahead: seq<Bit>)
    requires |c.offset| == OFFSET_SIZE
    ensures ReadOffset(c, past, ahead).Part? ==>
      var s := ReadSymbol(c.offset, ahead);
      && s.Part? && s.value < OFFSET_SIZE && ReadOffsetExtra(c, past, OFFSET_BITS[s.value], s.rest).Part?
      && var e := ReadOffsetExtra(c, past, OFFSET_BITS[s.value], s.rest);
      ReadOffset(c, past, ahead) == Part((OFFSET_BASE[s.value] + 1 + e.value.0, e.value.1, e.value.2), e.rest)
  {
    hide ReadSymbol;
    hide ReadOffsetExtra;
    hide OFFSET_BASE;
    hide OFFSET_BITS;
  }

  /** An offset read lies in the range of its slot. */
  lemma OffsetInSlot(c: Codes, past: Past, ahead: seq<Bit>)
    requires Sized(c) && past.low < 16 && past.repeats <= 15
    ensures var p := ReadOffset(c, past, ahead);
      p.Part? ==>
        && p.value.1 < 16 && p.value.2 <= 15 && 1 <= p.value.0 <= MAX_OFFSET
        && Covers(OFFSET_BASE, OFFSET_BITS, OFFSETS_END)
        && SlotIn(OFFSET_BASE, OFFSET_BITS, OFFSETS_END, p.value.0 - 1) == ReadSymbol(c.offset, ahead).value
  {
    hide ReadSymbol;
    hide ReadOffset;
    hide ReadOffsetExtra;
    hide Pow2;
    hide Covers;
    hide SlotIn;
    hide OFFSET_BASE;
    hide OFFSET_BITS;
    FewBits();
    OffsetsCovered();
    OffsetParts(c, past, ahead);
    if ReadOffset(c, past, ahead).Part? {
      var s := ReadSymbol(c.offset, ahead);
      var e := ReadOffsetExtra(c, past, OFFSET_BITS[s.value], s.rest);
      ExtraBounds(c, past, OFFSET_BITS[s.value], s.rest);
      SlotCoding(OFFSET_BASE, OFFSET_BITS, OFFSETS_END, s.value, e.value.0);
    }
  }

  lemma MatchKeeps(c: Codes, past: Past, ahead: seq<Bit>)
    requires Sized(c) && Settled(past)
    ensures forall i :: 0 <= i < LENGTH_SIZE ==> ReadNew(c, past, i, ahead).Part? ==>
      Settled(ReadNew(c, past, i, ahead).value)
    ensures forall i :: 0 <= i < 4 ==> ReadRecent(c, past, i, ahead).Part? ==>
      Settled(ReadRecent(c, past, i, ahead).value)
    ensures forall i :: 0 <= i < 8 ==> ReadShort(past, i, ahead).Part? ==> Settled(ReadShort(past, i, ahead).value)
  {
    hide ReadSymbol;
    hide ReadSlot;
    hide ReadOffset;
    hide Covers;
    LengthsCovered();
    ShortsCovered();
    forall i | 0 <= i < LENGTH_SIZE && ReadNew(c, past, i, ahead).Part?
      ensures Settled(ReadNew(c, past, i, ahead).value) {
      SlotBounds(LENGTH_BASE, LENGTH_BITS, LENGTHS_END, i, ahead);
      OffsetInSlot(c, past, ReadSlot(LENGTH_BASE, LENGTH_BITS, i, ahead).rest);
    }
    forall i | 0 <= i < 4 && ReadRecent(c, past, i, ahead).Part? ensures Settled(ReadRecent(c, past, i, ahead).value) {
      var slot := ReadSymbol(c.length, ahead);
      SlotBounds(LENGTH_BASE, LENGTH_BITS, LENGTHS_END, slot.value, slot.rest);
    }
    forall i | 0 <= i < 8 && ReadShort(past, i, ahead).Part? ensures Settled(ReadShort(past, i, ahead).value) {
      SlotBounds(SHORT_BASE, SHORT_BITS, SHORTS_END, i, ahead);
    }
  }

  lemma StepKeeps(c: Codes, past: Past, ahead: seq<Bit>)
    requires Sized(c) && Settled(past)
    ensures var o := Step(c, past, ahead);
      Settled(o.past) && (o.Act? ==> Bounded(EventOf(o.action)))
  {
    hide ReadSymbol;
    hide ReadNew;
    hide ReadRecent;
    hide ReadShort;
    hide ReadMark;
    hide ReadFilterData;
    var s := ReadSymbol(c.main, ahead);
    if s.Part? {
      MatchKeeps(c, past, s.rest);
    }
  }

  /** Whatever the bits of a block, all matches asked for are short and near, and the low bits and their repeats stay in
      range. */
  lemma RunBounded(c: Codes, past: Past, ahead: seq<Bit>, room: nat, size: nat)
    requires Sized(c) && Settled(past) && size > 0
    ensures var r := Run(Steps(c), past, ahead, room, size);
      Settled(r.past) && forall k :: 0 <= k < |r.events| ==> Bounded(r.events[k])
  {
    hide Step;
    hide Settled;
    hide Bounded;
    forall p: Past, s: seq<Bit> | Settled(p)
      ensures var o := Steps(c)(p, s); Settled(o.past) && (o.Act? ==> Bounded(EventOf(o.action)))
    {
      StepKeeps(c, p, s);
    }
    RunKeeps(Steps(c), Settled, Bounded, past, ahead, room, size);
  }

  // Writing tokens.

  /** A new match may say that its offset's lowest bits are those of the last one, 16 times in all. */
  datatype Token = Plain(c: byte) | New(length: nat, offset: nat, repeat: bool) | Recent(i: nat, length: nat)
    | Short(offset: nat) | Again

  /** The lowest four bits can be written: there is nothing to say while they repeat, but then they must be the last
      ones. */
  ghost predicate LowWritable(c: Codes, past: Past, low: nat, repeat: bool) {
    if past.repeats > 0 then low == past.low
    else if repeat then low == past.low && HasCode(c.low, 16)
    else low < 16 && HasCode(c.low, low)
  }

  ghost function WriteLow(c: Codes, past: Past, low: nat, repeat: bool): seq<Bit>
    requires LowWritable(c, past, low, repeat)
  {
    if past.repeats > 0 then [] else Code(c.low, if repeat then 16 else low)
  }

  /** How often the low bits are still to be repeated after that. */
  function RepeatsAfter(past: Past, repeat: bool): nat {
    if past.repeats > 0 then past.repeats - 1 else if repeat then 15 else 0
  }

  ghost predicate OffsetWritable(c: Codes, past: Past, offset: nat, repeat: bool) {
    && offset < OFFSETS_END && HasCode(c.offset, OffsetSlot(offset))
    && (OFFSET_BITS[OffsetSlot(offset)] >= 4 ==> LowWritable(c, past, ExtraBits(offset) % 16, repeat))
  }

  ghost function WriteOffset(c: Codes, past: Past, offset: nat, repeat: bool): seq<Bit>
    requires OffsetWritable(c, past, offset, repeat)
  {
    var slot, extra := OffsetSlot(offset), ExtraBits(offset);
    var k := OFFSET_BITS[slot];
    Code(c.offset, slot)
    + if k < 4 then ToBits(extra, k) else ToBits(extra / 16, k - 4) + WriteLow(c, past, extra % 16, repeat)
  }

  /** What is remembered of the lowest bits after an offset. */
  ghost function LowAfter(past: Past, offset: nat, repeat: bool): (nat, nat)
    requires offset < OFFSETS_END
  {
    if OFFSET_BITS[OffsetSlot(offset)] < 4 then (past.low, past.repeats)
    else (ExtraBits(offset) % 16, RepeatsAfter(past, repeat))
  }

  ghost predicate ShortWritable(c: Codes, offset: int) {
    0 <= offset < SHORTS_END && HasCode(c.main, 263 + ShortSlot(offset))
  }

  ghost predicate NewWritable(c: Codes, past: Past, length: int, offset: int, repeat: bool) {
    0 <= offset && OffsetWritable(c, past, offset, repeat) && LengthWritable(c.main, 271, length)
  }

  ghost predicate Writable(c: Codes, past: Past, t: Token) {
    match t
    case Plain(b) => HasCode(c.main, b)
    case New(length, offset, repeat) => NewWritable(c, past, Plainly(length, offset), offset - 1, repeat)
    case Recent(i, length) => i < 4 && HasCode(c.main, 259 + i) && LengthWritable(c.length, 0, length - 2)
    case Short(offset) => ShortWritable(c, offset - 1)
    case Again => HasCode(c.main, 258)
  }

  ghost function WriteNew(c: Codes, past: Past, length: int, offset: int, repeat: bool): seq<Bit>
    requires NewWritable(c, past, length, offset, repeat)
  {
    Code(c.main, 271 + LengthSlot(length)) + WriteLength(length) + WriteOffset(c, past, offset, repeat)
  }

  ghost function WriteRecent(c: Codes, i: nat, length: int): seq<Bit>
    requires i < 4 && HasCode(c.main, 259 + i) && LengthWritable(c.length, 0, length)
  {
    Code(c.main, 259 + i) + Code(c.length, LengthSlot(length)) + WriteLength(length)
  }

  ghost function WriteShort(c: Codes, offset: int): seq<Bit>
    requires ShortWritable(c, offset)
  {
    ShortsCovered();
    Code(c.main, 263 + ShortSlot(offset)) + ExtraOf(SHORT_BASE, SHORT_BITS, SHORTS_END, offset)
  }

  ghost function Write(c: Codes, past: Past, t: Token): seq<Bit>
    requires Writable(c, past, t)
  {
    hide NewWritable;
    hide LengthWritable;
    hide ShortWritable;
    match t
    case Plain(b) => Code(c.main, b)
    case New(length, offset, repeat) => WriteNew(c, past, Plainly(length, offset), offset - 1, repeat)
    case Recent(i, length) => WriteRecent(c, i, length - 2)
    case Short(offset) => WriteShort(c, offset - 1)
    case Again => Code(c.main, 258)
  }

  /** What a token means: a byte or a match, and what is remembered after it. */
  ghost function Meaning(c: Codes, past: Past, t: Token): (Action, Past)
    requires Writable(c, past, t)
  {
    match t
    case Plain(b) => (Literally(b), past)
    case New(length, offset, repeat) =>
      var (low, repeats) := LowAfter(past, offset - 1, repeat);
      (Match(length, offset), Past(Pushed(past.offset, offset), length, low, repeats))
    case Recent(i, length) =>
      (Match(length, past.offset[i]), past.(offset := Fronted(past.offset, i), length := length))
    case Short(offset) => (Match(2, offset), past.(offset := Pushed(past.offset, offset), length := 2))
    case Again => (Match(past.length, past.offset[0]), past)
  }

  lemma ReadsLow(c: Codes, past: Past, low: nat, repeat: bool, rest: seq<Bit>)
    requires Prefix(c) && LowWritable(c, past, low, repeat)
    ensures ReadLow(c, past, WriteLow(c, past, low, repeat) + rest)
      == Part((low, low, RepeatsAfter(past, repeat)), rest)
  {
    hide Kraft;
    hide Code;
    hide ReadSymbol;
    if past.repeats > 0 {
      assert WriteLow(c, past, low, repeat) + rest == rest;
    } else {
      ReadsSymbol(c.low, if repeat then 16 else low, rest);
    }
  }

  lemma ReadsFew(c: Codes, past: Past, extra: nat, k: nat, rest: seq<Bit>)
    requires k < 4 && extra < Pow2(k)
    ensures ReadOffsetExtra(c, past, k, ToBits(extra, k) + rest) == Part((extra, past.low, past.repeats), rest)
  {
    hide ToBits;
    ReadsNumber(extra, k, rest);
  }

  lemma ReadsMany(c: Codes, past: Past, high: nat, k: nat, low: nat, repeat: bool, rest: seq<Bit>)
    requires Prefix(c) && k >= 4 && high < Pow2(k - 4) && LowWritable(c, past, low, repeat)
    ensures ReadOffsetExtra(c, past, k, ToBits(high, k - 4) + (WriteLow(c, past, low, repeat) + rest))
      == Part((16 * high + low, low, RepeatsAfter(past, repeat)), rest)
  {
    hide ToBits;
    hide Prefix;
    hide ReadLow;
    hide WriteLow;
    hide LowWritable;
    hide RepeatsAfter;
    ReadsNumber(high, k - 4, WriteLow(c, past, low, repeat) + rest);
    ReadsLow(c, past, low, repeat, rest);
  }

  /** An offset is its slot's symbol and its extra bits. */
  lemma OffsetIs(c: Codes, past: Past, ahead: seq<Bit>, slot: nat, rest: seq<Bit>, e: (nat, nat, nat), rest': seq<Bit>)
    requires |c.offset| == OFFSET_SIZE && ReadSymbol(c.offset, ahead) == Part(slot, rest) && slot < OFFSET_SIZE
    requires ReadOffsetExtra(c, past, OFFSET_BITS[slot], rest) == Part(e, rest')
    ensures ReadOffset(c, past, ahead) == Part((OFFSET_BASE[slot] + 1 + e.0, e.1, e.2), rest')
  {
    hide ReadSymbol;
    hide ReadOffsetExtra;
    hide OFFSET_BASE;
    hide OFFSET_BITS;
  }

  lemma ReadsOffsetFew(c: Codes, past: Past, offset: nat, repeat: bool, rest: seq<Bit>)
    requires Sized(c) && Prefix(c) && OffsetWritable(c, past, offset, repeat) && OFFSET_BITS[OffsetSlot(offset)] < 4
    ensures ReadOffset(c, past, WriteOffset(c, past, offset, repeat) + rest)
      == Part((offset + 1, past.low, past.repeats), rest)
  {
    hide Kraft;
    hide Code;
    hide ReadSymbol;
    hide ReadOffset;
    hide ReadOffsetExtra;
    hide ToBits;
    hide Pow2;
    hide LowWritable;
    var slot, extra := OffsetSlot(offset), ExtraBits(offset);
    var bits := ToBits(extra, OFFSET_BITS[slot]);
    ReadsSymbol(c.offset, slot, bits + rest);
    ReadsFew(c, past, extra, OFFSET_BITS[slot], rest);
    Associate(Code(c.offset, slot), bits, [], rest);
    OffsetIs(c, past, Code(c.offset, slot) + (bits + rest), slot, bits + rest, (extra, past.low, past.repeats), rest);
  }

  lemma ReadsOffsetMany(c: Codes, past: Past, offset: nat, repeat: bool, rest: seq<Bit>)
    requires Sized(c) && Prefix(c) && OffsetWritable(c, past, offset, repeat) && OFFSET_BITS[OffsetSlot(offset)] >= 4
    ensures ReadOffset(c, past, WriteOffset(c, past, offset, repeat) + rest)
      == Part((offset + 1, ExtraBits(offset) % 16, RepeatsAfter(past, repeat)), rest)
  {
    hide SlotIn;
    hide OFFSET_BASE;
    hide Kraft;
    hide Code;
    hide ReadSymbol;
    hide ReadOffset;
    hide ReadOffsetExtra;
    hide ToBits;
    hide Pow2;
    hide WriteLow;
    hide LowWritable;
    hide RepeatsAfter;
    var slot, extra := OffsetSlot(offset), ExtraBits(offset);
    var k := OFFSET_BITS[slot];
    var high, low := ToBits(extra / 16, k - 4), WriteLow(c, past, extra % 16, repeat);
    ReadsSymbol(c.offset, slot, high + (low + rest));
    HighExtra(extra, k);
    ReadsMany(c, past, extra / 16, k, extra % 16, repeat, rest);
    Associate(Code(c.offset, slot), high, low, rest);
    OffsetIs(c, past, Code(c.offset, slot) + (high + (low + rest)), slot, high + (low + rest),
             (extra, extra % 16, RepeatsAfter(past, repeat)), rest);
  }

  lemma ReadsOffset(c: Codes, past: Past, offset: nat, repeat: bool, rest: seq<Bit>)
    requires Sized(c) && Prefix(c) && OffsetWritable(c, past, offset, repeat)
    ensures ReadOffset(c, past, WriteOffset(c, past, offset, repeat) + rest)
      == Part((offset + 1, LowAfter(past, offset, repeat).0, LowAfter(past, offset, repeat).1), rest)
  {
    hide ReadOffset;
    hide WriteOffset;
    hide LowWritable;
    if OFFSET_BITS[OffsetSlot(offset)] < 4 {
      ReadsOffsetFew(c, past, offset, repeat, rest);
    } else {
      ReadsOffsetMany(c, past, offset, repeat, rest);
    }
  }

  lemma NewReads(c: Codes, past: Past, length: int, offset: int, repeat: bool, rest: seq<Bit>)
    requires Sized(c) && Prefix(c) && NewWritable(c, past, length, offset, repeat)
    ensures Step(c, past, WriteNew(c, past, length, offset, repeat) + rest)
      == Act(Match(length + 3 + Bonus(offset + 1), offset + 1),
             Past(Pushed(past.offset, offset + 1), length + 3 + Bonus(offset + 1),
                  LowAfter(past, offset, repeat).0, LowAfter(past, offset, repeat).1), rest)
  {
    hide Prefix;
    hide Code;
    hide ReadSymbol;
    hide ReadSlot;
    hide ReadOffset;
    hide WriteLength;
    hide WriteOffset;
    hide OffsetWritable;
    hide LowAfter;
    hide Pushed;
    hide LengthSlot;
    var main, l, o := Code(c.main, 271 + LengthSlot(length)), WriteLength(length), WriteOffset(c, past, offset, repeat);
    PrefixParts(c);
    ReadsSymbol(c.main, 271 + LengthSlot(length), l + (o + rest));
    ReadsLength(length, o + rest);
    ReadsOffset(c, past, offset, repeat, rest);
    Associate(main, l, o, rest);
    PushedFirst(past.offset, offset + 1);
  }

  lemma RecentReads(c: Codes, past: Past, i: nat, length: int, rest: seq<Bit>)
    requires Sized(c) && Prefix(c) && i < 4 && HasCode(c.main, 259 + i) && LengthWritable(c.length, 0, length)
    ensures Step(c, past, WriteRecent(c, i, length) + rest)
      == Act(Match(length + 2, past.offset[i]), past.(offset := Fronted(past.offset, i), length := length + 2), rest)
  {
    hide Prefix;
    hide Code;
    hide ReadSymbol;
    hide ReadSlot;
    hide WriteLength;
    hide LengthSlot;
    hide Fronted;
    PrefixParts(c);
    var slot, l := LengthSlot(length), WriteLength(length);
    ReadsSymbol(c.main, 259 + i, Code(c.length, slot) + (l + rest));
    ReadsSymbol(c.length, slot, l + rest);
    ReadsLength(length, rest);
    Associate(Code(c.main, 259 + i), Code(c.length, slot), l, rest);
  }

  lemma ShortReads(c: Codes, past: Past, offset: int, rest: seq<Bit>)
    requires Sized(c) && Prefix(c) && ShortWritable(c, offset)
    ensures Step(c, past, WriteShort(c, offset) + rest)
      == Act(Match(2, offset + 1), past.(offset := Pushed(past.offset, offset + 1), length := 2), rest)
  {
    hide Prefix;
    hide Code;
    hide ReadSymbol;
    hide ReadSlot;
    hide ExtraOf;
    hide Covers;
    hide Pushed;
    PrefixParts(c);
    ShortsCovered();
    var slot, e := ShortSlot(offset), ExtraOf(SHORT_BASE, SHORT_BITS, SHORTS_END, offset);
    ReadsSymbol(c.main, 263 + slot, e + rest);
    ReadsSlot(SHORT_BASE, SHORT_BITS, SHORTS_END, offset, rest);
    Associate(Code(c.main, 263 + slot), e, [], rest);
    PushedFirst(past.offset, offset + 1);
  }

  lemma PrefixParts(c: Codes)
    requires Prefix(c)
    ensures Kraft(c.main) && Kraft(c.offset) && Kraft(c.low) && Kraft(c.length)
  {}

  /** Reading what was written for a token gives the token's meaning, and leaves exactly what followed. */
  lemma StepReads(c: Codes, past: Past, t: Token, rest: seq<Bit>)
    requires Sized(c) && Prefix(c) && Writable(c, past, t)
    ensures Step(c, past, Write(c, past, t) + rest) == Act(Meaning(c, past, t).0, Meaning(c, past, t).1, rest)
  {
    hide Prefix;
    hide Code;
    hide ReadSymbol;
    hide ReadRecent;
    hide ReadShort;
    hide ReadNew;
    hide WriteNew;
    hide WriteRecent;
    hide WriteShort;
    hide NewWritable;
    hide LengthWritable;
    hide ShortWritable;
    hide LowAfter;
    hide Pushed;
    hide Fronted;
    hide Bonus;
    PrefixParts(c);
    match t {
      case Plain(b) =>
        ReadsSymbol(c.main, b, rest);
      case New(length, offset, repeat) =>
        NewWritableParts(c, past, Plainly(length, offset), offset - 1, repeat);
        NewReads(c, past, Plainly(length, offset), offset - 1, repeat, rest);
      case Recent(i, length) =>
        RecentReads(c, past, i, length - 2, rest);
      case Short(offset) =>
        ShortReads(c, past, offset - 1, rest);
      case Again =>
        ReadsSymbol(c.main, 258, rest);
    }
  }

  lemma NewWritableParts(c: Codes, past: Past, length: int, offset: int, repeat: bool)
    requires NewWritable(c, past, length, offset, repeat)
    ensures 0 <= offset < OFFSETS_END && length >= 0
  {}

  // Ends of a run, and whole blocks.

  /** A filter's description that its flags, or the number after them, can give the size of. */
  ghost predicate DataWritable(data: seq<byte>) {
    && data != []
    && if data[0] % 8 == 6 then 7 <= |data| - 1 < 7 + 0x100
       else if data[0] % 8 == 7 then |data| - 1 < 0x1_0000
       else |data| - 1 == data[0] % 8 + 1
  }

  function WriteDataSize(data: seq<byte>): seq<Bit>
    requires data != []
  {
    if data[0] % 8 == 6 && |data| >= 8 then ToBits(|data| - 8, 8)
    else if data[0] % 8 == 7 then ToBits(|data| - 1, 16)
    else []
  }

  function WriteData(data: seq<byte>): seq<Bit>
    requires data != []
  {
    DataBits(data[..1]) + WriteDataSize(data) + DataBits(data[1..])
  }

  ghost predicate EndWritable(c: Codes, end: End) {
    match end
    case FilterAsked(data) => HasCode(c.main, 257) && DataWritable(data)
    case NoData => false
    case BadCode => false
    case _ => HasCode(c.main, 256)
  }

  ghost function WriteEnd(c: Codes, end: End): seq<Bit>
    requires EndWritable(c, end)
  {
    match end
    case FilterAsked(data) => Code(c.main, 257) + WriteData(data)
    case BlockEnd => Code(c.main, 256) + [1]
    case BlockAndFileEnd => Code(c.main, 256) + [0, 1]
    case FileEnd => Code(c.main, 256) + [0, 0]
  }

  lemma {:induction false} ReadsBytes(data: seq<byte>, rest: seq<Bit>)
    ensures ReadBytes(DataBits(data) + rest, |data|) == Part(data, rest)
  {
    hide Num;
    hide ToBits;
    if data == [] {
      assert DataBits(data) + rest == rest;
    } else {
      var first := ToBits(data[0], 8);
      ReadsBytes(data[1..], rest);
      ByteValue(data[0]);
      assert DataBits(data) + rest == first + (DataBits(data[1..]) + rest);
      assert (DataBits(data) + rest)[..8] == first && (DataBits(data) + rest)[8..] == DataBits(data[1..]) + rest;
      assert [data[0]] + data[1..] == data;
    }
  }

  lemma ReadsDataSize(data: seq<byte>, rest: seq<Bit>)
    requires DataWritable(data)
    ensures ReadDataSize(data[0], WriteDataSize(data) + rest) == Part(|data| - 1, rest)
  {
    hide ToBits;
    hide Num;
    Pow2Values();
    assert Pow2(16) == 2 * Pow2(15);
    if data[0] % 8 == 6 {
      ReadsNumber(|data| - 8, 8, rest);
    } else if data[0] % 8 == 7 {
      ReadsNumber(|data| - 1, 16, rest);
    } else {
      assert WriteDataSize(data) + rest == rest;
    }
  }

  lemma ReadsData(data: seq<byte>, rest: seq<Bit>)
    requires DataWritable(data)
    ensures ReadFilterData(WriteData(data) + rest) == Part(data, rest)
  {
    hide ReadBytes;
    hide ReadDataSize;
    hide WriteDataSize;
    hide DataBits;
    var flags, payload := data[..1], data[1..];
    assert data == flags + payload;
    ReadsBytes(flags, WriteDataSize(data) + (DataBits(payload) + rest));
    ReadsDataSize(data, DataBits(payload) + rest);
    ReadsBytes(payload, rest);
    Associate(DataBits(flags), WriteDataSize(data), DataBits(payload), rest);
  }

  /** What ends a run is read back too. */
  lemma EndReads(c: Codes, past: Past, end: End, rest: seq<Bit>)
    requires Sized(c) && Prefix(c) && EndWritable(c, end)
    ensures Step(c, past, WriteEnd(c, end) + rest) == Halt(end, past, rest)
  {
    hide Prefix;
    hide Code;
    hide ReadSymbol;
    hide ReadFilterData;
    hide WriteData;
    PrefixParts(c);
    if end.FilterAsked? {
      ReadsSymbol(c.main, 257, WriteData(end.data) + rest);
      ReadsData(end.data, rest);
      Associate(Code(c.main, 257), WriteData(end.data), [], rest);
    } else {
      var mark: seq<Bit> := if end == BlockEnd then [1] else if end == BlockAndFileEnd then [0, 1] else [0, 0];
      ReadsSymbol(c.main, 256, mark + rest);
      Associate(Code(c.main, 256), mark, [], rest);
      assert mark + rest == [mark[0]] + (mark[1..] + rest);
      assert (mark + rest)[|mark|..] == rest;
    }
  }

  /** Each token can be written after those before it. */
  ghost predicate AllWritable(c: Codes, past: Past, ts: seq<Token>)
    decreases |ts|
  {
    ts != [] ==> Writable(c, past, ts[0]) && AllWritable(c, Meaning(c, past, ts[0]).1, ts[1..])
  }

  /** The tokens as the bits written for them, and what they come to. */
  ghost function Pieces(c: Codes, past: Past, ts: seq<Token>): (pieces: seq<Piece<Past>>)
    requires AllWritable(c, past, ts)
    ensures |pieces| == |ts|
    decreases |ts|
  {
    if ts == [] then []
    else
      var (action, past') := Meaning(c, past, ts[0]);
      [Piece(Write(c, past, ts[0]), action, past')] + Pieces(c, past', ts[1..])
  }

  lemma {:induction false} PiecesRead(c: Codes, past: Past, ts: seq<Token>)
    requires Sized(c) && Prefix(c) && AllWritable(c, past, ts)
    ensures AllRead(Steps(c), past, Pieces(c, past, ts))
    decreases |ts|
  {
    hide Writable;
    hide Write;
    hide Meaning;
    hide Prefix;
    hide Sized;
    hide Step;
    if ts != [] {
      var p := Pieces(c, past, ts)[0];
      forall rest: seq<Bit> ensures Steps(c)(past, p.bits + rest) == Act(p.action, p.past, rest) {
        StepReads(c, past, ts[0], rest);
      }
      PiecesRead(c, p.past, ts[1..]);
    }
  }

  /** However many fills it takes, reading tokens and what ends them back does what they mean, with the low bits
      repeated as the writer meant them, and leaves exactly what followed. */
  lemma BlockReads(c: Codes, past: Past, ts: seq<Token>, end: End, rest: seq<Bit>, rooms: seq<nat>, size: nat)
    requires Sized(c) && Prefix(c) && size > 0 && AllWritable(c, past, ts) && EndWritable(c, end)
    ensures var pieces := Pieces(c, past, ts);
      var ahead := BitsOf(pieces) + (WriteEnd(c, end) + rest);
      var f := InFills(Steps(c), past, ahead, rooms, size);
      && Filled(Steps(c), f, Ran(EventsOf(pieces), PastOf(past, pieces), rest, Some(end)))
      && (0 !in rooms && |rooms| > |ahead| ==> f.end.Some?)
  {
    hide Step;
    hide Prefix;
    hide Sized;
    hide WriteEnd;
    hide EndWritable;
    hide AllWritable;
    hide Pieces;
    hide InFills;
    hide Filled;
    var pieces := Pieces(c, past, ts);
    PiecesRead(c, past, ts);
    EndReads(c, PastOf(past, pieces), end, rest);
    RunReads(Steps(c), past, pieces, WriteEnd(c, end) + rest, rooms, size);
  }

  // Where the offsets of a written block come from.

  /** What is remembered before token n of a block. */
  ghost function PastBefore(c: Codes, past: Past, ts: seq<Token>, n: nat): Past
    requires n <= |ts| && AllWritable(c, past, ts)
  {
    PastOf(past, Pieces(c, past, ts)[..n])
  }

  lemma {:induction false} EventAt(c: Codes, past: Past, ts: seq<Token>, n: nat)
    requires n < |ts| && AllWritable(c, past, ts)
    ensures var p := PastBefore(c, past, ts, n);
      && Writable(c, p, ts[n]) && EventsOf(Pieces(c, past, ts))[n] == EventOf(Meaning(c, p, ts[n]).0)
      && PastBefore(c, past, ts, n + 1) == Meaning(c, p, ts[n]).1
    decreases n
  {
    hide Writable;
    hide Write;
    hide Meaning;
    hide EventsOf;
    var past' := Meaning(c, past, ts[0]).1;
    var first, all := Piece(Write(c, past, ts[0]), Meaning(c, past, ts[0]).0, past'), Pieces(c, past, ts);
    if n == 0 {
      assert all[..1] == [first] && all[..0] == [];
    } else {
      var rest := Pieces(c, past', ts[1..]);
      assert all == [first] + rest;
      EventAt(c, past', ts[1..], n - 1);
      assert all[..n] == [first] + rest[..n - 1] && all[..n + 1] == [first] + rest[..n];
      PastLater(first, rest[..n - 1], past);
      PastLater(first, rest[..n], past);
    }
  }

  /** What two tokens, of which the second takes an offset used before, ask for, by the offsets before them. */
  ghost predicate RecentLaw(t: Token, i: nat, length: nat, offset: Offsets, e: Event, f: Event)
    requires i < 4 && (t.Recent? ==> t.i < 4)
  {
    match t
    case Recent(i', length') => e == Copy(length', offset[i']) && f == Copy(length, offset[OldPlace(i', i)])
    case New(length', o, _) => e == Copy(length', o) && f == Copy(length, if i == 0 then o else offset[i - 1])
    case Short(o) => e == Copy(2, o) && f == Copy(length, if i == 0 then o else offset[i - 1])
    case _ => f == Copy(length, offset[i])
  }

  /** A match that says `recent` takes the offset that was used last for 0, and counts back through the uses for 1 to 3:
      a new offset goes before the others, and one that is used again comes to the front. */
  lemma RecentOffsets(c: Codes, past: Past, ts: seq<Token>, n: nat)
    requires n + 1 < |ts| && AllWritable(c, past, ts) && ts[n + 1].Recent?
    ensures ts[n + 1].i < 4 && (ts[n].Recent? ==> ts[n].i < 4)
    ensures var e := EventsOf(Pieces(c, past, ts));
      RecentLaw(ts[n], ts[n + 1].i, ts[n + 1].length, PastBefore(c, past, ts, n).offset, e[n], e[n + 1])
  {
    hide Write;
    hide Pieces;
    hide EventsOf;
    hide LowAfter;
    hide NewWritable;
    hide LengthWritable;
    hide ShortWritable;
    EventAt(c, past, ts, n);
    EventAt(c, past, ts, n + 1);
  }

  /** A match once more is the match before it once more. */
  lemma AgainRepeats(c: Codes, past: Past, ts: seq<Token>, n: nat)
    requires n + 1 < |ts| && AllWritable(c, past, ts) && ts[n + 1].Again? && !ts[n].Plain?
    ensures var e := EventsOf(Pieces(c, past, ts)); e[n + 1] == e[n]
  {
    hide Write;
    hide Pieces;
    hide EventsOf;
    hide LowAfter;
    hide NewWritable;
    hide LengthWritable;
    hide ShortWritable;
    EventAt(c, past, ts, n);
    EventAt(c, past, ts, n + 1);
  }
}

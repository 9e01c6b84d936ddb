/** The tokens of a RAR 2.0 block: what their bits mean, and how they are written. */
module Lz20 {
  import opened Machine
  import opened Bits
  import opened BitStrings
  import opened Canonical
  import opened DecodeReaders
  import opened Decodings
  import opened LzRuns
  import opened LzTables

  const MAIN_SIZE := 298
  const OFFSET_SIZE := 48
  const LENGTH_SIZE := 28

  /** The codes of a block; this format has no code for low bits of offsets. */
  datatype Codes20 = Codes20(main: Lengths, offset: Lengths, length: Lengths)

  ghost predicate Sized(c: Codes20) {
    |c.main| == MAIN_SIZE && |c.offset| == OFFSET_SIZE && |c.length| == LENGTH_SIZE
  }

  ghost predicate Prefix20(c: Codes20) { Kraft(c.main) && Kraft(c.offset) && Kraft(c.length) }

  /** The latest offsets, the last length, and how many bytes this fill was asked to write so far. */
  datatype Past = Past(offset: Offsets, length: nat, done: nat)

  /** Why a fill stops short of a full window: enough was written, the block ends, or nothing can be read. */
  datatype End = Enough | BlockEnd | NoData | BadCode

  /** Far matches at recent offsets are longer than their slots say. */
  function RecentBonus(offset: nat): nat {
    (if offset >= 0x101 then 1 else 0) + (if offset >= 0x2000 then 1 else 0) + (if offset >= 0x4_0000 then 1 else 0)
  }

  /** What is remembered after a match. */
  function After(past: Past, offset: nat, length: nat): Past {
    Past(Pushed(past.offset, offset), length, past.done + length)
  }

  /** A match at a new offset, its length in slot i. */
  function ReadNew(c: Codes20, past: Past, i: nat, ahead: seq<Bit>): (p: Part<Past>)
    requires |c.offset| == OFFSET_SIZE && i < LENGTH_SIZE
    ensures p.Part? ==> |p.rest| <= |ahead|
  {
    match ReadSlot(LENGTH_BASE, LENGTH_BITS, i, ahead)
    case Part(length, rest) =>
      (match ReadSymbol(c.offset, rest)
       case Part(slot, rest') =>
         (match ReadSlot(OFFSET_BASE, OFFSET_BITS, slot, rest')
          case Part(o, rest'') => Part(After(past, o + 1, length + 3 + Bonus(o + 1)), rest'')
          case Ends => Ends
          case Misses => Misses)
       case Ends => Ends
       case Misses => Misses)
    case Ends => Ends
    case Misses => Misses
  }

  /** A match at an offset used before, which is remembered once more. */
  function ReadRecent(c: Codes20, past: Past, i: nat, ahead: seq<Bit>): (p: Part<Past>)
    requires |c.length| == LENGTH_SIZE && i < 4
    ensures p.Part? ==> |p.rest| <= |ahead|
  {
    match ReadSymbol(c.length, ahead)
    case Part(slot, rest) =>
      (match ReadSlot(LENGTH_BASE, LENGTH_BITS, slot, rest)
       case Part(length, rest') => Part(After(past, past.offset[i], length + 2 + RecentBonus(past.offset[i])), rest')
       case Ends => Ends
       case Misses => Misses)
    case Ends => Ends
    case Misses => Misses
  }

  /** A match of two bytes nearby. */
  function ReadShort(past: Past, i: nat, ahead: seq<Bit>): (p: Part<Past>)
    requires i < 8
    ensures p.Part? ==> |p.rest| <= |ahead|
  {
    match ReadSlot(SHORT_BASE, SHORT_BITS, i, ahead)
    case Part(n, rest) => Part(After(past, n + 1, 2), rest)
    case Ends => Ends
    case Misses => Misses
  }

  /** A match, or nothing that can be read. */
  function MatchOf(m: Part<Past>, past: Past, ahead: seq<Bit>): Outcome<Past, End> {
    match m
    case Part(past', rest) => Act(Match(past'.length, past'.offset[0]), past', rest)
    case Ends => Halt(NoData, past, ahead)
    case Misses => Halt(BadCode, past, ahead)
  }

  /** What the next bits of a block say to a fill that is to write so many bytes. */
  function Step(c: Codes20, wanted: int, past: Past, ahead: seq<Bit>): Outcome<Past, End>
    requires Sized(c)
  {
    if past.done >= wanted then Halt(Enough, past, ahead)
    else
      match ReadSymbol(c.main, ahead)
      case Ends => Halt(NoData, past, ahead)
      case Misses => Halt(BadCode, past, ahead)
      case Part(sym, rest) =>
        if sym < 256 then Act(Literally(sym), past.(done := past.done + 1), rest)
        else if sym == 256 then
          var past' := After(past, past.offset[0], past.length);
          Act(Match(past'.length, past'.offset[0]), past', rest)
        else if sym < 261 then MatchOf(ReadRecent(c, past, sym - 257, rest), past, ahead)
        else if sym < 269 then MatchOf(ReadShort(past, sym - 261, rest), past, ahead)
        else if sym == 269 then Halt(BlockEnd, past, rest)
        else MatchOf(ReadNew(c, past, sym - 270, rest), past, ahead)
  }

  lemma StepShrinks(c: Codes20, wanted: int, past: Past, ahead: seq<Bit>)
    requires Sized(c)
    ensures Step(c, wanted, past, ahead).Act? ==> |Step(c, wanted, past, ahead).rest| < |ahead|
  {
    hide ReadSymbol;
    hide ReadRecent;
    hide ReadShort;
    hide ReadNew;
  }

  /** The steps of a fill. */
  ghost function Steps(c: Codes20, wanted: int): (step: (Past, seq<Bit>) -> Outcome<Past, End>)
    requires Sized(c)
    ensures Shrinks(step)
  {
    forall past: Past, ahead: seq<Bit>
      ensures Step(c, wanted, past, ahead).Act? ==> |Step(c, wanted, past, ahead).rest| < |ahead| {
      StepShrinks(c, wanted, past, ahead);
    }
    (past: Past, ahead: seq<Bit>) => Step(c, wanted, past, ahead)
  }

  /** How much longer a match at a new offset is than its slot says: 3, one more from offset 0x2000 on, and another from
      0x40000 on. */
  ghost predicate FarLaw(offset: nat, extra: int) {
    if offset < 0x2000 then extra == 3 else if offset < 0x4_0000 then extra == 4 else extra == 5
  }

  /** How much longer a match at an offset used before is than its slot says: 2, and one more from each of the offsets
      0x101, 0x2000 and 0x40000 on. */
  ghost predicate RecentFarLaw(offset: nat, extra: int) {
    if offset < 0x101 then extra == 2
    else if offset < 0x2000 then extra == 3
    else if offset < 0x4_0000 then extra == 4
    else extra == 5
  }

  /** The number in slot i, as the 28 slots for lengths give it. */
  function SlotLength(i: nat, ahead: seq<Bit>): Part<nat>
    requires i < 28
  {
    ReadSlot(LENGTH_BASE, LENGTH_BITS, i, ahead)
  }

  /** What the symbols of matches mean: 257 to 260 take an offset used before, 261 to 268 are two bytes nearby, and
      those from 270 on are at new offsets. */
  lemma MatchLengths(c: Codes20, wanted: int, past: Past, ahead: seq<Bit>)
    requires Sized(c)
    ensures var sym, o := ReadSymbol(c.main, ahead), Step(c, wanted, past, ahead);
      o.Act? && sym.value >= 257 ==>
        && o.action.Match? && o.action == Match(o.past.length, o.past.offset[0])
        && o.past.offset[1..] == past.offset[..3] && o.past.done == past.done + o.action.length
        && if sym.value >= 270 then
             && SlotLength(sym.value - 270, sym.rest).Part?
             && FarLaw(o.action.offset, o.action.length - SlotLength(sym.value - 270, sym.rest).value)
           else if sym.value >= 261 then o.action.length == 2
           else
             var slot := ReadSymbol(c.length, sym.rest);
             && slot.Part? && SlotLength(slot.value, slot.rest).Part?
             && o.action.offset == past.offset[sym.value - 257]
             && RecentFarLaw(o.action.offset, o.action.length - SlotLength(slot.value, slot.rest).value)
  {
    hide ReadSymbol;
    hide ReadSlot;
  }

  // What every run keeps.

  const MAX_MATCH := 260
  const MAX_OFFSET := 0x10_0000

  ghost predicate Settled(past: Past) {
    past.length <= MAX_MATCH && forall i :: 0 <= i < 4 ==> past.offset[i] <= MAX_OFFSET
  }

  ghost predicate Bounded(e: Event) {
    e.Literal? || (e.Copy? && 0 <= e.length <= MAX_MATCH && 0 <= e.offset <= MAX_OFFSET)
  }

  lemma OffsetNear(slot: nat, ahead: seq<Bit>)
    requires slot < OFFSET_SIZE
    ensures var o := ReadSlot(OFFSET_BASE, OFFSET_BITS, slot, ahead); o.Part? ==> o.value < MAX_OFFSET
  {
    hide ReadSlot;
    OffsetsCovered();
    SlotBounds(OFFSET_BASE, OFFSET_BITS, OFFSETS_END, slot, ahead);
    var o := ReadSlot(OFFSET_BASE, OFFSET_BITS, slot, ahead);
    if o.Part? {
      SlotCoding(OFFSET_BASE, OFFSET_BITS, OFFSETS_END, slot, o.value - OFFSET_BASE[slot]);
      assert OFFSET_BASE[48] == MAX_OFFSET;
    }
  }

  lemma MatchKeeps(c: Codes20, past: Past, ahead: seq<Bit>)
    requires Sized(c) && Settled(past)
    ensures forall i :: 0 <= i < LENGTH_SIZE ==> ReadNew(c, past, i, ahead).Part? ==>
      Settled(ReadNew(c, past, i, ahead).value)
    ensures forall i :: 0 <= i < 4 ==> ReadRecent(c, past, i, ahead).Part? ==>
      Settled(ReadRecent(c, past, i, ahead).value)
    ensures forall i :: 0 <= i < 8 ==> ReadShort(past, i, ahead).Part? ==> Settled(ReadShort(past, i, ahead).value)
  {
    hide ReadSymbol;
    hide ReadSlot;
    hide Covers;
    LengthsCovered();
    ShortsCovered();
    forall i | 0 <= i < LENGTH_SIZE && ReadNew(c, past, i, ahead).Part?
      ensures Settled(ReadNew(c, past, i, ahead).value) {
      SlotBounds(LENGTH_BASE, LENGTH_BITS, LENGTHS_END, i, ahead);
      var slot := ReadSymbol(c.offset, ReadSlot(LENGTH_BASE, LENGTH_BITS, i, ahead).rest);
      OffsetNear(slot.value, slot.rest);
    }
    forall i | 0 <= i < 4 && ReadRecent(c, past, i, ahead).Part? ensures Settled(ReadRecent(c, past, i, ahead).value) {
      var slot := ReadSymbol(c.length, ahead);
      SlotBounds(LENGTH_BASE, LENGTH_BITS, LENGTHS_END, slot.value, slot.rest);
    }
    forall i | 0 <= i < 8 && ReadShort(past, i, ahead).Part? ensures Settled(ReadShort(past, i, ahead).value) {
      SlotBounds(SHORT_BASE, SHORT_BITS, SHORTS_END, i, ahead);
    }
  }

  lemma StepKeeps(c: Codes20, wanted: int, past: Past, ahead: seq<Bit>)
    requires Sized(c) && Settled(past)
    ensures var o := Step(c, wanted, past, ahead);
      Settled(o.past) && (o.Act? ==> Bounded(EventOf(o.action)))
  {
    hide ReadSymbol;
    hide ReadNew;
    hide ReadRecent;
    hide ReadShort;
    var s := ReadSymbol(c.main, ahead);
    if s.Part? {
      MatchKeeps(c, past, s.rest);
    }
  }

  /** Whatever the bits of a block, all matches asked for are short and near. */
  lemma RunBounded(c: Codes20, wanted: int, past: Past, ahead: seq<Bit>, room: nat, size: nat)
    requires Sized(c) && Settled(past) && size > 0
    ensures var r := Run(Steps(c, wanted), past, ahead, room, size);
      Settled(r.past) && forall k :: 0 <= k < |r.events| ==> Bounded(r.events[k])
  {
    hide Step;
    hide Settled;
    hide Bounded;
    forall p: Past, s: seq<Bit> | Settled(p)
      ensures var o := Steps(c, wanted)(p, s); Settled(o.past) && (o.Act? ==> Bounded(EventOf(o.action)))
    {
      StepKeeps(c, wanted, p, s);
    }
    RunKeeps(Steps(c, wanted), Settled, Bounded, past, ahead, room, size);
  }

  // Writing tokens.

  datatype Token = Plain(c: byte) | New(length: nat, offset: nat) | Recent(i: nat, length: nat) | Short(offset: nat)
    | Again

  ghost predicate NewWritable(c: Codes20, length: int, offset: int) {
    0 <= offset < OFFSETS_END && HasCode(c.offset, OffsetSlot(offset)) && LengthWritable(c.main, 270, length)
  }

  ghost predicate ShortWritable(c: Codes20, offset: int) {
    0 <= offset < SHORTS_END && HasCode(c.main, 261 + ShortSlot(offset))
  }

  ghost predicate RecentWritable(c: Codes20, i: nat, length: int) {
    i < 4 && HasCode(c.main, 257 + i) && LengthWritable(c.length, 0, length)
  }

  ghost predicate Writable(c: Codes20, past: Past, t: Token) {
    match t
    case Plain(b) => HasCode(c.main, b)
    case New(length, offset) => NewWritable(c, Plainly(length, offset), offset - 1)
    case Recent(i, length) => i < 4 && RecentWritable(c, i, length - 2 - RecentBonus(past.offset[i]))
    case Short(offset) => ShortWritable(c, offset - 1)
    case Again => HasCode(c.main, 256)
  }

  /** The extra bits of an offset. */
  ghost function ExtraAfter(offset: nat): seq<Bit>
    requires offset < OFFSETS_END
  {
    OffsetsCovered();
    ExtraOf(OFFSET_BASE, OFFSET_BITS, OFFSETS_END, offset)
  }

  ghost function WriteNew(c: Codes20, length: int, offset: int): seq<Bit>
    requires NewWritable(c, length, offset)
  {
    Code(c.main, 270 + LengthSlot(length)) + WriteLength(length)
      + (Code(c.offset, OffsetSlot(offset)) + ExtraAfter(offset))
  }

  ghost function WriteRecent(c: Codes20, i: nat, length: int): seq<Bit>
    requires RecentWritable(c, i, length)
  {
    Code(c.main, 257 + i) + Code(c.length, LengthSlot(length)) + WriteLength(length)
  }

  ghost function WriteShort(c: Codes20, offset: int): seq<Bit>
    requires ShortWritable(c, offset)
  {
    ShortsCovered();
    Code(c.main, 261 + ShortSlot(offset)) + ExtraOf(SHORT_BASE, SHORT_BITS, SHORTS_END, offset)
  }

  ghost function Write(c: Codes20, past: Past, t: Token): seq<Bit>
    requires Writable(c, past, t)
  {
    hide NewWritable;
    hide RecentWritable;
    hide ShortWritable;
    match t
    case Plain(b) => Code(c.main, b)
    case New(length, offset) => WriteNew(c, Plainly(length, offset), offset - 1)
    case Recent(i, length) => WriteRecent(c, i, length - 2 - RecentBonus(past.offset[i]))
    case Short(offset) => WriteShort(c, offset - 1)
    case Again => Code(c.main, 256)
  }

  /** What a token means: a byte or a match, and what is remembered after it. */
  function Meaning(past: Past, t: Token): (Action, Past)
    requires t.Recent? ==> t.i < 4
  {
    match t
    case Plain(b) => (Literally(b), past.(done := past.done + 1))
    case New(length, offset) => (Match(length, offset), After(past, offset, length))
    case Recent(i, length) => (Match(length, past.offset[i]), After(past, past.offset[i], length))
    case Short(offset) => (Match(2, offset), After(past, offset, 2))
    case Again => (Match(past.length, past.offset[0]), After(past, past.offset[0], past.length))
  }

  lemma PrefixParts(c: Codes20)
    requires Prefix20(c)
    ensures Kraft(c.main) && Kraft(c.offset) && Kraft(c.length)
  {}

  /** A match at a new offset is its length, its slot's symbol and its offset. */
  lemma NewIs(c: Codes20, past: Past, i: nat, ahead: seq<Bit>, length: nat, rest: seq<Bit>, slot: nat, rest': seq<Bit>,
              o: nat, rest'': seq<Bit>)
    requires |c.offset| == OFFSET_SIZE && i < LENGTH_SIZE && slot < OFFSET_SIZE
    requires ReadSlot(LENGTH_BASE, LENGTH_BITS, i, ahead) == Part(length, rest)
    requires ReadSymbol(c.offset, rest) == Part(slot, rest')
    requires ReadSlot(OFFSET_BASE, OFFSET_BITS, slot, rest') == Part(o, rest'')
    ensures ReadNew(c, past, i, ahead) == Part(After(past, o + 1, length + 3 + Bonus(o + 1)), rest'')
  {
    hide ReadSymbol;
    hide ReadSlot;
    hide Bonus;
    hide After;
  }

  lemma ReadsNew(c: Codes20, past: Past, length: int, offset: int, rest: seq<Bit>)
    requires Sized(c) && Prefix20(c) && NewWritable(c, length, offset)
    ensures var more := Code(c.offset, OffsetSlot(offset)) + (ExtraAfter(offset) + rest);
      ReadNew(c, past, LengthSlot(length), WriteLength(length) + more)
        == Part(After(past, offset + 1, length + 3 + Bonus(offset + 1)), rest)
  {
    hide Kraft;
    hide Code;
    hide ReadSymbol;
    hide ReadSlot;
    hide WriteLength;
    hide ExtraOf;
    hide Covers;
    hide Pushed;
    hide LengthSlot;
    hide Bonus;
    hide ReadNew;
    OffsetsCovered();
    var slot, e := OffsetSlot(offset), ExtraOf(OFFSET_BASE, OFFSET_BITS, OFFSETS_END, offset);
    ReadsLength(length, Code(c.offset, slot) + (e + rest));
    ReadsSymbol(c.offset, slot, e + rest);
    ReadsSlot(OFFSET_BASE, OFFSET_BITS, OFFSETS_END, offset, rest);
    NewIs(c, past, LengthSlot(length), WriteLength(length) + (Code(c.offset, slot) + (e + rest)), length,
          Code(c.offset, slot) + (e + rest), slot, e + rest, offset, rest);
  }

  /** A symbol for a new match leads to reading the match. */
  lemma StepNew(c: Codes20, wanted: int, past: Past, ahead: seq<Bit>, sym: nat, rest: seq<Bit>, past': Past,
                rest': seq<Bit>)
    requires Sized(c) && past.done < wanted && ReadSymbol(c.main, ahead) == Part(sym, rest) && 270 <= sym < MAIN_SIZE
    requires ReadNew(c, past, sym - 270, rest) == Part(past', rest')
    ensures Step(c, wanted, past, ahead) == Act(Match(past'.length, past'.offset[0]), past', rest')
  {
    hide ReadSymbol;
    hide ReadNew;
  }

  lemma WritesNew(c: Codes20, length: int, offset: int, rest: seq<Bit>)
    requires NewWritable(c, length, offset)
    ensures WriteNew(c, length, offset) + rest ==
      Code(c.main, 270 + LengthSlot(length))
      + (WriteLength(length) + (Code(c.offset, OffsetSlot(offset)) + (ExtraAfter(offset) + rest)))
  {
    hide Code;
    hide WriteLength;
    hide ExtraAfter;
    var main, l := Code(c.main, 270 + LengthSlot(length)), WriteLength(length);
    var o, e := Code(c.offset, OffsetSlot(offset)), ExtraAfter(offset);
    Associate(main, l, o + e, rest);
    Associate(o, e, [], rest);
  }

  lemma NewReads(c: Codes20, past: Past, wanted: int, length: int, offset: int, rest: seq<Bit>)
    requires Sized(c) && Prefix20(c) && NewWritable(c, length, offset) && past.done < wanted
    ensures var l := length + 3 + Bonus(offset + 1);
      Step(c, wanted, past, WriteNew(c, length, offset) + rest)
        == Act(Match(l, offset + 1), After(past, offset + 1, l), rest)
  {
    hide Kraft;
    hide Code;
    hide ReadSymbol;
    hide ReadNew;
    hide WriteNew;
    hide WriteLength;
    hide ExtraOf;
    hide Covers;
    hide Pushed;
    hide Bonus;
    hide Step;
    var more := WriteLength(length) + (Code(c.offset, OffsetSlot(offset)) + (ExtraAfter(offset) + rest));
    var l := length + 3 + Bonus(offset + 1);
    WritesNew(c, length, offset, rest);
    ReadsSymbol(c.main, 270 + LengthSlot(length), more);
    ReadsNew(c, past, length, offset, rest);
    StepNew(c, wanted, past, WriteNew(c, length, offset) + rest, 270 + LengthSlot(length), more,
            After(past, offset + 1, l), rest);
    PushedFirst(past.offset, offset + 1);
  }

  lemma RecentReads(c: Codes20, past: Past, wanted: int, i: nat, length: int, rest: seq<Bit>)
    requires Sized(c) && Prefix20(c) && RecentWritable(c, i, length) && past.done < wanted
    ensures var l := length + 2 + RecentBonus(past.offset[i]);
      Step(c, wanted, past, WriteRecent(c, i, length) + rest)
        == Act(Match(l, past.offset[i]), After(past, past.offset[i], l), rest)
  {
    hide Prefix20;
    hide Code;
    hide ReadSymbol;
    hide ReadSlot;
    hide WriteLength;
    hide LengthSlot;
    hide Pushed;
    PrefixParts(c);
    var slot, l := LengthSlot(length), WriteLength(length);
    ReadsSymbol(c.main, 257 + i, Code(c.length, slot) + (l + rest));
    ReadsSymbol(c.length, slot, l + rest);
    ReadsLength(length, rest);
    Associate(Code(c.main, 257 + i), Code(c.length, slot), l, rest);
    PushedFirst(past.offset, past.offset[i]);
  }

  lemma ShortReads(c: Codes20, past: Past, wanted: int, offset: int, rest: seq<Bit>)
    requires Sized(c) && Prefix20(c) && ShortWritable(c, offset) && past.done < wanted
    ensures Step(c, wanted, past, WriteShort(c, offset) + rest)
      == Act(Match(2, offset + 1), After(past, offset + 1, 2), rest)
  {
    hide Prefix20;
    hide Code;
    hide ReadSymbol;
    hide ReadSlot;
    hide ExtraOf;
    hide Covers;
    hide Pushed;
    PrefixParts(c);
    ShortsCovered();
    var slot, e := ShortSlot(offset), ExtraOf(SHORT_BASE, SHORT_BITS, SHORTS_END, offset);
    ReadsSymbol(c.main, 261 + slot, e + rest);
    ReadsSlot(SHORT_BASE, SHORT_BITS, SHORTS_END, offset, rest);
    Associate(Code(c.main, 261 + slot), e, [], rest);
    PushedFirst(past.offset, offset + 1);
  }

  /** Reading what was written for a token gives the token's meaning, and leaves exactly what followed. */
  lemma StepReads(c: Codes20, past: Past, wanted: int, t: Token, rest: seq<Bit>)
    requires Sized(c) && Prefix20(c) && Writable(c, past, t) && past.done < wanted
    ensures Step(c, wanted, past, Write(c, past, t) + rest) == Act(Meaning(past, t).0, Meaning(past, t).1, rest)
  {
    hide Prefix20;
    hide Code;
    hide ReadSymbol;
    hide ReadRecent;
    hide ReadShort;
    hide ReadNew;
    hide WriteNew;
    hide WriteRecent;
    hide WriteShort;
    hide NewWritable;
    hide RecentWritable;
    hide ShortWritable;
    hide Pushed;
    hide Bonus;
    hide RecentBonus;
    PrefixParts(c);
    match t {
      case Plain(b) =>
        ReadsSymbol(c.main, b, rest);
      case New(length, offset) =>
        WritableBounds(c, past, t);
        NewReads(c, past, wanted, Plainly(length, offset), offset - 1, rest);
      case Recent(i, length) =>
        WritableBounds(c, past, t);
        RecentReads(c, past, wanted, i, length - 2 - RecentBonus(past.offset[i]), rest);
      case Short(offset) =>
        ShortReads(c, past, wanted, offset - 1, rest);
      case Again =>
        ReadsSymbol(c.main, 256, rest);
        PushedFirst(past.offset, past.offset[0]);
    }
  }

  lemma WritableBounds(c: Codes20, past: Past, t: Token)
    requires Writable(c, past, t)
    ensures t.New? ==> t.offset >= 1 && Plainly(t.length, t.offset) >= 0
    ensures t.Recent? ==> t.i < 4 && t.length - 2 - RecentBonus(past.offset[t.i]) >= 0
  {}

  /** Each token can be written after those before it, and is wanted. */
  ghost predicate AllWritable(c: Codes20, wanted: int, past: Past, ts: seq<Token>)
    decreases |ts|
  {
    ts != [] ==>
      past.done < wanted && Writable(c, past, ts[0]) && AllWritable(c, wanted, Meaning(past, ts[0]).1, ts[1..])
  }

  /** The tokens as the bits written for them, and what they come to. */
  ghost function Pieces(c: Codes20, wanted: int, past: Past, ts: seq<Token>): (pieces: seq<Piece<Past>>)
    requires AllWritable(c, wanted, past, ts)
    ensures |pieces| == |ts|
    decreases |ts|
  {
    if ts == [] then []
    else
      var (action, past') := Meaning(past, ts[0]);
      [Piece(Write(c, past, ts[0]), action, past')] + Pieces(c, wanted, past', ts[1..])
  }

  lemma {:induction false} PiecesRead(c: Codes20, wanted: int, past: Past, ts: seq<Token>)
    requires Sized(c) && Prefix20(c) && AllWritable(c, wanted, past, ts)
    ensures AllRead(Steps(c, wanted), past, Pieces(c, wanted, past, ts))
    decreases |ts|
  {
    hide Write;
    hide Prefix20;
    hide Sized;
    hide Step;
    if ts != [] {
      var p := Pieces(c, wanted, past, ts)[0];
      forall rest: seq<Bit> ensures Steps(c, wanted)(past, p.bits + rest) == Act(p.action, p.past, rest) {
        StepReads(c, past, wanted, ts[0], rest);
      }
      PiecesRead(c, wanted, p.past, ts[1..]);
    }
  }

  // Reading in several fills, each of which counts its bytes from 0.

  /** What is remembered, with k bytes more counted. */
  function Counting(past: Past, k: nat): Past { past.(done := past.done + k) }

  function CountingOutcome(o: Outcome<Past, End>, k: nat): Outcome<Past, End> {
    match o
    case Act(action, past, rest) => Act(action, Counting(past, k), rest)
    case Halt(end, past, rest) => Halt(end, Counting(past, k), rest)
  }

  /** A step counts on from wherever it begins. */
  lemma StepCounts(c: Codes20, wanted: int, past: Past, ahead: seq<Bit>, k: nat)
    requires Sized(c)
    ensures Step(c, wanted + k, Counting(past, k), ahead) == CountingOutcome(Step(c, wanted, past, ahead), k)
  {
    hide ReadSymbol;
    hide ReadSlot;
    hide Pushed;
    hide Bonus;
    hide RecentBonus;
  }

  lemma {:induction false} EntireCounts(c: Codes20, wanted: int, past: Past, ahead: seq<Bit>, k: nat)
    requires Sized(c)
    ensures var r := Entire(Steps(c, wanted), past, ahead);
      Entire(Steps(c, wanted + k), Counting(past, k), ahead) == r.(past := Counting(r.past, k))
    decreases |ahead|
  {
    hide Step;
    hide Entire;
    StepCounts(c, wanted, past, ahead, k);
    EntireOn(Steps(c, wanted), past, ahead);
    EntireOn(Steps(c, wanted + k), Counting(past, k), ahead);
    var o := Steps(c, wanted)(past, ahead);
    if o.Act? {
      ShrinksBy(Steps(c, wanted), past, ahead);
      EntireCounts(c, wanted, o.past, o.rest, k);
    }
  }

  /** Fills one after another, each with its room and with what is wanted still, until one stops short of a full
      window. */
  ghost function Fills20(c: Codes20, wanted: int, past: Past, ahead: seq<Bit>, rooms: seq<nat>,
                         size: nat): Ran<Past, End>
    requires Sized(c) && size > 0
    decreases |rooms|
  {
    if rooms == [] then Ran([], past.(done := 0), ahead, None)
    else
      var r := Run(Steps(c, wanted), past.(done := 0), ahead, rooms[0], size);
      if r.end.Some? then r
      else Following(r.events, Fills20(c, wanted - r.past.done, r.past, r.rest, rooms[1..], size))
  }

  /** The same, but for the count of bytes. */
  ghost predicate Alike(a: Ran<Past, End>, b: Ran<Past, End>) { a == b.(past := b.past.(done := a.past.done)) }

  /** The fills read all there is, or a part of it and leave exactly the rest; and enough fills with room read all. */
  lemma {:induction false} Fills20Read(c: Codes20, wanted: int, past: Past, ahead: seq<Bit>, rooms: seq<nat>, size: nat)
    requires Sized(c) && size > 0 && past.done == 0
    ensures var f, all := Fills20(c, wanted, past, ahead, rooms, size), Entire(Steps(c, wanted), past, ahead);
      if f.end.Some? then Alike(f, all) else f.events <= all.events
    ensures 0 !in rooms && |rooms| > |ahead| ==> Fills20(c, wanted, past, ahead, rooms, size).end.Some?
    decreases |rooms|
  {
    hide Step;
    hide Run;
    hide Entire;
    hide Shrinks;
    if rooms != [] {
      RunIsPart(Steps(c, wanted), past, ahead, rooms[0], size);
      var r := Run(Steps(c, wanted), past, ahead, rooms[0], size);
      if r.end == None {
        var start := r.past.(done := 0);
        EntireCounts(c, wanted - r.past.done, start, r.rest, r.past.done);
        assert Counting(start, r.past.done) == r.past;
        Fills20Read(c, wanted - r.past.done, start, r.rest, rooms[1..], size);
        assert Fills20(c, wanted - r.past.done, r.past, r.rest, rooms[1..], size)
          == Fills20(c, wanted - r.past.done, start, r.rest, rooms[1..], size);
      }
    }
  }

  /** Tokens that were written, up to the bytes wanted or the end of the block. */
  lemma BlockEntire(c: Codes20, wanted: int, past: Past, ts: seq<Token>, rest: seq<Bit>)
    requires Sized(c) && Prefix20(c) && AllWritable(c, wanted, past, ts)
    requires PastOf(past, Pieces(c, wanted, past, ts)).done < wanted ==> HasCode(c.main, 269)
    ensures var pieces := Pieces(c, wanted, past, ts);
      var all := PastOf(past, pieces).done >= wanted;
      Entire(Steps(c, wanted), past, BitsOf(pieces) + (EndBits(c, all) + rest))
        == Ran(EventsOf(pieces), PastOf(past, pieces), rest, Some(if all then Enough else BlockEnd))
  {
    hide Prefix20;
    hide Sized;
    hide AllWritable;
    hide Pieces;
    hide ReadSymbol;
    hide Code;
    var pieces := Pieces(c, wanted, past, ts);
    PiecesRead(c, wanted, past, ts);
    if PastOf(past, pieces).done >= wanted {
      assert EndBits(c, true) + rest == rest;
      PiecesEntire(Steps(c, wanted), past, pieces, rest);
    } else {
      PrefixParts(c);
      ReadsSymbol(c.main, 269, rest);
      PiecesEntire(Steps(c, wanted), past, pieces, Code(c.main, 269) + rest);
    }
  }

  /** What ends a block is not written when all that is wanted was. */
  ghost function EndBits(c: Codes20, all: bool): seq<Bit>
    requires all || HasCode(c.main, 269)
  {
    if all then [] else Code(c.main, 269)
  }

  /** However many fills it takes, they read tokens back and do what they mean, up to the bytes wanted or the end of the
      block, and leave exactly the bits that followed. */
  lemma BlockReads(c: Codes20, wanted: int, past: Past, ts: seq<Token>, rest: seq<Bit>, rooms: seq<nat>, size: nat)
    requires Sized(c) && Prefix20(c) && size > 0 && past.done == 0 && AllWritable(c, wanted, past, ts)
    requires PastOf(past, Pieces(c, wanted, past, ts)).done < wanted ==> HasCode(c.main, 269)
    ensures var pieces := Pieces(c, wanted, past, ts);
      var all := PastOf(past, pieces).done >= wanted;
      var ahead := BitsOf(pieces) + (EndBits(c, all) + rest);
      var f := Fills20(c, wanted, past, ahead, rooms, size);
      && (if f.end == None then f.events <= EventsOf(pieces)
          else Alike(f, Ran(EventsOf(pieces), PastOf(past, pieces), rest, Some(if all then Enough else BlockEnd))))
      && (0 !in rooms && |rooms| > |ahead| ==> f.end.Some?)
  {
    hide Prefix20;
    hide Sized;
    hide AllWritable;
    hide Pieces;
    hide Entire;
    hide Fills20;
    hide EndBits;
    var pieces := Pieces(c, wanted, past, ts);
    BlockEntire(c, wanted, past, ts, rest);
    var all := PastOf(past, pieces).done >= wanted;
    Fills20Read(c, wanted, past, BitsOf(pieces) + (EndBits(c, all) + rest), rooms, size);
  }

  // Where the offsets of a written block come from.

  lemma PlaceInFour(c: Codes20, past: Past, t: Token)
    requires Writable(c, past, t)
    ensures t.Recent? ==> t.i < 4
  {}

  /** What is remembered before token n of a block. */
  ghost function PastBefore(c: Codes20, wanted: int, past: Past, ts: seq<Token>, n: nat): Past
    requires n <= |ts| && AllWritable(c, wanted, past, ts)
  {
    PastOf(past, Pieces(c, wanted, past, ts)[..n])
  }

  lemma {:induction false} EventAt(c: Codes20, wanted: int, past: Past, ts: seq<Token>, n: nat)
    requires n < |ts| && AllWritable(c, wanted, past, ts)
    ensures var p := PastBefore(c, wanted, past, ts, n);
      && Writable(c, p, ts[n]) && (ts[n].Recent? ==> ts[n].i < 4)
      && EventsOf(Pieces(c, wanted, past, ts))[n] == EventOf(Meaning(p, ts[n]).0)
      && PastBefore(c, wanted, past, ts, n + 1) == Meaning(p, ts[n]).1
    decreases n
  {
    hide Writable;
    hide Write;
    hide Meaning;
    hide EventsOf;
    PlaceInFour(c, past, ts[0]);
    var past' := Meaning(past, ts[0]).1;
    var first, all := Piece(Write(c, past, ts[0]), Meaning(past, ts[0]).0, past'), Pieces(c, wanted, past, ts);
    if n == 0 {
      assert all[..1] == [first] && all[..0] == [];
    } else {
      var rest := Pieces(c, wanted, past', ts[1..]);
      assert all == [first] + rest;
      EventAt(c, wanted, past', ts[1..], n - 1);
      assert all[..n] == [first] + rest[..n - 1] && all[..n + 1] == [first] + rest[..n];
      PastLater(first, rest[..n - 1], past);
      PastLater(first, rest[..n], past);
    }
  }

  /** What two tokens, of which the second takes an offset used before, ask for, by the offsets before them. */
  ghost predicate RecentLaw(t: Token, i: nat, length: nat, p: Past, e: Event, f: Event)
    requires i < 4 && (t.Recent? ==> t.i < 4)
  {
    match t
    case Recent(i', length') =>
      e == Copy(length', p.offset[i']) && f == Copy(length, if i == 0 then p.offset[i'] else p.offset[i - 1])
    case New(length', o) => e == Copy(length', o) && f == Copy(length, if i == 0 then o else p.offset[i - 1])
    case Short(o) => e == Copy(2, o) && f == Copy(length, if i == 0 then o else p.offset[i - 1])
    case Again =>
      e == Copy(p.length, p.offset[0]) && f == Copy(length, if i == 0 then p.offset[0] else p.offset[i - 1])
    case Plain(b) => e == Literal(b) && f == Copy(length, p.offset[i])
  }

  /** A match that says `recent` takes the offset that was used last for 0, and counts back through the uses for 1 to 3:
      whether an offset is new or was used before, it goes before the others. */
  lemma RecentOffsets(c: Codes20, wanted: int, past: Past, ts: seq<Token>, n: nat)
    requires n + 1 < |ts| && AllWritable(c, wanted, past, ts) && ts[n + 1].Recent?
    ensures ts[n + 1].i < 4 && (ts[n].Recent? ==> ts[n].i < 4)
    ensures var e := EventsOf(Pieces(c, wanted, past, ts));
      RecentLaw(ts[n], ts[n + 1].i, ts[n + 1].length, PastBefore(c, wanted, past, ts, n), e[n], e[n + 1])
  {
    hide Write;
    hide Pieces;
    hide EventsOf;
    hide Writable;
    EventAt(c, wanted, past, ts, n);
    EventAt(c, wanted, past, ts, n + 1);
  }

  /** A match once more is the match before it once more. */
  lemma AgainRepeats(c: Codes20, wanted: int, past: Past, ts: seq<Token>, n: nat)
    requires n + 1 < |ts| && AllWritable(c, wanted, past, ts) && ts[n + 1].Again? && !ts[n].Plain?
    ensures var e := EventsOf(Pieces(c, wanted, past, ts)); e[n + 1] == e[n]
  {
    hide Write;
    hide Pieces;
    hide EventsOf;
    hide NewWritable;
    hide RecentWritable;
    hide ShortWritable;
    EventAt(c, wanted, past, ts, n);
    EventAt(c, wanted, past, ts, n + 1);
  }
}

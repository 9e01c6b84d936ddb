/** The tokens of a RAR 5 block: what their bits mean, and how they are written. */
module Lz50 {
  import opened Machine
  import opened Bits
  import opened BitStrings
  import opened Canonical
  import opened Huffman
  import opened Slots
  import opened LzRuns
  import opened Decodings

  const MAIN_SIZE := 306
  const LOW_SIZE := 16
  const LENGTH_SIZE := 44
  const MAX_OFFSET_SIZE := 80

  /** The codes are no larger than a table's; before the first table they are empty. */
  ghost predicate Sized(c: Codes) {
    |c.main| <= MAIN_SIZE && |c.offset| <= MAX_OFFSET_SIZE && |c.low| <= LOW_SIZE && |c.length| <= LENGTH_SIZE
  }

  /** The latest offsets and the last length. */
  datatype Past = Past(offset: Offsets, length: nat)

  /** Why the reading of a block stops short of a full window. */
  datatype End = BlockDone | FilterAsked | Broken

  /** Far matches are a little longer than their slots say. */
  function FarBonus(offset: nat): nat {
    (if offset > 0x100 then 1 else 0) + (if offset > 0x2000 then 1 else 0) + (if offset > 0x4_0000 then 1 else 0)
  }

  /** A length from its slot and the extra bits ahead. */
  function ReadLength(ahead: seq<Bit>, slot: nat): Option<(nat, seq<Bit>)> {
    var k := LengthBits(slot);
    if k <= |ahead| then Some((LengthBase(slot) + Num(ahead[..k]), ahead[k..])) else None
  }

  /** The k extra bits of an offset; a symbol gives the lowest four when there are that many. */
  function ReadOffsetExtra(low: Lengths, truncated: bool, ahead: seq<Bit>, k: nat): Option<(nat, seq<Bit>)> {
    if k < 4 then
      if k <= |ahead| then Some((Num(ahead[..k]), ahead[k..])) else None
    else if |ahead| < k - 4 then None
    else
      var (res, left) := ReadCode(low, ahead[k - 4..], truncated);
      if !res.Symbol? then None else Some((16 * Num(ahead[..k - 4]) + res.value, left))
  }

  /** An offset: its slot, and the extra bits. */
  function ReadOffset(c: Codes, truncated: bool, ahead: seq<Bit>): Option<(nat, seq<Bit>)> {
    var (res, rest) := ReadCode(c.offset, ahead, truncated);
    if !res.Symbol? then None
    else
      var extra := ReadOffsetExtra(c.low, truncated, rest, OffsetBits(res.value));
      if extra == None then None else Some((OffsetBase(res.value) + extra.value.0, extra.value.1))
  }

  /** A match at a new offset, its length in slot i: what is remembered after it. */
  function ReadNew(c: Codes, truncated: bool, past: Past, ahead: seq<Bit>, i: nat): Option<(Past, seq<Bit>)> {
    var l := ReadLength(ahead, i);
    if l == None then None
    else
      var o := ReadOffset(c, truncated, l.value.1);
      if o == None then None
      else Some((Past(Pushed(past.offset, o.value.0), l.value.0 + FarBonus(o.value.0)), o.value.1))
  }

  /** A match at an offset used before. */
  function ReadRecent(c: Codes, truncated: bool, past: Past, ahead: seq<Bit>, i: nat): Option<(Past, seq<Bit>)>
    requires i < 4
  {
    var (slot, left) := ReadCode(c.length, ahead, truncated);
    if !slot.Symbol? then None
    else
      var l := ReadLength(left, slot.value);
      if l == None then None else Some((Past(Fronted(past.offset, i), l.value.0), l.value.1))
  }

  /** What the next bits of a block say. */
  function Step(c: Codes, truncated: bool, past: Past, ahead: seq<Bit>): Outcome<Past, End> {
    var (res, rest) := ReadCode(c.main, ahead, truncated);
    if res == EndOfBits then Halt(BlockDone, past, [])
    else if !res.Symbol? then Halt(Broken, past, ahead)
    else
      var sym := res.value;
      if sym < 256 then Act(Literally(sym), past, rest)
      else if sym == 256 then Halt(FilterAsked, past, rest)
      else if sym == 257 then Act(Match(past.length, past.offset[0]), past, rest)
      else
        var m :=
          if sym >= 262 then ReadNew(c, truncated, past, rest, sym - 262)
            else ReadRecent(c, truncated, past, rest, sym - 258);
        if m == None then Halt(Broken, past, ahead)
        else Act(Match(m.value.0.length, m.value.0.offset[0]), m.value.0, m.value.1)
  }

  lemma StepShrinks(c: Codes, truncated: bool, past: Past, ahead: seq<Bit>)
    ensures var o := Step(c, truncated, past, ahead);
      o.Act? ==> |o.rest| < |ahead|
  {
    hide ReadCode;
  }

  /** The end of a block is the end of its bits, and asking for a filter takes some. */
  lemma StepEnds(c: Codes, truncated: bool, past: Past, ahead: seq<Bit>)
    ensures var o := Step(c, truncated, past, ahead);
      o.Halt? ==>
        |o.rest| <= |ahead| && (o.end == BlockDone ==> o.rest == [] && !truncated)
        && (o.end == FilterAsked ==> |o.rest| < |ahead|)
  {
    hide WalkOf;
  }

  /** The steps of a block. */
  ghost function Steps(c: Codes, truncated: bool): (step: (Past, seq<Bit>) -> Outcome<Past, End>)
    ensures Shrinks(step)
  {
    forall past: Past, ahead: seq<Bit>
      ensures Step(c, truncated, past, ahead).Act? ==> |Step(c, truncated, past, ahead).rest| < |ahead| {
      StepShrinks(c, truncated, past, ahead);
    }
    (past: Past, ahead: seq<Bit>) => Step(c, truncated, past, ahead)
  }

  /** How much longer a match at a new offset is than its slot says: a byte for offsets past 0x100, another past 0x2000,
      and another past 0x40000. */
  ghost predicate FarLaw(offset: nat, extra: int) {
    if offset <= 0x100 then extra == 0
    else if offset <= 0x2000 then extra == 1
    else if offset <= 0x4_0000 then extra == 2
    else extra == 3
  }

  /** How long the matches of symbols 262 on, at new offsets, and of 258 to 261, at offsets used before, are. */
  lemma MatchLengths(c: Codes, truncated: bool, past: Past, ahead: seq<Bit>)
    ensures var (res, rest) := ReadCode(c.main, ahead, truncated);
      var o := Step(c, truncated, past, ahead);
      o.Act? && res.value >= 258 ==>
        && o.action.Match? && o.action == Match(o.past.length, o.past.offset[0])
        && if res.value >= 262 then
             && ReadLength(rest, res.value - 262).Some?
             && FarLaw(o.action.offset, o.action.length - ReadLength(rest, res.value - 262).value.0)
           else
             var (slot, left) := ReadCode(c.length, rest, truncated);
             && slot.Symbol? && ReadLength(left, slot.value).Some?
             && o.action == Match(ReadLength(left, slot.value).value.0, past.offset[res.value - 258])
  {
    hide ReadCode;
    hide ReadLength;
    hide ReadOffset;
  }

  // Writing tokens.

  datatype Token = Plain(c: byte) | New(length: nat, offset: nat) | Recent(i: nat, length: nat) | Again

  ghost predicate OffsetWritable(c: Codes, offset: nat) {
    && offset >= 1 && HasCode(c.offset, OffsetSlot(offset))
    && (OffsetBits(OffsetSlot(offset)) >= 4 ==> HasCode(c.low, (offset - OffsetBase(OffsetSlot(offset))) % 16))
  }

  ghost predicate Writable(c: Codes, t: Token) {
    match t
    case Plain(b) => HasCode(c.main, b)
    case New(length, offset) =>
      && OffsetWritable(c, offset) && length >= FarBonus(offset) + 2
      && LengthSlot(length - FarBonus(offset)) < LENGTH_SIZE
      && HasCode(c.main, 262 + LengthSlot(length - FarBonus(offset)))
    case Recent(i, length) => i < 4 && HasCode(c.main, 258 + i) && length >= 2 && HasCode(c.length, LengthSlot(length))
    case Again => HasCode(c.main, 257)
  }

  ghost function WriteLength(length: nat): seq<Bit>
    requires length >= 2
  {
    ToBits(length - LengthBase(LengthSlot(length)), LengthBits(LengthSlot(length)))
  }

  ghost function WriteOffset(c: Codes, offset: nat): seq<Bit>
    requires OffsetWritable(c, offset)
  {
    var slot := OffsetSlot(offset);
    var extra, k := offset - OffsetBase(slot), OffsetBits(slot);
    Code(c.offset, slot) + if k < 4 then ToBits(extra, k) else ToBits(extra / 16, k - 4) + Code(c.low, extra % 16)
  }

  ghost function Write(c: Codes, t: Token): seq<Bit>
    requires Writable(c, t)
  {
    match t
    case Plain(b) => Code(c.main, b)
    case New(length, offset) =>
      Code(c.main, 262 + LengthSlot(length - FarBonus(offset))) + WriteLength(length - FarBonus(offset))
        + WriteOffset(c, offset)
    case Recent(i, length) => Code(c.main, 258 + i) + Code(c.length, LengthSlot(length)) + WriteLength(length)
    case Again => Code(c.main, 257)
  }

  /** What a token means: a byte, or a match, and the offsets and length it leaves. */
  function Meaning(t: Token, past: Past): (Action, Past)
    requires t.Recent? ==> t.i < 4
  {
    match t
    case Plain(b) => (Literally(b), past)
    case New(length, offset) => (Match(length, offset), Past(Pushed(past.offset, offset), length))
    case Recent(i, length) => (Match(length, past.offset[i]), Past(Fronted(past.offset, i), length))
    case Again => (Match(past.length, past.offset[0]), past)
  }

  lemma ReadsLength(length: nat, rest: seq<Bit>)
    requires length >= 2
    ensures ReadLength(WriteLength(length) + rest, LengthSlot(length)) == Some((length, rest))
  {
    hide LengthBase;
    hide ToBits;
    ReadsNumber(length - LengthBase(LengthSlot(length)), LengthBits(LengthSlot(length)), rest);
  }

  lemma ReadsNear(c: Codes, offset: nat, rest: seq<Bit>)
    requires Prefix(c) && OffsetWritable(c, offset) && OffsetBits(OffsetSlot(offset)) < 4
    ensures ReadOffset(c, false, WriteOffset(c, offset) + rest) == Some((offset, rest))
  {
    hide Kraft;
    hide Code;
    hide ReadCode;
    hide OffsetBase;
    hide ToBits;
    var slot := OffsetSlot(offset);
    var extra := ToBits(offset - OffsetBase(slot), OffsetBits(slot));
    ReadsCode(c.offset, slot, extra + rest, false);
    ReadsNumber(offset - OffsetBase(slot), OffsetBits(slot), rest);
    Associate(Code(c.offset, slot), extra, [], rest);
  }

  lemma ReadsFar(c: Codes, offset: nat, rest: seq<Bit>)
    requires Prefix(c) && OffsetWritable(c, offset) && OffsetBits(OffsetSlot(offset)) >= 4
    ensures ReadOffset(c, false, WriteOffset(c, offset) + rest) == Some((offset, rest))
  {
    hide Kraft;
    hide Code;
    hide ReadCode;
    hide OffsetBase;
    hide OffsetBits;
    hide ToBits;
    var slot := OffsetSlot(offset);
    var extra, k := offset - OffsetBase(slot), OffsetBits(slot);
    var high, low := ToBits(extra / 16, k - 4), Code(c.low, extra % 16);
    ReadsCode(c.offset, slot, high + (low + rest), false);
    HighExtra(extra, k);
    ReadsNumber(extra / 16, k - 4, low + rest);
    ReadsCode(c.low, extra % 16, rest, false);
    Associate(Code(c.offset, slot), high, low, rest);
  }

  lemma ReadsOffset(c: Codes, offset: nat, rest: seq<Bit>)
    requires Prefix(c) && OffsetWritable(c, offset)
    ensures ReadOffset(c, false, WriteOffset(c, offset) + rest) == Some((offset, rest))
  {
    if OffsetBits(OffsetSlot(offset)) < 4 {
      ReadsNear(c, offset, rest);
    } else {
      ReadsFar(c, offset, rest);
    }
  }

  lemma NewReads(c: Codes, length: nat, offset: nat, past: Past, rest: seq<Bit>)
    requires Prefix(c) && Writable(c, New(length, offset))
    ensures var l, o := WriteLength(length - FarBonus(offset)), WriteOffset(c, offset);
      ReadNew(c, false, past, l + (o + rest), LengthSlot(length - FarBonus(offset)))
        == Some((Past(Pushed(past.offset, offset), length), rest))
  {
    hide Prefix;
    hide Pushed;
    hide ReadLength;
    hide ReadOffset;
    hide WriteLength;
    hide WriteOffset;
    ReadsLength(length - FarBonus(offset), WriteOffset(c, offset) + rest);
    ReadsOffset(c, offset, rest);
  }

  lemma RecentReads(c: Codes, i: nat, length: nat, past: Past, rest: seq<Bit>)
    requires Prefix(c) && Writable(c, Recent(i, length))
    ensures ReadRecent(c, false, past, Code(c.length, LengthSlot(length)) + (WriteLength(length) + rest), i)
      == Some((Past(Fronted(past.offset, i), length), rest))
  {
    hide Kraft;
    hide Code;
    hide ReadCode;
    hide ReadLength;
    hide WriteLength;
    hide Fronted;
    ReadsCode(c.length, LengthSlot(length), WriteLength(length) + rest, false);
    ReadsLength(length, rest);
  }

  /** Reading what was written for a token gives the token's meaning, and leaves exactly what followed. */
  lemma StepReads(c: Codes, t: Token, past: Past, rest: seq<Bit>)
    requires Sized(c) && Prefix(c) && Writable(c, t)
    ensures Step(c, false, past, Write(c, t) + rest) == Act(Meaning(t, past).0, Meaning(t, past).1, rest)
  {
    hide Kraft;
    hide Code;
    hide ReadCode;
    hide ReadNew;
    hide ReadRecent;
    hide WriteLength;
    hide WriteOffset;
    hide Fronted;
    hide Pushed;
    match t {
      case Plain(b) =>
        ReadsCode(c.main, b, rest, false);
      case New(length, offset) =>
        var slot := LengthSlot(length - FarBonus(offset));
        var l, o := WriteLength(length - FarBonus(offset)), WriteOffset(c, offset);
        ReadsCode(c.main, 262 + slot, l + (o + rest), false);
        NewReads(c, length, offset, past, rest);
        Associate(Code(c.main, 262 + slot), l, o, rest);
        PushedFirst(past.offset, offset);
      case Recent(i, length) =>
        var slot, l := LengthSlot(length), WriteLength(length);
        ReadsCode(c.main, 258 + i, Code(c.length, slot) + (l + rest), false);
        RecentReads(c, i, length, past, rest);
        Associate(Code(c.main, 258 + i), Code(c.length, slot), l, rest);
      case Again =>
        ReadsCode(c.main, 257, rest, false);
    }
  }

  // Blocks.

  /** The tokens of a list as the bits written for them, and what they come to. */
  ghost function Pieces(c: Codes, ts: seq<Token>, past: Past): (pieces: seq<Piece<Past>>)
    requires forall k :: 0 <= k < |ts| ==> Writable(c, ts[k])
    ensures |pieces| == |ts|
  {
    if ts == [] then []
    else
      assert Writable(c, ts[0]);
      var (action, past') := Meaning(ts[0], past);
      [Piece(Write(c, ts[0]), action, past')] + Pieces(c, ts[1..], past')
  }

  lemma {:induction false} PiecesRead(c: Codes, ts: seq<Token>, past: Past)
    requires Sized(c) && Prefix(c) && forall k :: 0 <= k < |ts| ==> Writable(c, ts[k])
    ensures AllRead(Steps(c, false), past, Pieces(c, ts, past))
    decreases |ts|
  {
    hide Writable;
    hide Write;
    hide Prefix;
    hide Step;
    if ts != [] {
      assert Writable(c, ts[0]);
      var p := Pieces(c, ts, past)[0];
      forall rest: seq<Bit> ensures Steps(c, false)(past, p.bits + rest) == Act(p.action, p.past, rest) {
        StepReads(c, ts[0], past, rest);
      }
      PiecesRead(c, ts[1..], p.past);
    }
  }

  /** The end of the bits is the end of the block. */
  lemma EndReads(c: Codes, past: Past)
    ensures Step(c, false, past, []) == Halt(BlockDone, past, [])
  {}

  /** What a run leaves, and where it stopped. */
  lemma RunLeaves(c: Codes, truncated: bool, past: Past, ahead: seq<Bit>, room: nat, size: nat)
    requires size > 0
    ensures var r := Run(Steps(c, truncated), past, ahead, room, size);
      && |r.rest| <= |ahead| && (r.end == Some(BlockDone) ==> r.rest == [] && !truncated)
  {
    hide Step;
    hide Run;
    var p, s := RunEnds(Steps(c, truncated), past, ahead, room, size);
    StepEnds(c, truncated, p, s);
  }

  lemma EntireLeaves(c: Codes, truncated: bool, past: Past, ahead: seq<Bit>)
    ensures var r := Entire(Steps(c, truncated), past, ahead);
      && |r.rest| <= |ahead| && (r.end == Some(BlockDone) ==> r.rest == [] && !truncated)
  {
    hide Step;
    hide Entire;
    var p, s := EntireEnds(Steps(c, truncated), past, ahead);
    StepEnds(c, truncated, p, s);
  }

  /** A block that was written for tokens says what the tokens mean, to its very end. */
  lemma BlockEntire(c: Codes, ts: seq<Token>, past: Past)
    requires Sized(c) && Prefix(c) && forall k :: 0 <= k < |ts| ==> Writable(c, ts[k])
    ensures var pieces := Pieces(c, ts, past);
      Entire(Steps(c, false), past, BitsOf(pieces)) == Ran(EventsOf(pieces), PastOf(past, pieces), [], Some(BlockDone))
  {
    hide Step;
    var pieces := Pieces(c, ts, past);
    PiecesRead(c, ts, past);
    EndReads(c, PastOf(past, pieces));
    PiecesEntire(Steps(c, false), past, pieces, []);
    assert BitsOf(pieces) + [] == BitsOf(pieces);
  }

  /** However many fills a block takes, they do what its tokens mean, to its very end. */
  lemma BlockReads(c: Codes, ts: seq<Token>, past: Past, rooms: seq<nat>, size: nat)
    requires Sized(c) && Prefix(c) && size > 0 && forall k :: 0 <= k < |ts| ==> Writable(c, ts[k])
    ensures var pieces := Pieces(c, ts, past);
      var f := InFills(Steps(c, false), past, BitsOf(pieces), rooms, size);
      && Filled(Steps(c, false), f, Ran(EventsOf(pieces), PastOf(past, pieces), [], Some(BlockDone)))
      && (0 !in rooms && |rooms| > |BitsOf(pieces)| ==> f.end.Some?)
  {
    hide Step;
    hide InFills;
    var pieces := Pieces(c, ts, past);
    PiecesRead(c, ts, past);
    EndReads(c, PastOf(past, pieces));
    RunReads(Steps(c, false), past, pieces, [], rooms, size);
    assert BitsOf(pieces) + [] == BitsOf(pieces);
  }

  // Where the offsets of a written block come from.

  /** What is remembered before token n of a block. */
  ghost function PastBefore(c: Codes, ts: seq<Token>, past: Past, n: nat): Past
    requires n <= |ts| && forall k :: 0 <= k < |ts| ==> Writable(c, ts[k])
  {
    PastOf(past, Pieces(c, ts, past)[..n])
  }

  /** The first token of a block, and then the others. */
  lemma PiecesFirst(c: Codes, ts: seq<Token>, past: Past)
    requires ts != [] && forall k :: 0 <= k < |ts| ==> Writable(c, ts[k])
    ensures Writable(c, ts[0]) && (ts[0].Recent? ==> ts[0].i < 4)
    ensures var past' := Meaning(ts[0], past).1;
      Pieces(c, ts, past)
        == [Piece(Write(c, ts[0]), Meaning(ts[0], past).0, past')] + Pieces(c, ts[1..], past')
  {
    hide Writable;
    hide Write;
    hide Meaning;
    assert Writable(c, ts[0]);
    RecentPlace(c, ts[0]);
  }

  lemma {:induction false} EventAt(c: Codes, ts: seq<Token>, past: Past, n: nat)
    requires n < |ts| && forall k :: 0 <= k < |ts| ==> Writable(c, ts[k])
    ensures Writable(c, ts[n])
    ensures var p := PastBefore(c, ts, past, n);
      && EventsOf(Pieces(c, ts, past))[n] == EventOf(Meaning(ts[n], p).0)
      && PastBefore(c, ts, past, n + 1) == Meaning(ts[n], p).1
    decreases n
  {
    hide Writable;
    hide Write;
    hide Meaning;
    hide EventsOf;
    hide Pieces;
    PiecesFirst(c, ts, past);
    assert Writable(c, ts[n]);
    var past' := Meaning(ts[0], past).1;
    var first, all := Piece(Write(c, ts[0]), Meaning(ts[0], past).0, past'), Pieces(c, ts, past);
    if n == 0 {
      assert all[..1] == [first] && all[..0] == [];
    } else {
      var rest := Pieces(c, ts[1..], past');
      assert all == [first] + rest;
      EventAt(c, ts[1..], past', n - 1);
      assert all[..n] == [first] + rest[..n - 1] && all[..n + 1] == [first] + rest[..n];
      PastLater(first, rest[..n - 1], past);
      PastLater(first, rest[..n], past);
    }
  }

  lemma RecentPlace(c: Codes, t: Token)
    requires Writable(c, t)
    ensures t.Recent? ==> t.i < 4
  {}

  /** What two tokens, of which the second takes an offset used before, ask for, by the offsets before them. */
  ghost predicate RecentLaw(t: Token, i: nat, length: nat, offset: Offsets, e: Event, f: Event)
    requires i < 4 && (t.Recent? ==> t.i < 4)
  {
    match t
    case Recent(i', length') => e == Copy(length', offset[i']) && f == Copy(length, offset[OldPlace(i', i)])
    case New(length', o) => e == Copy(length', o) && f == Copy(length, if i == 0 then o else offset[i - 1])
    case _ => f == Copy(length, offset[i])
  }

  /** A match that says `recent` takes the offset that was used last for 0, and counts back through the uses for 1 to 3:
      a new offset goes before the others, and one that is used again comes to the front. */
  lemma RecentOffsets(c: Codes, ts: seq<Token>, past: Past, n: nat)
    requires n + 1 < |ts| && forall k :: 0 <= k < |ts| ==> Writable(c, ts[k])
    requires ts[n + 1].Recent?
    ensures ts[n + 1].i < 4 && (ts[n].Recent? ==> ts[n].i < 4)
    ensures var e := EventsOf(Pieces(c, ts, past));
      RecentLaw(ts[n], ts[n + 1].i, ts[n + 1].length, PastBefore(c, ts, past, n).offset, e[n], e[n + 1])
  {
    hide Write;
    hide Pieces;
    hide EventsOf;
    hide Writable;
    RecentPlace(c, ts[n]);
    RecentPlace(c, ts[n + 1]);
    EventAt(c, ts, past, n);
    EventAt(c, ts, past, n + 1);
  }

  /** A match once more is the match before it once more. */
  lemma AgainRepeats(c: Codes, ts: seq<Token>, past: Past, n: nat)
    requires n + 1 < |ts| && forall k :: 0 <= k < |ts| ==> Writable(c, ts[k])
    requires ts[n + 1].Again? && !ts[n].Plain?
    ensures var e := EventsOf(Pieces(c, ts, past)); e[n + 1] == e[n]
  {
    hide Writable;
    hide Write;
    RecentPlace(c, ts[n]);
    hide Pieces;
    hide EventsOf;
    EventAt(c, ts, past, n);
    EventAt(c, ts, past, n + 1);
  }
}

/** The slot tables of the decoders for RAR 2.0 and 3.0, and reading with them. */
module LzTables {
  import opened Machine
  import opened Bits
  import opened BitStrings
  import opened BitReaders
  import opened Canonical
  import opened Huffman
  import opened LzRuns
  import opened Slots

  const LENGTH_BASE: seq<nat> :=
    [0, 1, 2, 3, 4, 5, 6, 7, 8, 10, 12, 14, 16, 20, 24, 28, 32, 40, 48, 56, 64, 80, 96, 112,
                                  128, 160, 192, 224]
  const LENGTH_BITS: seq<nat> := [0, 0, 0, 0, 0, 0, 0, 0, 1, 1, 1, 1, 2, 2, 2, 2, 3, 3, 3, 3, 4, 4, 4, 4, 5, 5, 5, 5]

  const OFFSET_BASE_1: seq<nat> := [0, 1, 2, 3, 4, 6, 8, 12, 16, 24, 32, 48]
  const OFFSET_BASE_2: seq<nat> := [64, 96, 128, 192, 256, 384, 512, 768, 1024, 1536, 2048, 3072]
  const OFFSET_BASE_3: seq<nat> := [4096, 6144, 8192, 12288, 16384, 24576, 32768, 49152, 65536, 98304, 131072, 196608]
  const OFFSET_BASE_4: seq<nat> :=
    [262144, 327680, 393216, 458752, 524288, 589824, 655360, 720896, 786432, 851968, 917504, 983040]
  const OFFSET_BASE_5: seq<nat> :=
    [1048576, 1310720, 1572864, 1835008, 2097152, 2359296, 2621440, 2883584, 3145728, 3407872, 3670016, 3932160]
  const OFFSET_BITS_1: seq<nat> := [0, 0, 0, 0, 1, 1, 2, 2, 3, 3, 4, 4]
  const OFFSET_BITS_2: seq<nat> := [5, 5, 6, 6, 7, 7, 8, 8, 9, 9, 10, 10]
  const OFFSET_BITS_3: seq<nat> := [11, 11, 12, 12, 13, 13, 14, 14, 15, 15, 16, 16]
  const OFFSET_BITS_4: seq<nat> := [16, 16, 16, 16, 16, 16, 16, 16, 16, 16, 16, 16]
  const OFFSET_BITS_5: seq<nat> := [18, 18, 18, 18, 18, 18, 18, 18, 18, 18, 18, 18]

  const OFFSET_BASE: seq<nat> := OFFSET_BASE_1 + OFFSET_BASE_2 + OFFSET_BASE_3 + OFFSET_BASE_4 + OFFSET_BASE_5
  const OFFSET_BITS: seq<nat> := OFFSET_BITS_1 + OFFSET_BITS_2 + OFFSET_BITS_3 + OFFSET_BITS_4 + OFFSET_BITS_5

  const SHORT_BASE: seq<nat> := [0, 4, 8, 16, 32, 64, 128, 192]
  const SHORT_BITS: seq<nat> := [2, 2, 3, 4, 5, 6, 6, 6]

  const LENGTHS_END := 256
  const OFFSETS_END := 0x40_0000
  const SHORTS_END := 256

  /** The slots of a table follow each other without gaps, from the start to the end. */
  ghost predicate Chain(base: seq<nat>, bits: seq<nat>, start: nat, end: nat) {
    && |base| == |bits| > 0 && base[0] == start
    && (forall i :: 0 <= i < |base| - 1 ==> base[i + 1] == base[i] + Pow2(bits[i]))
    && end == base[|base| - 1] + Pow2(bits[|bits| - 1])
  }

  ghost predicate Covers(base: seq<nat>, bits: seq<nat>, end: nat) { Chain(base, bits, 0, end) }

  lemma ChainJoin(base: seq<nat>, bits: seq<nat>, start: nat, middle: nat, base': seq<nat>, bits': seq<nat>, end: nat)
    requires Chain(base, bits, start, middle) && Chain(base', bits', middle, end)
    ensures Chain(base + base', bits + bits', start, end)
  {}

  lemma Powers()
    ensures Pow2(0) == 1 && Pow2(1) == 2 && Pow2(2) == 4 && Pow2(3) == 8 && Pow2(4) == 16 && Pow2(5) == 32
      && Pow2(6) == 64
    ensures Pow2(7) == 128 && Pow2(8) == 256 && Pow2(9) == 512 && Pow2(10) == 1024 && Pow2(11) == 2048
      && Pow2(12) == 4096
    ensures Pow2(13) == 8192 && Pow2(14) == 16384 && Pow2(15) == 32768 && Pow2(16) == 65536 && Pow2(18) == 262144
  {
    assert Pow2(0) == 1 && Pow2(1) == 2 && Pow2(2) == 4 && Pow2(3) == 8 && Pow2(4) == 16;
    assert Pow2(5) == 32 && Pow2(6) == 64 && Pow2(7) == 128 && Pow2(8) == 256;
    assert Pow2(9) == 512 && Pow2(10) == 1024 && Pow2(11) == 2048 && Pow2(12) == 4096;
    assert Pow2(13) == 8192 && Pow2(14) == 16384 && Pow2(15) == 32768 && Pow2(16) == 65536;
  }

  lemma LengthsCovered()
    ensures Covers(LENGTH_BASE, LENGTH_BITS, LENGTHS_END) && |LENGTH_BASE| == 28
  {
    hide Pow2;
    Powers();
  }

  lemma OffsetsCovered()
    ensures Covers(OFFSET_BASE, OFFSET_BITS, OFFSETS_END) && |OFFSET_BASE| == 60
  {
    hide Chain;
    OffsetRows();
    var b2, k2 := OFFSET_BASE_1 + OFFSET_BASE_2, OFFSET_BITS_1 + OFFSET_BITS_2;
    ChainJoin(OFFSET_BASE_1, OFFSET_BITS_1, 0, 64, OFFSET_BASE_2, OFFSET_BITS_2, 4096);
    ChainJoin(b2, k2, 0, 4096, OFFSET_BASE_3, OFFSET_BITS_3, 262144);
    ChainJoin(b2 + OFFSET_BASE_3, k2 + OFFSET_BITS_3, 0, 262144, OFFSET_BASE_4, OFFSET_BITS_4, 1048576);
    ChainJoin(b2 + OFFSET_BASE_3 + OFFSET_BASE_4, k2 + OFFSET_BITS_3 + OFFSET_BITS_4, 0, 1048576, OFFSET_BASE_5,
              OFFSET_BITS_5, OFFSETS_END);
  }

  lemma OffsetRows()
    ensures Chain(OFFSET_BASE_1, OFFSET_BITS_1, 0, 64) && Chain(OFFSET_BASE_2, OFFSET_BITS_2, 64, 4096)
    ensures Chain(OFFSET_BASE_3, OFFSET_BITS_3, 4096, 262144) && Chain(OFFSET_BASE_4, OFFSET_BITS_4, 262144, 1048576)
    ensures Chain(OFFSET_BASE_5, OFFSET_BITS_5, 1048576, OFFSETS_END)
  {
    hide Pow2;
    Powers();
  }

  lemma ShortsCovered()
    ensures Covers(SHORT_BASE, SHORT_BITS, SHORTS_END) && |SHORT_BASE| == 8
  {
    hide Pow2;
    Powers();
  }

  /** Slots of a row of the offset table go by the two highest bits, as those of RAR 5 do. */
  ghost predicate RowFollows(base: seq<nat>, bits: seq<nat>, first: nat) {
    |base| == |bits| == 12
    && forall i :: 0 <= i < 12 ==> bits[i] == OffsetBits(first + i) && base[i] + 1 == OffsetBase(first + i)
  }

  /** Slots of a row that all have k extra bits. */
  ghost predicate RowLevel(base: seq<nat>, bits: seq<nat>, first: nat, k: nat) {
    |base| == |bits| == 12 && forall i :: 0 <= i < 12 ==> bits[i] == k && base[i] == first + i * Pow2(k)
  }

  lemma RowOneFollows()
    ensures RowFollows(OFFSET_BASE_1, OFFSET_BITS_1, 0)
  {
    hide Pow2;
    Powers();
  }

  lemma RowTwoFollows()
    ensures RowFollows(OFFSET_BASE_2, OFFSET_BITS_2, 12)
  {
    hide Pow2;
    Powers();
  }

  lemma RowThreeFollows()
    ensures RowFollows(OFFSET_BASE_3, OFFSET_BITS_3, 24)
  {
    hide Pow2;
    Powers();
  }

  lemma RowsLevel()
    ensures RowLevel(OFFSET_BASE_4, OFFSET_BITS_4, 0x4_0000, 16)
      && RowLevel(OFFSET_BASE_5, OFFSET_BITS_5, 0x10_0000, 18)
  {
    hide Pow2;
    Powers();
  }

  lemma LengthsFollow()
    ensures forall i :: 0 <= i < 28 ==> LENGTH_BITS[i] == LengthBits(i) && LENGTH_BASE[i] + 2 == LengthBase(i)
  {
    hide Pow2;
    Powers();
  }

  /** The tables go by the highest bits as the slots of RAR 5 do: all lengths, and offsets below 2^18. From there on an
      offset has 16 extra bits, and from 2^20 on 18. */
  lemma TablesFollowSlots()
    ensures forall i :: 0 <= i < 28 ==> LENGTH_BITS[i] == LengthBits(i) && LENGTH_BASE[i] + 2 == LengthBase(i)
    ensures forall i :: 0 <= i < 36 ==> OFFSET_BITS[i] == OffsetBits(i) && OFFSET_BASE[i] + 1 == OffsetBase(i)
    ensures forall i :: 36 <= i < 48 ==> OFFSET_BITS[i] == 16 && OFFSET_BASE[i] == 0x4_0000 + (i - 36) * 0x1_0000
    ensures forall i :: 48 <= i < 60 ==> OFFSET_BITS[i] == 18 && OFFSET_BASE[i] == 0x10_0000 + (i - 48) * 0x4_0000
  {
    hide Pow2;
    hide LengthBits;
    hide LengthBase;
    hide OffsetBits;
    hide OffsetBase;
    hide LENGTH_BASE;
    hide LENGTH_BITS;
    hide OFFSET_BASE_1;
    hide OFFSET_BASE_2;
    hide OFFSET_BASE_3;
    hide OFFSET_BASE_4;
    hide OFFSET_BASE_5;
    hide OFFSET_BITS_1;
    hide OFFSET_BITS_2;
    hide OFFSET_BITS_3;
    hide OFFSET_BITS_4;
    hide OFFSET_BITS_5;
    Powers();
    LengthsFollow();
    RowOneFollows();
    RowTwoFollows();
    RowThreeFollows();
    RowsLevel();
  }

  /** The near offsets have 2, 2, 3, 4, 5, 6, 6 and 6 extra bits. */
  lemma ShortRanges(x: nat)
    requires x < 256
    ensures Covers(SHORT_BASE, SHORT_BITS, SHORTS_END)
    ensures SlotIn(SHORT_BASE, SHORT_BITS, SHORTS_END, x) == if x < 4 then 0 else if x < 8 then 1 else if x < 16 then 2
      else if x < 32 then 3 else if x < 64 then 4 else 4 + x / 64
  {
    hide Pow2;
    Powers();
    ShortsCovered();
  }

  /** A table as ranges for all slots: after its end, one number to a slot. */
  ghost function BaseOn(base: seq<nat>, end: nat): nat -> nat {
    (n: nat) => if n < |base| then base[n] else end + (n - |base|)
  }

  ghost function BitsOn(bits: seq<nat>): nat -> nat {
    (n: nat) => if n < |bits| then bits[n] else 0
  }

  lemma CoversTiles(base: seq<nat>, bits: seq<nat>, end: nat)
    requires Covers(base, bits, end)
    ensures Tiles(BaseOn(base, end), BitsOn(bits))
  {
    var b, k := BaseOn(base, end), BitsOn(bits);
    forall n: nat ensures b(n + 1) == b(n) + Pow2(k(n)) {
      if n + 1 < |base| {
        assert base[n + 1] == base[n] + Pow2(bits[n]);
      }
    }
  }

  /** The slot that x is in. */
  ghost function SlotIn(base: seq<nat>, bits: seq<nat>, end: nat, x: nat): (slot: nat)
    requires Covers(base, bits, end) && x < end
    ensures slot < |base| && base[slot] <= x < base[slot] + Pow2(bits[slot])
  {
    CoversTiles(base, bits, end);
    var slot := SlotFrom(BaseOn(base, end), BitsOn(bits), x, 0);
    assert slot < |base| by { assert slot >= |base| ==> BaseOn(base, end)(slot) >= end; }
    slot
  }

  /** Slots and extra bits are one-to-one with the numbers below the end, and larger slots mean larger numbers. */
  lemma SlotCoding(base: seq<nat>, bits: seq<nat>, end: nat, slot: nat, extra: nat)
    requires Covers(base, bits, end) && slot < |base| && extra < Pow2(bits[slot])
    ensures base[slot] + extra < end && SlotIn(base, bits, end, base[slot] + extra) == slot
    ensures forall other :: slot < other < |base| ==> base[slot] + extra < base[other]
  {
    var b, k := BaseOn(base, end), BitsOn(bits);
    CoversTiles(base, bits, end);
    forall other: nat | slot < other <= |base| ensures b(slot) + extra < b(other) {
      assert b(slot + 1) == b(slot) + Pow2(k(slot));
      Rising(b, k, slot + 1, other);
    }
    assert b(|base|) == end;
    forall other | slot < other < |base| ensures base[slot] + extra < base[other] {
      assert b(slot) + extra < b(other);
    }
    var s := SlotIn(base, bits, end, base[slot] + extra);
    OneSlot(b, k, base[slot] + extra, slot, s);
  }

  // Reading.

  /** What was read and the bits left; or the bits end, or no code begins like this. */
  datatype Part<T> = Part(value: T, rest: seq<Bit>) | Ends | Misses

  function ReadSymbol(lengths: Lengths, ahead: seq<Bit>): (p: Part<nat>)
    ensures p.Part? ==> p.value < |lengths| && |p.rest| < |ahead|
  {
    var (res, rest) := ReadCode(lengths, ahead, false);
    match res
    case Symbol(s) => Part(s, rest)
    case NoSymbol => Misses
    case _ => Ends
  }

  function ReadExtra(ahead: seq<Bit>, k: nat): (p: Part<nat>)
    ensures p.Part? ==> |p.rest| == |ahead| - k
  {
    if k <= |ahead| then Part(Num(ahead[..k]), ahead[k..]) else Ends
  }

  /** A number from its slot in a table. */
  function ReadSlot(base: seq<nat>, bits: seq<nat>, slot: nat, ahead: seq<Bit>): (p: Part<nat>)
    requires slot < |base| == |bits|
    ensures p.Part? ==> |p.rest| <= |ahead|
  {
    var extra := ReadExtra(ahead, bits[slot]);
    if extra.Part? then Part(base[slot] + extra.value, extra.rest) else extra
  }

  /** A number read from a slot lies in the slot's range. */
  lemma SlotBounds(base: seq<nat>, bits: seq<nat>, end: nat, slot: nat, ahead: seq<Bit>)
    requires Covers(base, bits, end) && slot < |base|
    ensures var p := ReadSlot(base, bits, slot, ahead);
      p.Part? ==>
        base[slot] <= p.value < base[slot] + Pow2(bits[slot]) && p.value < end
        && SlotIn(base, bits, end, p.value) == slot
  {
    var p := ReadSlot(base, bits, slot, ahead);
    if p.Part? {
      SlotCoding(base, bits, end, slot, p.value - base[slot]);
    }
  }

  /** The extra bits of a number in a table. */
  ghost function ExtraOf(base: seq<nat>, bits: seq<nat>, end: nat, x: nat): seq<Bit>
    requires Covers(base, bits, end) && x < end
  {
    var slot := SlotIn(base, bits, end, x);
    ToBits(x - base[slot], bits[slot])
  }

  lemma ReadsSlot(base: seq<nat>, bits: seq<nat>, end: nat, x: nat, rest: seq<Bit>)
    requires Covers(base, bits, end) && x < end
    ensures ReadSlot(base, bits, SlotIn(base, bits, end, x), ExtraOf(base, bits, end, x) + rest) == Part(x, rest)
  {
    hide ToBits;
    var slot := SlotIn(base, bits, end, x);
    ReadsNumber(x - base[slot], bits[slot], rest);
  }

  lemma ReadsSymbol(lengths: Lengths, s: nat, rest: seq<Bit>)
    requires Kraft(lengths) && s < |lengths| && lengths[s] > 0
    ensures ReadSymbol(lengths, Code(lengths, s) + rest) == Part(s, rest)
  {
    hide Kraft;
    hide Code;
    hide ReadCode;
    ReadsCode(lengths, s, rest, false);
  }

  // Lengths and offsets, read and written.

  /** Far matches are a little longer than their slots say. */
  function Bonus(offset: nat): nat {
    (if offset >= 0x2000 then 1 else 0) + (if offset >= 0x4_0000 then 1 else 0)
  }

  ghost function LengthSlot(length: nat): (slot: nat)
    requires length < LENGTHS_END
    ensures slot < 28
  {
    LengthsCovered();
    SlotIn(LENGTH_BASE, LENGTH_BITS, LENGTHS_END, length)
  }

  ghost function WriteLength(length: nat): seq<Bit>
    requires length < LENGTHS_END
  {
    LengthsCovered();
    ExtraOf(LENGTH_BASE, LENGTH_BITS, LENGTHS_END, length)
  }

  ghost function ShortSlot(offset: nat): (slot: nat)
    requires offset < SHORTS_END
    ensures slot < 8
  {
    ShortsCovered();
    SlotIn(SHORT_BASE, SHORT_BITS, SHORTS_END, offset)
  }

  ghost function OffsetSlot(offset: nat): (slot: nat)
    requires offset < OFFSETS_END
    ensures slot < 60 && OFFSET_BASE[slot] <= offset < OFFSET_BASE[slot] + Pow2(OFFSET_BITS[slot])
  {
    OffsetsCovered();
    SlotIn(OFFSET_BASE, OFFSET_BITS, OFFSETS_END, offset)
  }

  /** An offset's extra bits, counted from 0. */
  ghost function ExtraBits(offset: nat): (extra: nat)
    requires offset < OFFSETS_END
    ensures extra < Pow2(OFFSET_BITS[OffsetSlot(offset)])
  {
    offset - OFFSET_BASE[OffsetSlot(offset)]
  }

  /** The number in the length's slot for a new match. */
  function Plainly(length: nat, offset: nat): int { length - 3 - Bonus(offset) }

  ghost predicate LengthWritable(c: Lengths, first: nat, length: int) {
    0 <= length < LENGTHS_END && HasCode(c, first + LengthSlot(length))
  }

  lemma ReadsLength(length: nat, rest: seq<Bit>)
    requires length < LENGTHS_END
    ensures ReadSlot(LENGTH_BASE, LENGTH_BITS, LengthSlot(length), WriteLength(length) + rest) == Part(length, rest)
  {
    LengthsCovered();
    ReadsSlot(LENGTH_BASE, LENGTH_BITS, LENGTHS_END, length, rest);
  }

  // The same from a bit reader.

  datatype Taken = Took(value: nat) | OutOfBits | Unknown

  /** What was taken is what was to be read, and what is left is ahead. */
  ghost predicate Agrees(t: Taken, p: Part<nat>, ahead: seq<Bit>) {
    match p
    case Part(v, rest) => t == Took(v) && ahead == rest
    case Ends => t == OutOfBits
    case Misses => t == Unknown
  }

  method TakeSymbol(br: RarBitReader, h: HuffmanDecoder) returns (t: Taken)
    requires br.Valid() && h.Valid()
    modifies br, br.r
    ensures br.Valid() && h.Valid() && |br.Ahead()| <= |old(br.Ahead())|
    ensures t.Took? ==> t.value < |h.lengths| && |br.Ahead()| < |old(br.Ahead())|
    ensures Kraft(h.lengths) ==> Agrees(t, ReadSymbol(h.lengths, old(br.Ahead())), br.Ahead())
  {
    hide HuffmanDecoder.Valid;
    hide RarBitReader.Valid;
    hide RarBitReader.Ahead;
    hide Kraft;
    hide Reading;
    var res, used := h.ReadSym(Rar(br));
    match res {
      case Symbol(s) => t := Took(s);
      case NoSymbol => t := Unknown;
      case _ => t := OutOfBits;
    }
  }

  method TakeExtra(br: RarBitReader, k: nat) returns (t: Taken)
    requires br.Valid() && k <= MAX_READ
    modifies br, br.r
    ensures br.Valid() && |br.Ahead()| <= |old(br.Ahead())|
    ensures Agrees(t, ReadExtra(old(br.Ahead()), k), br.Ahead())
  {
    hide RarBitReader.Valid;
    hide RarBitReader.Ahead;
    hide Num;
    var n := br.ReadBits(k);
    t := if n == None then OutOfBits else Took(n.value);
  }

  /** Extra bits are read only if there are any. */
  method TakeSlot(br: RarBitReader, base: seq<nat>, bits: seq<nat>, slot: nat) returns (t: Taken)
    requires br.Valid() && slot < |base| == |bits| && bits[slot] <= MAX_READ
    modifies br, br.r
    ensures br.Valid() && |br.Ahead()| <= |old(br.Ahead())|
    ensures Agrees(t, ReadSlot(base, bits, slot, old(br.Ahead())), br.Ahead())
  {
    hide RarBitReader.Valid;
    hide RarBitReader.Ahead;
    hide Num;
    if bits[slot] == 0 {
      NoBits(br.Ahead());
      return Took(base[slot]);
    }
    var n := TakeExtra(br, bits[slot]);
    t := if n.Took? then Took(base[slot] + n.value) else n;
  }

  /** A symbol for a slot of a table, and the number in it. */
  method TakeIn(br: RarBitReader, h: HuffmanDecoder, base: seq<nat>, bits: seq<nat>) returns (t: Taken)
    requires br.Valid() && h.Valid() && |h.lengths| <= |base| == |bits|
      && forall i :: 0 <= i < |bits| ==> bits[i] <= MAX_READ
    modifies br, br.r
    ensures br.Valid() && h.Valid() && |br.Ahead()| <= |old(br.Ahead())|
    ensures Kraft(h.lengths) ==>
      match ReadSymbol(h.lengths, old(br.Ahead())) {
        case Part(slot, rest) => Agrees(t, ReadSlot(base, bits, slot, rest), br.Ahead())
        case Ends => t == OutOfBits
        case Misses => t == Unknown
      }
  {
    hide HuffmanDecoder.Valid;
    hide RarBitReader.Valid;
    hide RarBitReader.Ahead;
    hide Kraft;
    hide ReadSymbol;
    hide ReadSlot;
    t := TakeSymbol(br, h);
    if t.Took? {
      t := TakeSlot(br, base, bits, t.value);
    }
  }

  lemma NoBits(ahead: seq<Bit>)
    ensures ReadExtra(ahead, 0) == Part(0, ahead)
  {}

  /** No slot has more extra bits than can be read at once. */
  lemma FewBits()
    ensures (forall i :: 0 <= i < 28 ==> LENGTH_BITS[i] <= 5) && (forall i :: 0 <= i < 8 ==> SHORT_BITS[i] <= 6)
    ensures forall i :: 0 <= i < 60 ==> OFFSET_BITS[i] <= 18
    ensures |LENGTH_BASE| == |LENGTH_BITS| == 28 && |SHORT_BASE| == |SHORT_BITS| == 8
      && |OFFSET_BASE| == |OFFSET_BITS| == 60
  {}

  // The window's four latest offsets.

  method PushOffset(offset: array<nat>, o: nat)
    requires offset.Length == 4
    modifies offset
    ensures offset[..] == Pushed(old(offset[..]), o)
  {
    forall k | 1 <= k < 4 {
      offset[k] := offset[k - 1];
    }
    offset[0] := o;
  }
}

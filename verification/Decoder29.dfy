/** The RAR 3.0 decoder of Lempel-Ziv blocks: it reads tokens with four Huffman decoders and writes the window. */
module Decoder29s {
  import opened Machine
  import opened Bits
  import opened BitStrings
  import opened BitReaders
  import opened Canonical
  import CodeLengths
  import opened Huffman
  import opened DecoderSets
  import opened LzRuns
  import opened LzTables
  import opened Lz29
  import opened DR = DecodeReaders
  import opened Decodings

  const TABLE_SIZE := MAIN_SIZE + OFFSET_SIZE + LOW_SIZE + LENGTH_SIZE

  function Fault(t: Taken): End {
    if t == Unknown then BadCode else NoData
  }

  ghost predicate IsFault(e: End) { e == NoData || e == BadCode }

  /** A number was taken with these lowest bits remembered, or nothing can be read. */
  ghost predicate AgreesLow(t: Taken, p: Part<(nat, nat, nat)>, low: nat, repeats: nat, ahead: seq<Bit>) {
    match p
    case Part(v, rest) => t == Took(v.0) && (low, repeats) == (v.1, v.2) && ahead == rest
    case Ends => t == OutOfBits
    case Misses => t == Unknown
  }

  /** A match was read and this is remembered, or nothing can be read. */
  ghost predicate AgreesMatch(t: Taken, p: Part<Past>, past: Past, ahead: seq<Bit>) {
    match p
    case Part(v, rest) => t.Took? && past == v && ahead == rest
    case Ends => t == OutOfBits
    case Misses => t == Unknown
  }

  /** n whole bytes. */
  method ReadFull(br: RarBitReader, n: nat) returns (data: Option<seq<byte>>)
    requires br.Valid()
    modifies br, br.r
    ensures br.Valid() && |br.Ahead()| <= |old(br.Ahead())|
    ensures match ReadBytes(old(br.Ahead()), n) {
        case Part(d, rest) => data == Some(d) && br.Ahead() == rest
        case _ => data == None
      }
  {
    hide RarBitReader.Valid;
    hide RarBitReader.Ahead;
    hide ToBits;
    hide Num;
    hide ReadBytes;
    hide WithBytes;
    var b: seq<byte> := [];
    ghost var all := ReadBytes(br.Ahead(), n);
    WithNone(all);
    for i := 0 to n
      invariant br.Valid() && |br.Ahead()| <= |old(br.Ahead())| && |b| == i
      invariant all == WithBytes(b, ReadBytes(br.Ahead(), n - i))
    {
      ghost var ahead := br.Ahead();
      BytesNext(ahead, n - i);
      var c := br.ReadByte();
      if c == None {
        NoBytes(b);
        return None;
      }
      ByteValue(c.value);
      WithBytesTwice(b, [c.value], ReadBytes(br.Ahead(), n - i - 1));
      b := b + [c.value];
    }
    BytesNext(br.Ahead(), 0);
    AllBytes(b, br.Ahead());
    data := Some(b);
  }

  lemma BytesNext(ahead: seq<Bit>, n: nat)
    ensures n == 0 ==> ReadBytes(ahead, n) == Part([], ahead)
    ensures n > 0 && |ahead| < 8 ==> ReadBytes(ahead, n) == Ends
    ensures n > 0 && |ahead| >= 8 ==>
      Num(ahead[..8]) < 0x100 && ReadBytes(ahead, n) == WithBytes([Num(ahead[..8])], ReadBytes(ahead[8..], n - 1))
  {
    if |ahead| >= 8 {
      ByteAhead(ahead);
    }
  }

  lemma NoBytes(b: seq<byte>)
    ensures !WithBytes(b, Ends).Part?
  {}

  lemma AllBytes(b: seq<byte>, rest: seq<Bit>)
    ensures WithBytes(b, Part([], rest)) == Part(b, rest)
  {
    assert b + [] == b;
  }

  /** The number of bytes of a filter's description after the first. */
  method ReadSize(br: RarBitReader, flags: nat) returns (t: Taken)
    requires br.Valid()
    modifies br, br.r
    ensures br.Valid() && |br.Ahead()| <= |old(br.Ahead())|
    ensures Agrees(t, ReadDataSize(flags, old(br.Ahead())), br.Ahead())
  {
    hide RarBitReader.Valid;
    hide RarBitReader.Ahead;
    hide Num;
    var n := flags % 8 + 1;
    if n == 7 {
      t := TakeExtra(br, 8);
      if t.Took? {
        t := Took(t.value + 7);
      }
    } else if n == 8 {
      t := TakeExtra(br, 16);
    } else {
      t := Took(n);
    }
  }

  /** A filter's description. */
  method TakeFilterData(br: RarBitReader) returns (data: Option<seq<byte>>)
    requires br.Valid()
    modifies br, br.r
    ensures br.Valid() && |br.Ahead()| <= |old(br.Ahead())|
    ensures match ReadFilterData(old(br.Ahead())) {
        case Part(d, rest) => data == Some(d) && br.Ahead() == rest
        case _ => data == None
      }
  {
    hide RarBitReader.Valid;
    hide RarBitReader.Ahead;
    hide ReadBytes;
    hide ReadDataSize;
    var flags := ReadFull(br, 1);
    if flags == None {
      return None;
    }
    var n := ReadSize(br, flags.value[0]);
    if !n.Took? {
      return None;
    }
    var payload := ReadFull(br, n.value);
    data := if payload == None then None else Some(flags.value + payload.value);
  }

  /** What ends with the block. */
  method TakeMark(br: RarBitReader) returns (end: Option<End>)
    requires br.Valid()
    modifies br, br.r
    ensures br.Valid() && |br.Ahead()| <= |old(br.Ahead())|
    ensures match ReadMark(old(br.Ahead())) {
        case Part(e, rest) => end == Some(e) && br.Ahead() == rest
        case _ => end == None
      }
  {
    hide RarBitReader.Valid;
    hide RarBitReader.Ahead;
    ghost var ahead := br.Ahead();
    OneBit(ahead);
    var n := br.ReadBits(1);
    if n == None {
      return None;
    }
    if n.value > 0 {
      return Some(BlockEnd);
    }
    OneBit(br.Ahead());
    n := br.ReadBits(1);
    if n == None {
      return None;
    }
    end := Some(if n.value > 0 then BlockAndFileEnd else FileEnd);
  }

  lemma OneBit(ahead: seq<Bit>)
    ensures ahead != [] ==> Num(ahead[..1]) == ahead[0]
  {
    if ahead != [] {
      assert ahead[..1][..0] == [];
    }
  }

  /** Only the lowest bits remembered matter to an offset. */
  lemma SameLow(c: Codes, p: Past, q: Past, ahead: seq<Bit>)
    requires |c.offset| == OFFSET_SIZE && p.low == q.low && p.repeats == q.repeats
    ensures ReadOffset(c, p, ahead) == ReadOffset(c, q, ahead)
  {
    hide ReadSymbol;
    hide ReadExtra;
  }

  class Lz29Decoder {
    const br: RarBitReader
    const codeLength: array<nat>
    const mainDecoder: HuffmanDecoder
    const offsetDecoder: HuffmanDecoder
    const lowOffsetDecoder: HuffmanDecoder
    const lengthDecoder: HuffmanDecoder
    const offset: array<nat>
    var length: nat
    var lowOffset: nat
    var lowOffsetRepeats: nat

    constructor (br: RarBitReader)
      ensures this.br == br && Formed() && Steady() && length == 0
      ensures (forall i :: 0 <= i < 4 ==> offset[i] == 0) && CodeLengths.Small(codeLength[..])
    {
      hide HuffmanDecoder.Shape;
      hide HuffmanDecoder.Tables;
      this.br := br;
      var table, past := new nat[TABLE_SIZE](_ => 0), new nat[4](_ => 0);
      var main, off, low, len := FourDecoders({past, table});
      codeLength, offset := table, past;
      mainDecoder, offsetDecoder, lowOffsetDecoder, lengthDecoder := main, off, low, len;
      length, lowOffset, lowOffsetRepeats := 0, 0, 0;
    }

    /** No two parts of the decoder share memory. */
    ghost predicate Formed()
      reads mainDecoder, offsetDecoder, lowOffsetDecoder, lengthDecoder
    {
      && mainDecoder.Shape() && offsetDecoder.Shape() && lowOffsetDecoder.Shape() && lengthDecoder.Shape()
      && mainDecoder != offsetDecoder && mainDecoder != lowOffsetDecoder && mainDecoder != lengthDecoder
      && offsetDecoder != lowOffsetDecoder && offsetDecoder != lengthDecoder && lowOffsetDecoder != lengthDecoder
      && Disjoint({mainDecoder, offsetDecoder, lowOffsetDecoder, lengthDecoder}, {offset, codeLength})
      && offset.Length == 4 && codeLength.Length == TABLE_SIZE && offset != codeLength
    }

    /** The parts of the decoder that stay as they are while a block is read. */
    ghost predicate Ready()
      reads mainDecoder, mainDecoder.limit, mainDecoder.pos, mainDecoder.symbol, mainDecoder.quicklen,
            mainDecoder.quicksym
      reads offsetDecoder, offsetDecoder.limit, offsetDecoder.pos, offsetDecoder.symbol, offsetDecoder.quicklen,
            offsetDecoder.quicksym
      reads lowOffsetDecoder, lowOffsetDecoder.limit, lowOffsetDecoder.pos, lowOffsetDecoder.symbol,
        lowOffsetDecoder.quicklen, lowOffsetDecoder.quicksym
      reads lengthDecoder, lengthDecoder.limit, lengthDecoder.pos, lengthDecoder.symbol, lengthDecoder.quicklen,
            lengthDecoder.quicksym
    {
      && mainDecoder.Valid() && offsetDecoder.Valid() && lowOffsetDecoder.Valid() && lengthDecoder.Valid()
      && Sized(CodesNow()) && offset.Length == 4
      && offset !in mainDecoder.Tables() && offset !in offsetDecoder.Tables()
      && offset !in lowOffsetDecoder.Tables() && offset !in lengthDecoder.Tables()
    }

    ghost function CodesNow(): Codes
      reads mainDecoder, offsetDecoder, lowOffsetDecoder, lengthDecoder
    {
      Codes(mainDecoder.lengths, offsetDecoder.lengths, lowOffsetDecoder.lengths, lengthDecoder.lengths)
    }

    ghost function PastNow(): Past
      requires offset.Length == 4
      reads `length, `lowOffset, `lowOffsetRepeats, offset
    {
      Past(offset[..], length, lowOffset, lowOffsetRepeats)
    }

    /** The lowest bits of the last offset are four bits, to be repeated at most 15 times more. */
    ghost predicate Steady()
      reads `lowOffset, `lowOffsetRepeats
    {
      lowOffset < 16 && lowOffsetRepeats <= 15
    }

    lemma ReadyParts()
      requires Ready()
      ensures mainDecoder.Valid() && offsetDecoder.Valid() && lowOffsetDecoder.Valid() && lengthDecoder.Valid()
      ensures |mainDecoder.lengths| == MAIN_SIZE && |lengthDecoder.lengths| == LENGTH_SIZE
      ensures Sized(CodesNow()) && offset.Length == 4
    {}

    lemma OffsetApart()
      requires Ready()
      ensures offset !in mainDecoder.Tables() && offset !in offsetDecoder.Tables()
      ensures offset !in lowOffsetDecoder.Tables() && offset !in lengthDecoder.Tables()
      ensures mainDecoder.Valid() && offsetDecoder.Valid() && lowOffsetDecoder.Valid() && lengthDecoder.Valid()
        && Sized(CodesNow())
    {}

    /** The lowest four bits of an offset. */
    method TakeLow() returns (t: Taken)
      requires Ready() && br.Valid() && Steady()
      modifies `lowOffset, `lowOffsetRepeats, br, br.r
      ensures Ready() && br.Valid() && Steady() && |br.Ahead()| <= |old(br.Ahead())|
      ensures Prefix(CodesNow()) ==>
        AgreesLow(t, ReadLow(CodesNow(), old(PastNow()), old(br.Ahead())), lowOffset, lowOffsetRepeats, br.Ahead())
    {
      hide Ready;
      hide HuffmanDecoder.Valid;
      hide RarBitReader.Valid;
      hide RarBitReader.Ahead;
      hide Kraft;
      hide ReadSymbol;
      ReadyParts();
      if lowOffsetRepeats > 0 {
        lowOffsetRepeats := lowOffsetRepeats - 1;
        return Took(lowOffset);
      }
      t := TakeSymbol(br, lowOffsetDecoder);
      if t.Took? {
        if t.value == 16 {
          lowOffsetRepeats := 15;
          t := Took(lowOffset);
        } else {
          lowOffset := t.value;
        }
      }
    }

    /** The extra bits of an offset. */
    method TakeOffsetExtra(bits: nat) returns (t: Taken)
      requires Ready() && br.Valid() && Steady() && bits <= MAX_READ
      modifies `lowOffset, `lowOffsetRepeats, br, br.r
      ensures Ready() && br.Valid() && Steady() && |br.Ahead()| <= |old(br.Ahead())|
      ensures Prefix(CodesNow()) ==>
        AgreesLow(t, ReadOffsetExtra(CodesNow(), old(PastNow()), bits, old(br.Ahead())), lowOffset, lowOffsetRepeats,
                  br.Ahead())
    {
      hide Ready;
      hide RarBitReader.Valid;
      hide RarBitReader.Ahead;
      hide Prefix;
      hide CodesNow;
      hide ReadLow;
      hide Num;
      ReadyParts();
      if bits >= 4 {
        NoBits(br.Ahead());
        var n := Took(0);
        if bits > 4 {
          n := TakeExtra(br, bits - 4);
        }
        if !n.Took? {
          return n;
        }
        t := TakeLow();
        if t.Took? {
          t := Took(16 * n.value + t.value);
        }
      } else if bits > 0 {
        t := TakeExtra(br, bits);
      } else {
        NoBits(br.Ahead());
        t := Took(0);
      }
    }

    /** An offset: a slot, and then its extra bits. */
    method TakeOffset() returns (t: Taken)
      requires Ready() && br.Valid() && Steady()
      modifies `lowOffset, `lowOffsetRepeats, br, br.r
      ensures Ready() && br.Valid() && Steady() && |br.Ahead()| <= |old(br.Ahead())|
      ensures Sized(CodesNow()) && offset.Length == 4
      ensures Prefix(CodesNow()) ==>
        AgreesLow(t, ReadOffset(CodesNow(), old(PastNow()), old(br.Ahead())), lowOffset, lowOffsetRepeats, br.Ahead())
    {
      hide Ready;
      hide HuffmanDecoder.Valid;
      hide RarBitReader.Valid;
      hide RarBitReader.Ahead;
      hide Kraft;
      hide ReadSymbol;
      hide ReadOffsetExtra;
      ReadyParts();
      FewBits();
      var slot := TakeSymbol(br, offsetDecoder);
      if !slot.Took? {
        return slot;
      }
      t := TakeOffsetExtra(OFFSET_BITS[slot.value]);
      if t.Took? {
        t := Took(OFFSET_BASE[slot.value] + 1 + t.value);
      }
    }

    /** Far matches are longer. */
    method Lengthened(length: nat, o: nat) returns (n: nat)
      ensures n == length + Bonus(o)
    {
      n := length;
      if o >= 0x2000 {
        n := n + 1;
        if o >= 0x4_0000 {
          n := n + 1;
        }
      }
    }

    /** Put a new offset before the others. */
    method Remember(o: nat)
      requires Ready() && offset.Length == 4
      modifies offset
      ensures Ready() && offset[..] == Pushed(old(offset[..]), o)
    {
      hide Ready;
      OffsetApart();
      PushOffset(offset, o);
    }

    /** A match at a new offset. */
    method DecodeOffset(i: nat) returns (t: Taken)
      requires Ready() && br.Valid() && Steady() && i < LENGTH_SIZE
      modifies `length, `lowOffset, `lowOffsetRepeats, offset, br, br.r
      ensures Ready() && br.Valid() && Steady() && |br.Ahead()| <= |old(br.Ahead())|
      ensures Prefix(CodesNow()) ==>
        AgreesMatch(t, ReadNew(CodesNow(), old(PastNow()), i, old(br.Ahead())), PastNow(), br.Ahead())
    {
      hide LENGTH_BITS;
      hide LENGTH_BASE;
      hide Ready;
      hide RarBitReader.Valid;
      hide RarBitReader.Ahead;
      hide Prefix;
      hide CodesNow;
      hide ReadSlot;
      hide ReadOffset;
      hide Bonus;
      hide Pushed;
      hide Sized;
      hide HuffmanDecoder.Valid;
      ReadyParts();
      FewBits();
      t := TakeSlot(br, LENGTH_BASE, LENGTH_BITS, i);
      if !t.Took? {
        return;
      }
      length := t.value + 3;
      ghost var now := br.Ahead();
      SameLow(CodesNow(), old(PastNow()), PastNow(), now);
      t := TakeOffset();
      if !t.Took? {
        return;
      }
      var n := Lengthened(length, t.value);
      length := n;
      Remember(t.value);
    }

    /** Move an offset to the front. */
    method Front(i: nat)
      requires Ready() && i < 4 && offset.Length == 4
      modifies offset
      ensures Ready() && offset[..] == Fronted(old(offset[..]), i)
    {
      hide Ready;
      OffsetApart();
      var o := offset[i];
      forall k | 1 <= k <= i {
        offset[k] := offset[k - 1];
      }
      offset[0] := o;
    }

    /** A match at an offset used before. */
    method DecodeLength(i: nat) returns (t: Taken)
      requires Ready() && br.Valid() && i < 4
      modifies `length, offset, br, br.r
      ensures Ready() && br.Valid() && |br.Ahead()| <= |old(br.Ahead())|
      ensures Prefix(CodesNow()) ==>
        AgreesMatch(t, ReadRecent(CodesNow(), old(PastNow()), i, old(br.Ahead())), PastNow(), br.Ahead())
    {
      hide Ready;
      hide HuffmanDecoder.Valid;
      hide RarBitReader.Valid;
      hide RarBitReader.Ahead;
      hide Kraft;
      hide ReadSymbol;
      hide ReadSlot;
      hide Fronted;
      FewBits();
      ReadyParts();
      Front(i);
      ReadyParts();
      t := TakeIn(br, lengthDecoder, LENGTH_BASE, LENGTH_BITS);
      if t.Took? {
        length := t.value + 2;
      }
    }

    /** Move all offsets one back; the first is there twice. */
    method MakeRoom()
      requires Ready() && offset.Length == 4
      modifies offset
      ensures Ready() && offset[..] == Pushed(old(offset[..]), old(offset[0]))
    {
      hide Ready;
      OffsetApart();
      forall k | 1 <= k < 4 {
        offset[k] := offset[k - 1];
      }
    }

    method SetFirst(o: nat)
      requires Ready() && offset.Length == 4
      modifies offset
      ensures Ready() && offset[..] == old(offset[..])[0 := o]
    {
      hide Ready;
      OffsetApart();
      offset[0] := o;
    }

    /** A match of two bytes nearby. */
    method DecodeShortOffset(i: nat) returns (t: Taken)
      requires Ready() && br.Valid() && i < 8
      modifies `length, offset, br, br.r
      ensures Ready() && br.Valid() && |br.Ahead()| <= |old(br.Ahead())|
      ensures AgreesMatch(t, ReadShort(old(PastNow()), i, old(br.Ahead())), PastNow(), br.Ahead())
    {
      hide Ready;
      hide HuffmanDecoder.Valid;
      hide Sized;
      hide RarBitReader.Valid;
      hide RarBitReader.Ahead;
      hide ReadSlot;
      ReadyParts();
      FewBits();
      MakeRoom();
      t := TakeSlot(br, SHORT_BASE, SHORT_BITS, i);
      if !t.Took? {
        return;
      }
      SetFirst(t.value + 1);
      length := 2;
    }

    /** What the next bits come to, before anything is written. */
    method ReadAction() returns (end: Option<End>, action: Action)
      requires Ready() && br.Valid() && Steady()
      modifies `length, `lowOffset, `lowOffsetRepeats, offset, br, br.r
      ensures Ready() && br.Valid() && Steady() && |br.Ahead()| <= |old(br.Ahead())|
      ensures end == None ==> |br.Ahead()| < |old(br.Ahead())|
      ensures Prefix(CodesNow()) ==>
        match Step(CodesNow(), old(PastNow()), old(br.Ahead())) {
          case Halt(e, past, rest) => end == Some(e) && (!IsFault(e) ==> PastNow() == past && br.Ahead() == rest)
          case Act(a, past, rest) => end == None && action == a && PastNow() == past && br.Ahead() == rest
        }
    {
      hide Ready;
      hide HuffmanDecoder.Valid;
      hide RarBitReader.Valid;
      hide RarBitReader.Ahead;
      hide Kraft;
      hide ReadSymbol;
      hide ReadNew;
      hide ReadRecent;
      hide ReadShort;
      hide ReadMark;
      hide ReadFilterData;
      ReadyParts();
      end, action := None, Literally(0);
      var sym := TakeSymbol(br, mainDecoder);
      if !sym.Took? {
        return Some(Fault(sym)), action;
      }
      var t;
      if sym.value < 256 {
        return None, Literally(sym.value);
      } else if sym.value == 256 {
        end := TakeMark(br);
        return if end == None then Some(NoData) else end, action;
      } else if sym.value == 257 {
        var data := TakeFilterData(br);
        return Some(if data == None then NoData else FilterAsked(data.value)), action;
      } else if sym.value == 258 {
        t := Took(0);
      } else if sym.value < 263 {
        t := DecodeLength(sym.value - 259);
      } else if sym.value < 271 {
        t := DecodeShortOffset(sym.value - 263);
      } else {
        t := DecodeOffset(sym.value - 271);
      }
      end, action := if t.Took? then None else Some(Fault(t)), Match(length, offset[0]);
    }

    /** Where the reading of a block stands, in the run that gives `all`, with this much room in the window. */
    ghost predicate Stands(room: nat, size: nat, done: seq<Event>, all: Ran<Past, End>)
      requires br.Valid() && offset.Length == 4 && Sized(CodesNow())
      reads this, offset, br, br.r, mainDecoder, offsetDecoder, lowOffsetDecoder, lengthDecoder
    {
      Prefix(CodesNow()) ==> Running(Steps(CodesNow()), PastNow(), br.Ahead(), room, size, done, all)
    }

    /** The run ended with what is there now. */
    ghost predicate Stopped(end: Option<End>, done: seq<Event>, all: Ran<Past, End>)
      requires br.Valid() && offset.Length == 4
      reads this, offset, br, br.r, mainDecoder, offsetDecoder, lowOffsetDecoder, lengthDecoder
    {
      Prefix(CodesNow()) ==>
        all.end == end && all.events == done
        && (end == None || !IsFault(end.value) ==> PastNow() == all.past && br.Ahead() == all.rest)
    }

    /** Read what to write next, or why to stop. */
    method NextAction(ghost room: nat, ghost size: nat, ghost done: seq<Event>, ghost all: Ran<Past, End>)
      returns (end: Option<End>, action: Action)
      requires Ready() && br.Valid() && Steady() && 0 < room && 0 < size && Stands(room, size, done, all)
      modifies `length, `lowOffset, `lowOffsetRepeats, offset, br, br.r
      ensures Ready() && br.Valid() && Steady() && CodesNow() == old(CodesNow())
      ensures end.Some? ==> Stopped(end, done, all)
      ensures end == None ==> |br.Ahead()| < |old(br.Ahead())|
      ensures end == None ==> Stands(room - Fills(EventOf(action), room, size), size, done + [EventOf(action)], all)
    {
      hide RarBitReader.Valid;
      hide RarBitReader.Ahead;
      hide Ready;
      hide Prefix;
      hide Step;
      hide Running;
      hide CodesNow;
      hide PastNow;
      hide Fills;
      hide EventOf;
      hide Shrinks;
      hide Sized;
      hide HuffmanDecoder.Valid;
      ReadyParts();
      ghost var step := Steps(CodesNow());
      ghost var past, ahead := PastNow(), br.Ahead();
      if Prefix(CodesNow()) {
        if step(past, ahead).Act? {
          RunningOn(step, past, ahead, room, size, done, all);
        } else {
          RunningStops(step, past, ahead, room, size, done, all);
        }
      }
      end, action := ReadAction();
    }

    /** One round of a fill. */
    method Round(dr: DecodeReader, ghost done: seq<Event>, ghost all: Ran<Past, End>, ghost h0: seq<byte>,
                 ghost w0: nat)
      returns (end: Option<End>, ghost done': seq<Event>)
      requires Ready() && br.Valid() && Steady() && dr.Window() && dr.w < dr.size
      requires Stands(dr.size - dr.w, dr.size, done, all) && Played(h0, w0, dr.size, done, dr.hist, dr.w)
      modifies `length, `lowOffset, `lowOffsetRepeats, offset, br, br.r, dr`w, dr`hist, dr.win
      ensures Ready() && br.Valid() && Steady() && dr.Window() && CodesNow() == old(CodesNow())
      ensures Played(h0, w0, dr.size, done', dr.hist, dr.w)
      ensures end.Some? ==> Stopped(end, done', all)
      ensures end == None ==>
        dr.w <= dr.size && Stands(dr.size - dr.w, dr.size, done', all) && |br.Ahead()| < |old(br.Ahead())|
    {
      hide RarBitReader.Valid;
      hide RarBitReader.Ahead;
      hide Ready;
      hide Stands;
      hide Stopped;
      hide Played;
      hide DecodeReader.Window;
      hide CodesNow;
      hide Fills;
      hide EventOf;
      hide Sized;
      ReadyParts();
      var action;
      end, action := NextAction(dr.size - dr.w, dr.size, done, all);
      done' := done;
      if end.Some? {
        return;
      }
      WriteAction(dr, action, h0, w0, done);
      WindowSize(dr);
      done' := done + [EventOf(action)];
    }

    /** A full window ends the run. */
    lemma FullStops(size: nat, done: seq<Event>, all: Ran<Past, End>)
      requires br.Valid() && offset.Length == 4 && Sized(CodesNow()) && Stands(0, size, done, all)
      ensures Stopped(None, done, all)
    {
      hide Prefix;
      hide Running;
      hide RarBitReader.Valid;
      if Prefix(CodesNow()) {
        RunningFull(Steps(CodesNow()), PastNow(), br.Ahead(), size, done, all);
      }
    }

    /** The rounds of a fill. */
    method FillOn(dr: DecodeReader, ghost all: Ran<Past, End>) returns (end: Option<End>, ghost done: seq<Event>)
      requires Ready() && br.Valid() && Steady() && dr.Window() && Stands(dr.size - dr.w, dr.size, [], all)
      modifies `length, `lowOffset, `lowOffsetRepeats, offset, br, br.r, dr`w, dr`hist, dr.win
      ensures Ready() && br.Valid() && Steady() && dr.Window() && CodesNow() == old(CodesNow())
      ensures Played(old(dr.hist), old(dr.w), dr.size, done, dr.hist, dr.w) && (end == None ==> dr.w == dr.size)
      ensures Stopped(end, done, all)
    {
      hide RarBitReader.Valid;
      hide RarBitReader.Ahead;
      hide Ready;
      hide Stands;
      hide Stopped;
      hide Played;
      hide DecodeReader.Window;
      hide CodesNow;
      hide Sized;
      WindowSize(dr);
      ReadyParts();
      done := [];
      PlayedNone(dr.hist, dr.w, dr.size);
      while dr.w < dr.size
        invariant Ready() && br.Valid() && Steady() && dr.Window() && CodesNow() == old(CodesNow())
        invariant dr.w <= dr.size && Stands(dr.size - dr.w, dr.size, done, all)
          && Played(old(dr.hist), old(dr.w), dr.size, done, dr.hist, dr.w)
        decreases |br.Ahead()|
      {
        end, done := Round(dr, done, all, old(dr.hist), old(dr.w));
        WindowSize(dr);
        if end.Some? {
          return;
        }
      }
      FullStops(dr.size, done, all);
      end := None;
    }

    /** Read tokens and write the window until it is full, the block or the file ends, a filter follows, or the data is
        bad. */
    method Fill(dr: DecodeReader) returns (end: Option<End>, ghost ran: Ran<Past, End>)
      requires Ready() && br.Valid() && Steady() && dr.Window()
      modifies `length, `lowOffset, `lowOffsetRepeats, offset, br, br.r, dr`w, dr`hist, dr.win
      ensures Ready() && br.Valid() && Steady() && dr.Window() && CodesNow() == old(CodesNow())
      ensures old(dr.w) <= dr.size && 0 < dr.size && (end == None ==> dr.w == dr.size)
      ensures ran == Run(Steps(CodesNow()), old(PastNow()), old(br.Ahead()), old(dr.size - dr.w), dr.size)
      ensures Prefix(CodesNow()) ==>
        end == ran.end && Played(old(dr.hist), old(dr.w), dr.size, ran.events, dr.hist, dr.w)
      ensures Prefix(CodesNow()) && (end == None || !IsFault(end.value)) ==>
        PastNow() == ran.past && br.Ahead() == ran.rest
    {
      hide RarBitReader.Valid;
      hide RarBitReader.Ahead;
      hide Ready;
      hide Prefix;
      hide Run;
      hide Running;
      hide Played;
      hide DecodeReader.Window;
      hide CodesNow;
      hide PastNow;
      hide Shrinks;
      hide HuffmanDecoder.Valid;
      hide Sized;
      ReadyParts();
      WindowSize(dr);
      ghost var step := Steps(CodesNow());
      ran := Run(step, PastNow(), br.Ahead(), dr.size - dr.w, dr.size);
      RunningStart(step, PastNow(), br.Ahead(), dr.size - dr.w, dr.size);
      ghost var done;
      end, done := FillOn(dr, ran);
    }

    /** Make the decoders for the codes of a table. */
    method InitDecoders(table: seq<nat>)
      requires Formed() && |table| == TABLE_SIZE && CodeLengths.Small(table)
      modifies mainDecoder, mainDecoder.limit, mainDecoder.pos, mainDecoder.quicklen, mainDecoder.quicksym
      modifies offsetDecoder, offsetDecoder.limit, offsetDecoder.pos, offsetDecoder.quicklen, offsetDecoder.quicksym
      modifies lowOffsetDecoder, lowOffsetDecoder.limit, lowOffsetDecoder.pos, lowOffsetDecoder.quicklen,
               lowOffsetDecoder.quicksym
      modifies lengthDecoder, lengthDecoder.limit, lengthDecoder.pos, lengthDecoder.quicklen, lengthDecoder.quicksym
      ensures Formed() && Ready() && CodesNow() == CodesOf(table)
      ensures codeLength[..] == old(codeLength[..]) && offset[..] == old(offset[..])
    {
      hide HuffmanDecoder.Valid;
      hide HuffmanDecoder.Shape;
      hide HuffmanDecoder.Tables;
      hide Disjoint;
      ghost var all, others := {mainDecoder, offsetDecoder, lowOffsetDecoder, lengthDecoder}, {offset, codeLength};
      var rest := table[MAIN_SIZE..];
      InitFour(mainDecoder, offsetDecoder, lowOffsetDecoder, lengthDecoder,
               table[..MAIN_SIZE], rest[..OFFSET_SIZE], rest[OFFSET_SIZE..][..LOW_SIZE],
               rest[OFFSET_SIZE..][LOW_SIZE..], others);
      OthersApart(all, others);
    }

    /** The table at the start of a block. */
    method ReadTable() returns (res: CodeLengths.TableResult)
      requires br.Valid()
      modifies codeLength, br, br.r
      ensures br.Valid()
      ensures CodeLengths.Small(old(codeLength[..])) || res.TableOk? ==> CodeLengths.Small(codeLength[..])
      ensures HeaderFits(old(br.Ahead())) ==>
        CodeLengths.AgreesTable(res, ReadHeader(old(br.Ahead()), old(codeLength[..])), codeLength[..], br.Ahead())
    {
      hide RarBitReader.Valid;
      hide RarBitReader.Ahead;
      hide CodeLengths.ReadLengths;
      hide CodeLengths.LevelsFit;
      hide CodeLengths.Small;
      OneBit(br.Ahead());
      var n := br.ReadBits(1);
      if n == None {
        return CodeLengths.TableShort;
      }
      res := CodeLengths.ReadCodeLengthTable(Rar(br), codeLength, n.value > 0);
    }

    /** Begin a block: a table of code lengths, added to the one before or not, and the decoders for it. */
    method Init() returns (res: CodeLengths.TableResult)
      requires Formed() && br.Valid() && codeLength.Length == TABLE_SIZE
      modifies `lowOffset, `lowOffsetRepeats, codeLength, br, br.r
      modifies mainDecoder, mainDecoder.limit, mainDecoder.pos, mainDecoder.quicklen, mainDecoder.quicksym
      modifies offsetDecoder, offsetDecoder.limit, offsetDecoder.pos, offsetDecoder.quicklen, offsetDecoder.quicksym
      modifies lowOffsetDecoder, lowOffsetDecoder.limit, lowOffsetDecoder.pos, lowOffsetDecoder.quicklen,
               lowOffsetDecoder.quicksym
      modifies lengthDecoder, lengthDecoder.limit, lengthDecoder.pos, lengthDecoder.quicklen, lengthDecoder.quicksym
      ensures Formed() && br.Valid() && lowOffset == 0 && lowOffsetRepeats == 0 && offset[..] == old(offset[..])
      ensures CodeLengths.Small(old(codeLength[..])) || res.TableOk? ==> CodeLengths.Small(codeLength[..])
      ensures res.TableOk? ==> Ready() && CodesNow() == CodesOf(codeLength[..])
      ensures HeaderFits(old(br.Ahead())) ==>
        CodeLengths.AgreesTable(res, ReadHeader(old(br.Ahead()), old(codeLength[..])), codeLength[..], br.Ahead())
    {
      hide HuffmanDecoder.Valid;
      hide HuffmanDecoder.Shape;
      hide HuffmanDecoder.Tables;
      hide Disjoint;
      hide RarBitReader.Valid;
      hide RarBitReader.Ahead;
      hide Ready;
      hide CodesOf;
      hide ReadHeader;
      hide HeaderFits;
      hide CodeLengths.Small;
      lowOffset := 0;
      lowOffsetRepeats := 0;
      res := ReadTable();
      if res.TableOk? {
        InitDecoders(codeLength[..]);
      }
    }
  }

  /** The start of a block: whether the old table counts, and a table. */
  function ReadHeader(ahead: seq<Bit>, before: seq<nat>): CodeLengths.TableRead {
    if ahead == [] then CodeLengths.Short else CodeLengths.ReadLengths(false, ahead[1..], before, ahead[0] == 1)
  }

  predicate HeaderFits(ahead: seq<Bit>) { ahead != [] ==> CodeLengths.LevelsFit(ahead[1..]) }

  /** The codes whose lengths a table holds one after another. */
  function CodesOf(table: seq<nat>): Codes
    requires |table| == TABLE_SIZE && CodeLengths.Small(table)
  {
    Codes(table[..MAIN_SIZE], table[MAIN_SIZE..][..OFFSET_SIZE], table[MAIN_SIZE + OFFSET_SIZE..][..LOW_SIZE],
          table[MAIN_SIZE + OFFSET_SIZE + LOW_SIZE..])
  }

  /** A table of RAR 3.0 holds 299 lengths for tokens, 60 for offset slots, 17 for low bits and 28 for length slots. */
  lemma TableParts(table: seq<nat>)
    requires |table| == 404 && CodeLengths.Small(table)
    ensures CodesOf(table) == Codes(table[..299], table[299..359], table[359..376], table[376..])
  {}
}

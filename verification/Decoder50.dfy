/** The RAR 5 decoder: it reads blocks of tokens and filters with four Huffman decoders, writes the window and queues
    the filters. */
module Decoder50s {
  import opened Machine
  import opened Bits
  import opened BitStrings
  import opened BitReaders
  import opened ByteSources
  import opened Canonical
  import CodeLengths
  import opened DecoderSets
  import opened FilterQueue
  import opened Huffman
  import opened Slots
  import opened LzWindow
  import opened LzRuns
  import opened Lz50
  import opened Blocks50
  import opened Scripts50
  import opened DecodeReaders
  import opened Decodings

  const TABLE_SIZE := MAIN_SIZE + MAX_OFFSET_SIZE + LOW_SIZE + LENGTH_SIZE

  /** A header's number of bits, whether its block is the last and begins with a table; or there is no such header. */
  datatype HeaderTaken = HeaderTaken(limit: int, last: bool, tables: bool) | NoHeader

  class Decoder50 {
    const br: Rar5BitReader
    const codeLength: array<nat>
    const mainDecoder: HuffmanDecoder
    const offsetDecoder: HuffmanDecoder
    const lowoffsetDecoder: HuffmanDecoder
    const lengthDecoder: HuffmanDecoder
    const offset: array<nat>
    var length: nat
    var lastBlock: bool

    /** A decoder for a file, with room for the codes of so many offset slots. Before its first table it has no
        codes. */
    constructor (r: ByteSource, offsetSize: nat)
      requires offsetSize <= MAX_OFFSET_SIZE
      ensures br.Valid() && br.r == r && Formed() && Ready()
        && codeLength.Length == MAIN_SIZE + offsetSize + LOW_SIZE + LENGTH_SIZE
      ensures StreamNow() == StartOf(r.data, NO_CODES, offsetSize)
    {
      hide HuffmanDecoder.Shape;
      hide HuffmanDecoder.Tables;
      hide HuffmanDecoder.Valid;
      hide Disjoint;
      hide CodeLengths.Copies;
      hide Rar5BitReader.Valid;
      hide Rar5BitReader.Ahead;
      hide Rar5BitReader.Truncated;
      hide Rar5BitReader.Beyond;
      hide StreamNow;
      hide Ready;
      hide StartOf;
      var table, past := new nat[MAIN_SIZE + offsetSize + LOW_SIZE + LENGTH_SIZE](_ => 0), new nat[4](_ => 0);
      var main, off, low, len := EmptyDecoders({past, table});
      var bits := new Rar5BitReader(r);
      br := bits;
      codeLength, offset := table, past;
      mainDecoder, offsetDecoder, lowoffsetDecoder, lengthDecoder := main, off, low, len;
      length, lastBlock := 0, false;
      new;
      AtStart(offsetSize);
    }

    /** Begin another file. The bit reader is given its data but keeps what it had cached and what it was limited to.
        With a reset the decoder stands at the start of the file exactly when it kept nothing: when the last block was
        read to its end. */
    method Init(data: seq<byte>, reset: bool)
      requires Formed() && br.Valid() && Sizes()
      modifies `length, `lastBlock, offset, codeLength, br.r
      ensures Formed() && br.Valid() && br.r.data == data && CodesNow() == old(CodesNow()) && !lastBlock
      ensures old(Ready()) ==> Ready()
      ensures if reset then Cleared() else PastNow() == old(PastNow()) && codeLength[..] == old(codeLength[..])
      ensures br.n == old(br.n) && br.l == old(br.l)
      ensures br.n == 0 && br.l == 0 <==> old(br.Ahead()) == [] && !old(br.Truncated())
      ensures StreamNow() == Stream(CodesNow(), PastNow(), [], false, data, false, codeLength[..])
        <==> br.n == 0 && br.l == 0
      ensures reset ==> (StreamNow() == StartOf(data, CodesNow(), OffsetSlots()) <==> br.n == 0 && br.l == 0)
    {
      hide HuffmanDecoder.Shape;
      hide HuffmanDecoder.Tables;
      hide HuffmanDecoder.Valid;
      hide Ready;
      hide Formed;
      hide Cleared;
      hide StartOf;
      hide CodeLengths.Copies;
      hide Rar5BitReader.Valid;
      hide Rar5BitReader.Ahead;
      hide Rar5BitReader.Truncated;
      hide Rar5BitReader.Beyond;
      br.Emptied();
      br.Reset(data);
      br.Emptied();
      lastBlock := false;
      if reset {
        Clear();
        ClearedStart(data);
      }
    }

    /** Nothing is remembered, and the table is all zeros. */
    ghost predicate Cleared()
      requires Sizes()
      reads `length, offset, codeLength
    {
      PastNow() == Past([0, 0, 0, 0], 0) && codeLength[..] == CodeLengths.Copies(0, codeLength.Length)
    }

    method Clear()
      requires Formed() && Sizes()
      modifies `length, offset, codeLength
      ensures Formed() && Cleared() && CodesNow() == old(CodesNow()) && (old(Ready()) ==> Ready())
    {
      hide CodeLengths.Copies;
      OthersApart({mainDecoder, offsetDecoder, lowoffsetDecoder, lengthDecoder}, {offset, codeLength});
      forall i | 0 <= i < 4 {
        offset[i] := 0;
      }
      length := 0;
      forall i | 0 <= i < codeLength.Length {
        codeLength[i] := 0;
      }
      assert offset[..] == [0, 0, 0, 0];
      CopiesOf(codeLength[..]);
    }

    lemma ClearedStart(data: seq<byte>)
      requires Sizes() && Cleared()
      ensures StartOf(data, CodesNow(), OffsetSlots())
        == Stream(CodesNow(), PastNow(), [], false, data, false, codeLength[..])
    {}

    /** The table has room for the codes of so many offset slots. */
    ghost function OffsetSlots(): nat
      requires Sizes()
    {
      codeLength.Length - MAIN_SIZE - LOW_SIZE - LENGTH_SIZE
    }

    /** A decoder with no codes, no offsets and nothing read stands at the start of its file. */
    lemma AtStart(offsetSize: nat)
      requires offsetSize <= MAX_OFFSET_SIZE && br.Valid() && Formed()
      requires codeLength.Length == MAIN_SIZE + offsetSize + LOW_SIZE + LENGTH_SIZE
      requires (forall i :: 0 <= i < 4 ==> offset[i] == 0) && forall i :: 0 <= i < codeLength.Length ==>
        codeLength[i] == 0
      requires CodesNow() == NO_CODES && length == 0 && !lastBlock
      requires mainDecoder.Valid() && offsetDecoder.Valid() && lowoffsetDecoder.Valid() && lengthDecoder.Valid()
      requires br.Ahead() == [] && !br.Truncated() && br.Beyond() == br.r.data
      ensures Ready() && StreamNow() == StartOf(br.r.data, NO_CODES, offsetSize)
    {
      hide HuffmanDecoder.Shape;
      hide HuffmanDecoder.Tables;
      hide HuffmanDecoder.Valid;
      hide Disjoint;
      hide CodeLengths.Copies;
      hide Rar5BitReader.Valid;
      hide Rar5BitReader.Ahead;
      hide Rar5BitReader.Truncated;
      hide Rar5BitReader.Beyond;
      OthersApart({mainDecoder, offsetDecoder, lowoffsetDecoder, lengthDecoder}, {offset, codeLength});
      assert offset[..] == [0, 0, 0, 0];
      assert codeLength[..] == CodeLengths.Copies(0, codeLength.Length);
    }

    /** No two parts of the decoder share memory. */
    ghost predicate Formed()
      reads mainDecoder, offsetDecoder, lowoffsetDecoder, lengthDecoder
    {
      && mainDecoder.Shape() && offsetDecoder.Shape() && lowoffsetDecoder.Shape() && lengthDecoder.Shape()
      && mainDecoder != offsetDecoder && mainDecoder != lowoffsetDecoder && mainDecoder != lengthDecoder
      && offsetDecoder != lowoffsetDecoder && offsetDecoder != lengthDecoder && lowoffsetDecoder != lengthDecoder
      && Disjoint({mainDecoder, offsetDecoder, lowoffsetDecoder, lengthDecoder}, {offset, codeLength})
      && Sizes() && offset != codeLength
    }

    ghost predicate Sizes() {
      offset.Length == 4 && MAIN_SIZE + LOW_SIZE + LENGTH_SIZE <= codeLength.Length <= TABLE_SIZE
    }

    /** Where the reading of the file stands. */
    ghost function StreamNow(): Stream
      requires br.Valid() && Sizes()
      reads this, offset, codeLength, br, br.r, mainDecoder, offsetDecoder, lowoffsetDecoder, lengthDecoder
    {
      Stream(CodesNow(), PastNow(), br.Ahead(), br.Truncated(), br.Beyond(), lastBlock, codeLength[..])
    }

    /** The parts of the decoder that stay as they are while a block is read. */
    ghost predicate Ready()
      reads mainDecoder, mainDecoder.limit, mainDecoder.pos, mainDecoder.symbol, mainDecoder.quicklen,
            mainDecoder.quicksym
      reads offsetDecoder, offsetDecoder.limit, offsetDecoder.pos, offsetDecoder.symbol, offsetDecoder.quicklen,
            offsetDecoder.quicksym
      reads lowoffsetDecoder, lowoffsetDecoder.limit, lowoffsetDecoder.pos, lowoffsetDecoder.symbol,
        lowoffsetDecoder.quicklen, lowoffsetDecoder.quicksym
      reads lengthDecoder, lengthDecoder.limit, lengthDecoder.pos, lengthDecoder.symbol, lengthDecoder.quicklen,
            lengthDecoder.quicksym
    {
      && mainDecoder.Valid() && offsetDecoder.Valid() && lowoffsetDecoder.Valid() && lengthDecoder.Valid()
      && Sized(CodesNow()) && offset.Length == 4
      && offset !in mainDecoder.Tables() && offset !in offsetDecoder.Tables()
      && offset !in lowoffsetDecoder.Tables() && offset !in lengthDecoder.Tables()
    }

    ghost function CodesNow(): Codes
      reads mainDecoder, offsetDecoder, lowoffsetDecoder, lengthDecoder
    {
      Codes(mainDecoder.lengths, offsetDecoder.lengths, lowoffsetDecoder.lengths, lengthDecoder.lengths)
    }

    ghost function PastNow(): Past
      requires offset.Length == 4
      reads `length, offset
    {
      Past(offset[..], length)
    }

    lemma ReadyParts()
      requires Ready()
      ensures mainDecoder.Valid() && offsetDecoder.Valid() && lowoffsetDecoder.Valid() && lengthDecoder.Valid()
      ensures Sized(CodesNow()) && offset.Length == 4
      ensures offset !in mainDecoder.Tables() && offset !in offsetDecoder.Tables()
      ensures offset !in lowoffsetDecoder.Tables() && offset !in lengthDecoder.Tables()
    {}

    /** Read a symbol. */
    method ReadSymbol(h: HuffmanDecoder) returns (res: SymResult)
      requires Ready() && h.Valid() && br.Valid()
      modifies br, br.r
      ensures Ready() && br.Valid() && br.Truncated() == old(br.Truncated()) && br.Beyond() == old(br.Beyond())
        && |br.Ahead()| <= |old(br.Ahead())|
      ensures res.Symbol? ==> res.value < |h.lengths| && |br.Ahead()| < |old(br.Ahead())|
      ensures res == EndOfBits ==> br.Ahead() == [] && !br.Truncated()
      ensures Kraft(h.lengths) ==> (res, br.Ahead()) == ReadCode(h.lengths, old(br.Ahead()), br.Truncated())
    {
      hide Ready;
      hide HuffmanDecoder.Valid;
      hide Rar5BitReader.Valid;
      hide Rar5BitReader.Ahead;
      hide Rar5BitReader.Truncated;
      hide Rar5BitReader.Beyond;
      hide Kraft;
      hide Reading;
      ghost var used;
      res, used := h.ReadSym(Rar5(br));
    }

    /** Read k extra bits, if there are any to read. */
    method ReadExtra(k: nat) returns (res: Option<nat>)
      requires Ready() && br.Valid() && k <= MAX_READ
      modifies br, br.r
      ensures Ready() && br.Valid() && br.Truncated() == old(br.Truncated()) && br.Beyond() == old(br.Beyond())
        && |br.Ahead()| <= |old(br.Ahead())|
      ensures res.Some? <==> k <= |old(br.Ahead())|
      ensures res.Some? ==> res.value == Num(old(br.Ahead())[..k]) && br.Ahead() == old(br.Ahead())[k..]
    {
      hide Ready;
      hide Rar5BitReader.Valid;
      hide Rar5BitReader.Ahead;
      hide Rar5BitReader.Truncated;
      hide Rar5BitReader.Beyond;
      hide Num;
      if k == 0 {
        ZeroBits(br.Ahead());
        return Some(0);
      }
      var n := br.ReadBits(k);
      res := if n.Got? then Some(n.value) else None;
    }

    /** A length from its slot. */
    method SlotToLength(slot: nat) returns (res: Option<nat>)
      requires Ready() && br.Valid() && LengthBits(slot) <= MAX_READ
      modifies br, br.r
      ensures Ready() && br.Valid() && br.Truncated() == old(br.Truncated()) && br.Beyond() == old(br.Beyond())
        && |br.Ahead()| <= |old(br.Ahead())|
      ensures var l := ReadLength(old(br.Ahead()), slot);
        if l == None then res == None else res == Some(l.value.0) && br.Ahead() == l.value.1
    {
      hide Ready;
      hide Rar5BitReader.Valid;
      hide Rar5BitReader.Ahead;
      hide Rar5BitReader.Truncated;
      hide Rar5BitReader.Beyond;
      hide Pow2;
      hide Num;
      var n := slot;
      if n >= 8 {
        var bits := n / 4 - 1;
        var extra := ReadExtra(bits);
        if extra == None {
          return None;
        }
        n := (4 + n % 4) * Pow2(bits) + extra.value;
      } else {
        ZeroBits(br.Ahead());
      }
      res := Some(n + 2);
    }

    /** The extra bits of an offset, of which a symbol gives the lowest four when there are that many. */
    method ReadExtraOffset(bitCount: nat) returns (res: Option<nat>)
      requires Ready() && br.Valid() && bitCount <= MAX_READ
      modifies br, br.r
      ensures Ready() && br.Valid() && br.Truncated() == old(br.Truncated()) && br.Beyond() == old(br.Beyond())
        && |br.Ahead()| <= |old(br.Ahead())|
      ensures Kraft(lowoffsetDecoder.lengths) ==>
        var e := ReadOffsetExtra(lowoffsetDecoder.lengths, br.Truncated(), old(br.Ahead()), bitCount);
        if e == None then res == None else res == Some(e.value.0) && br.Ahead() == e.value.1
    {
      hide Ready;
      hide HuffmanDecoder.Valid;
      hide Rar5BitReader.Valid;
      hide Rar5BitReader.Ahead;
      hide Rar5BitReader.Truncated;
      hide Rar5BitReader.Beyond;
      hide Kraft;
      hide ReadCode;
      hide Num;
      ReadyParts();
      if bitCount < 4 {
        res := ReadExtra(bitCount);
        return;
      }
      var n := ReadExtra(bitCount - 4);
      if n == None {
        return None;
      }
      var low := ReadSymbol(lowoffsetDecoder);
      if !low.Symbol? {
        return None;
      }
      res := Some(n.value * 16 + low.value);
    }

    /** An offset: a slot, and then its extra bits. */
    method ReadNewOffset() returns (res: Option<nat>)
      requires Ready() && br.Valid()
      modifies br, br.r
      ensures Ready() && br.Valid() && br.Truncated() == old(br.Truncated()) && br.Beyond() == old(br.Beyond())
        && |br.Ahead()| <= |old(br.Ahead())|
      ensures Prefix(CodesNow()) ==>
        var o := ReadOffset(CodesNow(), br.Truncated(), old(br.Ahead()));
        if o == None then res == None else res == Some(o.value.0) && br.Ahead() == o.value.1
    {
      hide Ready;
      hide HuffmanDecoder.Valid;
      hide Rar5BitReader.Valid;
      hide Rar5BitReader.Ahead;
      hide Rar5BitReader.Truncated;
      hide Rar5BitReader.Beyond;
      hide Kraft;
      hide ReadCode;
      hide ReadOffsetExtra;
      hide OffsetBase;
      hide OffsetBits;
      ReadyParts();
      var slot := ReadSymbol(offsetDecoder);
      if !slot.Symbol? {
        return None;
      }
      OffsetSlotIs(slot.value);
      var off: nat, bitCount: nat := 1 + slot.value, 0;
      if slot.value >= 4 {
        bitCount := slot.value / 2 - 1;
        off := 1 + (2 + slot.value % 2) * Pow2(bitCount);
      }
      var extra := ReadExtraOffset(bitCount);
      if extra == None {
        return None;
      }
      res := Some(off + extra.value);
    }

    lemma LengthBitsFit()
      requires Ready()
      ensures |lengthDecoder.lengths| <= LENGTH_SIZE
        && forall slot: nat | slot < LENGTH_SIZE :: LengthBits(slot) <= MAX_READ
    {}

    /** Move an offset to the front. */
    method Front(i: nat)
      requires Ready() && offset.Length == 4 && i < 4
      modifies offset
      ensures Ready() && offset[..] == Fronted(old(offset[..]), i)
    {
      hide Ready;
      ReadyParts();
      var o := offset[i];
      forall k | 1 <= k <= i {
        offset[k] := offset[k - 1];
      }
      offset[0] := o;
    }

    /** Put a new offset before the others, and forget the last. */
    method Remember(o: nat)
      requires Ready() && offset.Length == 4
      modifies offset
      ensures Ready() && offset[..] == Pushed(old(offset[..]), o)
    {
      hide Ready;
      ReadyParts();
      forall k | 1 <= k < 4 {
        offset[k] := offset[k - 1];
      }
      offset[0] := o;
    }

    /** A match at an offset used before. */
    method DecodeLength(i: nat) returns (ok: bool)
      requires Ready() && br.Valid() && i < 4
      modifies `length, offset, br, br.r
      ensures Ready() && br.Valid() && br.Truncated() == old(br.Truncated()) && br.Beyond() == old(br.Beyond())
        && |br.Ahead()| <= |old(br.Ahead())|
      ensures Prefix(CodesNow()) ==>
        var m := ReadRecent(CodesNow(), br.Truncated(), old(PastNow()), old(br.Ahead()), i);
        if m == None then !ok else ok && PastNow() == m.value.0 && br.Ahead() == m.value.1
    {
      hide Ready;
      hide HuffmanDecoder.Valid;
      hide Rar5BitReader.Valid;
      hide Rar5BitReader.Ahead;
      hide Rar5BitReader.Truncated;
      hide Rar5BitReader.Beyond;
      hide Kraft;
      hide ReadCode;
      hide ReadLength;
      hide Fronted;
      hide Sized;
      ReadyParts();
      LengthBitsFit();
      Front(i);
      var slot := ReadSymbol(lengthDecoder);
      if !slot.Symbol? {
        return false;
      }
      var l := SlotToLength(slot.value);
      if l == None {
        return false;
      }
      length := l.value;
      ok := true;
    }

    /** Matches far back are longer. */
    method Lengthened(length: nat, o: nat) returns (n: nat)
      ensures n == length + FarBonus(o)
    {
      n := length;
      if o > 0x100 {
        n := n + 1;
        if o > 0x2000 {
          n := n + 1;
          if o > 0x4_0000 {
            n := n + 1;
          }
        }
      }
    }

    /** The length and the offset of a match at a new offset. */
    method ReadMatch(i: nat) returns (res: Option<(nat, nat)>)
      requires Ready() && br.Valid() && i < LENGTH_SIZE
      modifies br, br.r
      ensures Ready() && br.Valid() && br.Truncated() == old(br.Truncated()) && br.Beyond() == old(br.Beyond())
        && |br.Ahead()| <= |old(br.Ahead())|
      ensures Prefix(CodesNow()) ==>
        var l := ReadLength(old(br.Ahead()), i);
        if l == None then res == None
        else
          var o := ReadOffset(CodesNow(), br.Truncated(), l.value.1);
          if o == None then res == None
          else res == Some((l.value.0 + FarBonus(o.value.0), o.value.0)) && br.Ahead() == o.value.1
    {
      hide Ready;
      hide HuffmanDecoder.Valid;
      hide Rar5BitReader.Valid;
      hide Rar5BitReader.Ahead;
      hide Rar5BitReader.Truncated;
      hide Rar5BitReader.Beyond;
      hide Prefix;
      hide ReadOffset;
      hide ReadLength;
      hide LengthBits;
      hide FarBonus;
      hide CodesNow;
      LengthBitsFit();
      var l := SlotToLength(i);
      if l == None {
        return None;
      }
      var o := ReadNewOffset();
      if o == None {
        return None;
      }
      var n := Lengthened(l.value, o.value);
      res := Some((n, o.value));
    }

    /** A match at a new offset. */
    method DecodeOffset(i: nat) returns (ok: bool)
      requires Ready() && br.Valid() && i < LENGTH_SIZE
      modifies `length, offset, br, br.r
      ensures Ready() && br.Valid() && br.Truncated() == old(br.Truncated()) && br.Beyond() == old(br.Beyond())
        && |br.Ahead()| <= |old(br.Ahead())|
      ensures Prefix(CodesNow()) ==>
        var m := ReadNew(CodesNow(), br.Truncated(), old(PastNow()), old(br.Ahead()), i);
        if m == None then !ok else ok && PastNow() == m.value.0 && br.Ahead() == m.value.1
    {
      hide Ready;
      hide HuffmanDecoder.Valid;
      hide Rar5BitReader.Valid;
      hide Rar5BitReader.Ahead;
      hide Rar5BitReader.Truncated;
      hide Rar5BitReader.Beyond;
      hide Prefix;
      hide ReadOffset;
      hide ReadLength;
      hide FarBonus;
      hide CodesNow;
      ReadyParts();
      var m := ReadMatch(i);
      if m == None {
        return false;
      }
      Remember(m.value.1);
      length := m.value.0;
      ok := true;
    }

    /** What one round of a fill comes to, before anything is written. */
    method ReadAction() returns (end: Option<End>, action: Action)
      requires Ready() && br.Valid()
      modifies `length, offset, br, br.r
      ensures Ready() && br.Valid() && br.Truncated() == old(br.Truncated()) && br.Beyond() == old(br.Beyond())
        && |br.Ahead()| <= |old(br.Ahead())|
      ensures end == None ==> |br.Ahead()| < |old(br.Ahead())|
      ensures end == Some(BlockDone) ==> br.Ahead() == [] && !br.Truncated()
      ensures Prefix(CodesNow()) ==>
        match Step(CodesNow(), br.Truncated(), old(PastNow()), old(br.Ahead())) {
          case Halt(e, past, rest) => end == Some(e) && (e != Broken ==> PastNow() == past && br.Ahead() == rest)
          case Act(a, past, rest) => end == None && action == a && PastNow() == past && br.Ahead() == rest
        }
    {
      hide Ready;
      hide HuffmanDecoder.Valid;
      hide Rar5BitReader.Valid;
      hide Rar5BitReader.Ahead;
      hide Rar5BitReader.Truncated;
      hide Rar5BitReader.Beyond;
      hide Kraft;
      hide ReadCode;
      hide ReadOffset;
      hide ReadLength;
      ReadyParts();
      end, action := None, Literally(0);
      var res := ReadSymbol(mainDecoder);
      if res == EndOfBits {
        return Some(BlockDone), action;
      }
      if !res.Symbol? {
        return Some(Broken), action;
      }
      var sym, ok := res.value, true;
      if sym < 256 {
        return None, Literally(sym);
      } else if sym >= 262 {
        ok := DecodeOffset(sym - 262);
      } else if sym >= 258 {
        ok := DecodeLength(sym - 258);
      } else if sym == 256 {
        return Some(FilterAsked), action;
      }
      end, action := if ok then None else Some(Broken), Match(length, offset[0]);
    }

    /** Where the reading of a block stands, in the run that gives `all`, with this much room in the window. */
    ghost predicate Stands(room: nat, size: nat, done: seq<Event>, all: Ran<Past, End>)
      requires br.Valid() && offset.Length == 4
      reads this, offset, br, br.r, mainDecoder, offsetDecoder, lowoffsetDecoder, lengthDecoder
    {
      Prefix(CodesNow()) ==> Running(Steps(CodesNow(), br.Truncated()), PastNow(), br.Ahead(), room, size, done, all)
    }

    /** The run ended with what is there now. */
    ghost predicate Stopped(end: Option<End>, done: seq<Event>, all: Ran<Past, End>)
      requires br.Valid() && offset.Length == 4
      reads this, offset, br, br.r, mainDecoder, offsetDecoder, lowoffsetDecoder, lengthDecoder
    {
      Prefix(CodesNow()) ==>
        all.end == end && all.events == done
        && (end != Some(Broken) ==> PastNow() == all.past && br.Ahead() == all.rest)
    }

    /** Read what to write next, or why to stop. */
    method NextAction(ghost room: nat, ghost size: nat, ghost done: seq<Event>, ghost all: Ran<Past, End>)
      returns (end: Option<End>, action: Action)
      requires Ready() && br.Valid() && 0 < room && 0 < size && Stands(room, size, done, all)
      modifies `length, offset, br, br.r
      ensures Ready() && br.Valid() && br.Truncated() == old(br.Truncated()) && br.Beyond() == old(br.Beyond())
        && CodesNow() == old(CodesNow())
      ensures end.Some? ==> Stopped(end, done, all)
      ensures end == Some(BlockDone) ==> br.Ahead() == [] && !br.Truncated()
      ensures |br.Ahead()| <= |old(br.Ahead())| && (end == None ==> |br.Ahead()| < |old(br.Ahead())|)
      ensures end == None ==> Stands(room - Fills(EventOf(action), room, size), size, done + [EventOf(action)], all)
    {
      hide Rar5BitReader.Valid;
      hide Rar5BitReader.Ahead;
      hide Rar5BitReader.Truncated;
      hide Rar5BitReader.Beyond;
      hide Ready;
      hide Prefix;
      hide Step;
      hide Running;
      hide CodesNow;
      hide PastNow;
      hide Shrinks;
      hide Sized;
      hide HuffmanDecoder.Valid;
      hide Fills;
      hide EventOf;
      ReadyParts();
      ghost var step := Steps(CodesNow(), br.Truncated());
      ghost var past, ahead := PastNow(), br.Ahead();
      if Prefix(CodesNow()) {
        if step(past, ahead).Act? {
          RunningOn(step, past, ahead, room, size, done, all);
        } else {
          RunningStops(step, past, ahead, room, size, done, all);
        }
      }
      end, action := ReadAction();
    }

    /** One round of a fill. */
    method Round(dr: DecodeReader, ghost done: seq<Event>, ghost all: Ran<Past, End>, ghost h0: seq<byte>,
                 ghost w0: nat)
      returns (end: Option<End>, ghost done': seq<Event>)
      requires Ready() && br.Valid() && dr.Window() && dr.w < dr.size
      requires Stands(dr.size - dr.w, dr.size, done, all) && Played(h0, w0, dr.size, done, dr.hist, dr.w)
      modifies `length, offset, br, br.r, dr`w, dr`hist, dr.win
      ensures Ready() && br.Valid() && dr.Window() && br.Truncated() == old(br.Truncated())
        && br.Beyond() == old(br.Beyond()) && CodesNow() == old(CodesNow())
      ensures Played(h0, w0, dr.size, done', dr.hist, dr.w) && (Fillers(done) ==> Fillers(done'))
      ensures end.Some? ==> Stopped(end, done', all) && dr.w < dr.size
      ensures end == Some(BlockDone) ==> br.Ahead() == [] && !br.Truncated()
      ensures |br.Ahead()| <= |old(br.Ahead())|
      ensures end == None ==>
        dr.w <= dr.size && Stands(dr.size - dr.w, dr.size, done', all) && |br.Ahead()| < |old(br.Ahead())|
    {
      hide Rar5BitReader.Valid;
      hide Rar5BitReader.Ahead;
      hide Rar5BitReader.Truncated;
      hide Rar5BitReader.Beyond;
      hide Ready;
      hide Stands;
      hide Stopped;
      hide Played;
      hide DecodeReader.Window;
      hide CodesNow;
      hide Fills;
      hide EventOf;
      ReadyParts();
      var action;
      end, action := NextAction(dr.size - dr.w, dr.size, done, all);
      done' := done;
      if end.Some? {
        return;
      }
      WriteAction(dr, action, h0, w0, done);
      WindowSize(dr);
      FillersMore(done, action);
      done' := done + [EventOf(action)];
    }

    /** A full window ends the run. */
    lemma FullStops(size: nat, done: seq<Event>, all: Ran<Past, End>)
      requires br.Valid() && offset.Length == 4 && Stands(0, size, done, all)
      ensures Stopped(None, done, all)
    {
      hide Prefix;
      hide Running;
      hide Rar5BitReader.Valid;
      if Prefix(CodesNow()) {
        RunningFull(Steps(CodesNow(), br.Truncated()), PastNow(), br.Ahead(), size, done, all);
      }
    }

    /** The rounds of a fill. */
    method FillOn(dr: DecodeReader, ghost all: Ran<Past, End>) returns (end: Option<End>, ghost done: seq<Event>)
      requires Ready() && br.Valid() && dr.Window() && Stands(dr.size - dr.w, dr.size, [], all)
      modifies `length, offset, br, br.r, dr`w, dr`hist, dr.win
      ensures Ready() && br.Valid() && dr.Window() && br.Truncated() == old(br.Truncated())
        && br.Beyond() == old(br.Beyond()) && CodesNow() == old(CodesNow())
      ensures Played(old(dr.hist), old(dr.w), dr.size, done, dr.hist, dr.w)
        && (if end == None then dr.w == dr.size else dr.w < dr.size)
      ensures Stopped(end, done, all) && Fillers(done) && |br.Ahead()| <= |old(br.Ahead())|
      ensures end == Some(BlockDone) ==> br.Ahead() == [] && !br.Truncated()
    {
      hide Rar5BitReader.Valid;
      hide Rar5BitReader.Ahead;
      hide Rar5BitReader.Truncated;
      hide Rar5BitReader.Beyond;
      hide Ready;
      hide Stands;
      hide Stopped;
      hide Played;
      hide DecodeReader.Window;
      hide CodesNow;
      WindowSize(dr);
      ReadyParts();
      done := [];
      PlayedNone(dr.hist, dr.w, dr.size);
      while dr.w < dr.size
        invariant Ready() && br.Valid() && dr.Window() && br.Truncated() == old(br.Truncated())
          && br.Beyond() == old(br.Beyond()) && CodesNow() == old(CodesNow())
        invariant dr.w <= dr.size && Stands(dr.size - dr.w, dr.size, done, all)
          && Played(old(dr.hist), old(dr.w), dr.size, done, dr.hist, dr.w)
        invariant Fillers(done) && |br.Ahead()| <= |old(br.Ahead())|
        decreases |br.Ahead()|
      {
        end, done := Round(dr, done, all, old(dr.hist), old(dr.w));
        WindowSize(dr);
        if end.Some? {
          return;
        }
      }
      FullStops(dr.size, done, all);
      end := None;
    }

    /** Read tokens and write the window until it is full, the block ends, a filter follows, or the data is bad. */
    method Fill(dr: DecodeReader) returns (end: Option<End>, ghost done: seq<Event>, ghost ran: Ran<Past, End>)
      requires Ready() && br.Valid() && dr.Window()
      modifies `length, offset, br, br.r, dr`w, dr`hist, dr.win
      ensures Ready() && br.Valid() && dr.Window() && br.Truncated() == old(br.Truncated())
        && br.Beyond() == old(br.Beyond())
      ensures CodesNow() == old(CodesNow()) && |br.Ahead()| <= |old(br.Ahead())|
      ensures Played(old(dr.hist), old(dr.w), dr.size, done, dr.hist, dr.w) && Fillers(done)
      ensures old(dr.w) <= dr.size && 0 < dr.size && (if end == None then dr.w == dr.size else dr.w < dr.size)
      ensures end == Some(BlockDone) ==> br.Ahead() == [] && !br.Truncated()
      ensures ran
        == Run(Steps(CodesNow(), br.Truncated()), old(PastNow()), old(br.Ahead()), old(dr.size - dr.w), dr.size)
      ensures Prefix(CodesNow()) ==> end == ran.end && done == ran.events
      ensures Prefix(CodesNow()) && end != Some(Broken) ==> PastNow() == ran.past && br.Ahead() == ran.rest
    {
      hide Rar5BitReader.Valid;
      hide Rar5BitReader.Ahead;
      hide Rar5BitReader.Truncated;
      hide Rar5BitReader.Beyond;
      hide Ready;
      hide Prefix;
      hide Shrinks;
      hide HuffmanDecoder.Valid;
      hide Sized;
      hide Run;
      hide Running;
      hide Played;
      hide DecodeReader.Window;
      hide CodesNow;
      hide PastNow;
      ReadyParts();
      WindowSize(dr);
      ghost var step := Steps(CodesNow(), br.Truncated());
      ran := Run(step, PastNow(), br.Ahead(), dr.size - dr.w, dr.size);
      RunningStart(step, PastNow(), br.Ahead(), dr.size - dr.w, dr.size);
      end, done := FillOn(dr, ran);
    }

    // Blocks.

    /** The header of the next block. */
    method TakeHeader() returns (h: HeaderTaken)
      requires br.Valid() && br.Ahead() == [] && !br.Truncated()
      modifies br, br.r
      ensures br.Valid() && br.Ahead() == [] && !br.Truncated()
      ensures match ReadHeader(old(br.Beyond())) {
          case Header(limit, last, tables, rest) => h == HeaderTaken(limit, last, tables) && br.Beyond() == rest
          case _ => h == NoHeader
        }
    {
      hide Rar5BitReader.Valid;
      hide Rar5BitReader.Ahead;
      hide Rar5BitReader.Truncated;
      hide Rar5BitReader.Beyond;
      hide Xor;
      ghost var data := br.Beyond();
      var flags := br.ReadByte();
      if flags == None {
        return NoHeader;
      }
      var bytecount := flags.value / 8 % 4 + 1;
      if bytecount == 4 {
        return NoHeader;
      }
      var hsum := br.ReadByte();
      if hsum == None {
        return NoHeader;
      }
      assert br.Beyond() == data[2..];
      assert bytecount <= |data[2..]| ==>
        data[2..][..bytecount] == data[2..2 + bytecount] && data[2..][bytecount..] == data[2 + bytecount..];
      var ok, sum, blockBytes := SumSize(bytecount, Xor(0x5a, flags.value));
      if !ok || sum != hsum.value {
        return NoHeader;
      }
      var size: int := blockBytes;
      h := HeaderTaken(flags.value % 8 + 1 + (size - 1) * 8, flags.value / 0x40 % 2 > 0, flags.value / 0x80 % 2 > 0);
    }

    /** The bytes of a block's size, and the sum of a header so far with them. */
    method SumSize(bytecount: nat, start: nat) returns (ok: bool, sum: nat, blockBytes: nat)
      requires br.Valid() && br.Ahead() == [] && !br.Truncated()
      modifies br, br.r
      ensures br.Valid() && br.Ahead() == [] && !br.Truncated()
      ensures ok <==> bytecount <= |old(br.Beyond())|
      ensures ok ==> br.Beyond() == old(br.Beyond())[bytecount..]
      ensures ok ==>
        blockBytes == LowFirst(old(br.Beyond())[..bytecount]) && sum == XorAll(start, old(br.Beyond())[..bytecount])
    {
      hide Rar5BitReader.Valid;
      hide Rar5BitReader.Ahead;
      hide Rar5BitReader.Truncated;
      hide Rar5BitReader.Beyond;
      hide Xor;
      ghost var data := br.Beyond();
      assert data[..0] == [];
      sum, blockBytes := start, 0;
      for i := 0 to bytecount
        invariant br.Valid() && br.Ahead() == [] && !br.Truncated()
        invariant i <= |data| && br.Beyond() == data[i..]
        invariant blockBytes == LowFirst(data[..i]) && sum == XorAll(start, data[..i])
      {
        var n := br.ReadByte();
        if n == None {
          return false, sum, blockBytes;
        }
        OneByteMore(data, i, start);
        var b: nat := n.value;
        Product(b, Pow2(8 * i));
        sum := Xor(sum, b);
        blockBytes := blockBytes + b * Pow2(8 * i);
      }
      ok := true;
    }

    /** Make the decoders for the codes of the table. */
    method InitDecoders()
      requires Formed() && CodeLengths.Small(codeLength[..]) && Sizes()
      modifies mainDecoder, mainDecoder.limit, mainDecoder.pos, mainDecoder.quicklen, mainDecoder.quicksym
      modifies offsetDecoder, offsetDecoder.limit, offsetDecoder.pos, offsetDecoder.quicklen, offsetDecoder.quicksym
      modifies lowoffsetDecoder, lowoffsetDecoder.limit, lowoffsetDecoder.pos, lowoffsetDecoder.quicklen,
               lowoffsetDecoder.quicksym
      modifies lengthDecoder, lengthDecoder.limit, lengthDecoder.pos, lengthDecoder.quicklen, lengthDecoder.quicksym
      ensures codeLength[..] == old(codeLength[..]) && offset[..] == old(offset[..])
      ensures Formed() && Ready() && CodesNow() == CodesOf(old(codeLength[..]))
    {
      hide HuffmanDecoder.Valid;
      hide HuffmanDecoder.Shape;
      hide HuffmanDecoder.Tables;
      hide Disjoint;
      ghost var all, others := {mainDecoder, offsetDecoder, lowoffsetDecoder, lengthDecoder}, {offset, codeLength};
      var cl := codeLength[..];
      var low := |cl| - LENGTH_SIZE - LOW_SIZE;
      InitFour(mainDecoder, offsetDecoder, lowoffsetDecoder, lengthDecoder,
               cl[..MAIN_SIZE], cl[MAIN_SIZE..low], cl[low..low + LOW_SIZE], cl[low + LOW_SIZE..], others);
      OthersApart(all, others);
    }

    /** The table at the start of a block, and the decoders for it. */
    method OpenTables() returns (ok: bool)
      requires Formed() && br.Valid() && Sizes()
      modifies br, br.r, codeLength
      modifies mainDecoder, mainDecoder.limit, mainDecoder.pos, mainDecoder.quicklen, mainDecoder.quicksym
      modifies offsetDecoder, offsetDecoder.limit, offsetDecoder.pos, offsetDecoder.quicklen, offsetDecoder.quicksym
      modifies lowoffsetDecoder, lowoffsetDecoder.limit, lowoffsetDecoder.pos, lowoffsetDecoder.quicklen,
               lowoffsetDecoder.quicksym
      modifies lengthDecoder, lengthDecoder.limit, lengthDecoder.pos, lengthDecoder.quicklen, lengthDecoder.quicksym
      ensures Formed() && br.Valid() && (ok ==> Ready())
      ensures br.Beyond() == old(br.Beyond()) && |br.Ahead()| <= |old(br.Ahead())|
      ensures match OpenTable(old(StreamNow())) {
          case Opened(s) => ok && StreamNow() == s
          case Refused => !ok
          case Unsaid => true
        }
    {
      hide HuffmanDecoder.Valid;
      hide HuffmanDecoder.Shape;
      hide HuffmanDecoder.Tables;
      hide Disjoint;
      hide Rar5BitReader.Valid;
      hide Rar5BitReader.Ahead;
      hide Rar5BitReader.Truncated;
      hide Rar5BitReader.Beyond;
      hide Ready;
      hide CodesOf;
      hide CodeLengths.ReadLengths;
      hide CodeLengths.LevelsFit;
      hide CodeLengths.Small;
      OthersApart({mainDecoder, offsetDecoder, lowoffsetDecoder, lengthDecoder}, {offset, codeLength});
      var res := CodeLengths.ReadCodeLengthTable(Rar5(br), codeLength, false);
      if !res.TableOk? {
        return false;
      }
      InitDecoders();
      ok := true;
    }

    /** The next block's bits are ahead; Some(true) when it begins with a table, None without a block to go on to. */
    method LimitBlock() returns (tables: Option<bool>)
      requires br.Valid() && br.Ahead() == [] && !br.Truncated()
      modifies `lastBlock, br, br.r
      ensures br.Valid()
      ensures match ReadHeader(old(br.Beyond())) {
          case Header(limit, last, tables', rest) =>
            if limit < 0 then tables == None
            else
              && tables == Some(tables') && br.Ahead() == Limited(rest, limit) && br.Truncated() == (limit > 8 * |rest|)
              && br.Beyond() == AfterBits(rest, limit) && lastBlock == last
          case _ => tables == None
        }
    {
      hide Rar5BitReader.Valid;
      hide Rar5BitReader.Ahead;
      hide Rar5BitReader.Truncated;
      hide Rar5BitReader.Beyond;
      hide ReadHeader;
      hide Limited;
      hide AfterBits;
      var h := TakeHeader();
      if h == NoHeader || h.limit < 0 {
        // On a negative limit the source reads on; nothing is said about that.
        return None;
      }
      br.Delivered();
      br.SetLimit(h.limit);
      lastBlock := h.last;
      tables := Some(h.tables);
    }

    /** Go on to the next block. */
    method ReadBlockHeader() returns (ok: bool)
      requires Formed() && Ready() && br.Valid() && Sizes() && br.Ahead() == [] && !br.Truncated()
      modifies `lastBlock, br, br.r, codeLength
      modifies mainDecoder, mainDecoder.limit, mainDecoder.pos, mainDecoder.quicklen, mainDecoder.quicksym
      modifies offsetDecoder, offsetDecoder.limit, offsetDecoder.pos, offsetDecoder.quicklen, offsetDecoder.quicksym
      modifies lowoffsetDecoder, lowoffsetDecoder.limit, lowoffsetDecoder.pos, lowoffsetDecoder.quicklen,
               lowoffsetDecoder.quicksym
      modifies lengthDecoder, lengthDecoder.limit, lengthDecoder.pos, lengthDecoder.quicklen, lengthDecoder.quicksym
      ensures Formed() && br.Valid() && (ok ==> Ready())
      ensures ok ==> |br.Ahead()| + 8 * |br.Beyond()| < 8 * |old(br.Beyond())|
      ensures match OpenBlock(old(StreamNow())) {
          case Opened(s) => ok && StreamNow() == s
          case Refused => !ok
          case Unsaid => true
        }
    {
      hide HuffmanDecoder.Valid;
      hide HuffmanDecoder.Shape;
      hide HuffmanDecoder.Tables;
      hide Disjoint;
      hide Rar5BitReader.Valid;
      hide Rar5BitReader.Ahead;
      hide Rar5BitReader.Truncated;
      hide Rar5BitReader.Beyond;
      hide Ready;
      hide OpenTable;
      hide ReadHeader;
      hide Limited;
      hide AfterBits;
      ghost var before := StreamNow();
      OpenShrinks(before);
      var tables := LimitBlock();
      if tables == None {
        return false;
      }
      ok := true;
      if tables.value {
        ok := OpenTables();
      }
    }

    // Filters.

    /** A number of one to four bytes, the lowest first. */
    method ReadFilter5Data() returns (res: Option<nat>)
      requires br.Valid()
      modifies br, br.r
      ensures br.Valid() && br.Truncated() == old(br.Truncated()) && br.Beyond() == old(br.Beyond())
      ensures |br.Ahead()| <= |old(br.Ahead())|
      ensures match ReadFilterNumber(old(br.Ahead())) {
          case Some(v) => res == Some(v.0) && br.Ahead() == v.1
          case None => res == None
        }
    {
      hide Rar5BitReader.Valid;
      hide Rar5BitReader.Ahead;
      hide Rar5BitReader.Truncated;
      hide Rar5BitReader.Beyond;
      hide Num;
      hide Pow2;
      hide Scale;
      hide ReadLowFirst;
      var bytes := br.ReadBits(2);
      if !bytes.Got? {
        return None;
      }
      ghost var all := ReadLowFirst(br.Ahead(), bytes.value + 1);
      var data: nat := 0;
      Scaled(all, 0, Pow2(0));
      for i := 0 to bytes.value + 1
        invariant br.Valid() && br.Truncated() == old(br.Truncated()) && br.Beyond() == old(br.Beyond())
        invariant |br.Ahead()| <= |old(br.Ahead())|
        invariant all == Scale(ReadLowFirst(br.Ahead(), bytes.value + 1 - i), data, Pow2(8 * i))
      {
        ScaledByte(br.Ahead(), bytes.value + 1 - i, data, i);
        var n := br.ReadBits(8);
        if !n.Got? {
          return None;
        }
        data := data + n.value * Pow2(8 * i);
      }
      ScaledLast(br.Ahead(), data, Pow2(8 * (bytes.value + 1)));
      res := Some(data);
    }

    /** The description of a filter. */
    method TakeFilter() returns (block: Option<FilterBlock>)
      requires br.Valid()
      modifies br, br.r
      ensures br.Valid() && br.Truncated() == old(br.Truncated()) && br.Beyond() == old(br.Beyond())
      ensures block.Some? ==> |br.Ahead()| < |old(br.Ahead())|
      ensures match ReadFilter(old(br.Ahead())) {
          case FilterRead(offset, length, kind, rest) =>
            block == Some(FilterBlock(length, offset, FilterOf(kind))) && br.Ahead() == rest
          case _ => block == None
        }
    {
      hide Rar5BitReader.Valid;
      hide Rar5BitReader.Ahead;
      hide Rar5BitReader.Truncated;
      hide Rar5BitReader.Beyond;
      hide Num;
      hide ReadFilterNumber;
      hide FilterOf;
      FilterShrinks(br.Ahead());
      var offset := ReadFilter5Data();
      if offset == None {
        return None;
      }
      var length := ReadFilter5Data();
      if length == None {
        return None;
      }
      var ftype := br.ReadBits(3);
      if !ftype.Got? {
        return None;
      }
      var kind := CallFilter;
      if ftype.value == 0 {
        var n := br.ReadBits(5);
        if !n.Got? {
          return None;
        }
        kind := Delta(n.value + 1);
      } else if ftype.value == 2 {
        kind := JumpFilter;
      } else if ftype.value == 3 {
        kind := ArmFilter;
      } else if ftype.value != 1 {
        return None;
      }
      block := Some(FilterBlock(length.value, offset.value, FilterOf(kind)));
    }

    // Fills.

    /** How far the window and the queue of a reader have come since a fill began. */
    ghost predicate Came(dr: DecodeReader, f: Start, accepted: seq<Event>)
      requires dr.Window() && dr.origin <= dr.Taken()
      reads dr, dr.win
    {
      && f.consumed == dr.Taken() - dr.origin && f.queued <= dr.queued && |f.hist| >= dr.size
      && Accepted(f, dr.size, accepted, dr.hist, dr.w, dr.queued[|f.queued|..], LastStart(dr.fl, dr.origin), |dr.fl|)
    }

    /** Read tokens and write the window, part of the way through a file that comes to `all`. */
    method FillTokens(dr: DecodeReader, ghost f: Start, ghost accepted: seq<Event>, ghost all: Fed)
      returns (end: Option<End>, ghost accepted': seq<Event>)
      requires Ready() && br.Valid() && Sizes() && dr.Window() && dr.Lined() && dr.origin <= dr.Taken()
        && Came(dr, f, accepted)
      requires all.end != Beyond ==> all == Prepend(accepted, Blocks(StreamNow(), dr.Room(), dr.size))
      modifies `length, offset, br, br.r, dr`w, dr`hist, dr.win
      ensures Ready() && br.Valid() && dr.Window() && dr.Lined() && dr.Taken() == old(dr.Taken())
        && Came(dr, f, accepted')
      ensures br.Beyond() == old(br.Beyond()) && |br.Ahead()| <= |old(br.Ahead())|
      ensures if end == None then dr.w == dr.size else dr.w < dr.size
      ensures end == Some(BlockDone) ==> br.Ahead() == [] && !br.Truncated()
      ensures all.end != Beyond && end != Some(Broken) ==>
        all == Prepend(accepted', Onward(StreamNow(), end, dr.Room(), dr.size))
      ensures all.end != Beyond && end == Some(Broken) ==> all.end == Failed && all.events == accepted'
    {
      hide Ready;
      hide Rar5BitReader.Valid;
      hide Rar5BitReader.Ahead;
      hide Rar5BitReader.Truncated;
      hide Rar5BitReader.Beyond;
      hide Prefix;
      hide Run;
      hide Onward;
      hide DecodeReader.Lined;
      hide Play;
      hide Accepted;
      hide LastStart;
      hide CodesNow;
      hide PastNow;
      hide Blocks;
      hide Prepend;
      hide Fillers;
      hide DecodeReader.Window;
      hide Formed;
      ghost var hist, w, room, s := dr.hist, dr.w, dr.Room(), StreamNow();
      ghost var done, ran;
      end, done, ran := Fill(dr);
      accepted' := accepted + done;
      AcceptedFilled(f, dr.size, accepted, hist, w, dr.queued[|f.queued|..], LastStart(dr.fl, dr.origin), |dr.fl|, done,
                     dr.hist, dr.w);
      RoomPlayed(hist, w, dr.size, done);
      if all.end != Beyond {
        BlocksRan(s, ran, room, dr.size, accepted, all, StreamNow(), end, done);
      }
    }

    /** Queue the filter that follows: None when there is none that is known. */
    method QueueNext(dr: DecodeReader, ghost f: Start, ghost accepted: seq<Event>, ghost all: Fed)
      returns (ok: bool, refused: Option<Error>, ghost accepted': seq<Event>)
      requires br.Valid() && Sizes() && dr.Window() && dr.Lined() && dr.origin <= dr.Taken() && dr.w < dr.size
        && Came(dr, f, accepted)
      requires all.end != Beyond ==>
        all == Prepend(accepted, Onward(StreamNow(), Some(FilterAsked), dr.Room(), dr.size))
      modifies br, br.r, dr`w, dr`hist, dr`fl, dr`queued, dr.win
      ensures br.Valid() && dr.Window() && dr.Lined() && dr.Taken() == old(dr.Taken())
      ensures br.Beyond() == old(br.Beyond()) && (ok ==> |br.Ahead()| < |old(br.Ahead())|)
      ensures Came(dr, f, accepted') && dr.w == old(dr.w) && (ok ==> refused == None)
      ensures ok && all.end != Beyond ==> all == Prepend(accepted', Blocks(StreamNow(), dr.Room(), dr.size))
      ensures !ok && all.end != Beyond && refused == None ==> all.end == Failed && all.events == accepted'
      ensures refused.Some? ==> accepted' == accepted
      ensures refused.Some? && all.end != Beyond ==>
        Refuses(all.events, accepted, refused, dr.fl, dr.origin, |dr.hist|, f.consumed)
    {
      hide Ready;
      hide Formed;
      hide Rar5BitReader.Valid;
      hide Rar5BitReader.Ahead;
      hide Rar5BitReader.Truncated;
      hide Rar5BitReader.Beyond;
      hide Prefix;
      hide Blocks;
      hide Prepend;
      hide CodesNow;
      hide PastNow;
      hide DecodeReader.Window;
      hide DecodeReader.Lined;
      hide ReadFilter;
      hide Play;
      hide Recordings;
      hide Accepted;
      hide LastStart;
      hide LastOf;
      hide Refusal;
      ghost var hist, w, fl, s := dr.hist, dr.w, dr.fl, StreamNow();
      ghost var added, now := dr.queued[|f.queued|..], [];
      refused, accepted' := None, accepted;
      if all.end != Beyond {
        FilterFollows(s, dr.Room(), dr.size, accepted, all);
      }
      var block := TakeFilter();
      if block == None {
        return false, None, accepted;
      }
      var event := Queued(block.value);
      now := dr.RecordingsNow([event]);
      WindowSize(dr);
      QueuedPlays(hist, w, dr.size, block.value);
      var stop, e := dr.Perform(event);
      assert dr.hist == hist && dr.w == w;
      if stop {
        return false, e, accepted;
      }
      AcceptedMore(f, dr.size, accepted, hist, w, added, LastStart(fl, dr.origin), |fl|, block.value);
      accepted' := accepted + [event];
      assert dr.queued[|f.queued|..] == added + now;
      ok := true;
    }

    /** Go on after the end of a block: None with the next block ahead, or why there is none. */
    method NextBlock(ghost dr: DecodeReader, ghost f: Start, ghost accepted: seq<Event>, ghost all: Fed)
      returns (finish: Option<Finish>)
      requires Formed() && Ready() && br.Valid() && Sizes() && br.Ahead() == [] && !br.Truncated()
      requires dr.Window() && dr.Lined() && dr.origin <= dr.Taken() && dr.w < dr.size && Came(dr, f, accepted)
      requires all.end != Beyond ==> all == Prepend(accepted, Onward(StreamNow(), Some(BlockDone), dr.Room(), dr.size))
      modifies `lastBlock, br, br.r, codeLength
      modifies mainDecoder, mainDecoder.limit, mainDecoder.pos, mainDecoder.quicklen, mainDecoder.quicksym
      modifies offsetDecoder, offsetDecoder.limit, offsetDecoder.pos, offsetDecoder.quicklen, offsetDecoder.quicksym
      modifies lowoffsetDecoder, lowoffsetDecoder.limit, lowoffsetDecoder.pos, lowoffsetDecoder.quicklen,
               lowoffsetDecoder.quicksym
      modifies lengthDecoder, lengthDecoder.limit, lengthDecoder.pos, lengthDecoder.quicklen, lengthDecoder.quicksym
      ensures Formed() && br.Valid() && finish != Some(WindowFull) && finish != Some(Beyond)
        && (finish != Some(Failed) ==> Ready())
      ensures dr.Window() && dr.Lined() && dr.Taken() == old(dr.Taken()) && Came(dr, f, accepted)
      ensures finish == None ==> |br.Ahead()| + 8 * |br.Beyond()| < 8 * |old(br.Beyond())|
      ensures finish == None && all.end != Beyond ==> all == Prepend(accepted, Blocks(StreamNow(), dr.Room(), dr.size))
      ensures finish.Some? && all.end != Beyond ==> all.end == finish.value && all.events == accepted
      ensures finish == Some(FileEnd) && all.end != Beyond ==> all.s == StreamNow()
    {
      hide Ready;
      hide Formed;
      hide Rar5BitReader.Valid;
      hide Rar5BitReader.Ahead;
      hide Rar5BitReader.Truncated;
      hide Rar5BitReader.Beyond;
      hide Blocks;
      hide CodesNow;
      hide PastNow;
      hide OpenBlock;
      hide DecodeReader.Window;
      hide DecodeReader.Lined;
      hide Came;
      hide Onward;
      hide Prepend;
      if all.end != Beyond {
        BlockFollows(StreamNow(), dr.Room(), dr.size, accepted, all);
      }
      if lastBlock {
        return Some(FileEnd);
      }
      var ok := ReadBlockHeader();
      finish := if ok then None else Some(Failed);
    }

    /** Where a fill stands, in the reading that comes to `all`: None while it goes on. */
    ghost predicate Reached(dr: DecodeReader, f: Start, accepted: seq<Event>, all: Fed, finish: Option<Finish>,
                            refused: Option<Error>)
      requires br.Valid() && Sizes() && dr.Window()
      reads this, offset, codeLength, br, br.r, mainDecoder, offsetDecoder, lowoffsetDecoder, lengthDecoder, dr, dr.win
    {
      && (refused == None && finish == Some(WindowFull) ==> dr.w == dr.size)
      && (all.end != Beyond ==>
            if refused.Some? then Refuses(all.events, accepted, refused, dr.fl, dr.origin, |dr.hist|, f.consumed)
            else if finish == None then dr.size > 0 && all == Prepend(accepted, Blocks(StreamNow(), dr.Room(), dr.size))
            else finish == Some(all.end) && accepted == all.events && (finish != Some(Failed) ==> StreamNow() == all.s))
    }

    /** Read tokens to the next stop, and what stopped them; None to read on. */
    method ReadOn(dr: DecodeReader, ghost f: Start, ghost accepted: seq<Event>, ghost all: Fed)
      returns (finish: Option<Finish>, refused: Option<Error>, ghost accepted': seq<Event>)
      requires Formed() && Ready() && br.Valid() && Sizes() && dr.Window() && dr.Lined() && dr.origin <= dr.Taken()
        && Came(dr, f, accepted)
      requires all.end != Beyond ==> all == Prepend(accepted, Blocks(StreamNow(), dr.Room(), dr.size))
      modifies `length, `lastBlock, offset, br, br.r, codeLength, dr`w, dr`hist, dr`fl, dr`queued, dr.win
      modifies mainDecoder, mainDecoder.limit, mainDecoder.pos, mainDecoder.quicklen, mainDecoder.quicksym
      modifies offsetDecoder, offsetDecoder.limit, offsetDecoder.pos, offsetDecoder.quicklen, offsetDecoder.quicksym
      modifies lowoffsetDecoder, lowoffsetDecoder.limit, lowoffsetDecoder.pos, lowoffsetDecoder.quicklen,
               lowoffsetDecoder.quicksym
      modifies lengthDecoder, lengthDecoder.limit, lengthDecoder.pos, lengthDecoder.quicklen, lengthDecoder.quicksym
      ensures Formed() && br.Valid() && dr.Window() && dr.Lined() && dr.Taken() == old(dr.Taken())
        && Came(dr, f, accepted')
      ensures dr.w <= dr.size
      ensures finish == None ==>
        Ready() && |br.Ahead()| + 8 * |br.Beyond()| < |old(br.Ahead())| + 8 * |old(br.Beyond())|
      ensures (refused.Some? ==> finish.Some?)
        && (refused == None && finish.Some? && finish != Some(Failed) ==> Ready())
      ensures Reached(dr, f, accepted', all, finish, refused)
    {
      hide StreamNow;
      hide DecodeReader.Room;
      hide Ready;
      hide Formed;
      hide Rar5BitReader.Valid;
      hide Rar5BitReader.Ahead;
      hide Rar5BitReader.Truncated;
      hide Rar5BitReader.Beyond;
      hide Prefix;
      hide Blocks;
      hide Prepend;
      hide CodesNow;
      hide PastNow;
      hide DecodeReader.Window;
      hide DecodeReader.Lined;
      hide Onward;
      hide Play;
      hide Recordings;
      hide Accepted;
      hide LastStart;
      hide Refuses;
      hide Came;
      var end;
      refused := None;
      WindowSize(dr);
      end, accepted' := FillTokens(dr, f, accepted, all);
      match end {
        case None =>
          if all.end != Beyond {
            OnwardFull(StreamNow(), dr.Room(), dr.size, accepted', all);
          }
          finish := Some(WindowFull);
        case Some(Broken) =>
          finish := Some(Failed);
        case Some(FilterAsked) =>
          var ok;
          ok, refused, accepted' := QueueNext(dr, f, accepted', all);
          finish := if ok then None else Some(Failed);
        case Some(BlockDone) =>
          finish := NextBlock(dr, f, accepted', all);
      }
    }

    /** Read on, from block to block, until the window is full, the file ends, a filter is refused, or the data is
        bad. */
    method FillBlocks(dr: DecodeReader)
      returns (finish: Finish, refused: Option<Error>, ghost accepted: seq<Event>, ghost all: Fed)
      requires Formed() && Ready() && br.Valid() && Sizes() && dr.Window() && dr.Lined() && dr.origin <= dr.Taken()
      modifies `length, `lastBlock, offset, br, br.r, codeLength, dr`w, dr`hist, dr`fl, dr`queued, dr.win
      modifies mainDecoder, mainDecoder.limit, mainDecoder.pos, mainDecoder.quicklen, mainDecoder.quicksym
      modifies offsetDecoder, offsetDecoder.limit, offsetDecoder.pos, offsetDecoder.quicklen, offsetDecoder.quicksym
      modifies lowoffsetDecoder, lowoffsetDecoder.limit, lowoffsetDecoder.pos, lowoffsetDecoder.quicklen,
               lowoffsetDecoder.quicksym
      modifies lengthDecoder, lengthDecoder.limit, lengthDecoder.pos, lengthDecoder.quicklen, lengthDecoder.quicksym
      ensures Formed() && br.Valid() && dr.Window() && dr.Lined() && dr.Taken() == old(dr.Taken())
      ensures old(dr.w) <= dr.size && 0 < dr.size <= |old(dr.hist)|
      ensures all == Blocks(old(StreamNow()), old(dr.Room()), dr.size)
      ensures dr.hist == Play(old(dr.hist), old(dr.w), dr.size, accepted)
      ensures dr.queued == old(dr.queued) + old(dr.RecordingsNow(accepted))
      ensures Unrefused(old(dr.hist), old(dr.w), dr.size, accepted, old(dr.Taken()) - dr.origin,
                        old(LastStart(dr.fl, dr.origin)), |old(dr.fl)|)
      ensures LastStart(dr.fl, dr.origin) == LastOf(old(LastStart(dr.fl, dr.origin)), old(dr.RecordingsNow(accepted)))
      ensures |dr.fl| == |old(dr.fl)| + |old(dr.RecordingsNow(accepted))|
      ensures refused == None && all.end != Beyond ==> finish == all.end && accepted == all.events
      ensures refused == None && all.end != Beyond && finish != Failed ==> Ready() && StreamNow() == all.s
      ensures refused == None && finish == WindowFull ==> dr.w == dr.size
      ensures refused.Some? && all.end != Beyond ==>
        Refuses(all.events, accepted, refused, dr.fl, dr.origin, |dr.hist|, dr.Taken() - dr.origin)
    {
      hide Ready;
      hide Formed;
      hide Rar5BitReader.Valid;
      hide Rar5BitReader.Ahead;
      hide Rar5BitReader.Truncated;
      hide Rar5BitReader.Beyond;
      hide Prefix;
      hide Blocks;
      hide Prepend;
      hide CodesNow;
      hide PastNow;
      hide DecodeReader.Window;
      hide DecodeReader.Lined;
      hide Onward;
      hide Play;
      hide Recordings;
      hide Accepted;
      hide LastStart;
      hide Refuses;
      hide Came;
      WindowSize(dr);
      ghost var f := Start(dr.hist, dr.w, dr.queued, |dr.fl|, dr.Taken() - dr.origin, LastStart(dr.fl, dr.origin));
      all := Blocks(StreamNow(), dr.Room(), dr.size);
      accepted := [];
      PrependNone(all);
      CameNone(dr, f);
      var stop: Option<Finish> := None;
      refused := None;
      while stop == None
        invariant Formed() && br.Valid() && Sizes() && dr.Window() && dr.Lined() && dr.Taken() == old(dr.Taken())
          && Came(dr, f, accepted)
        invariant dr.w <= dr.size
        invariant stop == None ==> Ready() && refused == None
        invariant refused == None && stop.Some? && stop != Some(Failed) ==> Ready()
        invariant Reached(dr, f, accepted, all, stop, refused)
        decreases stop == None, |br.Ahead()| + 8 * |br.Beyond()|
      {
        stop, refused, accepted := ReadOn(dr, f, accepted, all);
      }
      finish := stop.value;
      CameMeans(dr, f, accepted);
    }

    /** A fill: what a reader that is given the events of the rest of the file would do, and its error; and after it the
        file goes on with the events that are left. */
    method FillWindow(dr: DecodeReader) returns (e: Option<Error>)
      requires Formed() && Ready() && br.Valid() && Sizes() && dr.Window() && dr.Lined() && dr.origin <= dr.Taken()
      modifies `length, `lastBlock, offset, br, br.r, codeLength, dr`w, dr`hist, dr`fl, dr`queued, dr.win
      modifies mainDecoder, mainDecoder.limit, mainDecoder.pos, mainDecoder.quicklen, mainDecoder.quicksym
      modifies offsetDecoder, offsetDecoder.limit, offsetDecoder.pos, offsetDecoder.quicklen, offsetDecoder.quicksym
      modifies lowoffsetDecoder, lowoffsetDecoder.limit, lowoffsetDecoder.pos, lowoffsetDecoder.quicklen,
               lowoffsetDecoder.quicksym
      modifies lengthDecoder, lengthDecoder.limit, lengthDecoder.pos, lengthDecoder.quicklen, lengthDecoder.quicksym
      ensures Formed() && br.Valid() && dr.Window() && dr.Lined() && dr.Taken() == old(dr.Taken())
      ensures old(dr.w) <= dr.size && 0 < dr.size <= |old(dr.hist)|
      ensures var all := AllOf(old(StreamNow()));
        all.end != Beyond ==>
          var script := ScriptOf(all);
          var d := DecodingOf(|old(dr.hist)|, old(dr.w), dr.size, script, old(dr.Taken()) - dr.origin,
                              old(LastStart(dr.fl, dr.origin)), |old(dr.fl)|);
          && e == d.e && dr.hist == Play(old(dr.hist), old(dr.w), dr.size, script[..d.taken])
          && dr.queued == old(dr.queued) + Recordings(|old(dr.hist)|, old(dr.w), dr.size, AcceptedOf(script, d),
                                                      old(dr.Taken()) - dr.origin, old(LastStart(dr.fl, dr.origin)))
          && (e == None ==> Ready() && ScriptOf(AllOf(StreamNow())) == script[d.taken..])
    {
      hide Ready;
      hide Formed;
      hide Rar5BitReader.Valid;
      hide Rar5BitReader.Ahead;
      hide Rar5BitReader.Truncated;
      hide Rar5BitReader.Beyond;
      hide Blocks;
      hide AllOf;
      hide StreamNow;
      hide DecodeReader.Window;
      hide DecodeReader.Lined;
      hide Play;
      hide Recordings;
      hide Unrefused;
      hide LastStart;
      hide LastOf;
      hide Refusal;
      hide DecodingOf;
      ghost var s, hist, w, count, consumed, last :=
        StreamNow(), dr.hist, dr.w, |dr.fl|, dr.Taken() - dr.origin, LastStart(dr.fl, dr.origin);
      var finish, refused;
      ghost var accepted, all;
      finish, refused, accepted, all := FillBlocks(dr);
      e := if refused.Some? then refused else if finish == WindowFull then None else Some(ErrorOf(finish));
      if AllOf(s).end != Beyond {
        BlocksArePart(s, dr.size - w, dr.size);
        FillDone(s, hist, w, dr.size, consumed, last, count, accepted, refused);
      }
    }

    lemma CameNone(dr: DecodeReader, f: Start)
      requires dr.Window() && dr.origin <= dr.Taken()
      requires f == Start(dr.hist, dr.w, dr.queued, |dr.fl|, dr.Taken() - dr.origin, LastStart(dr.fl, dr.origin))
      ensures Came(dr, f, [])
    {
      hide Accepted;
      hide LastStart;
      AcceptedNone(f, dr.size);
      assert dr.queued[|f.queued|..] == [];
    }

    lemma CameMeans(dr: DecodeReader, f: Start, accepted: seq<Event>)
      requires dr.Window() && dr.origin <= dr.Taken() && Came(dr, f, accepted)
      ensures 0 < dr.size <= |f.hist| && f.w <= dr.size && f.consumed == dr.Taken() - dr.origin
      ensures dr.hist == Play(f.hist, f.w, dr.size, accepted)
      ensures dr.queued == f.queued + Recordings(|f.hist|, f.w, dr.size, accepted, f.consumed, f.last)
      ensures Unrefused(f.hist, f.w, dr.size, accepted, f.consumed, f.last, f.count)
      ensures var added := Recordings(|f.hist|, f.w, dr.size, accepted, f.consumed, f.last);
        LastStart(dr.fl, dr.origin) == LastOf(f.last, added) && |dr.fl| == f.count + |added|
    {
      hide Play;
      hide Recordings;
      hide LastStart;
      AcceptedMeans(f, dr.size, accepted, dr.hist, dr.w, dr.queued[|f.queued|..], LastStart(dr.fl, dr.origin),
                    |dr.fl|);
    }
  }

  /** The event after those accepted is a filter that the queue does not take. */
  ghost predicate Refuses(events: seq<Event>, accepted: seq<Event>, refused: Option<Error>,
                          fl: seq<FilterBlock>, origin: nat, at: nat, consumed: nat)
  {
    && |accepted| < |events| && accepted == events[..|accepted|] && events[|accepted|].Queued?
    && refused == Refusal(|fl|, LastStart(fl, origin), at + events[|accepted|].block.offset, consumed)
  }

  lemma CopiesOf(s: seq<nat>)
    requires forall i :: 0 <= i < |s| ==> s[i] == 0
    ensures s == CodeLengths.Copies(0, |s|)
  {}

  /** A number read on top of one that was read before. */
  function Scale(v: Option<(nat, seq<Bit>)>, data: nat, p: nat): Option<(nat, seq<Bit>)> {
    if v == None then None
    else
      Product(p, v.value.0);
      Some((data + p * v.value.0, v.value.1))
  }

  lemma Scaled(v: Option<(nat, seq<Bit>)>, data: nat, p: nat)
    requires p == Pow2(0) && data == 0
    ensures Scale(v, data, p) == v
  {}

  lemma ScaledByte(ahead: seq<Bit>, count: nat, data: nat, i: nat)
    requires count > 0
    ensures |ahead| < 8 ==> Scale(ReadLowFirst(ahead, count), data, Pow2(8 * i)) == None
    ensures 8 <= |ahead| ==> Num(ahead[..8]) * Pow2(8 * i) >= 0
    ensures 8 <= |ahead| ==>
      Scale(ReadLowFirst(ahead, count), data, Pow2(8 * i))
      == Scale(ReadLowFirst(ahead[8..], count - 1), data + Num(ahead[..8]) * Pow2(8 * i), Pow2(8 * (i + 1)))
  {
    hide Scale;
    hide Num;
    hide Pow2;
    if 8 <= |ahead| {
      ScaledOn(ReadLowFirst(ahead[8..], count - 1), data, Num(ahead[..8]), i);
    } else {
      ScaledNone(data, Pow2(8 * i));
    }
  }

  lemma ScaledNone(data: nat, p: nat)
    ensures Scale(None, data, p) == None
  {}

  lemma ScaledLast(ahead: seq<Bit>, data: nat, p: nat)
    ensures Scale(ReadLowFirst(ahead, 0), data, p) == Some((data, ahead))
  {}

  /** One byte more. */
  lemma ScaledOn(high: Option<(nat, seq<Bit>)>, data: nat, b: nat, i: nat)
    ensures b * Pow2(8 * i) >= 0
    ensures Scale(if high == None then None else Some((b + 0x100 * high.value.0, high.value.1)), data, Pow2(8 * i))
      == Scale(high, data + b * Pow2(8 * i), Pow2(8 * (i + 1)))
  {
    Product(b, Pow2(8 * i));
    Pow2Add(8 * i, 8);
    Pow2Values();
    var p := Pow2(8 * i);
    if high.Some? {
      assert p * (b + 0x100 * high.value.0) == b * p + p * 0x100 * high.value.0;
    }
  }

  lemma Product(a: nat, b: nat)
    ensures a * b >= 0
  {}

  lemma OneByteMore(data: seq<byte>, i: nat, start: nat)
    requires i < |data|
    ensures LowFirst(data[..i + 1]) == LowFirst(data[..i]) + data[i] * Pow2(8 * i)
    ensures XorAll(start, data[..i + 1]) == Xor(XorAll(start, data[..i]), data[i])
  {
    assert data[..i + 1] == data[..i] + [data[i]];
    LowFirstMore(data[..i], data[i]);
    XorAllMore(start, data[..i], data[i]);
  }

  lemma {:induction false} LowFirstMore(s: seq<byte>, b: byte)
    ensures LowFirst(s + [b]) == LowFirst(s) + b * Pow2(8 * |s|)
  {
    if s == [] {
      assert [b][1..] == [] && Pow2(0) == 1;
    } else {
      LowFirstMore(s[1..], b);
      assert (s + [b])[1..] == s[1..] + [b];
      Pow2Add(8 * |s| - 8, 8);
      Pow2Values();
      var p := Pow2(8 * |s| - 8);
      assert 0x100 * (b * p) == b * (p * 0x100);
    }
  }

  lemma {:induction false} XorAllMore(x: nat, s: seq<byte>, b: byte)
    ensures XorAll(x, s + [b]) == Xor(XorAll(x, s), b)
    decreases |s|
  {
    hide Xor;
    if s == [] {
      assert [b][1..] == [];
    } else {
      XorAllMore(Xor(x, s[0]), s[1..], b);
      assert (s + [b])[1..] == s[1..] + [b];
    }
  }

  lemma OffsetSlotIs(slot: nat)
    ensures slot < 4 ==> OffsetBase(slot) == 1 + slot && OffsetBits(slot) == 0
    ensures slot >= 4 ==>
      OffsetBits(slot) == slot / 2 - 1 && OffsetBase(slot) == 1 + (2 + slot % 2) * Pow2(slot / 2 - 1)
  {}

  lemma ZeroBits(ahead: seq<Bit>)
    ensures Num(ahead[..0]) == 0 && ahead[0..] == ahead && Pow2(0) == 1
  {}
}

/** The RAR 2.0 decoder of Lempel-Ziv blocks: it reads tokens with three Huffman decoders and writes the window. */
module Decoder20s {
  import opened Machine
  import opened Bits
  import opened BitStrings
  import opened BitReaders
  import opened Canonical
  import CodeLengths
  import opened CodeLengths20
  import opened Huffman
  import opened DecoderSets
  import opened LzRuns
  import opened LzTables
  import opened Lz20
  import opened DR = DecodeReaders
  import opened Decodings

  const TABLE_SIZE := MAIN_SIZE + OFFSET_SIZE + LENGTH_SIZE

  function Fault(t: Taken): End {
    if t == Unknown then BadCode else NoData
  }

  ghost predicate IsFault(e: End) { e == NoData || e == BadCode }

  /** A match was read and this is remembered, or nothing can be read. */
  ghost predicate AgreesMatch(t: Taken, p: Part<Past>, past: Past, ahead: seq<Bit>) {
    match p
    case Part(v, rest) => t.Took? && past == v && ahead == rest
    case Ends => t == OutOfBits
    case Misses => t == Unknown
  }

  class Lz20Decoder {
    const br: RarBitReader
    const mainDecoder: HuffmanDecoder
    const offsetDecoder: HuffmanDecoder
    const lengthDecoder: HuffmanDecoder
    const offset: array<nat>
    var length: nat

    constructor (br: RarBitReader)
      ensures this.br == br && Formed() && length == 0 && forall i :: 0 <= i < 4 ==> offset[i] == 0
    {
      hide HuffmanDecoder.Shape;
      hide HuffmanDecoder.Tables;
      this.br := br;
      var past := new nat[4](_ => 0);
      var main, off, len := ThreeDecoders({past});
      offset := past;
      mainDecoder, offsetDecoder, lengthDecoder := main, off, len;
      length := 0;
    }

    /** No two parts of the decoder share memory. */
    ghost predicate Formed()
      reads mainDecoder, offsetDecoder, lengthDecoder
    {
      && mainDecoder.Shape() && offsetDecoder.Shape() && lengthDecoder.Shape()
      && mainDecoder != offsetDecoder && mainDecoder != lengthDecoder && offsetDecoder != lengthDecoder
      && Disjoint({mainDecoder, offsetDecoder, lengthDecoder}, {offset}) && offset.Length == 4
    }

    /** The parts of the decoder that stay as they are while a block is read. */
    ghost predicate Ready()
      reads mainDecoder, mainDecoder.limit, mainDecoder.pos, mainDecoder.symbol, mainDecoder.quicklen,
            mainDecoder.quicksym
      reads offsetDecoder, offsetDecoder.limit, offsetDecoder.pos, offsetDecoder.symbol, offsetDecoder.quicklen,
            offsetDecoder.quicksym
      reads lengthDecoder, lengthDecoder.limit, lengthDecoder.pos, lengthDecoder.symbol, lengthDecoder.quicklen,
            lengthDecoder.quicksym
    {
      && mainDecoder.Valid() && offsetDecoder.Valid() && lengthDecoder.Valid()
      && Sized(CodesNow()) && offset.Length == 4
      && offset !in mainDecoder.Tables() && offset !in offsetDecoder.Tables() && offset !in lengthDecoder.Tables()
    }

    ghost function CodesNow(): Codes20
      reads mainDecoder, offsetDecoder, lengthDecoder
    {
      Codes20(mainDecoder.lengths, offsetDecoder.lengths, lengthDecoder.lengths)
    }

    ghost function PastNow(done: nat): Past
      requires offset.Length == 4
      reads `length, offset
    {
      Past(offset[..], length, done)
    }

    lemma ReadyParts()
      requires Ready()
      ensures mainDecoder.Valid() && offsetDecoder.Valid() && lengthDecoder.Valid()
      ensures |mainDecoder.lengths| == MAIN_SIZE && |offsetDecoder.lengths| == OFFSET_SIZE
        && |lengthDecoder.lengths| == LENGTH_SIZE
      ensures Sized(CodesNow()) && offset.Length == 4
    {}

    lemma OffsetApart()
      requires Ready()
      ensures offset !in mainDecoder.Tables() && offset !in offsetDecoder.Tables() && offset !in lengthDecoder.Tables()
      ensures mainDecoder.Valid() && offsetDecoder.Valid() && lengthDecoder.Valid() && Sized(CodesNow())
    {}

    /** Put a new offset before the others. */
    method Remember(o: nat)
      requires Ready() && offset.Length == 4
      modifies offset
      ensures Ready() && offset[..] == Pushed(old(offset[..]), o)
    {
      hide Ready;
      OffsetApart();
      PushOffset(offset, o);
    }

    /** Far matches are longer. */
    method Lengthened(length: nat, o: nat) returns (n: nat)
      ensures n == length + Bonus(o)
    {
      n := length;
      if o >= 0x2000 {
        n := n + 1;
        if o >= 0x4_0000 {
          n := n + 1;
        }
      }
    }

    /** An offset: a slot, and then its extra bits. */
    method TakeOffset() returns (t: Taken)
      requires Ready() && br.Valid()
      modifies br, br.r
      ensures Ready() && br.Valid() && |br.Ahead()| <= |old(br.Ahead())| && |CodesNow().offset| == OFFSET_SIZE
      ensures Prefix20(CodesNow()) ==>
        match ReadSymbol(CodesNow().offset, old(br.Ahead())) {
          case Part(slot, rest) => Agrees(t, ReadSlot(OFFSET_BASE, OFFSET_BITS, slot, rest), br.Ahead())
          case Ends => t == OutOfBits
          case Misses => t == Unknown
        }
    {
      hide Ready;
      hide HuffmanDecoder.Valid;
      hide RarBitReader.Valid;
      hide RarBitReader.Ahead;
      hide Kraft;
      hide ReadSymbol;
      hide ReadSlot;
      ReadyParts();
      FewBits();
      t := TakeIn(br, offsetDecoder, OFFSET_BASE, OFFSET_BITS);
    }

    /** A match at a new offset. */
    method DecodeOffset(i: nat, ghost done: nat) returns (t: Taken)
      requires Ready() && br.Valid() && i < LENGTH_SIZE
      modifies `length, offset, br, br.r
      ensures Ready() && br.Valid() && |br.Ahead()| <= |old(br.Ahead())|
      ensures Prefix20(CodesNow()) ==>
        AgreesMatch(t, ReadNew(CodesNow(), old(PastNow(done)), i, old(br.Ahead())), PastNow(done + length), br.Ahead())
    {
      hide Ready;
      hide HuffmanDecoder.Valid;
      hide RarBitReader.Valid;
      hide RarBitReader.Ahead;
      hide Kraft;
      hide ReadSymbol;
      hide ReadSlot;
      hide Bonus;
      hide Pushed;
      ReadyParts();
      FewBits();
      t := TakeSlot(br, LENGTH_BASE, LENGTH_BITS, i);
      if !t.Took? {
        return;
      }
      length := t.value + 3;
      t := TakeOffset();
      if !t.Took? {
        return;
      }
      var o := t.value + 1;
      var n := Lengthened(length, o);
      length := n;
      Remember(o);
    }

    /** Far matches at recent offsets are longer still. */
    method LengthenedRecent(length: nat, o: nat) returns (n: nat)
      ensures n == length + RecentBonus(o)
    {
      n := length;
      if o >= 0x101 {
        n := n + 1;
        if o >= 0x2000 {
          n := n + 1;
          if o >= 0x4_0000 {
            n := n + 1;
          }
        }
      }
    }

    /** A match at an offset used before. */
    method DecodeLength(i: nat, ghost done: nat) returns (t: Taken)
      requires Ready() && br.Valid() && i < 4
      modifies `length, offset, br, br.r
      ensures Ready() && br.Valid() && |br.Ahead()| <= |old(br.Ahead())|
      ensures Prefix20(CodesNow()) ==>
        AgreesMatch(t, ReadRecent(CodesNow(), old(PastNow(done)), i, old(br.Ahead())), PastNow(done + length),
                    br.Ahead())
    {
      hide HuffmanDecoder.Shape;
      hide Ready;
      hide HuffmanDecoder.Valid;
      hide RarBitReader.Valid;
      hide RarBitReader.Ahead;
      hide Kraft;
      hide ReadSymbol;
      hide ReadSlot;
      hide RecentBonus;
      hide Pushed;
      hide Sized;
      ReadyParts();
      FewBits();
      var o := offset[i];
      Remember(o);
      ReadyParts();
      t := TakeIn(br, lengthDecoder, LENGTH_BASE, LENGTH_BITS);
      if t.Took? {
        length := t.value + 2;
        var n := LengthenedRecent(length, o);
        length := n;
      }
    }

    /** Move all offsets one back; the first is there twice. */
    method MakeRoom()
      requires Ready() && offset.Length == 4
      modifies offset
      ensures Ready() && offset[..] == Pushed(old(offset[..]), old(offset[0]))
    {
      hide Ready;
      OffsetApart();
      forall k | 1 <= k < 4 {
        offset[k] := offset[k - 1];
      }
    }

    method SetFirst(o: nat)
      requires Ready() && offset.Length == 4
      modifies offset
      ensures Ready() && offset[..] == old(offset[..])[0 := o]
    {
      hide Ready;
      OffsetApart();
      offset[0] := o;
    }

    /** A match of two bytes nearby. */
    method DecodeShortOffset(i: nat, ghost done: nat) returns (t: Taken)
      requires Ready() && br.Valid() && i < 8
      modifies `length, offset, br, br.r
      ensures Ready() && br.Valid() && |br.Ahead()| <= |old(br.Ahead())|
      ensures AgreesMatch(t, ReadShort(old(PastNow(done)), i, old(br.Ahead())), PastNow(done + length), br.Ahead())
    {
      hide Ready;
      hide HuffmanDecoder.Valid;
      hide Sized;
      hide RarBitReader.Valid;
      hide RarBitReader.Ahead;
      hide ReadSlot;
      ReadyParts();
      FewBits();
      MakeRoom();
      t := TakeSlot(br, SHORT_BASE, SHORT_BITS, i);
      if !t.Took? {
        return;
      }
      SetFirst(t.value + 1);
      length := 2;
    }

    /** What the next bits come to, before anything is written, and how many bytes that is to be. */
    method ReadAction(ghost wanted: int, ghost done: nat) returns (end: Option<End>, action: Action, n: nat)
      requires Ready() && br.Valid() && done < wanted
      modifies `length, offset, br, br.r
      ensures Ready() && br.Valid() && |br.Ahead()| <= |old(br.Ahead())|
      ensures end == None ==> |br.Ahead()| < |old(br.Ahead())|
      ensures end.Some? ==> n == 0 && end != Some(Enough)
      ensures Prefix20(CodesNow()) ==>
        match Step(CodesNow(), wanted, old(PastNow(done)), old(br.Ahead())) {
          case Halt(e, past, rest) => end == Some(e) && (!IsFault(e) ==> PastNow(done) == past && br.Ahead() == rest)
          case Act(a, past, rest) => end == None && action == a && PastNow(done + n) == past && br.Ahead() == rest
        }
    {
      hide Ready;
      hide HuffmanDecoder.Valid;
      hide RarBitReader.Valid;
      hide RarBitReader.Ahead;
      hide Kraft;
      hide ReadSymbol;
      hide ReadNew;
      hide ReadRecent;
      hide ReadShort;
      hide Pushed;
      ReadyParts();
      end, action, n := None, Literally(0), 0;
      var sym := TakeSymbol(br, mainDecoder);
      if !sym.Took? {
        return Some(Fault(sym)), action, 0;
      }
      var t;
      if sym.value < 256 {
        return None, Literally(sym.value), 1;
      } else if sym.value > 269 {
        t := DecodeOffset(sym.value - 270, done);
      } else if sym.value == 269 {
        return Some(BlockEnd), action, 0;
      } else if sym.value == 256 {
        PushedFirst(offset[..], offset[0]);
        Remember(offset[0]);
        t := Took(0);
      } else if sym.value < 261 {
        t := DecodeLength(sym.value - 257, done);
      } else {
        t := DecodeShortOffset(sym.value - 261, done);
      }
      if !t.Took? {
        return Some(Fault(t)), action, 0;
      }
      end, action, n := None, Match(length, offset[0]), length;
    }

    /** Where a fill stands, in the run that gives `all`, with this much room in the window. */
    ghost predicate Stands(wanted: int, n: nat, room: nat, size: nat, done: seq<Event>, all: Ran<Past, End>)
      requires br.Valid() && offset.Length == 4 && Sized(CodesNow())
      reads this, offset, br, br.r, mainDecoder, offsetDecoder, lengthDecoder
    {
      Prefix20(CodesNow()) ==> Running(Steps(CodesNow(), wanted), PastNow(n), br.Ahead(), room, size, done, all)
    }

    /** The run ended with what is there now: None when the window is full or enough was written. */
    ghost predicate Stopped(n: nat, end: Option<End>, done: seq<Event>, all: Ran<Past, End>)
      requires br.Valid() && offset.Length == 4
      reads this, offset, br, br.r, mainDecoder, offsetDecoder, lengthDecoder
    {
      Prefix20(CodesNow()) ==>
        && all.events == done && (if all.end == Some(Enough) then end == None else all.end == end)
        && (end == None || !IsFault(end.value) ==> PastNow(n) == all.past && br.Ahead() == all.rest)
    }

    /** Read what to write next, or why to stop. */
    method NextAction(ghost wanted: int, ghost n: nat, ghost room: nat, ghost size: nat, ghost done: seq<Event>,
                      ghost all: Ran<Past, End>)
      returns (end: Option<End>, action: Action, k: nat)
      requires Ready() && br.Valid() && 0 < room && 0 < size && n < wanted && Stands(wanted, n, room, size, done, all)
      modifies `length, offset, br, br.r
      ensures Ready() && br.Valid() && CodesNow() == old(CodesNow())
      ensures end.Some? ==> Stopped(n, end, done, all) && k == 0
      ensures end == None ==> |br.Ahead()| < |old(br.Ahead())|
      ensures end == None ==>
        Stands(wanted, n + k, room - Fills(EventOf(action), room, size), size, done + [EventOf(action)], all)
    {
      hide RarBitReader.Valid;
      hide RarBitReader.Ahead;
      hide Ready;
      hide Prefix20;
      hide Step;
      hide Running;
      hide CodesNow;
      hide PastNow;
      hide Fills;
      hide EventOf;
      hide Shrinks;
      hide Sized;
      hide HuffmanDecoder.Valid;
      ReadyParts();
      ghost var step := Steps(CodesNow(), wanted);
      ghost var past, ahead := PastNow(n), br.Ahead();
      if Prefix20(CodesNow()) {
        if step(past, ahead).Act? {
          RunningOn(step, past, ahead, room, size, done, all);
        } else {
          RunningStops(step, past, ahead, room, size, done, all);
        }
      }
      end, action, k := ReadAction(wanted, n);
    }

    /** One round of a fill. */
    method Round(dr: DecodeReader, ghost wanted: int, n: nat, ghost done: seq<Event>, ghost all: Ran<Past, End>,
                 ghost h0: seq<byte>, ghost w0: nat)
      returns (end: Option<End>, n': nat, ghost done': seq<Event>)
      requires Ready() && br.Valid() && dr.Window() && dr.w < dr.size && n < wanted
      requires Stands(wanted, n, dr.size - dr.w, dr.size, done, all) && Played(h0, w0, dr.size, done, dr.hist, dr.w)
      modifies `length, offset, br, br.r, dr`w, dr`hist, dr.win
      ensures Ready() && br.Valid() && dr.Window() && CodesNow() == old(CodesNow())
      ensures Played(h0, w0, dr.size, done', dr.hist, dr.w)
      ensures end.Some? ==> Stopped(n', end, done', all)
      ensures end == None ==>
        dr.w <= dr.size && Stands(wanted, n', dr.size - dr.w, dr.size, done', all) && |br.Ahead()| < |old(br.Ahead())|
    {
      hide RarBitReader.Valid;
      hide RarBitReader.Ahead;
      hide Ready;
      hide Stands;
      hide Stopped;
      hide Played;
      hide DecodeReader.Window;
      hide CodesNow;
      hide Fills;
      hide EventOf;
      hide Sized;
      ReadyParts();
      var action, k;
      end, action, k := NextAction(wanted, n, dr.size - dr.w, dr.size, done, all);
      n', done' := n + k, done;
      if end.Some? {
        return;
      }
      WriteAction(dr, action, h0, w0, done);
      WindowSize(dr);
      done' := done + [EventOf(action)];
    }

    /** A full window ends the run, and so does having written enough. */
    lemma FillStops(wanted: int, n: nat, room: nat, size: nat, done: seq<Event>, all: Ran<Past, End>)
      requires br.Valid() && offset.Length == 4 && Sized(CodesNow()) && Stands(wanted, n, room, size, done, all)
      requires room == 0 || n >= wanted
      ensures Stopped(n, None, done, all)
    {
      hide Prefix20;
      hide Running;
      hide ReadSymbol;
      hide RarBitReader.Valid;
      if Prefix20(CodesNow()) {
        if room == 0 {
          RunningFull(Steps(CodesNow(), wanted), PastNow(n), br.Ahead(), size, done, all);
        } else {
          RunningStops(Steps(CodesNow(), wanted), PastNow(n), br.Ahead(), room, size, done, all);
        }
      }
    }

    /** The rounds of a fill. */
    method FillOn(dr: DecodeReader, wanted: int, ghost all: Ran<Past, End>)
      returns (n: nat, end: Option<End>, ghost done: seq<Event>)
      requires Ready() && br.Valid() && dr.Window() && Stands(wanted, 0, dr.size - dr.w, dr.size, [], all)
      modifies `length, offset, br, br.r, dr`w, dr`hist, dr.win
      ensures Ready() && br.Valid() && dr.Window() && CodesNow() == old(CodesNow())
      ensures Played(old(dr.hist), old(dr.w), dr.size, done, dr.hist, dr.w)
      ensures Stopped(n, end, done, all) && (end == None ==> dr.w == dr.size || n >= wanted)
    {
      hide RarBitReader.Valid;
      hide RarBitReader.Ahead;
      hide Ready;
      hide Stands;
      hide Stopped;
      hide Played;
      hide DecodeReader.Window;
      hide CodesNow;
      hide Sized;
      WindowSize(dr);
      ReadyParts();
      n, done := 0, [];
      PlayedNone(dr.hist, dr.w, dr.size);
      while n < wanted && dr.w < dr.size
        invariant Ready() && br.Valid() && dr.Window() && CodesNow() == old(CodesNow())
        invariant dr.w <= dr.size && Stands(wanted, n, dr.size - dr.w, dr.size, done, all)
          && Played(old(dr.hist), old(dr.w), dr.size, done, dr.hist, dr.w)
        decreases |br.Ahead()|
      {
        end, n, done := Round(dr, wanted, n, done, all, old(dr.hist), old(dr.w));
        WindowSize(dr);
        if end.Some? {
          return;
        }
      }
      FillStops(wanted, n, dr.size - dr.w, dr.size, done, all);
      end := None;
    }

    /** Read tokens and write the window until it is full, enough was asked for, the block ends, or the data is bad;
        the result counts what was asked for, even where the window's end cut a match short. */
    method Fill(dr: DecodeReader, wanted: int) returns (n: nat, end: Option<End>, ghost ran: Ran<Past, End>)
      requires Ready() && br.Valid() && dr.Window()
      modifies `length, offset, br, br.r, dr`w, dr`hist, dr.win
      ensures Ready() && br.Valid() && dr.Window() && CodesNow() == old(CodesNow())
      ensures old(dr.w) <= dr.size && 0 < dr.size && (end == None ==> dr.w == dr.size || n >= wanted)
      ensures ran == Run(Steps(CodesNow(), wanted), old(PastNow(0)), old(br.Ahead()), old(dr.size - dr.w), dr.size)
      ensures Prefix20(CodesNow()) ==>
        && (if ran.end == Some(Enough) then end == None else ran.end == end)
        && Played(old(dr.hist), old(dr.w), dr.size, ran.events, dr.hist, dr.w)
      ensures Prefix20(CodesNow()) && (end == None || !IsFault(end.value)) ==>
        PastNow(n) == ran.past && br.Ahead() == ran.rest
    {
      hide RarBitReader.Valid;
      hide RarBitReader.Ahead;
      hide Ready;
      hide Prefix20;
      hide Run;
      hide Running;
      hide Played;
      hide DecodeReader.Window;
      hide CodesNow;
      hide PastNow;
      hide Shrinks;
      hide HuffmanDecoder.Valid;
      hide Sized;
      ReadyParts();
      WindowSize(dr);
      ghost var step := Steps(CodesNow(), wanted);
      ran := Run(step, PastNow(0), br.Ahead(), dr.size - dr.w, dr.size);
      RunningStart(step, PastNow(0), br.Ahead(), dr.size - dr.w, dr.size);
      ghost var done;
      n, end, done := FillOn(dr, wanted, ran);
    }

    /** Make the decoders for the codes of a table. */
    method InitDecoders(table: seq<nat>, ghost others: set<array<nat>>)
      requires Formed() && |table| == TABLE_SIZE && CodeLengths.Small(table)
      requires offset in others && Disjoint({mainDecoder, offsetDecoder, lengthDecoder}, others)
      modifies mainDecoder, mainDecoder.limit, mainDecoder.pos, mainDecoder.quicklen, mainDecoder.quicksym
      modifies offsetDecoder, offsetDecoder.limit, offsetDecoder.pos, offsetDecoder.quicklen, offsetDecoder.quicksym
      modifies lengthDecoder, lengthDecoder.limit, lengthDecoder.pos, lengthDecoder.quicklen, lengthDecoder.quicksym
      ensures Formed() && Ready() && CodesNow() == CodesOf(table)
      ensures Disjoint({mainDecoder, offsetDecoder, lengthDecoder}, others)
        && forall t :: t in others ==> t[..] == old(t[..])
    {
      hide HuffmanDecoder.Valid;
      hide HuffmanDecoder.Shape;
      hide HuffmanDecoder.Tables;
      hide Disjoint;
      ghost var all := {mainDecoder, offsetDecoder, lengthDecoder};
      InitOne(mainDecoder, table[..MAIN_SIZE], all, others);
      var rest := table[MAIN_SIZE..];
      InitOne(offsetDecoder, rest[..OFFSET_SIZE], all, others);
      InitOne(lengthDecoder, rest[OFFSET_SIZE..], all, others);
      OthersApart(all, others);
      FewerApart(all, others, {offset});
    }

    /** Begin a block: a table of code lengths, added to the one before, and the decoders for it. */
    method Init(table: array<nat>) returns (res: CodeLengths.TableResult)
      requires Formed() && br.Valid() && table.Length == TABLE_SIZE && table != offset
      requires Disjoint({mainDecoder, offsetDecoder, lengthDecoder}, {offset, table})
      modifies table, br, br.r
      modifies mainDecoder, mainDecoder.limit, mainDecoder.pos, mainDecoder.quicklen, mainDecoder.quicksym
      modifies offsetDecoder, offsetDecoder.limit, offsetDecoder.pos, offsetDecoder.quicklen, offsetDecoder.quicksym
      modifies lengthDecoder, lengthDecoder.limit, lengthDecoder.pos, lengthDecoder.quicklen, lengthDecoder.quicksym
      ensures Formed() && br.Valid() && offset[..] == old(offset[..])
      ensures Disjoint({mainDecoder, offsetDecoder, lengthDecoder}, {offset, table})
      ensures CodeLengths.Small(old(table[..])) || res.TableOk? ==> CodeLengths.Small(table[..])
      ensures res.TableOk? ==> Ready() && CodesNow() == CodesOf(table[..])
      ensures LevelsFit20(old(br.Ahead())) ==>
        CodeLengths.AgreesTable(res, ReadLengths20(old(br.Ahead()), old(table[..])), table[..], br.Ahead())
    {
      hide HuffmanDecoder.Valid;
      hide HuffmanDecoder.Shape;
      hide HuffmanDecoder.Tables;
      hide Disjoint;
      hide RarBitReader.Valid;
      hide RarBitReader.Ahead;
      hide Ready;
      hide CodesOf;
      hide ReadLengths20;
      hide LevelsFit20;
      hide CodeLengths.Small;
      res := ReadCodeLengthTable20(br, table);
      if res.TableOk? {
        InitDecoders(table[..], {offset, table});
      }
    }
  }

  /** The codes whose lengths a table holds one after another. */
  function CodesOf(table: seq<nat>): Codes20
    requires |table| == TABLE_SIZE && CodeLengths.Small(table)
  {
    Codes20(table[..MAIN_SIZE], table[MAIN_SIZE..][..OFFSET_SIZE], table[MAIN_SIZE + OFFSET_SIZE..])
  }

  /** A table of RAR 2.0 holds 298 lengths for tokens, 48 for offset slots and 28 for length slots. */
  lemma TableParts(table: seq<nat>)
    requires |table| == 374 && CodeLengths.Small(table)
    ensures CodesOf(table) == Codes20(table[..298], table[298..346], table[346..])
  {}
}
